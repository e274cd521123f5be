/** Inputs on which the way hash sets of jars print decides what an analysis chooses. */
module AnalysisExamples {
  import opened Wrappers
  import opened MavenPaths
  import opened Ordered
  import opened Greedy
  import opened Analyser
  import opened Matching
  import opened Analysis

  // ---- How sets of jars print ----

  /** The fields of the printed repository root; an absolute path starts with an empty one. */
  const ROOT: seq<string> := ["", "home", "u", ".m2", "repository"]

  function PathText(p: Path): string {
    Join(ROOT + p, '/')
  }

  /** How a hash set of jars prints, given the order in which it lists them. */
  function Printed(paths: seq<Path>): string {
    "[" + Listing(paths) + "]"
  }

  function Listing(paths: seq<Path>): string {
    if |paths| == 0 then ""
    else if |paths| == 1 then PathText(paths[0])
    else Listing(paths[..|paths| - 1]) + ", " + PathText(paths[|paths| - 1])
  }

  lemma PairListing(p: Path, q: Path)
    ensures Listing([p, q]) == PathText(p) + ", " + PathText(q)
  {
    assert [p, q][..1] == [p];
    assert Listing([p]) == PathText(p);
  }

  // ---- Two classes, each provided by two jars ----

  const HASH := "h"
  const X: Observation := ("x", HASH)
  const Y: Observation := ("y", HASH)

  /** One output file with the classes x and y, and jars in which every class has the same hash. */
  function TwoClasses(files: seq<RepoFile>, show: Observation -> string): Input {
    Input(Repository(files, map[]), [OutputFile("app.jar", [], [X, Y], [])], {}, [], show)
  }

  function Providers(files: seq<RepoFile>, s: string): set<Path> {
    set f | f in files && HashIn(f, s).Some? :: f.path
  }

  /** Jars that say the same of every class they share. */
  ghost predicate Uniform(files: seq<RepoFile>) {
    && DistinctPaths(files)
    && (forall f | f in files :: IsJar(f.path) && |f.path| >= 3)
    && forall f, s | f in files && HashIn(f, s).Some? :: HashIn(f, s) == Some(HASH)
  }

  lemma {:induction false} AllJars(files: seq<RepoFile>)
    requires forall f | f in files :: IsJar(f.path)
    ensures Jars(files, map[]) == files
  {
    if files != [] {
      var init, last := files[..|files| - 1], files[|files| - 1];
      assert files == init + [last];
      AllJars(init);
      assert Visited(map[], last.path);
    }
  }

  lemma EntryIsProvided(files: seq<RepoFile>, s: string, p: Path)
    requires Uniform(files)
    ensures Entry(files, s, p) == if p in Providers(files, s) then Some(HASH) else None
  {
    if p in Providers(files, s) {
      var f :| f in files && HashIn(f, s).Some? && f.path == p;
      ProviderIndexed(files, s, f);
    }
    if Entry(files, s, p).Some? {
      EntryIsJar(files, s, p);
    }
  }

  /** What the output of the two classes shows. */
  lemma SeenInOutput(files: seq<RepoFile>, show: Observation -> string)
    ensures var outputs := TwoClasses(files, show).outputs;
            Observed(outputs) == {X, Y} && Produced(outputs) == {} && Reported(outputs) == {}
  {
    var outputs := TwoClasses(files, show).outputs;
    var file := OutputFile("app.jar", [], [X, Y], []);
    assert outputs == [file] && file in outputs;
    assert X in file.classes && Y in file.classes by { assert file.classes[0] == X && file.classes[1] == Y; }
    forall o ensures o in Observed(outputs) <==> o in {X, Y} {
      if o in Observed(outputs) {
        var g :| g in outputs && o in g.classes;
        assert g == file;
      }
    }
    assert forall g | g in outputs :: g.own == [] && g.records == [];
  }

  lemma IndexOfUniform(files: seq<RepoFile>, show: Observation -> string, f: Findings, index: Index,
                       sets: seq<Ambiguity>, s: string, p: Path)
    requires Uniform(files) && AnalysedVia(TwoClasses(files, show), f, index, sets)
    ensures NoHollow(index) && Get(index, s, p) == if p in Providers(files, s) then Some(HASH) else None
  {
    AllJars(files);
    EntryIsProvided(files, s, p);
  }

  lemma CandidatesFrom(index: Index, s: string, providers: set<Path>)
    requires NoHollow(index) && forall p :: Get(index, s, p) == if p in providers then Some(HASH) else None
    ensures Candidates(index, (s, HASH)) == providers
  {
    if s in index {
      assert forall p :: p in index[s] <==> Get(index, s, p).Some?;
      assert (set p | p in index[s] && index[s][p] == HASH) == index[s].Keys == providers by {
        assert forall p | p in index[s] :: Get(index, s, p) == Some(index[s][p]);
      }
    } else {
      assert forall p :: Get(index, s, p).None?;
    }
  }

  /** Every provider is a candidate. */
  lemma CandidatesAreProviders(files: seq<RepoFile>, show: Observation -> string, f: Findings, index: Index,
                               sets: seq<Ambiguity>, s: string)
    requires Uniform(files) && AnalysedVia(TwoClasses(files, show), f, index, sets)
    ensures Candidates(Pruned(index, TwoClasses(files, show).outputs), (s, HASH)) == Providers(files, s)
  {
    SeenInOutput(files, show);
    assert Pruned(index, TwoClasses(files, show).outputs) == index;
    forall p ensures NoHollow(index) && Get(index, s, p) == if p in Providers(files, s) then Some(HASH) else None {
      IndexOfUniform(files, show, f, index, sets, s, p);
    }
    CandidatesFrom(index, s, Providers(files, s));
  }

  ghost function InX(files: seq<RepoFile>, show: Observation -> string): Ambiguity {
    Ambiguity(Providers(files, "x"), show(X))
  }

  ghost function InY(files: seq<RepoFile>, show: Observation -> string): Ambiguity {
    Ambiguity(Providers(files, "y"), show(Y))
  }

  lemma MatchedTwo(idx: Index, show: Observation -> string, x: set<Path>, y: set<Path>)
    requires Candidates(idx, X) == x && Candidates(idx, Y) == y && |x| > 1 && |y| > 1
    ensures Ambiguities(idx, {X, Y}, show) == {Ambiguity(x, show(X)), Ambiguity(y, show(Y))} && Definite(idx, {X, Y}) == {}
  {
  }

  /** What an analysis of the two classes has to resolve. */
  lemma TwoAmbiguities(files: seq<RepoFile>, show: Observation -> string, f: Findings, index: Index, sets: seq<Ambiguity>)
    requires Uniform(files) && AnalysedVia(TwoClasses(files, show), f, index, sets)
    requires |Providers(files, "x")| > 1 && |Providers(files, "y")| > 1
    ensures Keeps(sets, {InX(files, show), InY(files, show)}) && f.chosen == Resolve(JarSets(sets), {})
  {
    SeenInOutput(files, show);
    CandidatesAreProviders(files, show, f, index, sets, "x");
    CandidatesAreProviders(files, show, f, index, sets, "y");
    MatchedTwo(Pruned(index, TwoClasses(files, show).outputs), show, Providers(files, "x"), Providers(files, "y"));
  }

  lemma SortedAlike(sets: seq<Ambiguity>, sets': seq<Ambiguity>)
    requires Ascending(BySize, sets) && Ascending(BySize, sets') && forall m :: m in sets <==> m in sets'
    ensures sets == sets'
  {
    BySizeCompares();
    AscendingUnique(BySize, sets, sets');
  }

  lemma PairApart(a: Ambiguity, b: Ambiguity)
    requires |a.jars| == |b.jars| ==> a.text != b.text
    ensures Apart({a, b}, a) && Apart({a, b}, b)
  {
  }

  lemma PairKept(sets: seq<Ambiguity>, a: Ambiguity, b: Ambiguity)
    requires Keeps(sets, {a, b}) && a.text != b.text
    ensures forall m :: m in sets <==> m in {a, b}
  {
    PairApart(a, b);
    ApartKept(sets, {a, b}, a);
    ApartKept(sets, {a, b}, b);
  }

  lemma PairAscends(a: Ambiguity, b: Ambiguity)
    requires |a.jars| == |b.jars| && Compare(a.text, b.text) < 0
    ensures Ascending(BySize, [a, b]) && a.text != b.text
  {
    CompareSigns(a.text, a.text);
  }

  lemma PairOrder(sets: seq<Ambiguity>, a: Ambiguity, b: Ambiguity)
    requires Keeps(sets, {a, b}) && |a.jars| == |b.jars| && Compare(a.text, b.text) < 0
    ensures sets == [a, b]
  {
    PairAscends(a, b);
    PairKept(sets, a, b);
    assert forall m :: m in [a, b] <==> m in {a, b};
    SortedAlike(sets, [a, b]);
  }

  lemma FirstResolves(a: set<Path>, b: set<Path>)
    requires !(a !! b)
    ensures Resolve([a, b], {}) == a
  {
    assert [a, b][1..] == [b] && [b][1..] == [];
    assert {} + a == a && Resolve([b], a) == Resolve([], a);
  }

  /** Of two sets of one size that share a jar, the one that prints first is chosen. */
  lemma FirstPrintedChosen(sets: seq<Ambiguity>, a: Ambiguity, b: Ambiguity)
    requires Keeps(sets, {a, b}) && |a.jars| == |b.jars| && !(a.jars !! b.jars) && Compare(a.text, b.text) < 0
    ensures Resolve(JarSets(sets), {}) == a.jars
  {
    PairOrder(sets, a, b);
    assert JarSets(sets) == [a.jars, b.jars];
    FirstResolves(a.jars, b.jars);
  }

  // ---- Three versions of one artifact ----

  const ARTIFACT: Path := ["org", "slf4j", "slf4j-api"]

  function Version(v: string): Path {
    ARTIFACT + [v, "slf4j-api-" + v + ".jar"]
  }

  /** A version as these examples use them: it ends in a digit. */
  ghost predicate Plain(v: string) {
    v != "" && '/' !in v && v[|v| - 1] != 'r'
  }

  lemma VersionIsJar(v: string)
    requires Plain(v)
    ensures IsJar(Version(v)) && ValidPath(Version(v)) && |Version(v)| == 5 && Version(v)[3] == v
  {
    var name := "slf4j-api-" + v + ".jar";
    assert Version(v)[4] == name && Version(v)[..3] == ARTIFACT;
    assert name[|name| - 4..] == ".jar";
    assert name[|name| - 11..][6] == name[|name| - 5] == v[|v| - 1] && "-runner.jar"[6] == 'r';
    assert '/' !in "slf4j-api-" && '/' !in ".jar";
    assert '/' !in "org" && '/' !in "slf4j" && '/' !in "slf4j-api";
  }

  lemma JoinLast(p: seq<string>, last: string)
    requires p != []
    ensures Join(p + [last], '/') == Join(p, '/') + "/" + last
  {
    assert (p + [last])[..|p|] == p;
  }

  lemma VersionText(v: string)
    ensures PathText(Version(v)) == Join(ROOT + ARTIFACT, '/') + "/" + v + ("/slf4j-api-" + v + ".jar")
  {
    var dir, name := ROOT + ARTIFACT, "slf4j-api-" + v + ".jar";
    assert ROOT + Version(v) == (dir + [v]) + [name];
    JoinLast(dir, v);
    JoinLast(dir + [v], name);
    assert "/" + name == "/slf4j-api-" + v + ".jar";
  }

  lemma {:induction false} ComparePrefix(p: string, a: string, b: string)
    ensures Compare(p + a, p + b) == Compare(a, b)
  {
    if p == "" {
      assert p + a == a && p + b == b;
    } else {
      ComparePrefix(p[1..], a, b);
      assert (p + a)[1..] == p[1..] + a && (p + b)[1..] == p[1..] + b;
    }
  }

  lemma PrintedStart(v: string, p: Path)
    ensures Printed([Version(v), p])
         == "[" + Join(ROOT + ARTIFACT, '/') + "/" + v + ("/slf4j-api-" + v + ".jar, " + PathText(p) + "]")
  {
    PairListing(Version(v), p);
    VersionText(v);
    var dir, tail := "[" + Join(ROOT + ARTIFACT, '/') + "/" + v, "/slf4j-api-" + v + ".jar";
    assert "[" + (Join(ROOT + ARTIFACT, '/') + "/" + v + tail) == dir + tail;
    assert dir + tail + ", " + PathText(p) + "]" == dir + (tail + ", " + PathText(p) + "]");
    assert tail + ", " + PathText(p) + "]" == "/slf4j-api-" + v + ".jar, " + PathText(p) + "]";
  }

  lemma CompareAt(common: string, c: char, d: char, a: string, b: string)
    requires c < d
    ensures Compare(common + [c] + a, common + [d] + b) < 0
  {
    assert common + [c] + a == common + ([c] + a) && common + [d] + b == common + ([d] + b);
    ComparePrefix(common, [c] + a, [d] + b);
  }

  /** Sets print in the order of the first version they list. */
  lemma PrintsInOrder(v: string, w: string, p: Path, q: Path, common: string, c: char, d: char, v': string, w': string)
    requires v == common + [c] + v' && w == common + [d] + w' && c < d
    ensures Compare(Printed([Version(v), p]), Printed([Version(w), q])) < 0
  {
    PrintedStart(v, p);
    PrintedStart(w, q);
    var start := "[" + Join(ROOT + ARTIFACT, '/') + "/";
    var a, b := "/slf4j-api-" + v + ".jar, " + PathText(p) + "]", "/slf4j-api-" + w + ".jar, " + PathText(q) + "]";
    assert start + v + a == (start + common) + [c] + (v' + a);
    assert start + w + b == (start + common) + [d] + (w' + b);
    CompareAt(start + common, c, d, v' + a, w' + b);
  }

  const A := "1.7.26"
  const B := "1.7.28"
  const C := "1.7.30"

  /** Two walks over the same jars: the oldest has class x, the second class y, the newest both. */
  const ONE_WALK := XThenY(Version(A), Version(B), Version(C))
  const OTHER_WALK := Backwards(Version(A), Version(B), Version(C))

  lemma VersionsArePlain()
    ensures Plain(A) && Plain(B) && Plain(C)
  {
    assert A[5] == '6' && B[5] == '8' && C[5] == '0';
    assert forall i | 0 <= i < 6 :: A[i] != '/' && B[i] != '/' && C[i] != '/';
  }

  lemma ClassHashes(s: string)
    ensures LastHash([X], s) == if s == "x" then Some(HASH) else None
    ensures LastHash([Y], s) == if s == "y" then Some(HASH) else None
    ensures LastHash([X, Y], s) == if s == "x" || s == "y" then Some(HASH) else None
  {
    assert [X][..0] == [] && [Y][..0] == [] && [X, Y][..1] == [X];
    assert LastHash([], s) == None;
    assert LastHash([X], s) == if X.0 == s then Some(X.1) else LastHash([X][..0], s);
    assert LastHash([Y], s) == if Y.0 == s then Some(Y.1) else LastHash([Y][..0], s);
    assert LastHash([X, Y], s) == if Y.0 == s then Some(Y.1) else LastHash([X, Y][..1], s);
  }

  lemma HashesOf(f: RepoFile, s: string)
    requires f.classes in {[X], [Y], [X, Y]}
    ensures HashIn(f, s) == if (s == "x" && f.classes != [Y]) || (s == "y" && f.classes != [X]) then Some(HASH) else None
  {
    ClassHashes(s);
    assert "x" != MODULE_INFO && "y" != MODULE_INFO && [X] != [Y] && [X, Y] != [X] && [X, Y] != [Y];
  }

  lemma VersionsDiffer()
    ensures Version(A) != Version(B) && Version(A) != Version(C) && Version(B) != Version(C)
  {
    assert A[4] != C[4] && B[5] != A[5] && B[4] != C[4];
    assert Version(A)[3] == A && Version(B)[3] == B && Version(C)[3] == C;
  }

  /** The files have the classes x and y only, with the one hash. */
  ghost predicate OnlyTwo(files: seq<RepoFile>) {
    forall f | f in files :: f.classes in {[X], [Y], [X, Y]}
  }

  lemma UniformIf(files: seq<RepoFile>)
    requires OnlyTwo(files) && DistinctPaths(files)
    requires forall f | f in files :: IsJar(f.path) && ValidPath(f.path) && |f.path| >= 3
    ensures Uniform(files) && WellFormed(Repository(files, map[]))
  {
    forall f, s | f in files && HashIn(f, s).Some? ensures HashIn(f, s) == Some(HASH) {
      HashesOf(f, s);
    }
  }

  lemma ProvidersIf(files: seq<RepoFile>)
    requires OnlyTwo(files)
    ensures Providers(files, "x") == set f | f in files && f.classes != [Y] :: f.path
    ensures Providers(files, "y") == set f | f in files && f.classes != [X] :: f.path
  {
    forall f | f in files
      ensures (HashIn(f, "x").Some? <==> f.classes != [Y]) && (HashIn(f, "y").Some? <==> f.classes != [X])
    {
      HashesOf(f, "x");
      HashesOf(f, "y");
    }
  }

  lemma ClassListsDiffer()
    ensures [X] != [Y] && [X, Y] != [X] && [X, Y] != [Y]
  {
    assert |[X, Y]| == 2 && [X][0] == X && [Y][0] == Y;
  }

  ghost predicate JarPath(p: Path) {
    IsJar(p) && ValidPath(p) && |p| >= 3
  }

  /** Jar a has class x, jar b class y, and jar c both. */
  function XThenY(a: Path, b: Path, c: Path): seq<RepoFile> {
    [RepoFile(a, [X], {}), RepoFile(b, [Y], {}), RepoFile(c, [X, Y], {})]
  }

  function Backwards(a: Path, b: Path, c: Path): seq<RepoFile> {
    [RepoFile(c, [X, Y], {}), RepoFile(b, [Y], {}), RepoFile(a, [X], {})]
  }

  lemma ThreeJars(files: seq<RepoFile>, a: Path, b: Path, c: Path)
    requires files == XThenY(a, b, c) || files == Backwards(a, b, c)
    requires JarPath(a) && JarPath(b) && JarPath(c) && a != b && a != c && b != c
    ensures Uniform(files) && WellFormed(Repository(files, map[]))
    ensures Providers(files, "x") == {a, c} && Providers(files, "y") == {b, c}
  {
    var f, g, h := RepoFile(a, [X], {}), RepoFile(b, [Y], {}), RepoFile(c, [X, Y], {});
    assert forall e :: e in files <==> e == f || e == g || e == h;
    UniformIf(files);
    ProvidersIf(files);
    ClassListsDiffer();
  }

  lemma ThreeFiles(files: seq<RepoFile>)
    requires files == XThenY(Version(A), Version(B), Version(C)) || files == Backwards(Version(A), Version(B), Version(C))
    ensures Uniform(files) && WellFormed(Repository(files, map[]))
    ensures Providers(files, "x") == {Version(A), Version(C)} && Providers(files, "y") == {Version(B), Version(C)}
  {
    VersionsArePlain();
    VersionsDiffer();
    VersionIsJar(A);
    VersionIsJar(B);
    VersionIsJar(C);
    ThreeJars(files, Version(A), Version(B), Version(C));
  }

  lemma TwoOf<T>(a: T, b: T)
    requires a != b
    ensures |{a, b}| == 2
  {
  }

  lemma SameJars(one: seq<RepoFile>, two: seq<RepoFile>, show: Observation -> string, show': Observation -> string)
    requires Uniform(one) && Uniform(two) && Elements(one) == Elements(two)
    ensures SameContents(TwoClasses(one, show), TwoClasses(two, show'))
  {
    AllJars(one);
    AllJars(two);
  }

  lemma VersionGav(v: string)
    ensures ReportedGav(Version(v)) == Replace(Join(ARTIFACT[..2], '/'), '/', '.') + ":" + "slf4j-api" + ":" + v
  {
    assert Version(v)[..2] == ARTIFACT[..2];
  }

  lemma GavsOfVersions()
    ensures ReportedGav(Version(A)) in JarGavs({Version(A), Version(C)})
    ensures ReportedGav(Version(A)) !in JarGavs({Version(B), Version(C)})
  {
    VersionGav(A);
    VersionGav(B);
    VersionGav(C);
    var start := Replace(Join(ARTIFACT[..2], '/'), '/', '.') + ":" + "slf4j-api" + ":";
    assert (start + A)[|start| + 5] == '6' && (start + B)[|start| + 5] == '8' && (start + C)[|start| + 4] == '3';
    assert (start + A)[|start| + 4] == '2';
    assert Version(A) in {Version(A), Version(C)};
  }

  lemma GavsOfChosen(files: seq<RepoFile>, show: Observation -> string, f: Findings, index: Index, sets: seq<Ambiguity>)
    requires AnalysedVia(TwoClasses(files, show), f, index, sets)
    ensures f.gavs == JarGavs(f.chosen)
  {
    SeenInOutput(files, show);
  }

  lemma OldestPrintsFirst(show: Observation -> string, sets: seq<Ambiguity>)
    requires show(X) == Printed([Version(A), Version(C)]) && show(Y) == Printed([Version(B), Version(C)])
    requires Keeps(sets, {Ambiguity({Version(A), Version(C)}, show(X)), Ambiguity({Version(B), Version(C)}, show(Y))})
    ensures Resolve(JarSets(sets), {}) == {Version(A), Version(C)}
  {
    var a, b := Ambiguity({Version(A), Version(C)}, show(X)), Ambiguity({Version(B), Version(C)}, show(Y));
    VersionPairs();
    PrintsInOrder(A, B, Version(C), Version(C), "1.7.2", '6', '8', "", "");
    FirstPrintedChosen(sets, a, b);
  }

  lemma NewestPrintsLast(show: Observation -> string, sets: seq<Ambiguity>)
    requires show(X) == Printed([Version(C), Version(A)]) && show(Y) == Printed([Version(B), Version(C)])
    requires Keeps(sets, {Ambiguity({Version(A), Version(C)}, show(X)), Ambiguity({Version(B), Version(C)}, show(Y))})
    ensures Resolve(JarSets(sets), {}) == {Version(B), Version(C)}
  {
    var a, b := Ambiguity({Version(A), Version(C)}, show(X)), Ambiguity({Version(B), Version(C)}, show(Y));
    VersionPairs();
    PrintsInOrder(B, C, Version(C), Version(A), "1.7.", '2', '3', "8", "0");
    assert {a, b} == {b, a};
    FirstPrintedChosen(sets, b, a);
  }

  /**
   * By the hash code of Unix paths A, B and C belong in buckets 9, 1 and 9 of the 16. The walk that read A first prints
   * [A, C], before [B, C].
   */
  lemma WalkFromOldest(show: Observation -> string, f: Findings, index: Index, sets: seq<Ambiguity>)
    requires show(X) == Printed([Version(A), Version(C)]) && show(Y) == Printed([Version(B), Version(C)])
    requires AnalysedVia(TwoClasses(ONE_WALK, show), f, index, sets)
    ensures f.chosen == {Version(A), Version(C)}
  {
    ThreeFiles(ONE_WALK);
    VersionPairs();
    TwoAmbiguities(ONE_WALK, show, f, index, sets);
    OldestPrintsFirst(show, sets);
  }

  /** The walk that read C first prints [C, A], after [B, C]. */
  lemma WalkFromNewest(show: Observation -> string, f: Findings, index: Index, sets: seq<Ambiguity>)
    requires show(X) == Printed([Version(C), Version(A)]) && show(Y) == Printed([Version(B), Version(C)])
    requires AnalysedVia(TwoClasses(OTHER_WALK, show), f, index, sets)
    ensures f.chosen == {Version(B), Version(C)}
  {
    ThreeFiles(OTHER_WALK);
    VersionPairs();
    TwoAmbiguities(OTHER_WALK, show, f, index, sets);
    NewestPrintsLast(show, sets);
  }

  lemma VersionPairs()
    ensures |{Version(A), Version(C)}| == |{Version(B), Version(C)}| == 2
    ensures !({Version(A), Version(C)} !! {Version(B), Version(C)})
  {
    VersionsDiffer();
    TwoOf(Version(A), Version(C));
    TwoOf(Version(B), Version(C));
    assert Version(C) in {Version(A), Version(C)} && Version(C) in {Version(B), Version(C)};
  }

  lemma SameThree()
    ensures Elements(ONE_WALK) == Elements(OTHER_WALK)
  {
    assert forall f :: f in ONE_WALK <==> f in OTHER_WALK;
  }

  /**
   * Two walks of one repository choose different jars and report different GAVs: which of two equally large ambiguous
   * sets is taken whole depends on how they print, and so on the order in which their jars were read.
   */
  lemma ChosenDependsOnWalk(show: Observation -> string, show': Observation -> string, f: Findings, f': Findings,
                            index: Index, index': Index, sets: seq<Ambiguity>, sets': seq<Ambiguity>)
    requires show(X) == Printed([Version(A), Version(C)]) && show(Y) == Printed([Version(B), Version(C)])
    requires show'(X) == Printed([Version(C), Version(A)]) && show'(Y) == Printed([Version(B), Version(C)])
    requires AnalysedVia(TwoClasses(ONE_WALK, show), f, index, sets)
    requires AnalysedVia(TwoClasses(OTHER_WALK, show'), f', index', sets')
    ensures WellFormed(TwoClasses(ONE_WALK, show).repo) && WellFormed(TwoClasses(OTHER_WALK, show').repo)
    ensures SameContents(TwoClasses(ONE_WALK, show), TwoClasses(OTHER_WALK, show'))
    ensures f.chosen == {Version(A), Version(C)} && f'.chosen == {Version(B), Version(C)}
    ensures ReportedGav(Version(A)) in f.gavs && ReportedGav(Version(A)) !in f'.gavs
  {
    ThreeFiles(ONE_WALK);
    ThreeFiles(OTHER_WALK);
    SameThree();
    SameJars(ONE_WALK, OTHER_WALK, show, show');
    WalkFromOldest(show, f, index, sets);
    WalkFromNewest(show', f', index', sets');
    GavsOfChosen(ONE_WALK, show, f, index, sets);
    GavsOfChosen(OTHER_WALK, show', f', index', sets');
    GavsOfVersions();
  }

  // ---- Two sets that print alike ----

  /** The path that prints, below the root, as `p`, a comma and a blank, and `q`. */
  function Fused(p: Path, q: Path): Path
    requires p != [] && q != []
  {
    p[..|p| - 1] + [p[|p| - 1] + ", " + (ROOT + q)[0]] + (ROOT + q)[1..]
  }

  lemma {:induction false} FusedJoin(p: seq<string>, q: seq<string>)
    requires p != [] && q != []
    ensures Join(p[..|p| - 1] + [p[|p| - 1] + ", " + q[0]] + q[1..], '/') == Join(p, '/') + ", " + Join(q, '/')
  {
    var f, init, last := p[..|p| - 1] + [p[|p| - 1] + ", " + q[0]] + q[1..], q[..|q| - 1], q[|q| - 1];
    if |q| == 1 {
      assert f[..|f| - 1] == p[..|p| - 1] && f[|f| - 1] == p[|p| - 1] + ", " + q[0];
    } else {
      FusedJoin(p, init);
      assert f[..|f| - 1] == p[..|p| - 1] + [p[|p| - 1] + ", " + init[0]] + init[1..] && f[|f| - 1] == last;
      assert Join(f, '/') == Join(p, '/') + ", " + (Join(init, '/') + ['/'] + last);
    }
  }

  lemma FusedPrints(p: Path, q: Path)
    requires p != [] && q != []
    ensures PathText(Fused(p, q)) == PathText(p) + ", " + PathText(q)
  {
    var rp, rq := ROOT + p, ROOT + q;
    FusedJoin(rp, rq);
    assert rp[..|rp| - 1] == ROOT + p[..|p| - 1] && rp[|rp| - 1] == p[|p| - 1];
    assert ROOT + Fused(p, q) == rp[..|rp| - 1] + [rp[|rp| - 1] + ", " + rq[0]] + rq[1..];
  }

  lemma FusedPairsAlike(a: Path, b: Path, c: Path)
    requires a != [] && b != [] && c != []
    ensures Printed([Fused(a, b), c]) == Printed([a, Fused(b, c)])
  {
    FusedPrints(a, b);
    FusedPrints(b, c);
    PairListing(Fused(a, b), c);
    PairListing(a, Fused(b, c));
    var x, y, z := PathText(a), PathText(b), PathText(c);
    assert (x + ", " + y) + ", " + z == x + ", " + (y + ", " + z);
  }

  lemma FusedIsJar(v: string, w: string)
    requires Plain(v) && Plain(w)
    ensures var p := Fused(Version(v), Version(w)); IsJar(p) && ValidPath(p) && |p| == 14 && p[3] == v
  {
    VersionIsJar(v);
    VersionIsJar(w);
    var p, q := Fused(Version(v), Version(w)), ROOT + Version(w);
    assert p[..4] == Version(v)[..4] && p[4] == Version(v)[4] + ", " + q[0] && p[5..] == q[1..];
    assert p[13] == q[9] == Version(w)[4];
    assert '/' !in ", " && '/' !in "home" && '/' !in "u" && '/' !in ".m2" && '/' !in "repository";
    assert q[0] == "" && q[1] == "home" && q[2] == "u" && q[3] == ".m2" && q[4] == "repository" && q[5..] == Version(w);
    forall i | 0 <= i < 14 ensures p[i] != "" && '/' !in p[i] {
      if i < 4 {
        assert p[i] == Version(v)[i];
      } else if i > 8 {
        assert p[i] == Version(w)[i - 9];
      } else if i > 4 {
        assert p[i] == q[i - 4];
      }
    }
  }

  const BA := Fused(Version(B), Version(A))
  const AC := Fused(Version(A), Version(C))

  /** The first two jars have class x, the others class y. */
  function XxYy(p: Path, q: Path, r: Path, s: Path): seq<RepoFile> {
    [RepoFile(p, [X], {}), RepoFile(q, [X], {}), RepoFile(r, [Y], {}), RepoFile(s, [Y], {})]
  }

  const FILES := XxYy(BA, Version(C), Version(B), AC)

  lemma FourPaths()
    ensures JarPath(BA) && JarPath(AC) && JarPath(Version(B)) && JarPath(Version(C))
    ensures BA != Version(C) && BA != Version(B) && BA != AC && Version(C) != Version(B) && Version(C) != AC && Version(B) != AC
  {
    VersionsArePlain();
    VersionsDiffer();
    VersionIsJar(B);
    VersionIsJar(C);
    FusedIsJar(B, A);
    FusedIsJar(A, C);
    assert B[5] != A[5];
  }

  lemma FourJars(p: Path, q: Path, r: Path, s: Path)
    requires JarPath(p) && JarPath(q) && JarPath(r) && JarPath(s)
    requires p != q && p != r && p != s && q != r && q != s && r != s
    ensures var files := XxYy(p, q, r, s);
            && Uniform(files) && WellFormed(Repository(files, map[]))
            && Providers(files, "x") == {p, q} && Providers(files, "y") == {r, s}
    ensures {p, q} !! {r, s} && |{p, q}| == |{r, s}| == 2
  {
    var files := XxYy(p, q, r, s);
    assert forall e :: e in files <==> e == files[0] || e == files[1] || e == files[2] || e == files[3];
    UniformIf(files);
    ProvidersIf(files);
    ClassListsDiffer();
    TwoOf(p, q);
    TwoOf(r, s);
  }

  /** Of two that compare alike, one is kept. */
  lemma OneKept(sets: seq<Ambiguity>, a: Ambiguity, b: Ambiguity)
    requires Keeps(sets, {a, b}) && a != b && |a.jars| == |b.jars| && a.text == b.text
    ensures sets == [a] || sets == [b]
  {
    NotBothKept(sets, a, b);
    SomeKept(sets, {a, b}, a);
    if b !in sets { OnlyOne(sets, {a, b}, a); } else { OnlyOne(sets, {a, b}, b); }
  }

  lemma SomeKept(sets: seq<Ambiguity>, ambiguities: set<Ambiguity>, a: Ambiguity)
    requires Keeps(sets, ambiguities) && a in ambiguities
    ensures sets != []
  {
    assert Present(BySize, sets, a);
  }

  lemma OnlyOne(sets: seq<Ambiguity>, ambiguities: set<Ambiguity>, a: Ambiguity)
    requires Keeps(sets, ambiguities) && sets != [] && forall m | m in sets :: m == a
    ensures sets == [a]
  {
    assert sets[0] in sets;
    SortedAlike(sets, [a]);
  }

  lemma OneResolves(a: set<Path>)
    ensures Resolve([a], {}) == a
  {
    assert [a][1..] == [] && {} + a == a;
  }

  /** The two sets of jars have one size and one text, and share no jar. */
  lemma AlikePair(show: Observation -> string)
    requires show(X) == Printed([BA, Version(C)]) && show(Y) == Printed([Version(B), AC])
    ensures Uniform(FILES) && WellFormed(Repository(FILES, map[]))
    ensures var a, b := InX(FILES, show), InY(FILES, show);
            a.jars !! b.jars && |a.jars| == |b.jars| == 2 && a.text == b.text
  {
    FourPaths();
    FourJars(BA, Version(C), Version(B), AC);
    FusedPairsAlike(Version(B), Version(A), Version(C));
  }

  /**
   * Two ambiguous sets of one size print alike when the separator is part of a path. Every analysis loses one of
   * them, and a class of the output that the repository provides has no chosen provider. The two sets print as assumed
   * after any walk: by the hash code of Unix paths BA, C, B and AC belong in buckets 8, 9, 1 and 6 of the 16.
   */
  lemma LostProvider(show: Observation -> string, f: Findings, index: Index, sets: seq<Ambiguity>)
    requires show(X) == Printed([BA, Version(C)]) && show(Y) == Printed([Version(B), AC])
    requires AnalysedVia(TwoClasses(FILES, show), f, index, sets)
    ensures WellFormed(TwoClasses(FILES, show).repo)
    ensures exists o :: o in {X, Y} && Uncovered(TwoClasses(FILES, show), f, o)
  {
    AlikePair(show);
    TwoAmbiguities(FILES, show, f, index, sets);
    OneKept(sets, InX(FILES, show), InY(FILES, show));
    OneChosen(show, f.chosen, sets);
    if f.chosen == Providers(FILES, "x") {
      AllProvidersMissing(show, f, "y");
    } else {
      AllProvidersMissing(show, f, "x");
    }
  }

  lemma OneChosen(show: Observation -> string, chosen: set<Path>, sets: seq<Ambiguity>)
    requires chosen == Resolve(JarSets(sets), {}) && (sets == [InX(FILES, show)] || sets == [InY(FILES, show)])
    ensures chosen == Providers(FILES, "x") || chosen == Providers(FILES, "y")
  {
    OneResolves(Providers(FILES, "x"));
    OneResolves(Providers(FILES, "y"));
    assert JarSets(sets) == [sets[0].jars];
  }

  /** An observed class that the repository provides and the build did not produce, without a chosen provider. */
  ghost predicate Uncovered(input: Input, f: Findings, o: Observation) {
    && o in Observed(input.outputs) && Remains(input, o.0)
    && forall p, h | p in f.chosen :: !ProvidedBy(input, o.0, p, h)
  }

  lemma AllProvidersMissing(show: Observation -> string, f: Findings, s: string)
    requires Uniform(FILES) && s in {"x", "y"} && Providers(FILES, s) != {} && Providers(FILES, s) !! f.chosen
    ensures Uncovered(TwoClasses(FILES, show), f, (s, HASH))
  {
    AllJars(FILES);
    SeenInOutput(FILES, show);
    var p :| p in Providers(FILES, s);
    var j :| j in FILES && HashIn(j, s).Some? && j.path == p;
    forall p, h | p in f.chosen ensures !ProvidedBy(TwoClasses(FILES, show), s, p, h) { EntryIsProvided(FILES, s, p); }
  }
}
