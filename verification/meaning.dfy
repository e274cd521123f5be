/** What the findings of an analysis are, read off the files. */
module Meaning {
  import opened Wrappers
  import opened MavenPaths
  import opened Ordered
  import opened Greedy
  import opened Analyser
  import opened Matching
  import opened Analysis

  // ---- What is read ----

  ghost predicate HasSuffix(s: string, suffix: string) {
    exists stem: string :: s == stem + suffix
  }

  lemma EndsWithIff(s: string, suffix: string)
    ensures EndsWith(s, suffix) <==> HasSuffix(s, suffix)
  {
    if EndsWith(s, suffix) {
      assert s == s[..|s| - |suffix|] + suffix;
    }
  }

  /** The directory records where its files came from, and every record says that they were built here. */
  ghost predicate LocallyBuilt(repo: Repository, dir: Path) {
    dir in repo.remote && forall key | key in repo.remote[dir] :: HasSuffix(key, ">")
  }

  /** The file is a jar, no runner, and no directory above it was built locally. */
  ghost predicate Read(repo: Repository, path: Path) {
    && path != []
    && HasSuffix(path[|path| - 1], ".jar") && !HasSuffix(path[|path| - 1], "-runner.jar")
    && forall i | 0 <= i < |path| :: !LocallyBuilt(repo, path[..i])
  }

  lemma LocallyBuiltIff(repo: Repository, dir: Path)
    ensures BuiltHere(repo.remote, dir) <==> LocallyBuilt(repo, dir)
  {
    forall key ensures EndsWith(key, ">") <==> HasSuffix(key, ">") { EndsWithIff(key, ">"); }
    if dir in repo.remote && LocallyBuilt(repo, dir) {
      forall i | 0 <= i < |repo.remote[dir]| ensures EndsWith(repo.remote[dir][i], ">") {
        assert repo.remote[dir][i] in repo.remote[dir];
      }
    }
  }

  /** Exactly these files of the repository are read. */
  lemma ReadIff(input: Input, j: RepoFile)
    ensures j in JarsOf(input) <==> j in input.repo.files && Read(input.repo, j.path)
  {
    JarsMeaning(input.repo.files, input.repo.remote, j);
    if j.path != [] {
      EndsWithIff(j.path[|j.path| - 1], ".jar");
      EndsWithIff(j.path[|j.path| - 1], "-runner.jar");
    }
    forall i | 0 <= i < |j.path| ensures BuiltHere(input.repo.remote, j.path[..i]) <==> LocallyBuilt(input.repo, j.path[..i]) {
      LocallyBuiltIff(input.repo, j.path[..i]);
    }
  }

  // ---- What is indexed ----

  /** The jar holds the class, and `h` is the hash of the copy of it that is read last. */
  ghost predicate HoldsLast(j: RepoFile, s: string, h: string) {
    exists k :: LastCopy(j.classes, s, h, k)
  }

  ghost predicate LastCopy(classes: seq<(string, string)>, s: string, h: string, k: int) {
    0 <= k < |classes| && classes[k] == (s, h) && forall i | k < i < |classes| :: classes[i].0 != s
  }

  lemma {:induction false} LastHashIff(classes: seq<(string, string)>, s: string, h: string)
    ensures LastHash(classes, s) == Some(h) <==> exists k :: LastCopy(classes, s, h, k)
  {
    if classes != [] {
      var init, n := classes[..|classes| - 1], |classes| - 1;
      if classes[n].0 == s {
        assert classes[n].1 == h ==> LastCopy(classes, s, h, n);
      } else {
        LastHashIff(init, s, h);
        forall k ensures LastCopy(classes, s, h, k) <==> LastCopy(init, s, h, k) {
          assert LastCopy(init, s, h, k) ==> classes[k] == init[k];
          assert LastCopy(classes, s, h, k) ==> k < n && init[k] == classes[k];
        }
      }
    }
  }

  lemma HashInMeaning(j: RepoFile, s: string, h: string)
    ensures HashIn(j, s) == Some(h) <==> s != "module-info" && HoldsLast(j, s, h)
  {
    LastHashIff(j.classes, s, h);
  }

  /** A jar at this path that is read holds the class with this hash; module descriptors do not count. */
  ghost predicate Provides(input: Input, s: string, p: Path, h: string) {
    && s != "module-info" && Read(input.repo, p)
    && exists j :: j in input.repo.files && j.path == p && HoldsLast(j, s, h)
  }

  lemma {:induction false} JarsDistinct(files: seq<RepoFile>, remote: map<Path, seq<string>>)
    requires forall i, j | 0 <= i < j < |files| :: files[i].path != files[j].path
    ensures DistinctPaths(Jars(files, remote))
  {
    if files != [] {
      var init, f := files[..|files| - 1], files[|files| - 1];
      JarsDistinct(init, remote);
      forall j | j in Jars(init, remote) ensures j.path != f.path { JarsMeaning(init, remote, j); }
    }
  }

  /** What the analysis takes for provided is what the files say. */
  lemma ProvidesIff(input: Input, s: string, p: Path, h: string)
    requires WellFormed(input.repo)
    ensures ProvidedBy(input, s, p, h) <==> Provides(input, s, p, h)
  {
    var jars := JarsOf(input);
    JarsDistinct(input.repo.files, input.repo.remote);
    if ProvidedBy(input, s, p, h) {
      EntryIsJar(jars, s, p);
      var j :| j in jars && j.path == p && HashIn(j, s) == Some(h);
      ReadIff(input, j);
      HashInMeaning(j, s, h);
    }
    if Provides(input, s, p, h) {
      var j :| j in input.repo.files && j.path == p && HoldsLast(j, s, h);
      ReadIff(input, j);
      HashInMeaning(j, s, h);
      EntryOfDistinct(jars, j, s);
    }
  }

  // ---- What is matched ----

  /** Some class file of the output declares the class. */
  ghost predicate Declared(input: Input, s: string) {
    exists f :: f in input.outputs && HasSuffix(f.name, ".class") && s in f.own
  }

  lemma DeclaredIff(input: Input, s: string)
    ensures s in Produced(input.outputs) <==> Declared(input, s)
  {
    forall f: OutputFile ensures EndsWith(f.name, ".class") <==> HasSuffix(f.name, ".class") { EndsWithIff(f.name, ".class"); }
  }

  /** The output holds a class of this name with this hash, and the build did not make it. */
  ghost predicate Foreign(input: Input, o: Observation) {
    (exists f :: f in input.outputs && o in f.classes) && !Declared(input, o.0)
  }

  /** The jar provides the class, with the observed hash if several jars provide the class and one of them has that hash. */
  ghost predicate Candidate(input: Input, o: Observation, p: Path) {
    exists h :: ProvidedBy(input, o.0, p, h) && HashPreferred(input, o, p, h)
  }

  lemma IndexedIff(input: Input, index: Index, s: string, p: Path, h: string)
    requires Indexes(index, JarsOf(input))
    ensures ProvidedBy(input, s, p, h) <==> s in index && p in index[s] && index[s][p] == h
  {
    assert Get(index, s, p) == Entry(JarsOf(input), s, p);
  }

  lemma OnlyOne(m: map<Path, string>, p: Path)
    requires p in m && forall q | q in m :: q == p
    ensures |m| == 1
  {
    assert m.Keys == {p};
    assert |m.Keys| == |m|;
  }

  /** Whether a provider is preferred, in terms of the index. */
  lemma PreferredIff(input: Input, index: Index, o: Observation, p: Path)
    requires Indexes(index, JarsOf(input)) && o.0 in index && p in index[o.0]
    ensures var jars := index[o.0];
            HashPreferred(input, o, p, jars[p]) <==>
              (|jars| > 1 && (exists q :: q in jars && jars[q] == o.1) ==> jars[p] == o.1)
  {
    var jars := index[o.0];
    forall q, h ensures ProvidedBy(input, o.0, q, h) <==> q in jars && jars[q] == h { IndexedIff(input, index, o.0, q, h); }
    if |jars| > 1 {
      if forall q | q in jars :: q == p { OnlyOne(jars, p); }
      var q :| q in jars && q != p;
      assert ProvidedBy(input, o.0, q, jars[q]);
    } else {
      forall q | q in jars && q != p ensures false { TwoKeys(jars, p, q); }
    }
    if q :| q in jars && jars[q] == o.1 {
      assert ProvidedBy(input, o.0, q, o.1);
    }
  }

  lemma CandidatesSplit(idx: Index, o: Observation, p: Path)
    requires o.0 in idx
    ensures p in Candidates(idx, o) <==>
              p in idx[o.0] && (|idx[o.0]| > 1 && (exists q :: q in idx[o.0] && idx[o.0][q] == o.1) ==> idx[o.0][p] == o.1)
  {
    var jars := idx[o.0];
    var same := set q | q in jars && jars[q] == o.1;
    assert same != {} <==> exists q :: q in jars && jars[q] == o.1 by {
      if q :| q in jars && jars[q] == o.1 { assert q in same; }
    }
  }

  /** Matching drops no provider that it should keep, and keeps none that it should drop. */
  lemma CandidateIff(input: Input, index: Index, o: Observation, p: Path)
    requires Indexes(index, JarsOf(input))
    ensures p in Candidates(Pruned(index, input.outputs), o) <==> !Declared(input, o.0) && Candidate(input, o, p)
  {
    var idx := Pruned(index, input.outputs);
    DeclaredIff(input, o.0);
    forall h ensures ProvidedBy(input, o.0, p, h) <==> o.0 in index && p in index[o.0] && index[o.0][p] == h {
      IndexedIff(input, index, o.0, p, h);
    }
    if o.0 in idx {
      CandidatesSplit(idx, o, p);
      if p in idx[o.0] { PreferredIff(input, index, o, p); }
    }
  }

  /** The one candidate for something observed. */
  ghost predicate Sole(input: Input, p: Path) {
    exists o :: Foreign(input, o) && Candidate(input, o, p) && forall q | Candidate(input, o, q) :: q == p
  }

  lemma OneElement(s: set<Path>, p: Path)
    ensures s == {p} <==> |s| == 1 && p in s
  {
    if |s| == 1 && p in s {
      assert |s - {p}| == 0;
    }
  }

  lemma ForeignIff(input: Input, o: Observation)
    ensures o in Observed(input.outputs) && o.0 !in Produced(input.outputs) <==> Foreign(input, o)
  {
    DeclaredIff(input, o.0);
  }

  /** A jar is definite exactly if something observed can come from it alone. */
  lemma DefiniteIff(input: Input, index: Index, p: Path)
    requires Indexes(index, JarsOf(input))
    ensures p in Definite(Pruned(index, input.outputs), Observed(input.outputs)) <==> Sole(input, p)
  {
    var idx, seen := Pruned(index, input.outputs), Observed(input.outputs);
    if p in Definite(idx, seen) {
      var o :| o in seen && |Candidates(idx, o)| == 1 && p in Candidates(idx, o);
      OneElement(Candidates(idx, o), p);
      CandidateIff(input, index, o, p);
      ForeignIff(input, o);
      forall q | Candidate(input, o, q) ensures q == p { CandidateIff(input, index, o, q); }
      assert Foreign(input, o) && Candidate(input, o, p);
    }
    if Sole(input, p) {
      var o :| Foreign(input, o) && Candidate(input, o, p) && forall q | Candidate(input, o, q) :: q == p;
      ForeignIff(input, o);
      forall q ensures q in Candidates(idx, o) <==> q == p {
        CandidateIff(input, index, o, q);
        CandidateIff(input, index, o, p);
      }
      assert Candidates(idx, o) == {p};
      assert o in seen && |Candidates(idx, o)| == 1 && p in Candidates(idx, o);
    }
  }

  /** These are the candidates for something observed, and there are several. */
  ghost predicate Contested(input: Input, m: set<Path>) {
    |m| > 1 && exists o :: Foreign(input, o) && forall p :: p in m <==> Candidate(input, o, p)
  }

  lemma AmbiguousIff(input: Input, index: Index, m: set<Path>)
    requires Indexes(index, JarsOf(input))
    ensures m in Ambiguous(Pruned(index, input.outputs), Observed(input.outputs)) <==> Contested(input, m)
  {
    var idx, seen := Pruned(index, input.outputs), Observed(input.outputs);
    if m in Ambiguous(idx, seen) {
      var o :| o in seen && |Candidates(idx, o)| > 1 && Candidates(idx, o) == m;
      var p :| p in m;
      CandidateIff(input, index, o, p);
      ForeignIff(input, o);
      forall q ensures q in m <==> Candidate(input, o, q) { CandidateIff(input, index, o, q); }
    }
    if Contested(input, m) {
      var o :| Foreign(input, o) && forall p :: p in m <==> Candidate(input, o, p);
      ForeignIff(input, o);
      forall q ensures q in m <==> q in Candidates(idx, o) { CandidateIff(input, index, o, q); }
      assert Candidates(idx, o) == m;
    }
  }

  // ---- What is chosen ----

  lemma {:induction false} UnionIff<T>(sets: seq<set<T>>, x: T)
    ensures x in Union(sets) <==> exists m :: m in sets && x in m
  {
    if sets != [] {
      UnionIff(sets[1..], x);
      assert sets == [sets[0]] + sets[1..];
    }
  }

  /**
   * A jar is chosen exactly if something observed can come from it alone, or it is one of several candidates whose set was
   * taken whole.
   */
  lemma ChosenIff(input: Input, f: Findings, index: Index, sets: seq<Ambiguity>, p: Path)
    requires AnalysedVia(input, f, index, sets)
    ensures var taken := Wholesale(JarSets(sets), Definite(Pruned(index, input.outputs), Observed(input.outputs)));
            && (p in f.chosen <==> Sole(input, p) || exists m :: m in taken && p in m)
            && forall m | m in taken :: Contested(input, m)
  {
    var idx, seen := Pruned(index, input.outputs), Observed(input.outputs);
    var all, d := JarSets(sets), Definite(idx, seen);
    DefiniteIff(input, index, p);
    ResolveAddsWholesale(all, d);
    UnionIff(Wholesale(all, d), p);
    forall m | m in Wholesale(all, d) ensures Contested(input, m) {
      var k :| 0 <= k < |Wholesale(all, d)| && Wholesale(all, d)[k] == m;
      WholesaleDisjoint(all, d, k);
      JarSetsOfKept(idx, seen, input.show, sets, m);
      AmbiguousIff(input, index, m);
    }
  }

  /** The jars that provide a class. */
  ghost predicate Providers(input: Input, s: string, jars: set<Path>) {
    forall p :: p in jars <==> exists h :: ProvidedBy(input, s, p, h)
  }

  /** With no hash that agrees, every provider is a candidate. */
  lemma NoneAgrees(input: Input, o: Observation, jars: set<Path>)
    requires Providers(input, o.0, jars) && forall p :: !ProvidedBy(input, o.0, p, o.1)
    ensures forall p :: p in jars <==> Candidate(input, o, p)
  {
    forall p ensures p in jars <==> Candidate(input, o, p) {
      if p in jars {
        var h :| ProvidedBy(input, o.0, p, h);
        assert HashPreferred(input, o, p, h);
      }
    }
  }

  /**
   * If several jars provide an observed class that the build did not make and no hash agrees, all of them make up the set to
   * resolve; and if it is taken whole, all of them are chosen, and their GAVs reported unless they are allowed.
   */
  lemma AllVersionsTaken(input: Input, f: Findings, index: Index, sets: seq<Ambiguity>, o: Observation, jars: set<Path>)
    requires AnalysedVia(input, f, index, sets)
    requires Foreign(input, o) && Providers(input, o.0, jars) && |jars| > 1
    requires forall p :: !ProvidedBy(input, o.0, p, o.1)
    ensures var idx, seen := Pruned(index, input.outputs), Observed(input.outputs);
            && jars in Ambiguous(idx, seen)
            && (jars in Wholesale(JarSets(sets), Definite(idx, seen)) ==>
                  jars <= f.chosen && forall p | p in jars :: ReportedGav(p) in f.gavs || Allows(input.allowed, ReportedGav(p)))
  {
    var idx, seen := Pruned(index, input.outputs), Observed(input.outputs);
    NoneAgrees(input, o, jars);
    AmbiguousIff(input, index, jars);
    if jars in Wholesale(JarSets(sets), Definite(idx, seen)) {
      forall p | p in jars ensures p in f.chosen { ChosenIff(input, f, index, sets, p); }
      forall p | p in jars ensures ReportedGav(p) in f.gavs || Allows(input.allowed, ReportedGav(p)) {
        assert ReportedGav(p) in JarGavs(f.chosen);
      }
    }
  }

  // ---- What is reported and billed ----

  /** A GAV is reported exactly if no pattern allows it and a tracked class from no allowed source, or a chosen jar, has it. */
  lemma GavsIff(input: Input, f: Findings, index: Index, sets: seq<Ambiguity>, g: string)
    requires AnalysedVia(input, f, index, sets)
    ensures g in f.gavs <==>
              && (forall i | 0 <= i < |input.allowed| :: !input.allowed[i](g))
              && (|| (exists out, t :: out in input.outputs && Some(t) in out.records && t.gav == g && t.source !in input.allowedSources)
                  || (exists p :: p in f.chosen && ReportedGav(p) == g))
  {
    var records := Reported(input.outputs);
    if g in CommunityGavs(records, input.allowedSources) {
      var r :| r in records && r.Some? && r.value.source !in input.allowedSources && r.value.gav == g;
      var out :| out in input.outputs && r in out.records;
      assert Some(r.value) in out.records;
    }
    if out, t :| out in input.outputs && Some(t) in out.records && t.gav == g && t.source !in input.allowedSources {
      assert Some(t) in records;
    }
  }

  /** The records of an analysis are those of the output, and one for every chosen jar. */
  lemma TrackingIff(input: Input, f: Findings, index: Index, sets: seq<Ambiguity>, r: Option<Tracking>)
    requires AnalysedVia(input, f, index, sets)
    ensures r in f.tracking <==>
              || (exists out :: out in input.outputs && r in out.records)
              || (exists p :: p in f.chosen && r == Some(Tracking(ReportedGav(p), "community", map[])))
  {
  }

  /** The jar is billed for the record: it is one of its own, or names the jar, which none of its own does. */
  ghost predicate Bills(j: RepoFile, t: Tracking)
    requires |j.path| >= 3
  {
    || t in j.tracking
    || ((forall u | u in j.tracking :: u.gav != GavOf(j.path)) && t == Tracking(GavOf(j.path), "unknown", map[]))
  }

  /** The bill is exactly what the jars that are read are billed for. */
  lemma BillIff(input: Input, f: Findings, index: Index, sets: seq<Ambiguity>, t: Tracking)
    requires AnalysedVia(input, f, index, sets)
    ensures t in f.buildGavs <==> exists j :: j in input.repo.files && Read(input.repo, j.path) && |j.path| >= 3 && Bills(j, t)
  {
    var jars := JarsOf(input);
    if t in f.buildGavs {
      var j :| j in jars && t in Bill(j);
      ReadIff(input, j);
      assert Bills(j, t);
    }
    if j :| j in input.repo.files && Read(input.repo, j.path) && |j.path| >= 3 && Bills(j, t) {
      ReadIff(input, j);
      assert j in jars && t in Bill(j);
    }
  }
}
