/** The dependency analyser: which jars of the local Maven repository ended up in the output of a build. */
module Analyser {
  import opened Wrappers
  import opened MavenPaths
  import opened Ordered
  import opened Greedy

  /** Where a class came from, as recorded inside it. */
  datatype Tracking = Tracking(gav: string, source: string, attributes: map<string, string>)

  /** A file of the repository; `classes` are the untracked classes in it with their hashes, in the order they are read. */
  datatype RepoFile = RepoFile(path: Path, classes: seq<(string, string)>, tracking: set<Tracking>)

  /** The files in walk order, and for each directory that has a `_remote.repositories` file the keys in it. */
  datatype Repository = Repository(files: seq<RepoFile>, remote: map<Path, seq<string>>)

  /** An output file: classes it declares as its own, untracked classes with hashes, and tracking records. */
  datatype OutputFile = OutputFile(name: string, own: seq<string>, classes: seq<(string, string)>, records: seq<Option<Tracking>>)

  /** class name -> jar -> hash */
  type Index = map<string, map<Path, string>>

  const MODULE_INFO := "module-info"

  predicate EndsWith(s: string, suffix: string) {
    |suffix| <= |s| && s[|s| - |suffix|..] == suffix
  }

  /** All keys end with `>`: the artifact was built locally and its directory is skipped. */
  predicate BuiltHere(remote: map<Path, seq<string>>, dir: Path) {
    dir in remote && forall i | 0 <= i < |remote[dir]| :: EndsWith(remote[dir][i], ">")
  }

  predicate Visited(remote: map<Path, seq<string>>, path: Path) {
    forall i | 0 <= i < |path| :: !BuiltHere(remote, path[..i])
  }

  predicate IsJar(path: Path) {
    path != [] && EndsWith(path[|path| - 1], ".jar") && !EndsWith(path[|path| - 1], "-runner.jar")
  }

  /** The jars the walk reads, in walk order. */
  function Jars(files: seq<RepoFile>, remote: map<Path, seq<string>>): seq<RepoFile> {
    if files == [] then []
    else
      var rest, f := Jars(files[..|files| - 1], remote), files[|files| - 1];
      if Visited(remote, f.path) && IsJar(f.path) then rest + [f] else rest
  }

  ghost predicate WellFormed(repo: Repository) {
    && (forall f | f in repo.files :: f.path != [] && ValidPath(f.path))
    && (forall i, j | 0 <= i < j < |repo.files| :: repo.files[i].path != repo.files[j].path)
  }

  // ---- The index ----

  function LastHash(classes: seq<(string, string)>, s: string): Option<string> {
    if classes == [] then None
    else if classes[|classes| - 1].0 == s then Some(classes[|classes| - 1].1)
    else LastHash(classes[..|classes| - 1], s)
  }

  function HashIn(f: RepoFile, s: string): Option<string> {
    if s == MODULE_INFO then None else LastHash(f.classes, s)
  }

  /** What the index must say about class `s` in jar `p`, after the given jars. */
  function Entry(jars: seq<RepoFile>, s: string, p: Path): Option<string> {
    if jars == [] then None
    else
      var f := jars[|jars| - 1];
      if f.path == p && HashIn(f, s).Some? then HashIn(f, s) else Entry(jars[..|jars| - 1], s, p)
  }

  function Get(index: Index, s: string, p: Path): Option<string> {
    if s in index && p in index[s] then Some(index[s][p]) else None
  }

  ghost predicate NoHollow(index: Index) {
    forall s | s in index :: index[s] != map[]
  }

  ghost predicate Indexes(index: Index, jars: seq<RepoFile>) {
    NoHollow(index) && forall s, p :: Get(index, s, p) == Entry(jars, s, p)
  }

  /** computeIfAbsent, then put. */
  function Put(index: Index, s: string, p: Path, h: string): (r: Index)
    ensures forall x, q :: Get(r, x, q) == if x == s && q == p then Some(h) else Get(index, x, q)
    ensures NoHollow(index) ==> NoHollow(r)
  {
    var jars := if s in index then index[s] else map[];
    assert p in jars[p := h];
    index[s := jars[p := h]]
  }

  /** Reads one jar: each class adds the jar, with the class's hash, under the class's name. */
  method IndexJar(index: Index, f: RepoFile) returns (index': Index)
    requires NoHollow(index)
    ensures NoHollow(index')
    ensures forall s, p :: Get(index', s, p) == if p == f.path && HashIn(f, s).Some? then HashIn(f, s) else Get(index, s, p)
  {
    index' := index;
    for k := 0 to |f.classes|
      invariant NoHollow(index')
      invariant forall s, p :: Get(index', s, p) ==
                  var h := if s == MODULE_INFO then None else LastHash(f.classes[..k], s);
                  if p == f.path && h.Some? then h else Get(index, s, p)
    {
      var (s, h) := f.classes[k];
      assert f.classes[..k + 1][..k] == f.classes[..k];
      assert f.classes[..k + 1][k] == f.classes[k];
      if s != MODULE_INFO {
        index' := Put(index', s, f.path, h);
      }
    }
    assert f.classes[..|f.classes|] == f.classes;
  }

  /** What a jar is billed for: every record in it, and itself unless a record names it. */
  ghost function Bill(f: RepoFile): set<Tracking> {
    if |f.path| < 3 || exists t :: t in f.tracking && t.gav == GavOf(f.path) then f.tracking
    else f.tracking + {Tracking(GavOf(f.path), "unknown", map[])}
  }

  ghost predicate Billed(gavs: set<Tracking>, jars: seq<RepoFile>) {
    gavs == set f, t | f in jars && t in Bill(f) :: t
  }

  method BillJar(gavs: set<Tracking>, f: RepoFile, gav: string) returns (gavs': set<Tracking>)
    requires |f.path| >= 3 && gav == GavOf(f.path)
    ensures gavs' == gavs + Bill(f)
  {
    if f.tracking == {} {
      gavs' := gavs + {Tracking(gav, "unknown", map[])};
    } else {
      var tracked := false;
      var rest := f.tracking;
      while rest != {}
        invariant rest <= f.tracking && !tracked
        invariant forall t | t in f.tracking && t !in rest :: t.gav != gav
        decreases |rest|
      {
        var t :| t in rest;
        if t.gav == gav {
          tracked := true;
          break;
        }
        rest := rest - {t};
      }
      gavs' := gavs + f.tracking;
      if !tracked {
        gavs' := gavs' + {Tracking(gav, "unknown", map[])};
      }
    }
  }

  ghost predicate ReadSoFar(index: Index, gavs: set<Tracking>, jars: seq<RepoFile>) {
    Indexes(index, jars) && Billed(gavs, jars) && forall f | f in jars :: |f.path| >= 3
  }

  /** Reads one jar; without a group, artifact and version above it there is no GAV and the walk fails. */
  method VisitJar(index: Index, gavs: set<Tracking>, f: RepoFile, ghost jars: seq<RepoFile>)
    returns (ok: bool, index': Index, gavs': set<Tracking>)
    requires ReadSoFar(index, gavs, jars) && f.path != [] && ValidPath(f.path)
    ensures ok <==> |f.path| >= 3
    ensures ok ==> ReadSoFar(index', gavs', jars + [f])
  {
    SplitOfJoin(f.path);
    var relative := Split(Join(f.path, '/'), '/');
    if |relative| < 3 {
      return false, index, gavs;
    }
    var gav := IndexGav(relative);
    index' := IndexJar(index, f);
    assert (jars + [f])[..|jars|] == jars;
    gavs' := BillJar(gavs, f, gav);
    BillGrows(gavs, jars, f);
    ok := true;
  }

  /** Walks the repository; a jar less than three levels deep ends the analysis with an exception. */
  method IndexRepository(repo: Repository) returns (ok: bool, index: Index, buildGavs: set<Tracking>)
    requires WellFormed(repo)
    ensures ok <==> forall f | f in Jars(repo.files, repo.remote) :: |f.path| >= 3
    ensures ok ==> ReadSoFar(index, buildGavs, Jars(repo.files, repo.remote))
  {
    ok, index, buildGavs := true, map[], {};
    for i := 0 to |repo.files|
      invariant ok && ReadSoFar(index, buildGavs, Jars(repo.files[..i], repo.remote))
    {
      var f := repo.files[i];
      assert repo.files[..i + 1][..i] == repo.files[..i];
      ghost var before := Jars(repo.files[..i], repo.remote);
      if Visited(repo.remote, f.path) && IsJar(f.path) {
        assert Jars(repo.files[..i + 1], repo.remote) == before + [f];
        ok, index, buildGavs := VisitJar(index, buildGavs, f, before);
        if !ok {
          JarsMeaning(repo.files, repo.remote, f);
          return;
        }
      }
    }
    assert repo.files[..|repo.files|] == repo.files;
  }

  lemma BillGrows(gavs: set<Tracking>, jars: seq<RepoFile>, f: RepoFile)
    requires Billed(gavs, jars)
    ensures Billed(gavs + Bill(f), jars + [f])
  {
    assert forall x :: x in jars + [f] <==> x in jars || x == f;
    assert forall t | t in Bill(f) :: f in jars + [f] && t in Bill(f);
  }

  /** Every jar is billed, by a record of its own or by its place in the repository. */
  lemma BilledJar(gavs: set<Tracking>, jars: seq<RepoFile>, f: RepoFile)
    requires Billed(gavs, jars) && f in jars && |f.path| >= 3
    ensures exists t :: t in gavs && t.gav == GavOf(f.path)
  {
    if t :| t in f.tracking && t.gav == GavOf(f.path) {
      assert t in Bill(f);
    } else {
      assert Tracking(GavOf(f.path), "unknown", map[]) in Bill(f);
    }
  }

  lemma {:induction false} JarsMeaning(files: seq<RepoFile>, remote: map<Path, seq<string>>, f: RepoFile)
    ensures f in Jars(files, remote) <==> f in files && Visited(remote, f.path) && IsJar(f.path)
  {
    if files != [] {
      JarsMeaning(files[..|files| - 1], remote, f);
      assert files == files[..|files| - 1] + [files[|files| - 1]];
    }
  }

  // ---- Classes the build produced itself ----

  /** The names that class files of the output declare. */
  ghost function Produced(outputs: seq<OutputFile>): set<string> {
    set f, s | f in outputs && EndsWith(f.name, ".class") && s in f.own :: s
  }

  ghost function Pruned(index: Index, outputs: seq<OutputFile>): Index {
    index - Produced(outputs)
  }

  method PruneProduced(index: Index, outputs: seq<OutputFile>) returns (index': Index)
    ensures index' == Pruned(index, outputs)
  {
    index' := index;
    for i := 0 to |outputs|
      invariant index' == index - Produced(outputs[..i])
    {
      var f := outputs[i];
      assert outputs[..i + 1] == outputs[..i] + [f];
      if EndsWith(f.name, ".class") {
        for k := 0 to |f.own|
          invariant index' == index - Produced(outputs[..i]) - (set s | s in f.own[..k])
        {
          assert f.own[..k + 1] == f.own[..k] + [f.own[k]];
          index' := index' - {f.own[k]};
        }
        assert f.own[..|f.own|] == f.own;
        assert Produced(outputs[..i + 1]) == Produced(outputs[..i]) + (set s | s in f.own);
      } else {
        assert Produced(outputs[..i + 1]) == Produced(outputs[..i]);
      }
    }
    assert outputs[..|outputs|] == outputs;
  }
}
