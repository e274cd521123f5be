/** The whole analysis, and what its result says about the build. */
module Analysis {
  import opened Wrappers
  import opened MavenPaths
  import opened Ordered
  import opened Greedy
  import opened GreedyOrder
  import opened Analyser
  import opened Matching

  /**
   * Everything an analysis reads. A pattern of the allow-list is given by what it matches; `show` tells how the hash set
   * of jars made for an observed class prints, which depends on the order in which the repository was walked.
   */
  datatype Input = Input(repo: Repository, outputs: seq<OutputFile>, allowedSources: set<string>,
                         allowed: seq<string -> bool>, show: Observation -> string)

  datatype Findings = Findings(chosen: set<Path>, gavs: set<string>, tracking: set<Option<Tracking>>, buildGavs: set<Tracking>)

  /** A jar too close to the root, or a GAV removed twice while iterating. */
  datatype Failure = ShallowJar | RemovedTwice
  datatype Outcome = Found(findings: Findings) | Threw(failure: Failure)

  function JarsOf(input: Input): seq<RepoFile> {
    Jars(input.repo.files, input.repo.remote)
  }

  predicate Deep(jars: set<Path>) {
    forall p | p in jars :: |p| >= 3
  }

  function JarGavs(jars: set<Path>): set<string>
    requires Deep(jars)
  {
    set p | p in jars :: ReportedGav(p)
  }

  function JarRecords(jars: set<Path>): set<Option<Tracking>>
    requires Deep(jars)
  {
    set p | p in jars :: Some(Tracking(ReportedGav(p), "community", map[]))
  }

  predicate Allows(allowed: seq<string -> bool>, gav: string) {
    exists i :: 0 <= i < |allowed| && allowed[i](gav)
  }

  ghost predicate AllowsTwice(allowed: seq<string -> bool>, gav: string) {
    exists i, j :: 0 <= i < j < |allowed| && allowed[i](gav) && allowed[j](gav)
  }

  lemma JarStep(jars: set<Path>, p: Path, gavs: set<string>, tracking: set<Option<Tracking>>)
    requires Deep(jars) && |p| >= 3
    ensures gavs + JarGavs(jars + {p}) == gavs + JarGavs(jars) + {ReportedGav(p)}
    ensures tracking + JarRecords(jars + {p})
         == tracking + JarRecords(jars) + {Some(Tracking(ReportedGav(p), "community", map[]))}
  {
    assert JarGavs(jars + {p}) == JarGavs(jars) + {ReportedGav(p)};
    assert JarRecords(jars + {p}) == JarRecords(jars) + {Some(Tracking(ReportedGav(p), "community", map[]))};
  }

  method AddJarGavs(jars: set<Path>, gavs: set<string>, tracking: set<Option<Tracking>>)
    returns (gavs': set<string>, tracking': set<Option<Tracking>>)
    requires Deep(jars)
    ensures gavs' == gavs + JarGavs(jars) && tracking' == tracking + JarRecords(jars)
  {
    gavs', tracking' := gavs, tracking;
    var rest := jars;
    ghost var done := {};
    while rest != {}
      invariant done + rest == jars && Deep(done)
      invariant gavs' == gavs + JarGavs(done) && tracking' == tracking + JarRecords(done)
      decreases |rest|
    {
      var p :| p in rest;
      JarStep(done, p, gavs, tracking);
      var gav := ReportedGav(p);
      gavs' := gavs' + {gav};
      tracking' := tracking' + {Some(Tracking(gav, "community", map[]))};
      done := done + {p};
      rest := rest - {p};
    }
    assert done == jars;
  }

  /** Iterates over the GAVs; the loop over the patterns goes on after a removal, and removing again throws. */
  method DropAllowed(gavs: set<string>, allowed: seq<string -> bool>) returns (r: Option<set<string>>)
    ensures r.None? <==> exists g :: g in gavs && AllowsTwice(allowed, g)
    ensures r.Some? ==> r.value == set g | g in gavs && !Allows(allowed, g)
  {
    var kept := gavs;
    var rest := gavs;
    while rest != {}
      invariant rest <= gavs && forall g | g in gavs && g !in rest :: !AllowsTwice(allowed, g)
      invariant kept == set g | g in gavs && (g in rest || !Allows(allowed, g))
      decreases |rest|
    {
      var item :| item in rest;
      var removed := false;
      for i := 0 to |allowed|
        invariant removed <==> exists j :: 0 <= j < i && allowed[j](item)
        invariant forall j, k | 0 <= j < k < i :: !(allowed[j](item) && allowed[k](item))
      {
        if allowed[i](item) {
          if removed {
            assert AllowsTwice(allowed, item);
            return None;
          }
          removed := true;
        }
      }
      rest := rest - {item};
      if removed {
        kept := kept - {item};
      }
    }
    r := Some(kept);
  }

  // ---- What an analysis is ----

  /** The findings follow from an index of the repository and the sorted set of ambiguous sets. */
  ghost predicate AnalysedVia(input: Input, f: Findings, index: Index, sets: seq<Ambiguity>) {
    var idx := Pruned(index, input.outputs);
    var seen := Observed(input.outputs);
    && ReadSoFar(index, f.buildGavs, JarsOf(input))
    && Keeps(sets, Ambiguities(idx, seen, input.show))
    && f.chosen == Resolve(JarSets(sets), Definite(idx, seen))
    && Deep(f.chosen)
    && f.tracking == Reported(input.outputs) + JarRecords(f.chosen)
    && f.gavs == set g | g in Community(input, f.chosen) && !Allows(input.allowed, g)
  }

  ghost function Community(input: Input, chosen: set<Path>): set<string>
    requires Deep(chosen)
  {
    CommunityGavs(Reported(input.outputs), input.allowedSources) + JarGavs(chosen)
  }

  lemma {:induction false} EntryIsJar(jars: seq<RepoFile>, s: string, p: Path)
    requires Entry(jars, s, p).Some?
    ensures exists f :: f in jars && f.path == p && HashIn(f, s) == Entry(jars, s, p)
  {
    var f := jars[|jars| - 1];
    if !(f.path == p && HashIn(f, s).Some?) {
      EntryIsJar(jars[..|jars| - 1], s, p);
    }
  }

  lemma CandidatesIndexed(index: Index, outputs: seq<OutputFile>, o: Observation, p: Path)
    requires p in Candidates(Pruned(index, outputs), o)
    ensures o.0 !in Produced(outputs) && Get(index, o.0, p).Some?
  {
  }

  lemma CandidatesDeep(index: Index, gavs: set<Tracking>, jars: seq<RepoFile>, outputs: seq<OutputFile>, o: Observation)
    requires ReadSoFar(index, gavs, jars)
    ensures Deep(Candidates(Pruned(index, outputs), o))
  {
    forall p | p in Candidates(Pruned(index, outputs), o) ensures |p| >= 3 {
      CandidatesIndexed(index, outputs, o, p);
      EntryIsJar(jars, o.0, p);
    }
  }

  lemma {:induction false} ResolveFrom(sets: seq<set<Path>>, chosen: set<Path>, p: Path)
    requires p in Resolve(sets, chosen)
    ensures p in chosen || exists m :: m in sets && p in m
  {
    if sets != [] {
      ResolveFrom(sets[1..], if sets[0] !! chosen then chosen + sets[0] else chosen, p);
      assert sets[0] in sets && forall m | m in sets[1..] :: m in sets;
    }
  }

  /** Every chosen jar is a candidate for some observed class. */
  lemma ChosenIsCandidate(idx: Index, seen: set<Observation>, show: Observation -> string, sets: seq<Ambiguity>, p: Path)
    requires Keeps(sets, Ambiguities(idx, seen, show)) && p in Resolve(JarSets(sets), Definite(idx, seen))
    ensures exists o :: o in seen && p in Candidates(idx, o)
  {
    ResolveFrom(JarSets(sets), Definite(idx, seen), p);
    if p !in Definite(idx, seen) {
      var m :| m in JarSets(sets) && p in m;
      JarSetsOfKept(idx, seen, show, sets, m);
    }
  }

  /** The analysis yields its findings unless two patterns allow the same GAV. */
  ghost predicate ResultsIn(input: Input, r: Outcome, f: Findings, index: Index, sets: seq<Ambiguity>) {
    && AnalysedVia(input, f, index, sets)
    && r == if exists g :: g in Community(input, f.chosen) && AllowsTwice(input.allowed, g) then Threw(RemovedTwice)
            else Found(f)
  }

  method DoAnalysis(input: Input) returns (r: Outcome)
    requires WellFormed(input.repo)
    ensures r == Threw(ShallowJar) <==> exists f :: f in JarsOf(input) && |f.path| < 3
    ensures r != Threw(ShallowJar) ==> exists f, index, sets :: ResultsIn(input, r, f, index, sets)
  {
    var ok, index, buildGavs := IndexRepository(input.repo);
    if !ok {
      return Threw(ShallowJar);
    }
    var idx := PruneProduced(index, input.outputs);
    var additional, sets, tracking, gavs := MatchOutputs(idx, input.outputs, input.allowedSources, input.show);
    var chosen := ResolveSets(sets, additional);
    forall p | p in chosen ensures |p| >= 3 {
      ChosenIsCandidate(idx, Observed(input.outputs), input.show, sets, p);
      var o :| o in Observed(input.outputs) && p in Candidates(idx, o);
      CandidatesDeep(index, buildGavs, JarsOf(input), input.outputs, o);
    }
    gavs, tracking := AddJarGavs(chosen, gavs, tracking);
    var kept := DropAllowed(gavs, input.allowed);
    ghost var reported := set g | g in Community(input, chosen) && !Allows(input.allowed, g);
    r := if kept.None? then Threw(RemovedTwice) else Found(Findings(chosen, kept.value, tracking, buildGavs));
    assert ResultsIn(input, r, Findings(chosen, reported, tracking, buildGavs), index, sets);
  }

  // ---- Coverage and soundness ----

  /** The class is provided by a jar of the repository and was not produced by the build. */
  ghost predicate Remains(input: Input, s: string) {
    s !in Produced(input.outputs) && exists f :: f in JarsOf(input) && HashIn(f, s).Some?
  }

  /** Jar `p` provides class `s` with hash `h`. */
  ghost predicate ProvidedBy(input: Input, s: string, p: Path, h: string) {
    Entry(JarsOf(input), s, p) == Some(h)
  }

  lemma {:induction false} ProviderIndexed(jars: seq<RepoFile>, s: string, f: RepoFile)
    requires f in jars && HashIn(f, s).Some?
    ensures Entry(jars, s, f.path).Some?
  {
    var init, last := jars[..|jars| - 1], jars[|jars| - 1];
    assert jars == init + [last];
    if f in init { ProviderIndexed(init, s, f); }
  }

  lemma CandidatesFacts(idx: Index, o: Observation)
    requires NoHollow(idx) && o.0 in idx
    ensures Candidates(idx, o) != {}
    ensures forall p | p in Candidates(idx, o) ::
              && p in idx[o.0]
              && (|idx[o.0]| > 1 && (exists q :: q in idx[o.0] && idx[o.0][q] == o.1) ==> idx[o.0][p] == o.1)
  {
    var jars := idx[o.0];
    var same := set p | p in jars && jars[p] == o.1;
    if exists q :: q in jars && jars[q] == o.1 {
      var q :| q in jars && jars[q] == o.1;
      assert q in same;
    }
    assert jars.Keys != {};
  }

  /** What matching records for an observed class that several jars may provide. */
  ghost function AmbiguityOf(idx: Index, show: Observation -> string, o: Observation): Ambiguity {
    Ambiguity(Candidates(idx, o), show(o))
  }

  lemma CandidatesMet(idx: Index, seen: set<Observation>, show: Observation -> string, sets: seq<Ambiguity>, o: Observation)
    requires Keeps(sets, Ambiguities(idx, seen, show)) && Apart(Ambiguities(idx, seen, show), AmbiguityOf(idx, show, o))
    requires o in seen && Candidates(idx, o) != {}
    ensures Candidates(idx, o) * Resolve(JarSets(sets), Definite(idx, seen)) != {}
  {
    var c := Candidates(idx, o);
    var definite := Definite(idx, seen);
    ResolveAddsWholesale(JarSets(sets), definite);
    if |c| == 1 {
      var p :| p in c;
      assert p in definite;
      assert p in c * Resolve(JarSets(sets), definite);
    } else {
      assert |c| > 1;
      ApartKept(sets, Ambiguities(idx, seen, show), AmbiguityOf(idx, show, o));
      var i :| 0 <= i < |sets| && sets[i] == AmbiguityOf(idx, show, o);
      assert JarSets(sets)[i] == c;
      forall m | m in JarSets(sets) ensures m != {} { JarSetsOfKept(idx, seen, show, sets, m); }
      EverySetMet(JarSets(sets), definite);
    }
  }

  /**
   * Every observed class that is left in the index has a chosen jar that provides it, with the same hash if several
   * jars provide it and some agree; and that jar's GAV is reported unless it is allowed. The one condition is that the
   * class's candidates, if ambiguous, print like no other ambiguous set.
   */
  lemma Coverage(input: Input, f: Findings, index: Index, sets: seq<Ambiguity>, o: Observation)
    requires AnalysedVia(input, f, index, sets)
    requires var idx := Pruned(index, input.outputs);
             Apart(Ambiguities(idx, Observed(input.outputs), input.show), AmbiguityOf(idx, input.show, o))
    requires o in Observed(input.outputs) && Remains(input, o.0)
    ensures exists p :: p in f.chosen && Covers(input, f, o, p)
  {
    var idx, seen := Pruned(index, input.outputs), Observed(input.outputs);
    var j :| j in JarsOf(input) && HashIn(j, o.0).Some?;
    ProviderIndexed(JarsOf(input), o.0, j);
    assert Get(index, o.0, j.path).Some?;
    CandidatesFacts(idx, o);
    CandidatesMet(idx, seen, input.show, sets, o);
    var p :| p in Candidates(idx, o) * f.chosen;
    CoversCandidate(input, f, index, sets, o, p);
  }

  ghost predicate Covers(input: Input, f: Findings, o: Observation, p: Path) {
    && |p| >= 3
    && (exists h :: ProvidedBy(input, o.0, p, h) && HashPreferred(input, o, p, h))
    && (ReportedGav(p) in f.gavs || Allows(input.allowed, ReportedGav(p)))
  }

  /** If another jar provides the class too and some provider has the observed hash, then so does this one. */
  ghost predicate HashPreferred(input: Input, o: Observation, p: Path, h: string) {
    (exists q, h' :: q != p && ProvidedBy(input, o.0, q, h')) && (exists q :: ProvidedBy(input, o.0, q, o.1)) ==> h == o.1
  }

  lemma CoversCandidate(input: Input, f: Findings, index: Index, sets: seq<Ambiguity>, o: Observation, p: Path)
    requires AnalysedVia(input, f, index, sets)
    requires p in f.chosen && o.0 in Pruned(index, input.outputs) && p in Candidates(Pruned(index, input.outputs), o)
    ensures Covers(input, f, o, p)
  {
    var jars := index[o.0];
    CandidatesFacts(Pruned(index, input.outputs), o);
    assert Get(index, o.0, p) == Some(jars[p]);
    assert ProvidedBy(input, o.0, p, jars[p]);
    if (exists q, h' :: q != p && ProvidedBy(input, o.0, q, h')) && (exists q :: ProvidedBy(input, o.0, q, o.1)) {
      var q, h' :| q != p && ProvidedBy(input, o.0, q, h');
      assert Get(index, o.0, q) == Some(h');
      TwoKeys(jars, p, q);
      var r :| ProvidedBy(input, o.0, r, o.1);
      assert Get(index, o.0, r) == Some(o.1);
      assert r in jars && jars[r] == o.1;
    }
    assert HashPreferred(input, o, p, jars[p]);
    assert ReportedGav(p) in JarGavs(f.chosen);
  }

  lemma TwoKeys(m: map<Path, string>, p: Path, q: Path)
    requires p in m && q in m && p != q
    ensures |m| > 1
  {
    assert m.Keys == {p} + (m.Keys - {p});
    assert q in m.Keys - {p};
    assert |m.Keys| == |m|;
  }

  /** A chosen jar provides a class of the output that the build did not produce, and no directory above it was skipped. */
  lemma Soundness(input: Input, f: Findings, index: Index, sets: seq<Ambiguity>, p: Path)
    requires AnalysedVia(input, f, index, sets) && p in f.chosen
    ensures exists o, h :: o in Observed(input.outputs) && o.0 !in Produced(input.outputs) && ProvidedBy(input, o.0, p, h)
    ensures IsJar(p) && exists j :: j in input.repo.files && j.path == p
    ensures forall i | 0 <= i < |p| :: !BuiltHere(input.repo.remote, p[..i])
  {
    var idx, seen := Pruned(index, input.outputs), Observed(input.outputs);
    ChosenIsCandidate(idx, seen, input.show, sets, p);
    var o :| o in seen && p in Candidates(idx, o);
    CandidatesIndexed(index, input.outputs, o, p);
    assert ProvidedBy(input, o.0, p, Get(index, o.0, p).value);
    EntryIsJar(JarsOf(input), o.0, p);
    var j :| j in JarsOf(input) && j.path == p;
    JarsMeaning(input.repo.files, input.repo.remote, j);
  }

  /** Every reported GAV is backed by a tracking record. */
  lemma Backed(input: Input, f: Findings, index: Index, sets: seq<Ambiguity>, g: string)
    requires AnalysedVia(input, f, index, sets) && g in f.gavs
    ensures exists t :: Some(t) in f.tracking && t.gav == g
  {
    if g in JarGavs(f.chosen) {
      assert Some(Tracking(g, "community", map[])) in f.tracking;
    } else {
      var r :| r in Reported(input.outputs) && r.Some? && r.value.gav == g;
      assert Some(r.value) in f.tracking;
    }
  }

  /** The index pass billed every chosen jar under the GAV that the reporting pass gives it. */
  lemma Billing(input: Input, f: Findings, index: Index, sets: seq<Ambiguity>, p: Path)
    requires AnalysedVia(input, f, index, sets) && WellFormed(input.repo) && p in f.chosen
    ensures exists t :: t in f.buildGavs && t.gav == ReportedGav(p)
  {
    var j := JarOfChosen(input, f, index, sets, p);
    JarsMeaning(input.repo.files, input.repo.remote, j);
    SameGav(p);
    BilledJar(f.buildGavs, JarsOf(input), j);
  }

  lemma JarOfChosen(input: Input, f: Findings, index: Index, sets: seq<Ambiguity>, p: Path) returns (j: RepoFile)
    requires AnalysedVia(input, f, index, sets) && p in f.chosen
    ensures j in JarsOf(input) && j.path == p
  {
    ChosenIsCandidate(Pruned(index, input.outputs), Observed(input.outputs), input.show, sets, p);
    var o :| o in Observed(input.outputs) && p in Candidates(Pruned(index, input.outputs), o);
    CandidatesIndexed(index, input.outputs, o, p);
    EntryIsJar(JarsOf(input), o.0, p);
    j :| j in JarsOf(input) && j.path == p;
  }

  /** The greedy pass on the ambiguous sets of an analysis: minimal wholesale sets, and the approximation bound. */
  lemma GreedyQuality(input: Input, f: Findings, index: Index, sets: seq<Ambiguity>, jars: set<Path>, k: nat)
    requires AnalysedVia(input, f, index, sets)
    requires var idx, seen := Pruned(index, input.outputs), Observed(input.outputs); var d := Definite(idx, seen);
             && (forall m | m in Ambiguous(idx, seen) && m !! d :: m * jars != {})
             && (forall w | w in Wholesale(JarSets(sets), d) :: |w| <= k)
    ensures var idx, seen := Pruned(index, input.outputs), Observed(input.outputs); var d := Definite(idx, seen);
            && |f.chosen - d| <= k * |jars|
            && forall w, a | w in Wholesale(JarSets(sets), d) && a in JarSets(sets) && a <= w :: a == w
  {
    var idx, seen := Pruned(index, input.outputs), Observed(input.outputs);
    var d := Definite(idx, seen);
    forall m | m in JarSets(sets) ensures m in Ambiguous(idx, seen) && m != {} {
      JarSetsOfKept(idx, seen, input.show, sets, m);
    }
    ApproximationBound(JarSets(sets), d, jars, k);
    AscendingIsSmallestFirst(sets);
    forall w, a | w in Wholesale(JarSets(sets), d) && a in JarSets(sets) && a <= w ensures a == w {
      WholesaleMinimal(JarSets(sets), d, w, a);
    }
  }

  // ---- The order of visiting ----

  ghost predicate DistinctPaths(jars: seq<RepoFile>) {
    forall i, j | 0 <= i < j < |jars| :: jars[i].path != jars[j].path
  }

  lemma {:induction false} EntryOfDistinct(jars: seq<RepoFile>, f: RepoFile, s: string)
    requires DistinctPaths(jars) && f in jars
    ensures Entry(jars, s, f.path) == HashIn(f, s)
  {
    var init, last := jars[..|jars| - 1], jars[|jars| - 1];
    assert jars == init + [last];
    if f == last {
      if HashIn(f, s).None? { NoEntry(init, s, f.path); }
    } else {
      EntryOfDistinct(init, f, s);
    }
  }

  lemma {:induction false} NoEntry(jars: seq<RepoFile>, s: string, p: Path)
    requires forall j | j in jars :: j.path != p
    ensures Entry(jars, s, p).None?
  {
    if jars != [] {
      NoEntry(jars[..|jars| - 1], s, p);
    }
  }

  lemma SameEntries(jars: seq<RepoFile>, jars': seq<RepoFile>, s: string, p: Path)
    requires DistinctPaths(jars) && DistinctPaths(jars') && Elements(jars) == Elements(jars')
    ensures Entry(jars, s, p) == Entry(jars', s, p)
  {
    if exists f :: f in jars && f.path == p {
      var f :| f in jars && f.path == p;
      assert f in Elements(jars');
      EntryOfDistinct(jars, f, s);
      EntryOfDistinct(jars', f, s);
    } else {
      forall j | j in jars' ensures j.path != p { assert j in Elements(jars); }
      NoEntry(jars, s, p);
      NoEntry(jars', s, p);
    }
  }

  lemma SameIndex(index: Index, index': Index)
    requires NoHollow(index) && NoHollow(index')
    requires forall s, p :: Get(index, s, p) == Get(index', s, p)
    ensures index == index'
  {
    forall s | s in index ensures s in index' && index'[s] == index[s] { SameClass(index, index', s); }
    forall s | s in index' ensures s in index { SameClass(index', index, s); }
  }

  lemma SameClass(index: Index, index': Index, s: string)
    requires NoHollow(index) && s in index
    requires forall s, p :: Get(index, s, p) == Get(index', s, p)
    ensures s in index' && index'[s] == index[s]
  {
    var p :| p in index[s];
    assert Get(index', s, p).Some?;
    forall q ensures q in index[s] <==> q in index'[s] { assert Get(index, s, q) == Get(index', s, q); }
    forall q | q in index[s] ensures index'[s][q] == index[s][q] { assert Get(index, s, q) == Get(index', s, q); }
  }

  lemma SameBill(gavs: set<Tracking>, gavs': set<Tracking>, jars: seq<RepoFile>, jars': seq<RepoFile>)
    requires Billed(gavs, jars) && Billed(gavs', jars') && Elements(jars) == Elements(jars')
    ensures gavs == gavs'
  {
    assert forall f :: f in jars <==> f in Elements(jars);
    assert forall f :: f in jars' <==> f in Elements(jars');
  }

  /** The two analyses read the same jars and the same output, in whatever order. */
  ghost predicate SameContents(one: Input, two: Input) {
    && Elements(JarsOf(one)) == Elements(JarsOf(two)) && DistinctPaths(JarsOf(one)) && DistinctPaths(JarsOf(two))
    && Observed(one.outputs) == Observed(two.outputs)
    && Produced(one.outputs) == Produced(two.outputs)
    && Reported(one.outputs) == Reported(two.outputs)
    && one.allowedSources == two.allowedSources && one.allowed == two.allowed
  }

  /**
   * Whatever the order of both walks, an analysis finds the same index, definite jars, ambiguous sets, records of the
   * output with their community GAVs, and bill.
   */
  lemma ScanOrderIrrelevant(one: Input, two: Input, f: Findings, f': Findings,
                            index: Index, index': Index, sets: seq<Ambiguity>, sets': seq<Ambiguity>)
    requires AnalysedVia(one, f, index, sets) && AnalysedVia(two, f', index', sets') && SameContents(one, two)
    ensures index == index' && f.buildGavs == f'.buildGavs
    ensures var idx, idx' := Pruned(index, one.outputs), Pruned(index', two.outputs);
            && Definite(idx, Observed(one.outputs)) == Definite(idx', Observed(two.outputs))
            && Ambiguous(idx, Observed(one.outputs)) == Ambiguous(idx', Observed(two.outputs))
    ensures f.tracking == Reported(one.outputs) + JarRecords(f.chosen)
    ensures f'.tracking == Reported(one.outputs) + JarRecords(f'.chosen)
    ensures CommunityGavs(Reported(one.outputs), one.allowedSources) == CommunityGavs(Reported(two.outputs), two.allowedSources)
  {
    SameBill(f.buildGavs, f'.buildGavs, JarsOf(one), JarsOf(two));
    forall s, p ensures Get(index, s, p) == Get(index', s, p) { SameEntries(JarsOf(one), JarsOf(two), s, p); }
    SameIndex(index, index');
  }

  /** The same chosen jars give the same GAVs and records. */
  lemma ChosenDecides(one: Input, two: Input, f: Findings, f': Findings,
                      index: Index, index': Index, sets: seq<Ambiguity>, sets': seq<Ambiguity>)
    requires AnalysedVia(one, f, index, sets) && AnalysedVia(two, f', index', sets') && SameContents(one, two)
    requires f.chosen == f'.chosen
    ensures f.gavs == f'.gavs && f.tracking == f'.tracking
  {
  }

  /** After the same walk of the repository, the order in which the output is visited plays no part at all. */
  lemma OutputOrderIrrelevant(one: Input, two: Input, f: Findings, f': Findings,
                              index: Index, index': Index, sets: seq<Ambiguity>, sets': seq<Ambiguity>)
    requires AnalysedVia(one, f, index, sets) && AnalysedVia(two, f', index', sets') && SameContents(one, two)
    requires one.show == two.show && PrintApart(Ambiguities(Pruned(index, one.outputs), Observed(one.outputs), one.show))
    ensures sets == sets' && f == f'
  {
    ScanOrderIrrelevant(one, two, f, f', index, index', sets, sets');
    SameSets(sets, sets', Ambiguities(Pruned(index, one.outputs), Observed(one.outputs), one.show));
    ChosenDecides(one, two, f, f', index, index', sets, sets');
  }

  lemma SameSets(sets: seq<Ambiguity>, sets': seq<Ambiguity>, ambiguities: set<Ambiguity>)
    requires Keeps(sets, ambiguities) && Keeps(sets', ambiguities) && PrintApart(ambiguities)
    ensures sets == sets'
  {
    KeepsAllIff(sets, ambiguities);
    KeepsAllIff(sets', ambiguities);
    BySizeCompares();
    AscendingUnique(BySize, sets, sets');
  }

  // ---- The order of equally large ambiguous sets ----

  lemma KeptOrders(idx: Index, seen: set<Observation>, show: Observation -> string, sets: seq<Ambiguity>)
    requires Keeps(sets, Ambiguities(idx, seen, show)) && PrintApart(Ambiguities(idx, seen, show))
    ensures Orders(JarSets(sets), Ambiguous(idx, seen))
  {
    AscendingIsSmallestFirst(sets);
    KeepsAllIff(sets, Ambiguities(idx, seen, show));
    forall m | m in JarSets(sets) ensures m in Ambiguous(idx, seen) { JarSetsOfKept(idx, seen, show, sets, m); }
    forall m | m in Ambiguous(idx, seen) ensures m in JarSets(sets) {
      var o :| o in seen && |Candidates(idx, o)| > 1 && Candidates(idx, o) == m;
      assert Ambiguity(m, show(o)) in sets;
      var i :| 0 <= i < |sets| && sets[i] == Ambiguity(m, show(o));
      assert JarSets(sets)[i] == m;
    }
  }

  /**
   * However both walks go, and however hash sets print, the same jars are chosen and the same GAVs reported, if no two
   * different ambiguous sets of one size that are unmet when their turn comes share a jar (and none is lost by printing
   * like another).
   */
  lemma ClashlessWalksAgree(one: Input, two: Input, f: Findings, f': Findings,
                            index: Index, index': Index, sets: seq<Ambiguity>, sets': seq<Ambiguity>)
    requires AnalysedVia(one, f, index, sets) && AnalysedVia(two, f', index', sets') && SameContents(one, two)
    requires var idx, seen := Pruned(index, one.outputs), Observed(one.outputs);
             && PrintApart(Ambiguities(idx, seen, one.show)) && PrintApart(Ambiguities(idx, seen, two.show))
             && Clashless(Ambiguous(idx, seen), Definite(idx, seen))
    ensures f == f'
  {
    var idx, seen := Pruned(index, one.outputs), Observed(one.outputs);
    ScanOrderIrrelevant(one, two, f, f', index, index', sets, sets');
    KeptOrders(idx, seen, one.show, sets);
    KeptOrders(idx, seen, two.show, sets');
    ClashlessChooses(JarSets(sets), JarSets(sets'), Ambiguous(idx, seen), Definite(idx, seen));
    ChosenDecides(one, two, f, f', index, index', sets, sets');
  }
}
