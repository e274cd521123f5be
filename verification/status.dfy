/** The status of a ComponentBuild as a pure function of the store, and how the handlers relate to it. */
module Status {
  import opened Wrappers
  import opened Cluster
  import opened Handlers

  ghost function Resolved(s: Store, ab: Name): Option<Name> {
    DependencyBuildOf(s, ab, true, true)
  }

  ghost function StatusOf(s: Store, gav: Gav): ArtifactState {
    var ab := s.abrName(gav);
    if ab in s.abs then StateOf(s, ab, true, true) else ArtifactState(ab, false, false, false)
  }

  /** The positions among the first `n` of a spec whose artifact is neither done nor failed; duplicates count each time. */
  ghost function PendingPositions(s: Store, artifacts: seq<Gav>, n: nat): set<int>
    requires n <= |artifacts|
  {
    set i | 0 <= i < n && StatusOf(s, artifacts[i]).Pending()
  }

  ghost function StatesOf(s: Store, gavs: set<Gav>): map<Gav, ArtifactState> {
    map g | g in gavs :: StatusOf(s, g)
  }

  ghost predicate Settled(s: Store, cb: ComponentBuild) {
    forall g | g in Artifacts(cb) :: !StatusOf(s, g).Pending()
  }

  ghost function VerdictOf(s: Store, cb: ComponentBuild): Verdict {
    if !Settled(s, cb) then InProgress
    else if exists g :: g in Artifacts(cb) && StatusOf(s, g).failed then Failed
    else Complete
  }

  /** The status an error-free reconcile publishes, read off the store it starts from. */
  ghost function StatusFor(s: Store, cb: ComponentBuild): ComponentBuildStatus {
    ComponentBuildStatus(
      VerdictOf(s, cb),
      |PendingPositions(s, cb.spec.artifacts, |cb.spec.artifacts|)|,
      StatesOf(s, Artifacts(cb)),
      if cb.status.message == NoConfig then NoMessage else cb.status.message,
      Settled(s, cb) && cb.status.resultNotified)
  }

  /** The published verdict, count and states are those of the store as it is. */
  ghost predicate UpToDate(t: Store, c: ComponentBuild) {
    && c.status.state == VerdictOf(t, c)
    && c.status.outstanding == |PendingPositions(t, c.spec.artifacts, |c.spec.artifacts|)|
    && c.status.artifactState == StatesOf(t, Artifacts(c))
  }

  /** The verdict is still open, and what is counted as outstanding is at least what is. */
  ghost predicate StillOpen(t: Store, c: ComponentBuild) {
    && c.status.state == InProgress && c.status.outstanding > 0
    && c.status.outstanding >= |PendingPositions(t, c.spec.artifacts, |c.spec.artifacts|)|
    && c.status.artifactState.Keys == Artifacts(c)
  }

  /** What a ComponentBuild may be found to publish: what it did before, up to message and flag, or something sound. */
  ghost predicate Publishes(t: Store, c: ComponentBuild, before: ComponentBuildStatus) {
    || c.status == before.(message := c.status.message, resultNotified := c.status.resultNotified)
    || StillOpen(t, c)
    || UpToDate(t, c)
  }

  /** A deploy task as the controller creates it, for a built artifact whose DependencyBuild carries no mark. */
  ghost predicate FreshDeploy(t: Store, tr: TaskRun) {
    exists ab, d :: IsDeployOf(t, tr, ab, d) && Mark(t.dbs[d]) == ""
  }

  ghost predicate IsDeployOf(t: Store, tr: TaskRun, ab: Name, d: Name) {
    && tr.labels == map[DeployTask := d] && tr.owners == [OwnerRef(ArtifactBuildKind, ab)]
    && !tr.completed && tr.succeeded == Unknown
    && tr.params.artifact == ab && tr.params.force == "false"
    && tr.params.repo == Lookup(t.config, MavenRepo)
    && tr.params.domain == Lookup(t.config, AwsDomain) && tr.params.owner == Lookup(t.config, AwsOwner)
    && ab in t.abs && t.abs[ab].state == BuildComplete
    && Resolved(t, ab) == Some(d)
  }

  /** A success notice needs every artifact done; a failure notice lists each failed artifact once. */
  ghost predicate Truthful(t: Store, cb: ComponentBuild, notice: Notice) {
    match notice
    case NoText => false
    case Retest => forall g | g in Artifacts(cb) :: StatusOf(t, g).Done()
    case FailedBuilds(gavs) =>
      && gavs != [] && Settled(t, cb)
      && Enumerates(gavs, set g | g in Artifacts(cb) && StatusOf(t, g).failed)
  }

  ghost predicate FreshNotice(t: Store, pr: PipelineRun) {
    exists cb :: cb in t.cbs && IsNoticeOf(t, pr, cb)
  }

  ghost predicate IsNoticeOf(t: Store, pr: PipelineRun, cb: Name)
    requires cb in t.cbs
  {
    && pr.labels == map[NotifyPipeline := cb] && pr.owners == [OwnerRef(ComponentBuildKind, cb)]
    && !pr.completed && pr.succeeded == Unknown
    && pr.url == t.cbs[cb].spec.prUrl != ""
    && Truthful(t, t.cbs[cb], pr.notice)
  }

  /** Everything handling ComponentBuilds can do to a store. */
  ghost predicate Extends(s: Store, t: Store) {
    && t.abrName == s.abrName && t.config == s.config && t.ras == s.ras && t.dbs == s.dbs
    && SameSpecs(s, t)
    && (forall k | k in s.abs :: k in t.abs && t.abs[k] == s.abs[k])
    && (forall k | k in t.abs && k !in s.abs :: t.abs[k].state == Unset && t.abrName(t.abs[k].gav) == k)
    && (forall r | r in s.trs :: r in t.trs && t.trs[r] == s.trs[r])
    && (forall r | r in t.trs && r !in s.trs :: FreshDeploy(t, t.trs[r]))
    && (forall r | r in s.prs :: r in t.prs && t.prs[r] == s.prs[r])
    && (forall r | r in t.prs && r !in s.prs :: FreshNotice(t, t.prs[r]))
  }

  ghost predicate SameSpecs(s: Store, t: Store) {
    && t.cbs.Keys == s.cbs.Keys
    && forall n | n in s.cbs :: t.cbs[n].spec == s.cbs[n].spec
  }

  /** Handling ComponentBuilds never changes what any artifact's status is. */
  lemma StatusStable(s: Store, t: Store, gav: Gav)
    requires Extends(s, t)
    ensures StatusOf(t, gav) == StatusOf(s, gav)
  {
  }

  lemma FreshDeployStable(s: Store, t: Store, tr: TaskRun)
    requires Extends(s, t) && FreshDeploy(s, tr)
    ensures FreshDeploy(t, tr)
  {
    var ab, d :| IsDeployOf(s, tr, ab, d) && Mark(s.dbs[d]) == "";
    assert IsDeployOf(t, tr, ab, d);
  }

  lemma TruthfulStable(s: Store, t: Store, c: ComponentBuild, c': ComponentBuild, notice: Notice)
    requires Extends(s, t) && Truthful(s, c, notice) && c'.spec == c.spec
    ensures Truthful(t, c', notice)
  {
    forall g ensures StatusOf(t, g) == StatusOf(s, g) { StatusStable(s, t, g); }
    assert (set g | g in Artifacts(c) && StatusOf(t, g).failed) == (set g | g in Artifacts(c) && StatusOf(s, g).failed);
    assert Artifacts(c) == Artifacts(c');
  }

  lemma FreshNoticeStable(s: Store, t: Store, pr: PipelineRun)
    requires Extends(s, t) && FreshNotice(s, pr)
    ensures FreshNotice(t, pr)
  {
    var cb :| cb in s.cbs && IsNoticeOf(s, pr, cb);
    TruthfulStable(s, t, s.cbs[cb], t.cbs[cb], pr.notice);
    assert IsNoticeOf(t, pr, cb);
  }

  lemma ExtendsTransitive(s: Store, t: Store, u: Store)
    requires Extends(s, t) && Extends(t, u)
    ensures Extends(s, u)
  {
    forall r | r in u.trs && r !in s.trs ensures FreshDeploy(u, u.trs[r]) {
      if r in t.trs { FreshDeployStable(t, u, t.trs[r]); }
    }
    forall r | r in u.prs && r !in s.prs ensures FreshNotice(u, u.prs[r]) {
      if r in t.prs { FreshNoticeStable(t, u, t.prs[r]); }
    }
  }

  lemma DeployExtends(s: Store, ab: Name, c: ArtifactCalls)
    requires ab in s.abs && s.abs[ab].state == BuildComplete
    ensures Extends(s, Deploy(s, ab, c))
  {
    var t := Deploy(s, ab, c);
    forall r | r in t.trs && r !in s.trs ensures FreshDeploy(t, t.trs[r]) {
      var d := DependencyBuildOf(s, ab, c.deployRa, c.deployDb).value;
      assert IsDeployOf(t, t.trs[r], ab, d);
    }
  }

  lemma CreateExtends(s: Store, gav: Gav)
    requires s.abrName(gav) !in s.abs
    ensures Extends(s, s.(abs := s.abs[s.abrName(gav) := ArtifactBuild(gav, Unset)]))
  {
  }

  lemma ExtendsReflexive(s: Store)
    ensures Extends(s, s)
  {
  }

  lemma ScanOneExtends(p: Scan, gav: Gav, c: ArtifactCalls)
    ensures Extends(p.store, ScanOne(p, gav, c).store)
  {
    var s := p.store;
    var ab := s.abrName(gav);
    ExtendsReflexive(s);
    if c.get {
      if ab !in s.abs {
        CreateExtends(s, gav);
      } else if s.abs[ab].state == BuildComplete {
        DeployExtends(s, ab, c);
      }
    }
  }

  lemma {:induction false} ScanExtends(s: Store, artifacts: seq<Gav>, calls: nat -> ArtifactCalls, n: nat)
    requires n <= |artifacts|
    ensures Extends(s, ScanFirst(s, artifacts, calls, n).store)
  {
    if n > 0 {
      ScanExtends(s, artifacts, calls, n - 1);
      var p := ScanFirst(s, artifacts, calls, n - 1);
      if !p.err {
        ScanOneExtends(p, artifacts[n - 1], calls(n - 1));
        ExtendsTransitive(s, p.store, ScanOne(p, artifacts[n - 1], calls(n - 1)).store);
      }
    }
  }

  /** What the first `n` rounds have gathered, whatever calls failed. */
  ghost predicate Gathered(s: Store, artifacts: seq<Gav>, n: nat, p: Scan)
    requires n <= |artifacts|
  {
    && p.states.Keys == Named(artifacts[..n])
    && p.outstanding >= |PendingPositions(s, artifacts, n)|
    && (p.outstanding == 0 ==> forall g | g in p.states :: p.states[g] == StatusOf(s, g) && !p.states[g].Pending())
  }

  /** What an error-free scan of the first `n` positions has gathered. */
  ghost predicate GatheredExactly(s: Store, artifacts: seq<Gav>, n: nat, p: Scan)
    requires n <= |artifacts|
  {
    && !p.err
    && p.outstanding == |PendingPositions(s, artifacts, n)|
    && p.states == StatesOf(s, Named(artifacts[..n]))
  }

  lemma PendingStep(s: Store, artifacts: seq<Gav>, n: nat)
    requires 0 < n <= |artifacts|
    ensures |PendingPositions(s, artifacts, n)|
         == |PendingPositions(s, artifacts, n - 1)| + if StatusOf(s, artifacts[n - 1]).Pending() then 1 else 0
  {
    var a, b := PendingPositions(s, artifacts, n - 1), PendingPositions(s, artifacts, n);
    assert b == if StatusOf(s, artifacts[n - 1]).Pending() then a + {n - 1} else a;
  }

  lemma PrefixStep(artifacts: seq<Gav>, n: nat)
    requires 0 < n <= |artifacts|
    ensures Named(artifacts[..n]) == Named(artifacts[..n - 1]) + {artifacts[n - 1]}
  {
    assert artifacts[..n] == artifacts[..n - 1] + [artifacts[n - 1]];
  }

  lemma ScanKeepsStatus(s: Store, artifacts: seq<Gav>, calls: nat -> ArtifactCalls, n: nat, gav: Gav)
    requires n <= |artifacts|
    ensures StatusOf(ScanFirst(s, artifacts, calls, n).store, gav) == StatusOf(s, gav)
  {
    ScanExtends(s, artifacts, calls, n);
    StatusStable(s, ScanFirst(s, artifacts, calls, n).store, gav);
  }

  lemma {:induction false} ScanGathersSome(s: Store, artifacts: seq<Gav>, calls: nat -> ArtifactCalls, n: nat)
    requires n <= |artifacts| && !ScanFirst(s, artifacts, calls, n).err
    ensures Gathered(s, artifacts, n, ScanFirst(s, artifacts, calls, n))
    decreases n
  {
    if n > 0 {
      ScanGathersSome(s, artifacts, calls, n - 1);
      ScanKeepsStatus(s, artifacts, calls, n - 1, artifacts[n - 1]);
      PendingStep(s, artifacts, n);
      PrefixStep(artifacts, n);
      ScanOneGathers(s, ScanFirst(s, artifacts, calls, n - 1), artifacts, n, calls(n - 1));
    }
  }

  lemma {:induction false} ScanGathersAll(s: Store, artifacts: seq<Gav>, calls: nat -> ArtifactCalls, n: nat)
    requires n <= |artifacts| && forall i :: CleanArtifact(calls(i))
    ensures GatheredExactly(s, artifacts, n, ScanFirst(s, artifacts, calls, n))
    decreases n
  {
    if n > 0 {
      ScanGathersAll(s, artifacts, calls, n - 1);
      ScanKeepsStatus(s, artifacts, calls, n - 1, artifacts[n - 1]);
      PendingStep(s, artifacts, n);
      PrefixStep(artifacts, n);
      ScanOneGathers(s, ScanFirst(s, artifacts, calls, n - 1), artifacts, n, calls(n - 1));
    }
  }

  lemma ScanGathers(s: Store, artifacts: seq<Gav>, calls: nat -> ArtifactCalls, n: nat)
    requires n <= |artifacts|
    ensures var p := ScanFirst(s, artifacts, calls, n);
            && (!p.err ==> Gathered(s, artifacts, n, p))
            && ((forall i :: CleanArtifact(calls(i))) ==> GatheredExactly(s, artifacts, n, p))
  {
    if !ScanFirst(s, artifacts, calls, n).err { ScanGathersSome(s, artifacts, calls, n); }
    if forall i :: CleanArtifact(calls(i)) { ScanGathersAll(s, artifacts, calls, n); }
  }

  lemma ScanOneGathers(s: Store, p: Scan, artifacts: seq<Gav>, n: nat, c: ArtifactCalls)
    requires 0 < n <= |artifacts| && !p.err
    requires StatusOf(p.store, artifacts[n - 1]) == StatusOf(s, artifacts[n - 1])
    requires |PendingPositions(s, artifacts, n)|
          == |PendingPositions(s, artifacts, n - 1)| + if StatusOf(s, artifacts[n - 1]).Pending() then 1 else 0
    requires Named(artifacts[..n]) == Named(artifacts[..n - 1]) + {artifacts[n - 1]}
    ensures var q := ScanOne(p, artifacts[n - 1], c);
            && (Gathered(s, artifacts, n - 1, p) && !q.err ==> Gathered(s, artifacts, n, q))
            && (GatheredExactly(s, artifacts, n - 1, p) && CleanArtifact(c) ==> GatheredExactly(s, artifacts, n, q))
  {
    var g := artifacts[n - 1];
    var q := ScanOne(p, g, c);
    if !q.err {
      var a := q.states[g];
      assert q.states == p.states[g := a];
      assert q.outstanding == p.outstanding + if a.Pending() then 1 else 0;
      assert !a.Pending() ==> a == StatusOf(s, g);
    }
  }

  /** Filtering an enumeration of the states keeps each failed GAV, once. */
  lemma {:induction false} FailedInLists(range: seq<Gav>, states: map<Gav, ArtifactState>)
    requires forall i, j | 0 <= i < j < |range| :: range[i] != range[j]
    ensures Enumerates(FailedIn(range, states), set g | g in range && g in states && states[g].failed)
  {
    if range != [] {
      var init, g := range[..|range| - 1], range[|range| - 1];
      FailedInLists(init, states);
      assert range == init + [g];
      var rest := FailedIn(init, states);
      assert FailedIn(range, states) == if g in states && states[g].failed then rest + [g] else rest;
      forall x ensures x in FailedIn(range, states) <==> x in range && x in states && states[x].failed {
        assert x in range <==> x in init || x == g;
        assert x in rest <==> x in init && x in states && states[x].failed;
      }
      assert g !in rest;
    }
  }

  /** The status computed from a scan is the declared one when nothing is outstanding or no call failed. */
  lemma StatusFromGathered(s: Store, c: ComponentBuild, p: Scan)
    requires var n := |c.spec.artifacts|;
             (Gathered(s, c.spec.artifacts, n, p) && p.outstanding == 0) || GatheredExactly(s, c.spec.artifacts, n, p)
    ensures StatusFrom(c.status, p) == StatusFor(s, c)
  {
    var arts := c.spec.artifacts;
    assert arts[..|arts|] == arts;
    SettledIffNonePending(s, c);
    assert p.states == StatesOf(s, Artifacts(c));
    if AnyFailed(p.states) {
      var g :| g in p.states && p.states[g].failed;
      assert g in Artifacts(c) && StatusOf(s, g).failed;
    } else {
      assert forall g | g in Artifacts(c) :: g in p.states && !p.states[g].failed;
    }
  }

  /** Outstanding counts positions, yet it is zero exactly when every distinct artifact is done or failed. */
  lemma SettledIffNonePending(s: Store, c: ComponentBuild)
    ensures Settled(s, c) <==> |PendingPositions(s, c.spec.artifacts, |c.spec.artifacts|)| == 0
  {
    var arts := c.spec.artifacts;
    var pending := PendingPositions(s, arts, |arts|);
    if Settled(s, c) {
      assert forall i | 0 <= i < |arts| :: arts[i] in Artifacts(c);
      assert pending == {};
    } else {
      var g :| g in Artifacts(c) && StatusOf(s, g).Pending();
      var i :| 0 <= i < |arts| && arts[i] == g;
      assert i in pending;
    }
  }

  lemma FullScanFacts(s: Store, cb: Name, calls: CbCalls)
    requires cb in s.cbs
    ensures var p := FullScan(s, cb, calls); var c := s.cbs[cb];
            && Extends(s, p.store)
            && (!p.err ==> Gathered(s, c.spec.artifacts, |c.spec.artifacts|, p))
            && (Clean(calls) ==> !p.err)
            && (!p.err && (p.outstanding == 0 || Clean(calls)) ==> StatusFrom(c.status, p) == StatusFor(s, c))
  {
    var c := s.cbs[cb];
    var n := |c.spec.artifacts|;
    var p := FullScan(s, cb, calls);
    ScanExtends(s, c.spec.artifacts, calls.artifact, n);
    ScanGathers(s, c.spec.artifacts, calls.artifact, n);
    if !p.err && (p.outstanding == 0 || Clean(calls)) {
      StatusFromGathered(s, c, p);
    }
  }

  /** A notice made from the true status of a settled ComponentBuild tells the truth. */
  lemma NoticeTruthful(s: Store, c: ComponentBuild, range: seq<Gav>)
    requires Settled(s, c) && Enumerates(range, Artifacts(c))
    ensures Truthful(s, c, NoticeFor(VerdictOf(s, c), range, StatesOf(s, Artifacts(c))))
  {
    var states := StatesOf(s, Artifacts(c));
    FailedInLists(range, states);
    assert (set g | g in range && g in states && states[g].failed)
        == (set g | g in Artifacts(c) && StatusOf(s, g).failed);
    if VerdictOf(s, c) == Failed {
      var g :| g in Artifacts(c) && StatusOf(s, g).failed;
      assert g in FailedIn(range, states);
    } else {
      forall g | g in Artifacts(c) ensures StatusOf(s, g).Done() {
        assert !StatusOf(s, g).Pending();
      }
    }
  }

  /** Runs play no part in what is true of artifacts. */
  lemma TruthfulSame(s: Store, t: Store, c: ComponentBuild, notice: Notice)
    requires t == s.(prs := t.prs)
    requires Truthful(s, c, notice)
    ensures Truthful(t, c, notice)
  {
    forall g ensures StatusOf(t, g) == StatusOf(s, g) {}
    assert (set g | g in Artifacts(c) && StatusOf(t, g).failed) == (set g | g in Artifacts(c) && StatusOf(s, g).failed);
  }

  lemma NewNoticeExtends(s: Store, cb: Name, run: Name, notice: Notice)
    requires cb in s.cbs && s.cbs[cb].spec.prUrl != "" && run !in s.prs
    requires Truthful(s, s.cbs[cb], notice)
    ensures Extends(s, s.(prs := s.prs[run := NotifierFor(cb, s.cbs[cb].spec.prUrl, notice)]))
  {
    var t := s.(prs := s.prs[run := NotifierFor(cb, s.cbs[cb].spec.prUrl, notice)]);
    TruthfulSame(s, t, s.cbs[cb], notice);
    assert IsNoticeOf(t, t.prs[run], cb);
  }

  lemma NotifyExtends(s: Store, cb: Name, st: ComponentBuildStatus, calls: CbCalls)
    requires cb in s.cbs && Ranged(s.cbs[cb], calls)
    requires Settled(s, s.cbs[cb])
    requires st.state == VerdictOf(s, s.cbs[cb]) && st.artifactState == StatesOf(s, Artifacts(s.cbs[cb]))
    ensures Extends(s, Notify(s, cb, s.cbs[cb].spec.prUrl, st, calls).store)
  {
    if s.cbs[cb].spec.prUrl == "" || !calls.list || NoticeInFlight(s, cb) || calls.notify.Rejected? {
      ExtendsReflexive(s);
    } else {
      NoticeTruthful(s, s.cbs[cb], calls.range);
      NewNoticeExtends(s, cb, FreshName(calls.runName, s.prs.Keys), NoticeFor(st.state, calls.range, st.artifactState));
    }
  }

  lemma PutStatusExtends(s: Store, cb: Name, st: ComponentBuildStatus, w: Write)
    requires cb in s.cbs
    ensures Extends(s, PutStatus(s, cb, st, w).store)
  {
  }

  /** The same artifacts have the same states in a store that extends this one. */
  lemma SameStatusFor(s: Store, t: Store, c: ComponentBuild, c': ComponentBuild)
    requires Extends(s, t) && c.spec.artifacts == c'.spec.artifacts
    ensures StatesOf(t, Artifacts(c')) == StatesOf(s, Artifacts(c))
    ensures Settled(t, c') <==> Settled(s, c)
    ensures VerdictOf(t, c') == VerdictOf(s, c)
    ensures var n := |c.spec.artifacts|; PendingPositions(t, c'.spec.artifacts, n) == PendingPositions(s, c.spec.artifacts, n)
  {
    forall g ensures StatusOf(t, g) == StatusOf(s, g) { StatusStable(s, t, g); }
  }

  lemma AnnounceExtends(s: Store, cb: Name, calls: CbCalls)
    requires cb in s.cbs && Ranged(s.cbs[cb], calls)
    requires !FullScan(s, cb, calls).err
    ensures Extends(s, Announce(FullScan(s, cb, calls), cb, s.cbs[cb], calls).store)
  {
    var p := FullScan(s, cb, calls);
    FullScanFacts(s, cb, calls);
    if p.outstanding == 0 {
      SettledIffNonePending(s, s.cbs[cb]);
      SameStatusFor(s, p.store, s.cbs[cb], p.store.cbs[cb]);
      NotifyExtends(p.store, cb, StatusFrom(s.cbs[cb].status, p), calls);
      var n := Announce(p, cb, s.cbs[cb], calls);
      ExtendsReflexive(p.store);
      ExtendsTransitive(s, p.store, n.store);
    }
  }

  lemma FinishedExtends(s: Store, cb: Name, calls: CbCalls)
    requires cb in s.cbs && Ranged(s.cbs[cb], calls)
    requires !FullScan(s, cb, calls).err && !Announce(FullScan(s, cb, calls), cb, s.cbs[cb], calls).err
    ensures var p := FullScan(s, cb, calls);
            Extends(s, PutStatus(Announce(p, cb, s.cbs[cb], calls).store, cb, StatusFrom(s.cbs[cb].status, p), calls.status).store)
  {
    var p := FullScan(s, cb, calls);
    var n := Announce(p, cb, s.cbs[cb], calls);
    var st := StatusFrom(s.cbs[cb].status, p);
    AnnounceExtends(s, cb, calls);
    PutStatusExtends(n.store, cb, st, calls.status);
    ExtendsTransitive(s, n.store, PutStatus(n.store, cb, st, calls.status).store);
  }

  lemma HandleOnlyExtends(s: Store, cb: Name, calls: CbCalls)
    requires cb in s.cbs && Ranged(s.cbs[cb], calls)
    ensures Extends(s, HandleComponentBuild(s, cb, calls).store)
  {
    if !calls.config {
      ExtendsReflexive(s);
    } else if !Configured(s.config) {
      PutStatusExtends(s, cb, s.cbs[cb].status.(message := NoConfig), calls.status);
    } else if FullScan(s, cb, calls).err {
      FullScanFacts(s, cb, calls);
    } else if Announce(FullScan(s, cb, calls), cb, s.cbs[cb], calls).err {
      AnnounceExtends(s, cb, calls);
    } else {
      FinishedExtends(s, cb, calls);
    }
  }

  /** No ComponentBuild but this one changes, and of this one only the status. */
  ghost predicate TouchesOnly(s: Store, t: Store, cb: Name)
    requires cb in s.cbs
  {
    cb in t.cbs && t.cbs == s.cbs[cb := s.cbs[cb].(status := t.cbs[cb].status)]
  }

  lemma NothingTouched(s: Store, t: Store, cb: Name)
    requires cb in s.cbs && t.cbs == s.cbs
    ensures TouchesOnly(s, t, cb)
  {
  }

  lemma StatusTouches(s: Store, u: Store, cb: Name, st: ComponentBuildStatus, w: Write)
    requires cb in s.cbs && u.cbs == s.cbs
    ensures TouchesOnly(s, PutStatus(u, cb, st, w).store, cb)
  {
  }

  lemma HandleTouchesOnly(s: Store, cb: Name, calls: CbCalls)
    requires cb in s.cbs
    ensures TouchesOnly(s, HandleComponentBuild(s, cb, calls).store, cb)
  {
    if !calls.config || (Configured(s.config) && FullScan(s, cb, calls).err) {
      NothingTouched(s, HandleComponentBuild(s, cb, calls).store, cb);
    } else if !Configured(s.config) {
      StatusTouches(s, s, cb, s.cbs[cb].status.(message := NoConfig), calls.status);
    } else {
      var p := FullScan(s, cb, calls);
      var n := Announce(p, cb, s.cbs[cb], calls);
      if n.err {
        NothingTouched(s, n.store, cb);
      } else {
        StatusTouches(s, n.store, cb, StatusFrom(s.cbs[cb].status, p), calls.status);
      }
    }
  }

  /** Handling one ComponentBuild extends the store and touches no other ComponentBuild. */
  lemma HandleExtends(s: Store, cb: Name, calls: CbCalls)
    requires cb in s.cbs && Ranged(s.cbs[cb], calls)
    ensures var t := HandleComponentBuild(s, cb, calls).store;
            && Extends(s, t)
            && t.cbs == s.cbs[cb := s.cbs[cb].(status := t.cbs[cb].status)]
  {
    HandleOnlyExtends(s, cb, calls);
    HandleTouchesOnly(s, cb, calls);
  }
}
