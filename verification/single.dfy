/** Properties of handling one ComponentBuild. */
module SingleReconcile {
  import opened Wrappers
  import opened Cluster
  import opened Handlers
  import opened Status

  // ---- At most one run in flight ----

  ghost predicate OneDeploy(s: Store) {
    forall d, r, r' | r in s.trs && r' in s.trs && Deploying(s.trs[r], d) && Deploying(s.trs[r'], d) :: r == r'
  }

  ghost predicate OneNotice(s: Store) {
    forall n, r, r' | r in s.prs && r' in s.prs && Notifying(s.prs[r], n) && Notifying(s.prs[r'], n) :: r == r'
  }

  ghost predicate OneRunEach(s: Store) {
    OneDeploy(s) && OneNotice(s)
  }

  lemma DeployKeepsOne(s: Store, ab: Name, c: ArtifactCalls)
    requires OneRunEach(s)
    ensures OneRunEach(Deploy(s, ab, c))
  {
  }

  /** Several artifacts of one DependencyBuild in one loop still start one deploy. */
  lemma {:induction false} ScanKeepsOne(s: Store, artifacts: seq<Gav>, calls: nat -> ArtifactCalls, n: nat)
    requires n <= |artifacts| && OneRunEach(s)
    ensures OneRunEach(ScanFirst(s, artifacts, calls, n).store)
  {
    if n > 0 {
      ScanKeepsOne(s, artifacts, calls, n - 1);
      var p := ScanFirst(s, artifacts, calls, n - 1);
      if !p.err {
        DeployKeepsOne(p.store, p.store.abrName(artifacts[n - 1]), calls(n - 1));
      }
    }
  }

  lemma NotifyKeepsOne(s: Store, cb: Name, url: string, st: ComponentBuildStatus, calls: CbCalls)
    requires OneRunEach(s)
    ensures OneRunEach(Notify(s, cb, url, st, calls).store)
  {
  }

  lemma StatusKeepsOne(s: Store, cb: Name, st: ComponentBuildStatus, w: Write)
    requires cb in s.cbs && OneRunEach(s)
    ensures OneRunEach(PutStatus(s, cb, st, w).store)
  {
  }

  lemma HandleKeepsOne(s: Store, cb: Name, calls: CbCalls)
    requires cb in s.cbs && OneRunEach(s)
    ensures OneRunEach(HandleComponentBuild(s, cb, calls).store)
  {
    var c := s.cbs[cb];
    if calls.config && Configured(s.config) {
      ScanKeepsOne(s, c.spec.artifacts, calls.artifact, |c.spec.artifacts|);
      var p := FullScan(s, cb, calls);
      if !p.err {
        NotifyKeepsOne(p.store, cb, c.spec.prUrl, StatusFrom(c.status, p), calls);
        var n := Announce(p, cb, c, calls);
        assert OneRunEach(n.store);
        if !n.err {
          StatusKeepsOne(n.store, cb, StatusFrom(c.status, p), calls.status);
        }
      }
    } else if calls.config {
      StatusKeepsOne(s, cb, c.status.(message := NoConfig), calls.status);
    }
  }

  // ---- Fault tolerance ----

  /** Whatever calls fail, what gets published never claims more than the store supports. */
  lemma FaultTolerantVerdict(s: Store, cb: Name, calls: CbCalls)
    requires cb in s.cbs && Ranged(s.cbs[cb], calls) && Configured(s.config)
    ensures var t := HandleComponentBuild(s, cb, calls).store;
            var st, best := t.cbs[cb].status, StatusFor(s, s.cbs[cb]);
            || t.cbs == s.cbs
            || (&& st.outstanding >= best.outstanding
                && (st.state in {Complete, Failed} ==> st == best)
                && (st.state !in {Complete, Failed} ==> st.state == InProgress && !st.resultNotified))
  {
    FullScanFacts(s, cb, calls);
    HandleExtends(s, cb, calls);
  }

  /** A read that fails inside the loop makes the result no better: more outstanding, never a new verdict. */
  lemma FaultsOnlyDelay(s: Store, cb: Name, calls: CbCalls, clean: CbCalls)
    requires cb in s.cbs && Clean(clean)
    requires !FullScan(s, cb, calls).err
    ensures FullScan(s, cb, calls).outstanding >= FullScan(s, cb, clean).outstanding
    ensures FullScan(s, cb, calls).outstanding == 0 ==>
              StatusFrom(s.cbs[cb].status, FullScan(s, cb, calls)) == StatusFrom(s.cbs[cb].status, FullScan(s, cb, clean))
  {
    FullScanFacts(s, cb, calls);
    FullScanFacts(s, cb, clean);
  }

  // ---- Error-free handling ----

  /** What an error-free reconcile makes of a ComponentBuild. */
  ghost function Updated(s: Store, cb: Name): ComponentBuild
    requires cb in s.cbs
  {
    var c := s.cbs[cb];
    c.(status := if Configured(s.config) then StatusFor(s, c) else c.status.(message := NoConfig))
  }

  /** The loop creates objects as it goes, yet the status it publishes is a function of the store it started from. */
  lemma LoopRefinesStatus(s: Store, cb: Name, calls: CbCalls)
    requires cb in s.cbs && Ranged(s.cbs[cb], calls) && Clean(calls)
    ensures var r := HandleComponentBuild(s, cb, calls);
            !r.err && r.store.cbs == s.cbs[cb := Updated(s, cb)]
  {
    FullScanFacts(s, cb, calls);
    HandleExtends(s, cb, calls);
  }

  /** The last owner that is a DependencyBuild is this one. */
  ghost predicate OwnedBy(owners: seq<OwnerRef>, d: Name) {
    d != "" && exists i :: 0 <= i < |owners| && owners[i] == OwnerRef(DependencyBuildKind, d)
                           && forall j | i < j < |owners| :: owners[j].kind != DependencyBuildKind
  }

  /** The artifact was rebuilt and its DependencyBuild is marked, read off the objects. */
  ghost predicate DeployedFor(s: Store, ab: Name, d: Name) {
    && ab in s.abs && s.abs[ab].state == BuildComplete
    && ab in s.ras && OwnedBy(s.ras[ab].owners, d)
    && d in s.dbs && DeployedKey in s.dbs[d].annotations && s.dbs[d].annotations[DeployedKey] == "true"
  }

  ghost predicate IsDeployed(s: Store, gav: Gav) {
    exists d :: DeployedFor(s, s.abrName(gav), d)
  }

  ghost predicate IsFailed(s: Store, gav: Gav) {
    var ab := s.abrName(gav);
    ab in s.abs && s.abs[ab].state in {BuildFailed, Missing}
  }

  lemma {:induction false} LastOwnerMeaning(owners: seq<OwnerRef>, d: Name)
    ensures OwnedBy(owners, d) <==> d != "" && LastDependencyOwner(owners) == d
  {
    if owners != [] {
      var init, last := owners[..|owners| - 1], owners[|owners| - 1];
      LastOwnerMeaning(init, d);
      if last.kind == DependencyBuildKind {
        assert OwnedBy(owners, d) ==> last.name == d;
        assert d != "" && last.name == d ==> owners[|owners| - 1] == OwnerRef(DependencyBuildKind, d);
      } else {
        assert forall i | 0 <= i < |init| :: init[i] == owners[i];
        assert OwnedBy(owners, d) <==> OwnedBy(init, d);
      }
    }
  }

  /** Done and failed say what the objects say, and exclude each other. */
  lemma StatusMeaning(s: Store, gav: Gav)
    ensures StatusOf(s, gav).Done() <==> IsDeployed(s, gav)
    ensures StatusOf(s, gav).failed <==> IsFailed(s, gav)
    ensures !(IsDeployed(s, gav) && IsFailed(s, gav))
  {
    var ab := s.abrName(gav);
    if IsDeployed(s, gav) {
      var d :| DeployedFor(s, ab, d);
      LastOwnerMeaning(s.ras[ab].owners, d);
    }
    if StatusOf(s, gav).Done() {
      var d := Resolved(s, ab).value;
      LastOwnerMeaning(s.ras[ab].owners, d);
      assert DeployedFor(s, ab, d);
    }
  }

  /** The published verdict, read off the objects alone. */
  lemma VerdictMeaning(s: Store, c: ComponentBuild)
    ensures var st := StatusFor(s, c);
            && (st.outstanding == 0 <==> forall g | g in Artifacts(c) :: IsDeployed(s, g) || IsFailed(s, g))
            && (st.state == Complete <==> forall g | g in Artifacts(c) :: IsDeployed(s, g))
            && (st.state == Failed <==> st.outstanding == 0 && exists g :: g in Artifacts(c) && IsFailed(s, g))
            && (st.state == InProgress <==> st.outstanding > 0)
            && st.outstanding <= |c.spec.artifacts|
  {
    SettledIffNonePending(s, c);
    PendingAtMost(s, c.spec.artifacts, |c.spec.artifacts|);
    forall g ensures (StatusOf(s, g).Done() <==> IsDeployed(s, g)) && (StatusOf(s, g).failed <==> IsFailed(s, g))
                     && !(IsDeployed(s, g) && IsFailed(s, g)) {
      StatusMeaning(s, g);
    }
  }

  lemma {:induction false} PendingAtMost(s: Store, artifacts: seq<Gav>, n: nat)
    requires n <= |artifacts|
    ensures |PendingPositions(s, artifacts, n)| <= n
  {
    if n > 0 {
      PendingAtMost(s, artifacts, n - 1);
      PendingStep(s, artifacts, n);
    }
  }

  // ---- No silent stall ----

  /** The artifact is requested, and if it is outstanding something is still due to happen to it. */
  ghost predicate Served(t: Store, gav: Gav) {
    var ab := t.abrName(gav);
    ab in t.abs && (StatusOf(t, gav).Pending() ==> Awaited(t, ab))
  }

  /** The build is still running, its deploy is in flight, or a DependencyBuild cannot be resolved or is marked oddly. */
  ghost predicate Awaited(t: Store, ab: Name)
    requires ab in t.abs
  {
    || !Terminal(t.abs[ab].state)
    || Resolved(t, ab).None?
    || DeployInFlight(t, Resolved(t, ab).value)
    || Mark(t.dbs[Resolved(t, ab).value]) !in {"", DEPLOYED}
  }

  lemma ServedStable(s: Store, t: Store, gav: Gav)
    requires Extends(s, t) && Served(s, gav)
    ensures Served(t, gav)
  {
    StatusStable(s, t, gav);
    var ab := s.abrName(gav);
    if Resolved(s, ab).Some? && DeployInFlight(s, Resolved(s, ab).value) {
      var r :| r in s.trs && Deploying(s.trs[r], Resolved(s, ab).value);
      assert r in t.trs && Deploying(t.trs[r], Resolved(t, ab).value);
    }
  }

  lemma DeployStarts(s: Store, ab: Name, c: ArtifactCalls)
    requires CleanArtifact(c) && ab in s.abs
    ensures var d := Resolved(s, ab);
            d.Some? && Mark(s.dbs[d.value]) == "" ==> DeployInFlight(Deploy(s, ab, c), d.value)
  {
    var d := Resolved(s, ab);
    if d.Some? && Mark(s.dbs[d.value]) == "" && !DeployInFlight(s, d.value) {
      var r := FreshName(c.taskName, s.trs.Keys);
      var t := Deploy(s, ab, c);
      assert r in t.trs && Deploying(t.trs[r], d.value);
    }
  }

  lemma ScanOneServes(p: Scan, gav: Gav, c: ArtifactCalls)
    requires CleanArtifact(c)
    ensures Served(ScanOne(p, gav, c).store, gav)
  {
    var s := p.store;
    var ab := s.abrName(gav);
    if ab in s.abs {
      DeployStarts(s, ab, c);
    }
  }

  lemma StillServed(p: Scan, gav: Gav, c: ArtifactCalls, earlier: Gav)
    requires Served(p.store, earlier)
    ensures Served(ScanOne(p, gav, c).store, earlier)
  {
    ScanOneExtends(p, gav, c);
    ServedStable(p.store, ScanOne(p, gav, c).store, earlier);
  }

  lemma ScanLast(s: Store, artifacts: seq<Gav>, calls: nat -> ArtifactCalls, n: nat)
    requires 0 < n <= |artifacts| && forall j :: CleanArtifact(calls(j))
    ensures var p := ScanFirst(s, artifacts, calls, n - 1);
            ScanFirst(s, artifacts, calls, n) == ScanOne(p, artifacts[n - 1], calls(n - 1))
  {
    ScanGathers(s, artifacts, calls, n - 1);
  }

  lemma {:induction false} ScanServes(s: Store, artifacts: seq<Gav>, calls: nat -> ArtifactCalls, n: nat, i: nat)
    requires i < n <= |artifacts| && forall j :: CleanArtifact(calls(j))
    ensures Served(ScanFirst(s, artifacts, calls, n).store, artifacts[i])
    decreases n
  {
    var p := ScanFirst(s, artifacts, calls, n - 1);
    ScanLast(s, artifacts, calls, n);
    if i == n - 1 {
      ScanOneServes(p, artifacts[i], calls(i));
    } else {
      ScanServes(s, artifacts, calls, n - 1, i);
      StillServed(p, artifacts[n - 1], calls(n - 1), artifacts[i]);
    }
  }

  ghost predicate AllServed(t: Store, c: ComponentBuild) {
    forall g | g in Artifacts(c) :: Served(t, g)
  }

  /** After an error-free reconcile every outstanding artifact is still going somewhere. */
  lemma NoSilentStall(s: Store, cb: Name, calls: CbCalls)
    requires cb in s.cbs && Ranged(s.cbs[cb], calls) && Clean(calls) && Configured(s.config)
    ensures AllServed(HandleComponentBuild(s, cb, calls).store, s.cbs[cb])
  {
    var c := s.cbs[cb];
    var n := |c.spec.artifacts|;
    FullScanFacts(s, cb, calls);
    var p := FullScan(s, cb, calls);
    var t := HandleComponentBuild(s, cb, calls).store;
    forall g | g in Artifacts(c) ensures Served(t, g) {
      var i :| 0 <= i < n && c.spec.artifacts[i] == g;
      ScanServes(s, c.spec.artifacts, calls.artifact, n, i);
      ServedSame(p.store, t, g);
    }
  }

  /** Neither notices nor statuses of ComponentBuilds matter to artifacts. */
  lemma ServedSame(s: Store, t: Store, gav: Gav)
    requires t == s.(prs := t.prs, cbs := t.cbs) && Served(s, gav)
    ensures Served(t, gav)
  {
    assert forall d | DeployInFlight(s, d) :: DeployInFlight(t, d);
  }

  // ---- Fixed point ----

  lemma ScanOneIdle(s: Store, p: Scan, gav: Gav, c: ArtifactCalls)
    requires CleanArtifact(c) && p.store == s && Served(s, gav)
    ensures ScanOne(p, gav, c).store == s
  {
  }

  lemma {:induction false} ScanIdle(s: Store, artifacts: seq<Gav>, calls: nat -> ArtifactCalls, n: nat)
    requires n <= |artifacts| && (forall i :: CleanArtifact(calls(i))) && forall g | g in artifacts :: Served(s, g)
    ensures ScanFirst(s, artifacts, calls, n).store == s
  {
    if n > 0 {
      ScanIdle(s, artifacts, calls, n - 1);
      ScanLast(s, artifacts, calls, n);
      ScanOneIdle(s, ScanFirst(s, artifacts, calls, n - 1), artifacts[n - 1], calls(n - 1));
    }
  }

  /** Once a clean reconcile has announced a settled result, the announcement stands. */
  ghost predicate Announced(t: Store, cb: Name)
    requires cb in t.cbs
  {
    var c := t.cbs[cb];
    c.status.outstanding == 0 && !c.status.resultNotified && c.spec.prUrl != "" ==> NoticeInFlight(t, cb)
  }

  lemma AnnounceStarts(p: Scan, cb: Name, c: ComponentBuild, calls: CbCalls)
    requires Clean(calls)
    ensures var n := Announce(p, cb, c, calls); var st := StatusFrom(c.status, p);
            !n.err && (p.outstanding == 0 && !st.resultNotified && c.spec.prUrl != "" ==> NoticeInFlight(n.store, cb))
  {
    var st := StatusFrom(c.status, p);
    var n := Announce(p, cb, c, calls);
    if p.outstanding == 0 && !st.resultNotified && c.spec.prUrl != "" && !NoticeInFlight(p.store, cb) {
      var r := FreshName(calls.runName, p.store.prs.Keys);
      assert r in n.store.prs && Notifying(n.store.prs[r], cb);
    }
  }

  lemma CleanAnnounces(s: Store, cb: Name, calls: CbCalls)
    requires cb in s.cbs && Clean(calls) && Configured(s.config)
    ensures var t := HandleComponentBuild(s, cb, calls).store; Announced(t, cb)
  {
    FullScanFacts(s, cb, calls);
    var p := FullScan(s, cb, calls);
    AnnounceStarts(p, cb, s.cbs[cb], calls);
    var n := Announce(p, cb, s.cbs[cb], calls);
    var t := HandleComponentBuild(s, cb, calls).store;
    if NoticeInFlight(n.store, cb) {
      var r :| r in n.store.prs && Notifying(n.store.prs[r], cb);
      assert r in t.prs && Notifying(t.prs[r], cb);
    }
  }

  /** Handling a ComponentBuild again, with nothing changed in between, changes nothing. */
  lemma FixedPoint(s: Store, cb: Name, calls: CbCalls, again: CbCalls)
    requires cb in s.cbs && Ranged(s.cbs[cb], calls) && Clean(calls) && Clean(again)
    ensures var t := HandleComponentBuild(s, cb, calls).store;
            HandleComponentBuild(t, cb, again) == Result(t, false)
  {
    var t := HandleComponentBuild(s, cb, calls).store;
    LoopRefinesStatus(s, cb, calls);
    HandleExtends(s, cb, calls);
    if Configured(s.config) {
      NoSilentStall(s, cb, calls);
      CleanAnnounces(s, cb, calls);
      SettledStaysPut(s, t, cb, again);
    }
  }

  lemma SettledStaysPut(s: Store, t: Store, cb: Name, again: CbCalls)
    requires cb in s.cbs && Extends(s, t) && t.cbs[cb] == Updated(s, cb) && Configured(s.config)
    requires AllServed(t, s.cbs[cb]) && Announced(t, cb) && Clean(again)
    ensures HandleComponentBuild(t, cb, again) == Result(t, false)
  {
    var c := t.cbs[cb];
    forall g | g in c.spec.artifacts ensures Served(t, g) {
      assert g in Artifacts(s.cbs[cb]);
    }
    ScanIdle(t, c.spec.artifacts, again.artifact, |c.spec.artifacts|);
    FullScanFacts(t, cb, again);
    SameStatusFor(s, t, s.cbs[cb], c);
    assert StatusFor(t, c) == c.status;
    assert t.cbs[cb := c.(status := c.status)] == t.cbs;
  }
}
