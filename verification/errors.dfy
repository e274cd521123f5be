/** Which requests return an error, and what failing calls and irrelevant events leave alone. */
module Errors {
  import opened Wrappers
  import opened Cluster
  import opened Handlers
  import opened Status
  import opened SingleReconcile
  import opened FanningOut
  import opened Requests

  // ---- The config ----

  lemma ConfiguredMeans(config: map<ConfigKey, string>)
    ensures Configured(config) <==>
              && MavenRepo in config && config[MavenRepo] != ""
              && AwsOwner in config && config[AwsOwner] != ""
              && AwsDomain in config && config[AwsDomain] != ""
  {
  }

  // ---- Handling one ComponentBuild ----

  /** No ArtifactBuild for this position exists at the start, and no earlier position has asked for one. */
  ghost predicate MissingAt(s: Store, artifacts: seq<Gav>, calls: nat -> ArtifactCalls, i: nat)
    requires i < |artifacts|
  {
    && s.abrName(artifacts[i]) !in s.abs
    && forall j | 0 <= j < i && calls(j).get :: s.abrName(artifacts[j]) != s.abrName(artifacts[i])
  }

  /** The ArtifactBuild of this position has to be created, and the caller sees that fail. */
  ghost predicate CreateFailsAt(s: Store, artifacts: seq<Gav>, calls: nat -> ArtifactCalls, i: nat)
    requires i < |artifacts|
  {
    calls(i).get && MissingAt(s, artifacts, calls, i) && !calls(i).create.Ok?
  }

  /** The position is seen to be failed, or built and deployed. */
  ghost predicate SettledAt(s: Store, artifacts: seq<Gav>, calls: nat -> ArtifactCalls, i: nat)
    requires i < |artifacts|
  {
    && calls(i).get
    && (IsFailed(s, artifacts[i]) || (calls(i).stateRa && calls(i).stateDb && IsDeployed(s, artifacts[i])))
  }

  /** A notice is due, and listing the earlier ones or creating it fails. */
  ghost predicate NoticeFails(s: Store, cb: Name, calls: CbCalls)
    requires cb in s.cbs
  {
    var c := s.cbs[cb];
    && (forall i | 0 <= i < |c.spec.artifacts| :: SettledAt(s, c.spec.artifacts, calls.artifact, i))
    && !c.status.resultNotified && c.spec.prUrl != ""
    && (!calls.list || (!NoticeInFlight(s, cb) && !calls.notify.Ok?))
  }

  /** Why handling a ComponentBuild returns an error; failing reads of artifacts and failing deploys are no reason. */
  ghost predicate HandlingErrs(s: Store, cb: Name, calls: CbCalls)
    requires cb in s.cbs
  {
    var arts := s.cbs[cb].spec.artifacts;
    || !calls.config
    || (Configured(s.config) && exists i :: 0 <= i < |arts| && CreateFailsAt(s, arts, calls.artifact, i))
    || (Configured(s.config) && NoticeFails(s, cb, calls))
    || !calls.status.Ok?
  }

  /** The builds that exist after some rounds of the loop. */
  ghost function Requested(s: Store, artifacts: seq<Gav>, calls: nat -> ArtifactCalls, n: nat): set<Name>
    requires n <= |artifacts|
  {
    set i | 0 <= i < n && calls(i).get :: s.abrName(artifacts[i])
  }

  lemma RequestedStep(s: Store, artifacts: seq<Gav>, calls: nat -> ArtifactCalls, n: nat)
    requires n < |artifacts|
    ensures Requested(s, artifacts, calls, n + 1)
         == Requested(s, artifacts, calls, n) + if calls(n).get then {s.abrName(artifacts[n])} else {}
  {
  }

  lemma MissingIff(s: Store, artifacts: seq<Gav>, calls: nat -> ArtifactCalls, i: nat)
    requires i < |artifacts|
    ensures MissingAt(s, artifacts, calls, i) <==> s.abrName(artifacts[i]) !in s.abs.Keys + Requested(s, artifacts, calls, i)
  {
  }

  /** One round: its error, and the builds that exist after it. */
  lemma RoundErrs(p: Scan, gav: Gav, c: ArtifactCalls)
    ensures var q, ab := ScanOne(p, gav, c), p.store.abrName(gav);
            && (q.err <==> c.get && ab !in p.store.abs && !c.create.Ok?)
            && (!q.err ==> q.store.abs.Keys == p.store.abs.Keys + if c.get then {ab} else {})
  {
  }

  /** The state of the loop after some rounds. */
  ghost predicate LoopAt(s: Store, artifacts: seq<Gav>, calls: nat -> ArtifactCalls, n: nat)
    requires n <= |artifacts|
  {
    var p := ScanFirst(s, artifacts, calls, n);
    && (p.err <==> exists i :: 0 <= i < n && CreateFailsAt(s, artifacts, calls, i))
    && (!p.err ==> p.store.abs.Keys == s.abs.Keys + Requested(s, artifacts, calls, n))
  }

  lemma LoopNext(s: Store, artifacts: seq<Gav>, calls: nat -> ArtifactCalls, n: nat)
    requires n < |artifacts| && LoopAt(s, artifacts, calls, n)
    ensures LoopAt(s, artifacts, calls, n + 1)
  {
    var p := ScanFirst(s, artifacts, calls, n);
    if p.err {
      var i :| 0 <= i < n && CreateFailsAt(s, artifacts, calls, i);
      assert ScanFirst(s, artifacts, calls, n + 1).err;
    } else {
      RoundErrs(p, artifacts[n], calls(n));
      MissingIff(s, artifacts, calls, n);
      RequestedStep(s, artifacts, calls, n);
      assert ScanFirst(s, artifacts, calls, n + 1).err <==> CreateFailsAt(s, artifacts, calls, n);
    }
  }

  lemma LoopErrs(s: Store, artifacts: seq<Gav>, calls: nat -> ArtifactCalls, n: nat)
    requires n <= |artifacts|
    ensures LoopAt(s, artifacts, calls, n)
  {
    assert LoopAt(s, artifacts, calls, 0);
    for i := 0 to n
      invariant LoopAt(s, artifacts, calls, i)
    {
      LoopNext(s, artifacts, calls, i);
    }
  }

  // ---- When nothing is seen to be outstanding ----

  lemma FaultyDone(s: Store, gav: Gav, ra: bool, db: bool)
    requires s.abrName(gav) in s.abs
    ensures !StateOf(s, s.abrName(gav), ra, db).Pending() <==> IsFailed(s, gav) || (ra && db && IsDeployed(s, gav))
  {
    StatusMeaning(s, gav);
    var ab := s.abrName(gav);
    var d := Resolved(s, ab);
    assert DependencyBuildOf(s, ab, ra, db) == if ra && db then d else None by {
      if ab in s.ras && ra && !db { assert DependencyBuildOf(s, ab, ra, db) == None; }
    }
  }

  lemma RoundCounts(s: Store, p: Scan, gav: Gav, c: ArtifactCalls)
    requires Extends(s, p.store) && !ScanOne(p, gav, c).err
    ensures ScanOne(p, gav, c).outstanding > p.outstanding <==>
              !(c.get && (IsFailed(s, gav) || (c.stateRa && c.stateDb && IsDeployed(s, gav))))
    ensures ScanOne(p, gav, c).outstanding >= p.outstanding
  {
    StatusStable(s, p.store, gav);
    StatusMeaning(s, gav);
    StatusMeaning(p.store, gav);
    if p.store.abrName(gav) in p.store.abs {
      FaultyDone(p.store, gav, c.stateRa, c.stateDb);
    }
  }

  ghost predicate CountAt(s: Store, artifacts: seq<Gav>, calls: nat -> ArtifactCalls, n: nat)
    requires n <= |artifacts|
  {
    var p := ScanFirst(s, artifacts, calls, n);
    !p.err ==> (p.outstanding == 0 <==> forall i | 0 <= i < n :: SettledAt(s, artifacts, calls, i))
  }

  lemma CountNext(s: Store, artifacts: seq<Gav>, calls: nat -> ArtifactCalls, n: nat)
    requires n < |artifacts| && CountAt(s, artifacts, calls, n)
    ensures CountAt(s, artifacts, calls, n + 1)
  {
    var p := ScanFirst(s, artifacts, calls, n);
    if !ScanFirst(s, artifacts, calls, n + 1).err {
      assert !p.err;
      ScanExtends(s, artifacts, calls, n);
      RoundCounts(s, p, artifacts[n], calls(n));
      assert SettledAt(s, artifacts, calls, n) <==> ScanOne(p, artifacts[n], calls(n)).outstanding == p.outstanding;
    }
  }

  /** Under any faults: nothing is counted exactly if every position is seen to be failed, or built and deployed. */
  lemma NothingCounted(s: Store, artifacts: seq<Gav>, calls: nat -> ArtifactCalls, n: nat)
    requires n <= |artifacts|
    ensures CountAt(s, artifacts, calls, n)
  {
    assert CountAt(s, artifacts, calls, 0);
    for i := 0 to n
      invariant CountAt(s, artifacts, calls, i)
    {
      CountNext(s, artifacts, calls, i);
    }
  }

  lemma AnnounceErrs(p: Scan, cb: Name, c: ComponentBuild, calls: CbCalls)
    ensures Announce(p, cb, c, calls).err <==>
              && p.outstanding == 0 && !c.status.resultNotified && c.spec.prUrl != ""
              && (!calls.list || (!NoticeInFlight(p.store, cb) && !calls.notify.Ok?))
  {
  }

  /** Handling a ComponentBuild returns an error exactly for these reasons. */
  lemma HandlingErrsIff(s: Store, cb: Name, calls: CbCalls)
    requires cb in s.cbs
    ensures HandleComponentBuild(s, cb, calls).err <==> HandlingErrs(s, cb, calls)
  {
    var c := s.cbs[cb];
    var n := |c.spec.artifacts|;
    LoopErrs(s, c.spec.artifacts, calls.artifact, n);
    NothingCounted(s, c.spec.artifacts, calls.artifact, n);
    var p := FullScan(s, cb, calls);
    AnnounceErrs(p, cb, c, calls);
    assert NoticeInFlight(p.store, cb) <==> NoticeInFlight(s, cb);
  }

  // ---- Any request ----

  /** A finished deploy task that names an owner. */
  ghost predicate TaskCounts(tr: TaskRun) {
    && tr.completed && DeployTask in tr.labels && tr.labels[DeployTask] != ""
    && FirstOwner(tr.owners, ArtifactBuildKind) != ""
  }

  /** A finished notifier run that names an owner. */
  ghost predicate NoticeCounts(pr: PipelineRun) {
    && pr.completed && TektonPipeline in pr.labels && pr.labels[TektonPipeline] == "component-build-notifier"
    && FirstOwner(pr.owners, ComponentBuildKind) != ""
  }

  ghost predicate TaskErrs(s: Store, tr: TaskRun, calls: RequestCalls) {
    TaskCounts(tr) && (!calls.owner || FirstOwner(tr.owners, ArtifactBuildKind) !in s.abs || !calls.listCbs)
  }

  ghost predicate NoticeErrs(s: Store, pr: PipelineRun, calls: RequestCalls) {
    var cb := FirstOwner(pr.owners, ComponentBuildKind);
    && NoticeCounts(pr)
    && (|| !calls.owner || cb !in s.cbs
        || (if pr.succeeded == True then !calls.status.Ok? else HandlingErrs(s, cb, calls.cb(cb))))
  }

  /** Why a request returns an error: a failing read of the key, or a reason of the kind of object that it names. */
  ghost predicate RequestErrs(s: Store, key: Name, calls: RequestCalls) {
    || !calls.getAb || !calls.getCb || !calls.getTr || !calls.getPr
    || (key in s.cbs && HandlingErrs(s, key, calls.cb(key)))
    || (key !in s.cbs && key in s.abs && !calls.listCbs)
    || (key !in s.cbs && key !in s.abs && key in s.trs && TaskErrs(s, s.trs[key], calls))
    || (key !in s.cbs && key !in s.abs && key !in s.trs && key in s.prs && NoticeErrs(s, s.prs[key], calls))
  }

  lemma TaskErrsIff(s: Store, tr: TaskRun, calls: RequestCalls)
    ensures HandleTaskRun(s, tr, calls).err <==> TaskErrs(s, tr, calls)
  {
  }

  lemma NoticeErrsIff(s: Store, pr: PipelineRun, calls: RequestCalls)
    ensures HandlePipelineRun(s, pr, calls).err <==> NoticeErrs(s, pr, calls)
  {
    var cb := FirstOwner(pr.owners, ComponentBuildKind);
    if cb in s.cbs { HandlingErrsIff(s, cb, calls.cb(cb)); }
  }

  /** Under any faults, a request returns an error, and is queued again, exactly for these reasons. */
  lemma RequestErrsIff(s: Store, key: Name, calls: RequestCalls)
    ensures Reconcile(s, key, calls).err <==> RequestErrs(s, key, calls)
  {
    if key in s.cbs {
      HandlingErrsIff(s, key, calls.cb(key));
    } else if key in s.trs {
      TaskErrsIff(s, s.trs[key], calls);
    } else if key in s.prs {
      NoticeErrsIff(s, s.prs[key], calls);
    }
  }

  /** The key names a finished run whose named owner is gone. */
  ghost predicate OwnerGone(s: Store, key: Name) {
    && key !in s.cbs && key !in s.abs
    && if key in s.trs then TaskCounts(s.trs[key]) && FirstOwner(s.trs[key].owners, ArtifactBuildKind) !in s.abs
       else key in s.prs && NoticeCounts(s.prs[key]) && FirstOwner(s.prs[key].owners, ComponentBuildKind) !in s.cbs
  }

  /** If no call fails, a request returns an error exactly if the owner of a finished run is gone. */
  lemma CleanErrsIff(s: Store, key: Name, calls: RequestCalls)
    requires CleanRequest(calls)
    ensures Reconcile(s, key, calls).err <==> OwnerGone(s, key)
  {
    RequestErrsIff(s, key, calls);
    forall n | n in s.cbs ensures !HandlingErrs(s, n, calls.cb(n)) {
      assert Clean(calls.cb(n));
      assert forall i :: CleanArtifact(calls.cb(n).artifact(i));
    }
  }

  // ---- What is left alone ----

  /** Events of runs that are not finished, not labelled, or name no owner change nothing. */
  lemma IgnoredRuns(s: Store, key: Name, calls: RequestCalls)
    requires calls.getAb && calls.getCb && calls.getTr && calls.getPr && key !in s.cbs && key !in s.abs
    requires key in s.trs ==> !TaskCounts(s.trs[key])
    requires key !in s.trs && key in s.prs ==> !NoticeCounts(s.prs[key])
    ensures Reconcile(s, key, calls) == Result(s, false)
  {
  }

  lemma FailedReadChangesNothing(s: Store, key: Name, calls: RequestCalls)
    requires !calls.getAb || !calls.getCb || !calls.getTr || !calls.getPr
    ensures Reconcile(s, key, calls) == Result(s, true)
  {
  }

  /** Every write that handling the ComponentBuild attempts is refused. */
  ghost predicate Refused(calls: CbCalls) {
    && calls.notify.Rejected? && calls.status.Rejected?
    && forall i :: calls.artifact(i).create.Rejected? && calls.artifact(i).task.Rejected?
  }

  ghost predicate RefusedRequest(calls: RequestCalls) {
    calls.mark.Rejected? && calls.status.Rejected? && forall n :: Refused(calls.cb(n))
  }

  lemma RefusedScan(s: Store, artifacts: seq<Gav>, calls: nat -> ArtifactCalls, n: nat)
    requires n <= |artifacts| && forall i :: calls(i).create.Rejected? && calls(i).task.Rejected?
    ensures ScanFirst(s, artifacts, calls, n).store == s
  {
    for i := 0 to n
      invariant ScanFirst(s, artifacts, calls, i).store == s
    {
      assert calls(i).create.Rejected? && calls(i).task.Rejected?;
    }
  }

  lemma RefusedHandling(s: Store, cb: Name, calls: CbCalls)
    requires cb in s.cbs && Refused(calls)
    ensures HandleComponentBuild(s, cb, calls).store == s
  {
    RefusedScan(s, s.cbs[cb].spec.artifacts, calls.artifact, |s.cbs[cb].spec.artifacts|);
  }

  lemma RefusedFanOut(s: Store, gav: Gav, calls: RequestCalls, n: nat)
    requires n <= |calls.order| && RefusedRequest(calls)
    ensures FanOut(s, gav, calls, n) == s
  {
    for i := 0 to n
      invariant FanOut(s, gav, calls, i) == s
    {
      var cb := calls.order[i];
      assert Refused(calls.cb(cb));
      if cb in s.cbs { RefusedHandling(s, cb, calls.cb(cb)); }
    }
  }

  /** A request all of whose writes are refused leaves the store as it is. */
  lemma RefusedChangesNothing(s: Store, key: Name, calls: RequestCalls)
    requires RefusedRequest(calls)
    ensures Reconcile(s, key, calls).store == s
  {
    if key in s.cbs {
      assert Refused(calls.cb(key));
      RefusedHandling(s, key, calls.cb(key));
    } else if key in s.abs {
      RefusedFanOut(s, s.abs[key].gav, calls, |calls.order|);
    } else if key in s.trs {
      var ab := FirstOwner(s.trs[key].owners, ArtifactBuildKind);
      if ab in s.abs { RefusedFanOut(s, s.abs[ab].gav, calls, |calls.order|); }
    } else if key in s.prs {
      var cb := FirstOwner(s.prs[key].owners, ComponentBuildKind);
      if cb in s.cbs {
        assert Refused(calls.cb(cb));
        RefusedHandling(s, cb, calls.cb(cb));
      }
    }
  }

  /** A request changes no annotation of a DependencyBuild but the deployed mark, and that only to "true". */
  lemma AnnotationsKept(s: Store, key: Name, calls: RequestCalls, d: Name)
    requires Listed(s, calls) && d in s.dbs
    ensures var t := Reconcile(s, key, calls).store;
            && t.dbs.Keys == s.dbs.Keys
            && var before, after := s.dbs[d].annotations, t.dbs[d].annotations;
            && (forall k | k != DeployedKey :: (k in after <==> k in before) && (k in before ==> after[k] == before[k]))
            && (after != before ==> DeployedKey in after && after[DeployedKey] == "true")
  {
    ReconcileShape(s, key, calls);
  }

  // ---- Announcing under faults ----

  lemma AnnounceWorks(p: Scan, cb: Name, c: ComponentBuild, calls: CbCalls)
    requires !Announce(p, cb, c, calls).err && p.outstanding == 0 && !c.status.resultNotified && c.spec.prUrl != ""
    ensures NoticeInFlight(Announce(p, cb, c, calls).store, cb)
  {
    var n := Announce(p, cb, c, calls);
    if !NoticeInFlight(p.store, cb) {
      var r := FreshName(calls.runName, p.store.prs.Keys);
      assert r in n.store.prs && Notifying(n.store.prs[r], cb);
    }
  }

  /** Whatever failed on the way: handled without an error, a settled result is announced. */
  lemma HandledAnnounces(s: Store, cb: Name, calls: CbCalls)
    requires cb in s.cbs && Configured(s.config) && !HandleComponentBuild(s, cb, calls).err
    ensures Announced(HandleComponentBuild(s, cb, calls).store, cb)
  {
    var p, c := FullScan(s, cb, calls), s.cbs[cb];
    var n, t := Announce(p, cb, c, calls), HandleComponentBuild(s, cb, calls).store;
    if p.outstanding == 0 && !c.status.resultNotified && c.spec.prUrl != "" {
      AnnounceWorks(p, cb, c, calls);
      var r :| r in n.store.prs && Notifying(n.store.prs[r], cb);
      assert r in t.prs && Notifying(t.prs[r], cb);
    }
  }
}
