/** Runs of the controller: requests interleaved with whatever the rest of the cluster does. */
module Runs {
  import opened Wrappers
  import opened Cluster
  import opened Handlers
  import opened Status
  import opened SingleReconcile
  import opened FanningOut
  import opened Requests

  /** The store and the keys waiting in the work queue. */
  datatype System = System(store: Store, queue: set<Name>)

  ghost predicate Same<T>(m: map<Name, T>, m': map<Name, T>, n: Name) {
    if n in m then n in m' && m'[n] == m[n] else n !in m'
  }

  ghost predicate WatchedSame(s: Store, t: Store, n: Name) {
    Same(s.cbs, t.cbs, n) && Same(s.abs, t.abs, n) && Same(s.trs, t.trs, n) && Same(s.prs, t.prs, n)
  }

  /** Which of the further assumptions a behaviour keeps. */
  datatype Assumed = Assumed(notices: bool, deploys: bool)

  /** The keys enqueued by a change: DependencyBuilds, RebuiltArtifacts and the config are not watched. */
  ghost function Events(s: Store, t: Store): set<Name> {
    set n | n in s.cbs.Keys + t.cbs.Keys + s.abs.Keys + t.abs.Keys + s.trs.Keys + t.trs.Keys + s.prs.Keys + t.prs.Keys
            && !WatchedSame(s, t, n)
  }

  /** A queued key is taken, handled, and queued again if handling it returned an error. */
  ghost predicate ReconcileStep(a: System, b: System, key: Name, calls: RequestCalls) {
    var r := Reconcile(a.store, key, calls);
    && key in a.queue && Listed(a.store, calls)
    && b.store == r.store
    && b.queue == a.queue - {key} + Events(a.store, r.store) + if r.err then {key} else {}
  }

  ghost predicate TaskKept(t: TaskRun, t': TaskRun) {
    && (DeployTask in t'.labels <==> DeployTask in t.labels)
    && Lookup(t'.labels, DeployTask) == Lookup(t.labels, DeployTask)
    && t'.owners == t.owners
    && (t.completed ==> t'.completed)
    && (t.succeeded != Unknown ==> t'.succeeded == t.succeeded)
  }

  ghost predicate NoticeKept(p: PipelineRun, p': PipelineRun) {
    && (NotifyPipeline in p'.labels <==> NotifyPipeline in p.labels)
    && Lookup(p'.labels, NotifyPipeline) == Lookup(p.labels, NotifyPipeline)
    && (Lookup(p.labels, TektonPipeline) != "" ==> Lookup(p'.labels, TektonPipeline) == Lookup(p.labels, TektonPipeline))
    && p'.owners == p.owners && p'.url == p.url && p'.notice == p.notice
    && (p.completed ==> p'.completed)
    && (p.succeeded != Unknown ==> p'.succeeded == p.succeeded)
  }

  /**
   * What others may do to the objects: edit, create and delete anything, except that only the controller writes
   * ComponentBuild statuses and creates deploy tasks and notifier runs, and a finished run stays finished.
   */
  ghost predicate Environment(s: Store, t: Store) {
    && t.abrName == s.abrName
    && (forall n | n in t.cbs :: t.cbs[n].status == EMPTY_STATUS || (n in s.cbs && t.cbs[n].status == s.cbs[n].status))
    && (forall r | r in t.trs :: if r in s.trs then TaskKept(s.trs[r], t.trs[r]) else DeployTask !in t.trs[r].labels)
    && (forall r | r in t.prs :: if r in s.prs then NoticeKept(s.prs[r], t.prs[r]) else NotifyPipeline !in t.prs[r].labels)
  }

  /** Further assumed for the provenance of notifications: PipelineRuns are not deleted. */
  ghost predicate NoticesStay(s: Store, t: Store) {
    forall r | r in s.prs :: r in t.prs
  }

  /** Further assumed for that of deploys: TaskRuns are not deleted, marks and rebuilt-artifact ownership are left alone. */
  ghost predicate DeploysStay(s: Store, t: Store) {
    && (forall r | r in s.trs :: r in t.trs)
    && (forall k | k in s.ras :: k in t.ras && LastDependencyOwner(t.ras[k].owners) == LastDependencyOwner(s.ras[k].owners))
    && (forall d | d in t.dbs :: Mark(t.dbs[d]) == DEPLOYED ==> d in s.dbs && Mark(s.dbs[d]) == DEPLOYED)
  }

  ghost predicate EnvironmentStep(a: System, b: System, k: Assumed) {
    && Environment(a.store, b.store) && (k.notices ==> NoticesStay(a.store, b.store)) && (k.deploys ==> DeploysStay(a.store, b.store))
    && a.queue + Events(a.store, b.store) <= b.queue
  }

  ghost predicate Next(a: System, b: System, k: Assumed) {
    || (exists key, calls :: ReconcileStep(a, b, key, calls))
    || EnvironmentStep(a, b, k)
  }

  ghost predicate Behaviour(run: seq<System>, k: Assumed) {
    run != [] && forall i | 0 < i < |run| :: StepAt(run, i, k)
  }

  ghost predicate StepAt(run: seq<System>, i: int, k: Assumed)
    requires 0 < i < |run|
  {
    Next(run[i - 1], run[i], k)
  }

  // ---- One run in flight, in every reachable state ----

  lemma EnvironmentKeepsOne(s: Store, t: Store)
    requires Environment(s, t) && OneRunEach(s)
    ensures OneRunEach(t)
  {
    forall r, d | r in t.trs && Deploying(t.trs[r], d) ensures r in s.trs && Deploying(s.trs[r], d) {}
    forall r, n | r in t.prs && Notifying(t.prs[r], n) ensures r in s.prs && Notifying(s.prs[r], n) {}
  }

  lemma NextKeepsOne(a: System, b: System, k: Assumed)
    requires Next(a, b, k) && OneRunEach(a.store)
    ensures OneRunEach(b.store)
  {
    if key, calls :| ReconcileStep(a, b, key, calls) {
      ReconcileShape(a.store, key, calls);
    } else {
      EnvironmentKeepsOne(a.store, b.store);
    }
  }

  lemma {:induction false} OneRunAlways(run: seq<System>, k: Assumed, i: nat)
    requires Behaviour(run, k) && i < |run| && OneRunEach(run[0].store)
    ensures OneRunEach(run[i].store)
  {
    if i > 0 {
      OneRunAlways(run, k, i - 1);
      assert StepAt(run, i, k);
      NextKeepsOne(run[i - 1], run[i], k);
    }
  }

  // ---- The event index ----

  /** A ComponentBuild is waiting for a reconcile, is blocked on missing config, or its index is its spec. */
  ghost predicate IndexAgrees(a: System) {
    forall n | n in a.store.cbs :: IndexAgreesAt(a, n)
  }

  ghost predicate IndexAgreesAt(a: System, n: Name)
    requires n in a.store.cbs
  {
    var c := a.store.cbs[n];
    n in a.queue || c.status.message == NoConfig || c.status.artifactState.Keys == Artifacts(c)
  }

  lemma HandledIndex(s: Store, cb: Name, calls: CbCalls)
    requires cb in s.cbs
    ensures var r := HandleComponentBuild(s, cb, calls); var st := r.store.cbs[cb].status;
            r.err || st.message == NoConfig || st.artifactState.Keys == Artifacts(s.cbs[cb])
  {
    FullScanFacts(s, cb, calls);
    var arts := s.cbs[cb].spec.artifacts;
    assert arts[..|arts|] == arts;
  }

  lemma ReconcileKeepsIndex(a: System, b: System, key: Name, calls: RequestCalls)
    requires ReconcileStep(a, b, key, calls) && IndexAgrees(a)
    ensures IndexAgrees(b)
  {
    ReconcileShape(a.store, key, calls);
    forall n | n in b.store.cbs ensures IndexAgreesAt(b, n) {
      assert b.store.cbs[n].spec == a.store.cbs[n].spec;
      if b.store.cbs[n] == a.store.cbs[n] {
        if n == key { HandledIndex(a.store, key, calls.cb(key)); }
      } else {
        assert !WatchedSame(a.store, b.store, n);
      }
    }
  }

  lemma EnvironmentKeepsIndex(a: System, b: System, k: Assumed)
    requires EnvironmentStep(a, b, k) && IndexAgrees(a)
    ensures IndexAgrees(b)
  {
    forall n | n in b.store.cbs ensures IndexAgreesAt(b, n) {
      if n !in a.store.cbs || b.store.cbs[n] != a.store.cbs[n] {
        assert !WatchedSame(a.store, b.store, n);
      }
    }
  }

  lemma NextKeepsIndex(a: System, b: System, k: Assumed)
    requires Next(a, b, k) && IndexAgrees(a)
    ensures IndexAgrees(b)
  {
    if key, calls :| ReconcileStep(a, b, key, calls) {
      ReconcileKeepsIndex(a, b, key, calls);
    } else {
      EnvironmentKeepsIndex(a, b, k);
    }
  }

  lemma StepKeepsIndex(run: seq<System>, k: Assumed, i: nat)
    requires Behaviour(run, k) && 0 < i < |run| && IndexAgrees(run[i - 1])
    ensures IndexAgrees(run[i])
  {
    assert StepAt(run, i, k);
    NextKeepsIndex(run[i - 1], run[i], k);
  }

  lemma {:induction false} IndexAlways(run: seq<System>, k: Assumed, i: nat)
    requires Behaviour(run, k) && i < |run| && IndexAgrees(run[0])
    ensures IndexAgrees(run[i])
  {
    if i > 0 {
      IndexAlways(run, k, i - 1);
      StepKeepsIndex(run, k, i);
    }
  }

  /** In every reachable state an event for an artifact reaches an idle, unblocked ComponentBuild iff its spec names it. */
  lemma EventReachesSpec(run: seq<System>, k: Assumed, i: nat, n: Name, gav: Gav)
    requires Behaviour(run, k) && i < |run| && IndexAgrees(run[0])
    requires n in run[i].store.cbs && n !in run[i].queue && run[i].store.cbs[n].status.message != NoConfig
    ensures n in Subscribers(run[i].store, gav) <==> gav in run[i].store.cbs[n].spec.artifacts
  {
    IndexAlways(run, k, i);
    assert IndexAgreesAt(run[i], n);
  }

  // ---- Provenance of deploys ----

  ghost predicate TaskLinked(s: Store, tr: TaskRun) {
    DeployTask in tr.labels ==>
      var ab := FirstOwner(tr.owners, ArtifactBuildKind);
      ab in s.ras && LastDependencyOwner(s.ras[ab].owners) == tr.labels[DeployTask]
  }

  /** A deploy task of DependencyBuild `d` finished successfully. */
  ghost predicate ReallyDeployed(s: Store, d: Name) {
    exists r :: r in s.trs && SucceededFor(s.trs[r], d)
  }

  ghost predicate SucceededFor(tr: TaskRun, d: Name) {
    DeployTask in tr.labels && tr.labels[DeployTask] == d && tr.completed && tr.succeeded == True
  }

  ghost predicate MarksBacked(s: Store) {
    && (forall r | r in s.trs :: TaskLinked(s, s.trs[r]))
    && (forall d | d in s.dbs && Mark(s.dbs[d]) == DEPLOYED :: ReallyDeployed(s, d))
  }

  lemma ExtendsKeepsBacked(s: Store, t: Store)
    requires Extends(s, t) && MarksBacked(s)
    ensures MarksBacked(t)
  {
    forall r | r in t.trs ensures TaskLinked(t, t.trs[r]) {
      if r !in s.trs {
        var ab, d :| IsDeployOf(t, t.trs[r], ab, d) && Mark(t.dbs[d]) == "";
        assert FirstOwner(t.trs[r].owners, ArtifactBuildKind) == ab;
      } else {
        assert TaskLinked(s, s.trs[r]);
      }
    }
    forall d | d in t.dbs && Mark(t.dbs[d]) == DEPLOYED ensures ReallyDeployed(t, d) {
      var r :| r in s.trs && SucceededFor(s.trs[r], d);
      assert r in t.trs && SucceededFor(t.trs[r], d);
    }
  }

  lemma MarkKeepsBacked(s: Store, key: Name, d: Name)
    requires Justifies(s, key, d) && MarksBacked(s)
    ensures MarksBacked(WithMark(s, d))
  {
    var m := WithMark(s, d);
    assert TaskLinked(s, s.trs[key]);
    assert SucceededFor(s.trs[key], d);
    forall x | x in m.dbs && Mark(m.dbs[x]) == DEPLOYED ensures ReallyDeployed(m, x) {
      if x == d {
        assert key in m.trs && SucceededFor(m.trs[key], x);
      } else {
        var r :| r in s.trs && SucceededFor(s.trs[r], x);
        assert r in m.trs && SucceededFor(m.trs[r], x);
      }
    }
    forall r | r in m.trs ensures TaskLinked(m, m.trs[r]) { assert TaskLinked(s, s.trs[r]); }
  }

  lemma EnvironmentKeepsBacked(s: Store, t: Store)
    requires Environment(s, t) && DeploysStay(s, t) && MarksBacked(s)
    ensures MarksBacked(t)
  {
    forall r | r in t.trs ensures TaskLinked(t, t.trs[r]) {
      if r in s.trs { assert TaskKept(s.trs[r], t.trs[r]) && TaskLinked(s, s.trs[r]); }
    }
    forall d | d in t.dbs && Mark(t.dbs[d]) == DEPLOYED ensures ReallyDeployed(t, d) {
      var r :| r in s.trs && SucceededFor(s.trs[r], d);
      assert r in t.trs && TaskKept(s.trs[r], t.trs[r]) && SucceededFor(t.trs[r], d);
    }
  }

  lemma ReconcileKeepsBacked(s: Store, key: Name, calls: RequestCalls)
    requires Listed(s, calls) && MarksBacked(s)
    ensures MarksBacked(Reconcile(s, key, calls).store)
  {
    ReconcileShape(s, key, calls);
    var t := Reconcile(s, key, calls).store;
    if Extends(s, t) {
      ExtendsKeepsBacked(s, t);
    } else {
      var d :| Justifies(s, key, d) && Extends(WithMark(s, d), t);
      MarkKeepsBacked(s, key, d);
      ExtendsKeepsBacked(WithMark(s, d), t);
    }
  }

  lemma NextKeepsBacked(a: System, b: System, k: Assumed)
    requires Next(a, b, k) && k.deploys && MarksBacked(a.store)
    ensures MarksBacked(b.store)
  {
    if key, calls :| ReconcileStep(a, b, key, calls) {
      ReconcileKeepsBacked(a.store, key, calls);
    } else {
      EnvironmentKeepsBacked(a.store, b.store);
    }
  }

  lemma {:induction false} MarksAlwaysBacked(run: seq<System>, k: Assumed, i: nat)
    requires Behaviour(run, k) && k.deploys && i < |run| && MarksBacked(run[0].store)
    ensures MarksBacked(run[i].store)
  {
    if i > 0 {
      MarksAlwaysBacked(run, k, i - 1);
      assert StepAt(run, i, k);
      NextKeepsBacked(run[i - 1], run[i], k);
    }
  }

  /** Every artifact was built, and the DependencyBuild that owns it was deployed by a task that succeeded. */
  ghost predicate BuiltAndDeployed(s: Store, c: ComponentBuild) {
    forall g | g in Artifacts(c) :: ArtifactDelivered(s, g)
  }

  ghost predicate ArtifactDelivered(s: Store, gav: Gav) {
    exists d :: DeployedFor(s, s.abrName(gav), d) && ReallyDeployed(s, d)
  }

  lemma CompleteNow(s: Store, c: ComponentBuild)
    requires MarksBacked(s) && VerdictOf(s, c) == Complete
    ensures BuiltAndDeployed(s, c)
  {
    VerdictMeaning(s, c);
    forall g | g in Artifacts(c) ensures ArtifactDelivered(s, g) {
      var d :| DeployedFor(s, s.abrName(g), d);
      assert Mark(s.dbs[d]) == DEPLOYED;
    }
  }

  /** What a ComponentBuild publishes stays the same but for message and flag. */
  ghost predicate Unpublished(before: ComponentBuildStatus, after: ComponentBuildStatus) {
    after == before.(message := after.message, resultNotified := after.resultNotified)
  }

  ghost predicate UnpublishedAt(s: Store, t: Store, n: Name) {
    n in s.cbs && n in t.cbs && Unpublished(s.cbs[n].status, t.cbs[n].status)
  }

  /** A step handles the ComponentBuild without an error, or changes what it publishes. */
  ghost predicate Writes(a: System, b: System, n: Name) {
    || !UnpublishedAt(a.store, b.store, n)
    || exists key, calls :: ReconcileStep(a, b, key, calls) && Handles(a.store, key, calls, n)
  }

  /** A Complete that a step writes is true. */
  lemma CompleteIsTrue(a: System, b: System, k: Assumed, n: Name)
    requires Next(a, b, k) && n in b.store.cbs && b.store.cbs[n].status.state == Complete
    requires Writes(a, b, n)
    ensures UpToDate(b.store, b.store.cbs[n])
  {
    if key, calls :| ReconcileStep(a, b, key, calls) && Handles(a.store, key, calls, n) {
      HandlesIsTrue(a.store, key, calls, n);
    } else if key, calls :| ReconcileStep(a, b, key, calls) {
      ReconcileShape(a.store, key, calls);
      ReconcileResults(a.store, key, calls, n);
    }
  }

  /** Whenever a run publishes Complete, for the first time or again, everything was built and really deployed then. */
  lemma CompleteMeansDeployed(run: seq<System>, k: Assumed, i: nat, n: Name)
    requires Behaviour(run, k) && k.deploys && 0 < i < |run| && MarksBacked(run[0].store)
    requires n in run[i].store.cbs && run[i].store.cbs[n].status.state == Complete
    requires Writes(run[i - 1], run[i], n)
    ensures UpToDate(run[i].store, run[i].store.cbs[n]) && BuiltAndDeployed(run[i].store, run[i].store.cbs[n])
  {
    MarksAlwaysBacked(run, k, i);
    assert StepAt(run, i, k);
    CompleteIsTrue(run[i - 1], run[i], k, n);
    CompleteNow(run[i].store, run[i].store.cbs[n]);
  }

  /** The DependencyBuild that owns the rebuilt artifact was deployed by a task that succeeded. */
  ghost predicate OnceDelivered(s: Store, gav: Gav) {
    var ab := s.abrName(gav);
    ab in s.ras && ReallyDeployed(s, LastDependencyOwner(s.ras[ab].owners))
  }

  /** Whatever a ComponentBuild that says Complete lists was really deployed. */
  ghost predicate CompleteBacked(s: Store) {
    forall n | n in s.cbs && s.cbs[n].status.state == Complete :: ListedDelivered(s, s.cbs[n].status)
  }

  ghost predicate ListedDelivered(s: Store, st: ComponentBuildStatus) {
    forall g | g in st.artifactState :: OnceDelivered(s, g)
  }

  lemma DeliveredIsOnce(s: Store, gav: Gav)
    requires ArtifactDelivered(s, gav)
    ensures OnceDelivered(s, gav)
  {
    var d :| DeployedFor(s, s.abrName(gav), d) && ReallyDeployed(s, d);
    LastOwnerMeaning(s.ras[s.abrName(gav)].owners, d);
  }

  /** Tasks that succeeded and the owners of rebuilt artifacts are still there. */
  ghost predicate DeliveriesStay(s: Store, t: Store) {
    && t.abrName == s.abrName
    && (forall r, d | r in s.trs && SucceededFor(s.trs[r], d) :: r in t.trs && SucceededFor(t.trs[r], d))
    && (forall x | x in s.ras :: x in t.ras && LastDependencyOwner(t.ras[x].owners) == LastDependencyOwner(s.ras[x].owners))
  }

  lemma OnceDeliveredKept(s: Store, t: Store, gav: Gav)
    requires DeliveriesStay(s, t) && OnceDelivered(s, gav)
    ensures OnceDelivered(t, gav)
  {
    var d := LastDependencyOwner(s.ras[s.abrName(gav)].owners);
    var r :| r in s.trs && SucceededFor(s.trs[r], d);
    assert r in t.trs && SucceededFor(t.trs[r], d);
  }

  lemma NextKeepsDeliveries(a: System, b: System, k: Assumed)
    requires Next(a, b, k) && k.deploys
    ensures DeliveriesStay(a.store, b.store)
  {
    if key, calls :| ReconcileStep(a, b, key, calls) {
      ReconcileShape(a.store, key, calls);
    } else {
      forall r, d | r in a.store.trs && SucceededFor(a.store.trs[r], d)
        ensures r in b.store.trs && SucceededFor(b.store.trs[r], d)
      {
        assert TaskKept(a.store.trs[r], b.store.trs[r]);
      }
    }
  }

  /** A status that no step published is an old one, or that of a new object. */
  lemma UnpublishedOrNew(a: System, b: System, k: Assumed, n: Name)
    requires Next(a, b, k) && n in b.store.cbs && b.store.cbs[n].status.state == Complete
    ensures UnpublishedAt(a.store, b.store, n) || UpToDate(b.store, b.store.cbs[n])
  {
    if !UnpublishedAt(a.store, b.store, n) {
      CompleteIsTrue(a, b, k, n);
    }
  }

  lemma CompleteKept(a: System, b: System, k: Assumed, n: Name)
    requires Next(a, b, k) && k.deploys && CompleteBacked(a.store) && MarksBacked(b.store)
    requires n in b.store.cbs && b.store.cbs[n].status.state == Complete
    ensures ListedDelivered(b.store, b.store.cbs[n].status)
  {
    UnpublishedOrNew(a, b, k, n);
    NextKeepsDeliveries(a, b, k);
    var st := b.store.cbs[n].status;
    if UnpublishedAt(a.store, b.store, n) {
      assert ListedDelivered(a.store, a.store.cbs[n].status);
      forall g | g in st.artifactState ensures OnceDelivered(b.store, g) { OnceDeliveredKept(a.store, b.store, g); }
    } else {
      CompleteNow(b.store, b.store.cbs[n]);
      forall g | g in st.artifactState ensures OnceDelivered(b.store, g) { DeliveredIsOnce(b.store, g); }
    }
  }

  lemma StepKeepsComplete(run: seq<System>, k: Assumed, i: nat)
    requires Behaviour(run, k) && k.deploys && 0 < i < |run| && MarksBacked(run[0].store)
    requires CompleteBacked(run[i - 1].store)
    ensures CompleteBacked(run[i].store)
  {
    MarksAlwaysBacked(run, k, i);
    assert StepAt(run, i, k);
    forall n | n in run[i].store.cbs && run[i].store.cbs[n].status.state == Complete
      ensures ListedDelivered(run[i].store, run[i].store.cbs[n].status)
    {
      CompleteKept(run[i - 1], run[i], k, n);
    }
  }

  /** In every reachable state, whatever a ComponentBuild that says Complete lists was really deployed. */
  lemma {:induction false} CompleteAlwaysBacked(run: seq<System>, k: Assumed, i: nat)
    requires Behaviour(run, k) && k.deploys && i < |run| && MarksBacked(run[0].store) && CompleteBacked(run[0].store)
    ensures CompleteBacked(run[i].store)
  {
    if i > 0 {
      CompleteAlwaysBacked(run, k, i - 1);
      StepKeepsComplete(run, k, i);
    }
  }

  /** In every reachable state, an idle, unblocked ComponentBuild that says Complete had its whole spec really deployed. */
  lemma CompleteSpecDeployed(run: seq<System>, k: Assumed, i: nat, n: Name, gav: Gav)
    requires Behaviour(run, k) && k.deploys && i < |run|
    requires MarksBacked(run[0].store) && CompleteBacked(run[0].store) && IndexAgrees(run[0])
    requires n in run[i].store.cbs && n !in run[i].queue
    requires run[i].store.cbs[n].status.state == Complete && run[i].store.cbs[n].status.message != NoConfig
    requires gav in run[i].store.cbs[n].spec.artifacts
    ensures OnceDelivered(run[i].store, gav)
  {
    CompleteAlwaysBacked(run, k, i);
    IndexAlways(run, k, i);
    assert IndexAgreesAt(run[i], n);
    assert ListedDelivered(run[i].store, run[i].store.cbs[n].status);
  }

  // ---- Provenance of notifications ----

  ghost predicate NotifiedBacked(s: Store) {
    forall n | n in s.cbs && s.cbs[n].status.resultNotified :: NoticeDelivered(s, n)
  }

  lemma DeliveredKept(s: Store, t: Store, n: Name)
    requires NoticeDelivered(s, n)
    requires forall r | r in s.prs :: r in t.prs && NoticeKept(s.prs[r], t.prs[r])
    ensures NoticeDelivered(t, n)
  {
    var r :| r in s.prs && DeliveredBy(s.prs[r], n);
    assert r in t.prs && DeliveredBy(t.prs[r], n);
  }

  lemma ReconcileKeepsNotices(s: Store, key: Name, calls: RequestCalls)
    requires Listed(s, calls)
    ensures var t := Reconcile(s, key, calls).store;
            forall r | r in s.prs :: r in t.prs && t.prs[r] == s.prs[r]
  {
    ReconcileShape(s, key, calls);
  }

  lemma NextKeepsNotices(a: System, b: System, k: Assumed)
    requires Next(a, b, k) && k.notices
    ensures forall r | r in a.store.prs :: r in b.store.prs && NoticeKept(a.store.prs[r], b.store.prs[r])
  {
    if key, calls :| ReconcileStep(a, b, key, calls) {
      ReconcileKeepsNotices(a.store, key, calls);
    }
  }

  lemma NextKeepsNotified(a: System, b: System, k: Assumed)
    requires Next(a, b, k) && k.notices && NotifiedBacked(a.store)
    ensures NotifiedBacked(b.store)
  {
    NextKeepsNotices(a, b, k);
    forall n | n in b.store.cbs && b.store.cbs[n].status.resultNotified ensures NoticeDelivered(b.store, n) {
      if key, calls :| ReconcileStep(a, b, key, calls) {
        ReconcileShape(a.store, key, calls);
        ReconcileResults(a.store, key, calls, n);
      }
      DeliveredKept(a.store, b.store, n);
    }
  }

  lemma StepKeepsNotified(run: seq<System>, k: Assumed, i: nat)
    requires Behaviour(run, k) && k.notices && 0 < i < |run| && NotifiedBacked(run[i - 1].store)
    ensures NotifiedBacked(run[i].store)
  {
    assert StepAt(run, i, k);
    NextKeepsNotified(run[i - 1], run[i], k);
  }

  /** A result counts as notified only if a notifier run of that ComponentBuild succeeded. */
  lemma {:induction false} NotifiedAlwaysBacked(run: seq<System>, k: Assumed, i: nat)
    requires Behaviour(run, k) && k.notices && i < |run| && NotifiedBacked(run[0].store)
    ensures NotifiedBacked(run[i].store)
  {
    if i > 0 {
      NotifiedAlwaysBacked(run, k, i - 1);
      StepKeepsNotified(run, k, i);
    }
  }

  lemma NewNoticeIsFresh(a: System, b: System, k: Assumed, r: Name)
    requires Next(a, b, k) && r in b.store.prs && r !in a.store.prs && NotifyPipeline in b.store.prs[r].labels
    ensures FreshNotice(b.store, b.store.prs[r])
  {
    if key, calls :| ReconcileStep(a, b, key, calls) {
      ReconcileShape(a.store, key, calls);
    }
  }

  /** The notifier run of state `i` appeared in state `j`, and what it says was true there. */
  ghost predicate AppearedTrue(run: seq<System>, i: nat, r: Name, j: int)
    requires i < |run| && r in run[i].store.prs
  {
    && 0 < j <= i && r in run[j].store.prs && r !in run[j - 1].store.prs
    && FreshNotice(run[j].store, run[j].store.prs[r])
    && NoticeKept(run[j].store.prs[r], run[i].store.prs[r])
  }

  lemma KeptTransitive(p: PipelineRun, q: PipelineRun, r: PipelineRun)
    requires NoticeKept(p, q) && NoticeKept(q, r)
    ensures NoticeKept(p, r)
  {
  }

  /** From one state of a run to the next, a notifier run is kept or appears truthfully. */
  lemma NoticeStep(run: seq<System>, k: Assumed, i: nat, r: Name)
    requires Behaviour(run, k) && k.notices && 0 < i < |run|
    requires r in run[i].store.prs && NotifyPipeline in run[i].store.prs[r].labels
    ensures if r in run[i - 1].store.prs then NoticeKept(run[i - 1].store.prs[r], run[i].store.prs[r])
            else FreshNotice(run[i].store, run[i].store.prs[r])
  {
    var a, b := run[i - 1], run[i];
    assert StepAt(run, i, k);
    if r in a.store.prs { NextKeepsNotices(a, b, k); } else { NewNoticeIsFresh(a, b, k, r); }
  }

  lemma AppearedEarlier(run: seq<System>, i: nat, r: Name, j: int)
    requires 0 < i < |run| && r in run[i - 1].store.prs && r in run[i].store.prs
    requires AppearedTrue(run, i - 1, r, j) && NoticeKept(run[i - 1].store.prs[r], run[i].store.prs[r])
    ensures AppearedTrue(run, i, r, j)
  {
    KeptTransitive(run[j].store.prs[r], run[i - 1].store.prs[r], run[i].store.prs[r]);
  }

  /** Every notifier run of a behaviour said, in the state in which it appeared, exactly what was true there. */
  lemma {:induction false} NoticesWereTrue(run: seq<System>, k: Assumed, i: nat, r: Name)
    requires Behaviour(run, k) && k.notices && i < |run|
    requires r in run[i].store.prs && r !in run[0].store.prs && NotifyPipeline in run[i].store.prs[r].labels
    ensures exists j :: AppearedTrue(run, i, r, j)
  {
    NoticeStep(run, k, i, r);
    if r in run[i - 1].store.prs {
      NoticesWereTrue(run, k, i - 1, r);
      var j :| AppearedTrue(run, i - 1, r, j);
      AppearedEarlier(run, i, r, j);
    } else {
      assert AppearedTrue(run, i, r, i);
    }
  }
}
