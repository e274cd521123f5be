/** A ComponentBuild gets its verdict after boundedly many rounds in which the cluster makes some progress. */
module Progress {
  import opened Wrappers
  import opened Cluster
  import opened Handlers
  import opened Status
  import opened SingleReconcile
  import opened FanningOut
  import opened Requests
  import opened Runs

  /** 2 while the build is not finished, 1 while the deploy is not recorded, 0 once the artifact is done or failed. */
  ghost function Weight(s: Store, gav: Gav): nat {
    var ab := s.abrName(gav);
    if !StatusOf(s, gav).Pending() then 0
    else if ab in s.abs && Terminal(s.abs[ab].state) then 1
    else 2
  }

  ghost function Work(s: Store, artifacts: seq<Gav>): nat {
    if artifacts == [] then 0 else Weight(s, artifacts[0]) + Work(s, artifacts[1..])
  }

  lemma {:induction false} WorkBound(s: Store, artifacts: seq<Gav>)
    ensures Work(s, artifacts) <= 2 * |artifacts|
    ensures Work(s, artifacts) == 0 <==> forall g | g in artifacts :: !StatusOf(s, g).Pending()
  {
    if artifacts != [] {
      WorkBound(s, artifacts[1..]);
      assert artifacts == [artifacts[0]] + artifacts[1..];
    }
  }

  lemma {:induction false} WorkMonotone(s: Store, t: Store, artifacts: seq<Gav>)
    requires forall g | g in artifacts :: Weight(t, g) <= Weight(s, g)
    ensures Work(t, artifacts) <= Work(s, artifacts)
    ensures (exists g :: g in artifacts && Weight(t, g) < Weight(s, g)) ==> Work(t, artifacts) < Work(s, artifacts)
  {
    if artifacts != [] {
      assert artifacts == [artifacts[0]] + artifacts[1..];
      WorkMonotone(s, t, artifacts[1..]);
    }
  }

  // ---- What a round starts from ----

  /** Deploy tasks are owned by existing ArtifactBuilds, and no ArtifactBuild name is empty. */
  ghost predicate OwnersExist(s: Store) {
    && "" !in s.abs && (forall g :: s.abrName(g) != "")
    && forall r | r in s.trs && DeployTask in s.trs[r].labels :: FirstOwner(s.trs[r].owners, ArtifactBuildKind) in s.abs
  }

  ghost predicate Sound(s: Store, cb: Name) {
    cb in s.cbs && Configured(s.config) && MarksBacked(s) && OwnersExist(s)
  }

  ghost predicate Ready(s: Store, cb: Name) {
    Sound(s, cb) && AllServed(s, s.cbs[cb])
  }

  /** Any error-free reconcile of the ComponentBuild gets it ready. */
  lemma ReadyAfterReconcile(s: Store, cb: Name, calls: CbCalls)
    requires Sound(s, cb) && Ranged(s.cbs[cb], calls) && Clean(calls)
    ensures Ready(HandleComponentBuild(s, cb, calls).store, cb)
  {
    var t := HandleComponentBuild(s, cb, calls).store;
    HandleExtends(s, cb, calls);
    NoSilentStall(s, cb, calls);
    ExtendsKeepsBacked(s, t);
    ExtendsKeepsOwners(s, t);
  }

  lemma ExtendsKeepsOwners(s: Store, t: Store)
    requires Extends(s, t) && OwnersExist(s)
    ensures OwnersExist(t)
  {
    forall r | r in t.trs && DeployTask in t.trs[r].labels
      ensures FirstOwner(t.trs[r].owners, ArtifactBuildKind) in t.abs
    {
      if r !in s.trs {
        var ab, d :| IsDeployOf(t, t.trs[r], ab, d) && Mark(t.dbs[d]) == "";
        assert FirstOwner(t.trs[r].owners, ArtifactBuildKind) == ab;
      }
    }
  }

  // ---- Requests never undo progress ----

  /** From `s` to `t` no artifact's weight grows, finished deploys stay recorded, and nothing is forgotten. */
  ghost predicate Advances(s: Store, t: Store) {
    && t.abrName == s.abrName && t.config == s.config
    && SameSpecs(s, t)
    && (forall g :: Weight(t, g) <= Weight(s, g))
    && (forall d | d in s.dbs :: d in t.dbs && Mark(t.dbs[d]) in {Mark(s.dbs[d]), DEPLOYED})
    && t.ras == s.ras
    && (forall k | k in s.abs :: k in t.abs && t.abs[k] == s.abs[k])
    && (forall k | k in t.abs && k !in s.abs :: t.abs[k].state == Unset && exists g :: t.abrName(g) == k)
    && (forall r | r in s.trs :: r in t.trs && t.trs[r] == s.trs[r])
  }

  lemma ExtendsAdvances(s: Store, t: Store)
    requires Extends(s, t)
    ensures Advances(s, t)
  {
    forall g ensures Weight(t, g) <= Weight(s, g) { StatusStable(s, t, g); }
  }

  lemma MarkAdvances(s: Store, d: Name)
    requires d in s.dbs
    ensures Advances(s, WithMark(s, d))
  {
  }

  lemma AdvancesTransitive(s: Store, t: Store, u: Store)
    requires Advances(s, t) && Advances(t, u)
    ensures Advances(s, u)
  {
    forall g ensures Weight(u, g) <= Weight(s, g) {
      assert Weight(u, g) <= Weight(t, g) <= Weight(s, g);
    }
  }

  lemma MarkKeepsServed(s: Store, d: Name, c: ComponentBuild)
    requires d in s.dbs && AllServed(s, c)
    ensures AllServed(WithMark(s, d), c)
  {
    var m := WithMark(s, d);
    forall g | g in Artifacts(c) ensures Served(m, g) {
      assert Served(s, g);
      assert forall x | DeployInFlight(s, x) :: DeployInFlight(m, x);
    }
  }

  /** From `s` to `t` progress is kept, and so is what a round starts from. */
  ghost predicate Improves(s: Store, t: Store, cb: Name) {
    Advances(s, t) && Sound(t, cb) && (Ready(s, cb) ==> Ready(t, cb))
  }

  lemma ExtendsImproves(s: Store, t: Store, cb: Name)
    requires Extends(s, t) && Sound(s, cb)
    ensures Improves(s, t, cb)
  {
    ExtendsAdvances(s, t);
    ExtendsKeepsBacked(s, t);
    ExtendsKeepsOwners(s, t);
    if Ready(s, cb) { AllServedStable(s, t, s.cbs[cb]); }
  }

  lemma MarkImproves(s: Store, key: Name, d: Name, cb: Name)
    requires Justifies(s, key, d) && Sound(s, cb)
    ensures Improves(s, WithMark(s, d), cb)
  {
    MarkAdvances(s, d);
    MarkKeepsBacked(s, key, d);
    if Ready(s, cb) { MarkKeepsServed(s, d, s.cbs[cb]); }
  }

  lemma ImprovesTransitive(s: Store, t: Store, u: Store, cb: Name)
    requires Improves(s, t, cb) && Improves(t, u, cb)
    ensures Improves(s, u, cb)
  {
    AdvancesTransitive(s, t, u);
  }

  lemma ReconcileAdvances(s: Store, key: Name, calls: RequestCalls, cb: Name)
    requires Listed(s, calls) && Sound(s, cb)
    ensures Improves(s, Reconcile(s, key, calls).store, cb)
  {
    var t := Reconcile(s, key, calls).store;
    ReconcileShape(s, key, calls);
    if Extends(s, t) {
      ExtendsImproves(s, t, cb);
    } else {
      var d :| Justifies(s, key, d) && Extends(WithMark(s, d), t);
      MarkImproves(s, key, d, cb);
      ExtendsImproves(WithMark(s, d), t, cb);
      ImprovesTransitive(s, WithMark(s, d), t, cb);
    }
  }

  // ---- A pass over a list of keys ----

  /** The store after reconciling the first `n` keys. */
  ghost function Pass(s: Store, keys: seq<Name>, calls: nat -> RequestCalls, n: nat): Store
    requires n <= |keys|
  {
    if n == 0 then s else Reconcile(Pass(s, keys, calls, n - 1), keys[n - 1], calls(n - 1)).store
  }

  ghost predicate CleanPass(s: Store, keys: seq<Name>, calls: nat -> RequestCalls) {
    forall i | 0 <= i < |keys| :: CleanAt(s, keys, calls, i)
  }

  ghost predicate CleanAt(s: Store, keys: seq<Name>, calls: nat -> RequestCalls, i: nat)
    requires i < |keys|
  {
    CleanRequest(calls(i)) && Listed(Pass(s, keys, calls, i), calls(i))
  }

  lemma {:induction false} PassAdvances(s: Store, keys: seq<Name>, calls: nat -> RequestCalls, m: nat, n: nat, cb: Name)
    requires m <= n <= |keys| && CleanPass(s, keys, calls) && Sound(Pass(s, keys, calls, m), cb)
    ensures Advances(Pass(s, keys, calls, m), Pass(s, keys, calls, n)) && Sound(Pass(s, keys, calls, n), cb)
  {
    var from := Pass(s, keys, calls, m);
    if n == m {
      ExtendsReflexive(from);
      ExtendsAdvances(from, from);
    } else {
      PassAdvances(s, keys, calls, m, n - 1, cb);
      assert CleanAt(s, keys, calls, n - 1);
      var p := Pass(s, keys, calls, n - 1);
      ReconcileAdvances(p, keys[n - 1], calls(n - 1), cb);
      AdvancesTransitive(from, p, Pass(s, keys, calls, n));
    }
  }

  /** No object that is looked up before tasks has, or can be given, the TaskRun's name. */
  ghost predicate Unshadowed(s: Store, r: Name) {
    r !in s.cbs && r !in s.abs && forall g :: s.abrName(g) != r
  }

  ghost predicate RecordedIn(s: Store, d: Name) {
    d in s.dbs && Mark(s.dbs[d]) == DEPLOYED
  }

  /** Reconciling a succeeded deploy task records the deploy. */
  lemma SuccessRecorded(s: Store, r: Name, calls: RequestCalls, d: Name)
    requires Listed(s, calls) && CleanRequest(calls) && MarksBacked(s) && OwnersExist(s)
    requires r in s.trs && SucceededFor(s.trs[r], d) && Unshadowed(s, r) && d in s.dbs && d != ""
    ensures RecordedIn(Reconcile(s, r, calls).store, d)
  {
    assert TaskLinked(s, s.trs[r]);
    assert Justifies(s, r, d);
    if Mark(s.dbs[d]) != DEPLOYED {
      DeployRecordedIff(s, r, calls, d);
    } else {
      ReconcileShape(s, r, calls);
    }
  }

  lemma AdvancesFacts(s: Store, t: Store, r: Name, d: Name)
    requires Advances(s, t) && r in s.trs && Unshadowed(s, r) && d in s.dbs
    ensures r in t.trs && t.trs[r] == s.trs[r] && Unshadowed(t, r)
    ensures d in t.dbs && (Mark(s.dbs[d]) == DEPLOYED ==> Mark(t.dbs[d]) == DEPLOYED)
  {
  }

  lemma RecordedAt(s: Store, keys: seq<Name>, calls: nat -> RequestCalls, cb: Name, i: nat, d: Name)
    requires i < |keys| && CleanPass(s, keys, calls) && Sound(s, cb)
    requires keys[i] in s.trs && SucceededFor(s.trs[keys[i]], d) && Unshadowed(s, keys[i]) && d in s.dbs && d != ""
    ensures RecordedIn(Pass(s, keys, calls, i + 1), d)
  {
    var p := Pass(s, keys, calls, i);
    PassAdvances(s, keys, calls, 0, i, cb);
    AdvancesFacts(s, p, keys[i], d);
    assert CleanAt(s, keys, calls, i);
    SuccessRecorded(p, keys[i], calls(i), d);
  }

  lemma PassRecords(s: Store, keys: seq<Name>, calls: nat -> RequestCalls, cb: Name, i: nat, d: Name)
    requires i < |keys| && CleanPass(s, keys, calls) && Sound(s, cb)
    requires keys[i] in s.trs && SucceededFor(s.trs[keys[i]], d) && Unshadowed(s, keys[i]) && d in s.dbs && d != ""
    ensures RecordedIn(Pass(s, keys, calls, |keys|), d)
  {
    RecordedAt(s, keys, calls, cb, i, d);
    PassAdvances(s, keys, calls, 0, i + 1, cb);
    PassAdvances(s, keys, calls, i + 1, |keys|, cb);
  }

  // ---- The pass over the ComponentBuilds ----

  /** The published verdict, count and states are those of the store as it is, and a final result is being announced. */
  ghost predicate Published(s: Store, cb: Name)
    requires cb in s.cbs
  {
    UpToDate(s, s.cbs[cb]) && Announced(s, cb)
  }

  lemma PublishedKept(s: Store, k: Name, calls: CbCalls, cb: Name)
    requires k in s.cbs && cb in s.cbs && Ranged(s.cbs[k], calls) && Clean(calls) && Configured(s.config)
    requires k == cb || Published(s, cb)
    ensures Published(HandleComponentBuild(s, k, calls).store, cb)
  {
    var t := HandleComponentBuild(s, k, calls).store;
    HandleExtends(s, k, calls);
    LoopRefinesStatus(s, k, calls);
    SameStatusFor(s, t, s.cbs[cb], t.cbs[cb]);
    if k == cb {
      CleanAnnounces(s, cb, calls);
    } else {
      AnnouncedKept(s, t, cb);
    }
  }

  lemma AnnouncedKept(s: Store, t: Store, cb: Name)
    requires cb in s.cbs && cb in t.cbs && t.cbs[cb] == s.cbs[cb] && Announced(s, cb)
    requires forall r | r in s.prs :: r in t.prs && t.prs[r] == s.prs[r]
    ensures Announced(t, cb)
  {
    if NoticeInFlight(s, cb) {
      var r :| r in s.prs && Notifying(s.prs[r], cb);
      assert r in t.prs && Notifying(t.prs[r], cb);
    }
  }

  lemma {:induction false} PassPublishes(s: Store, keys: seq<Name>, calls: nat -> RequestCalls, n: nat, cb: Name)
    requires n <= |keys| && CleanPass(s, keys, calls) && Sound(s, cb)
    requires forall k | k in keys :: k in s.cbs
    ensures cb in Pass(s, keys, calls, n).cbs
    ensures cb in keys[..n] ==> Published(Pass(s, keys, calls, n), cb) && Ready(Pass(s, keys, calls, n), cb)
  {
    if n > 0 {
      PassPublishes(s, keys, calls, n - 1, cb);
      PassAdvances(s, keys, calls, 0, n - 1, cb);
      assert CleanAt(s, keys, calls, n - 1);
      var p, k := Pass(s, keys, calls, n - 1), keys[n - 1];
      assert keys[..n] == keys[..n - 1] + [k];
      assert k in p.cbs;
      if cb in keys[..n] {
        PublishedKept(p, k, calls(n - 1).cb(k), cb);
        ReconcileAdvances(p, k, calls(n - 1), cb);
        if k == cb { ReadyAfterReconcile(p, cb, calls(n - 1).cb(cb)); }
      }
    }
  }

  // ---- Rounds ----

  /** Builds are not restarted, specs and config stay, and the DependencyBuilds of built artifacts resolve. */
  ghost predicate Cooperates(s: Store, e: Store, cb: Name) {
    && Environment(s, e) && DeploysStay(s, e)
    && e.config == s.config && cb in s.cbs && cb in e.cbs && e.cbs[cb].spec == s.cbs[cb].spec
    && "" !in e.abs
    && (forall k | k in s.abs :: k in e.abs && (Terminal(s.abs[k].state) ==> e.abs[k].state == s.abs[k].state))
    && (forall d | d in s.dbs && Mark(s.dbs[d]) == DEPLOYED :: d in e.dbs && Mark(e.dbs[d]) == DEPLOYED)
    && (forall g | g in Artifacts(e.cbs[cb]) :: Resolves(e, g))
  }

  ghost predicate Resolves(e: Store, gav: Gav) {
    var ab := e.abrName(gav);
    ab in e.abs && e.abs[ab].state == BuildComplete ==>
      Resolved(e, ab).Some? && Mark(e.dbs[Resolved(e, ab).value]) in {"", DEPLOYED}
  }

  /** Some build of the spec finishes, or some deploy that the spec needs succeeds. */
  ghost predicate BuildFinishes(s: Store, e: Store, gav: Gav) {
    var ab := s.abrName(gav);
    ab in s.abs && !Terminal(s.abs[ab].state) && ab in e.abs && Terminal(e.abs[ab].state)
  }

  ghost predicate DeploySucceeds(s: Store, e: Store, gav: Gav, r: Name) {
    && Need(s, gav) != {}
    && var d := Resolved(s, s.abrName(gav)).value;
    && r in s.trs && Deploying(s.trs[r], d) && r in e.trs && SucceededFor(e.trs[r], d)
  }

  ghost predicate Moves(s: Store, e: Store, cb: Name)
    requires cb in s.cbs
  {
    || (exists g :: g in Artifacts(s.cbs[cb]) && BuildFinishes(s, e, g))
    || (exists g, r :: g in Artifacts(s.cbs[cb]) && DeploySucceeds(s, e, g, r))
  }

  /** The order of one round's requests, and the outcomes of their calls. */
  datatype Plan = Plan(tasks: seq<Name>, taskCalls: nat -> RequestCalls, cbs: seq<Name>, cbCalls: nat -> RequestCalls)

  /** First every succeeded deploy, then every ComponentBuild, is reconciled without errors. */
  ghost predicate Reconciles(e: Store, plan: Plan) {
    && (forall r, d | r in e.trs && SucceededFor(e.trs[r], d) :: r in plan.tasks && Unshadowed(e, r))
    && CleanPass(e, plan.tasks, plan.taskCalls)
    && var m := Pass(e, plan.tasks, plan.taskCalls, |plan.tasks|);
    && (forall n | n in m.cbs :: n in plan.cbs) && (forall n | n in plan.cbs :: n in m.cbs)
    && CleanPass(m, plan.cbs, plan.cbCalls)
  }

  ghost function AfterPlan(e: Store, plan: Plan): Store {
    var m := Pass(e, plan.tasks, plan.taskCalls, |plan.tasks|);
    Pass(m, plan.cbs, plan.cbCalls, |plan.cbs|)
  }

  /** One round: the cluster moves while there is work, then the controller reconciles. */
  ghost predicate RoundVia(s: Store, t: Store, cb: Name, e: Store, plan: Plan) {
    && Cooperates(s, e, cb)
    && (Work(s, s.cbs[cb].spec.artifacts) > 0 ==> Moves(s, e, cb))
    && Reconciles(e, plan)
    && t == AfterPlan(e, plan)
  }

  ghost predicate Round(s: Store, t: Store, cb: Name) {
    exists e, plan :: RoundVia(s, t, cb, e, plan)
  }

  lemma CooperationLightens(s: Store, e: Store, cb: Name, g: Gav)
    requires Cooperates(s, e, cb) && Ready(s, cb) && g in Artifacts(s.cbs[cb])
    ensures Weight(e, g) <= Weight(s, g)
    ensures BuildFinishes(s, e, g) ==> Weight(e, g) < Weight(s, g)
  {
    assert Served(s, g);
    var ab := s.abrName(g);
    if StatusOf(s, g).Done() {
      assert Resolved(e, ab) == Resolved(s, ab);
    }
  }

  lemma CooperationKeepsSound(s: Store, e: Store, cb: Name)
    requires Cooperates(s, e, cb) && Sound(s, cb)
    ensures Sound(e, cb)
  {
    EnvironmentKeepsBacked(s, e);
    forall r | r in e.trs && DeployTask in e.trs[r].labels
      ensures FirstOwner(e.trs[r].owners, ArtifactBuildKind) in e.abs
    {
      assert r in s.trs && TaskKept(s.trs[r], e.trs[r]);
    }
  }

  /** The reconciles of a round keep or lower every weight, and leave the ComponentBuild ready and up to date. */
  lemma PlanAdvances(e: Store, plan: Plan, cb: Name)
    requires Sound(e, cb) && Reconciles(e, plan)
    ensures var t := AfterPlan(e, plan);
            Advances(e, t) && Ready(t, cb) && Published(t, cb)
  {
    var m := Pass(e, plan.tasks, plan.taskCalls, |plan.tasks|);
    PassAdvances(e, plan.tasks, plan.taskCalls, 0, |plan.tasks|, cb);
    PassAdvances(m, plan.cbs, plan.cbCalls, 0, |plan.cbs|, cb);
    PassPublishes(m, plan.cbs, plan.cbCalls, |plan.cbs|, cb);
    assert plan.cbs[..|plan.cbs|] == plan.cbs;
    AdvancesTransitive(e, m, AfterPlan(e, plan));
  }

  /** A deploy that succeeds in a round is recorded by the end of it. */
  lemma PlanRecords(s: Store, e: Store, plan: Plan, cb: Name, g: Gav, r: Name)
    requires Cooperates(s, e, cb) && Ready(s, cb) && Sound(e, cb) && Reconciles(e, plan)
    requires g in Artifacts(s.cbs[cb]) && DeploySucceeds(s, e, g, r)
    ensures Weight(AfterPlan(e, plan), g) < Weight(s, g)
  {
    var ab := s.abrName(g);
    var d := Resolved(s, ab).value;
    assert g in Artifacts(e.cbs[cb]) && Resolves(e, g);
    assert Resolved(e, ab) == Some(d);
    assert r in plan.tasks && Unshadowed(e, r);
    var i :| 0 <= i < |plan.tasks| && plan.tasks[i] == r;
    var m := Pass(e, plan.tasks, plan.taskCalls, |plan.tasks|);
    PassRecords(e, plan.tasks, plan.taskCalls, cb, i, d);
    PassAdvances(e, plan.tasks, plan.taskCalls, 0, |plan.tasks|, cb);
    PassAdvances(m, plan.cbs, plan.cbCalls, 0, |plan.cbs|, cb);
    MarkedIsDone(m, g);
  }

  lemma MarkedIsDone(m: Store, g: Gav)
    requires m.abrName(g) in m.abs && m.abs[m.abrName(g)].state == BuildComplete
    requires Resolved(m, m.abrName(g)).Some? && Mark(m.dbs[Resolved(m, m.abrName(g)).value]) == DEPLOYED
    ensures Weight(m, g) == 0
  {
  }

  lemma PlanLightens(s: Store, e: Store, plan: Plan, cb: Name, g: Gav)
    requires Cooperates(s, e, cb) && Ready(s, cb) && g in Artifacts(s.cbs[cb])
    requires Advances(e, AfterPlan(e, plan))
    ensures Weight(AfterPlan(e, plan), g) <= Weight(s, g)
    ensures BuildFinishes(s, e, g) ==> Weight(AfterPlan(e, plan), g) < Weight(s, g)
  {
    CooperationLightens(s, e, cb, g);
    assert Weight(AfterPlan(e, plan), g) <= Weight(e, g);
  }

  lemma MoveLightens(s: Store, e: Store, plan: Plan, cb: Name)
    requires Cooperates(s, e, cb) && Ready(s, cb) && Sound(e, cb) && Reconciles(e, plan)
    requires Advances(e, AfterPlan(e, plan)) && Moves(s, e, cb)
    ensures exists g :: g in s.cbs[cb].spec.artifacts && Weight(AfterPlan(e, plan), g) < Weight(s, g)
  {
    if g :| g in Artifacts(s.cbs[cb]) && BuildFinishes(s, e, g) {
      PlanLightens(s, e, plan, cb, g);
    } else {
      var g, r :| g in Artifacts(s.cbs[cb]) && DeploySucceeds(s, e, g, r);
      PlanRecords(s, e, plan, cb, g, r);
    }
  }

  /** Each round lowers the work that is left, and ends with a status that tells how much that is. */
  lemma RoundProgresses(s: Store, t: Store, cb: Name)
    requires Ready(s, cb) && Round(s, t, cb)
    ensures Ready(t, cb) && Published(t, cb) && t.cbs[cb].spec == s.cbs[cb].spec
    ensures var arts := s.cbs[cb].spec.artifacts;
            Work(t, arts) < Work(s, arts) || (Work(s, arts) == 0 && Work(t, arts) == 0)
  {
    var e, plan :| RoundVia(s, t, cb, e, plan);
    var arts := s.cbs[cb].spec.artifacts;
    CooperationKeepsSound(s, e, cb);
    PlanAdvances(e, plan, cb);
    forall g | g in arts ensures Weight(t, g) <= Weight(s, g) {
      PlanLightens(s, e, plan, cb, g);
    }
    if Work(s, arts) > 0 {
      MoveLightens(s, e, plan, cb);
    }
    WorkMonotone(s, t, arts);
  }

  /** What the DependencyBuilds of built artifacts resolve to is not undone by requests. */
  lemma StillResolves(e: Store, t: Store, gav: Gav)
    requires Advances(e, t) && Resolves(e, gav)
    ensures Resolves(t, gav)
  {
  }

  lemma SomethingRuns(s: Store, cb: Name)
    requires Ready(s, cb) && Work(s, s.cbs[cb].spec.artifacts) > 0
    requires forall g | g in Artifacts(s.cbs[cb]) :: Resolves(s, g)
    ensures CanMove(s, cb)
  {
    WorkBound(s, s.cbs[cb].spec.artifacts);
    var g :| g in s.cbs[cb].spec.artifacts && StatusOf(s, g).Pending();
    assert Served(s, g) && Resolves(s, g);
  }

  /** Some build of the spec, or some deploy that the spec needs, is running. */
  ghost predicate CanMove(s: Store, cb: Name)
    requires cb in s.cbs
  {
    exists g :: g in Artifacts(s.cbs[cb]) && s.abrName(g) in s.abs
      && (!Terminal(s.abs[s.abrName(g)].state)
          || (Need(s, g) != {} && DeployInFlight(s, Resolved(s, s.abrName(g)).value)))
  }

  /** While work is left at the end of a round, something is running that can finish: the rounds can go on. */
  lemma NeverStuck(s: Store, t: Store, cb: Name)
    requires Ready(s, cb) && Round(s, t, cb)
    ensures cb in t.cbs && (Work(t, t.cbs[cb].spec.artifacts) > 0 ==> CanMove(t, cb))
  {
    var e, plan :| RoundVia(s, t, cb, e, plan);
    CooperationKeepsSound(s, e, cb);
    PlanAdvances(e, plan, cb);
    if Work(t, t.cbs[cb].spec.artifacts) > 0 {
      forall g | g in Artifacts(t.cbs[cb]) ensures Resolves(t, g) {
        assert g in Artifacts(e.cbs[cb]);
        StillResolves(e, t, g);
      }
      SomethingRuns(t, cb);
    }
  }

  ghost predicate Rounds(run: seq<Store>, cb: Name) {
    run != [] && forall i | 0 < i < |run| :: RoundAt(run, i, cb)
  }

  ghost predicate RoundAt(run: seq<Store>, i: int, cb: Name)
    requires 0 < i < |run|
  {
    Round(run[i - 1], run[i], cb)
  }

  lemma {:induction false} RoundsProgress(run: seq<Store>, cb: Name, i: nat)
    requires Rounds(run, cb) && Ready(run[0], cb) && i < |run|
    ensures Ready(run[i], cb) && run[i].cbs[cb].spec == run[0].cbs[cb].spec
    ensures i > 0 ==> Published(run[i], cb)
    ensures var arts := run[0].cbs[cb].spec.artifacts;
            Work(run[i], arts) == 0 || Work(run[i], arts) + i <= Work(run[0], arts)
  {
    if i > 0 {
      RoundsProgress(run, cb, i - 1);
      assert RoundAt(run, i, cb);
      RoundProgresses(run[i - 1], run[i], cb);
    }
  }

  /**
   * After two rounds per artifact the published verdict is final, with nothing outstanding, and the pull request, if
   * there is one, has been or is being told.
   */
  lemma VerdictReached(run: seq<Store>, cb: Name, i: nat)
    requires Rounds(run, cb) && Ready(run[0], cb) && i < |run|
    requires i > 0 && i >= 2 * |run[0].cbs[cb].spec.artifacts|
    ensures cb in run[i].cbs
    ensures var c := run[i].cbs[cb];
            && c.status.state in {Complete, Failed} && c.status.outstanding == 0
            && (c.spec.prUrl == "" || c.status.resultNotified || NoticeInFlight(run[i], cb))
  {
    RoundsProgress(run, cb, i);
    var arts := run[0].cbs[cb].spec.artifacts;
    WorkBound(run[0], arts);
    WorkBound(run[i], arts);
    SettledIffNonePending(run[i], run[i].cbs[cb]);
  }
}
