/** The controller as it runs: methods that update the objects of the namespace in place. */
module Controller {
  import opened Wrappers
  import opened Cluster
  import opened Handlers
  import opened Status

  class Reconciler {
    const abrName: Gav -> Name
    var config: map<ConfigKey, string>
    var cbs: map<Name, ComponentBuild>
    var abs: map<Name, ArtifactBuild>
    var ras: map<Name, RebuiltArtifact>
    var dbs: map<Name, DependencyBuild>
    var trs: map<Name, TaskRun>
    var prs: map<Name, PipelineRun>

    ghost function Snapshot(): Store
      reads this
    {
      Store(abrName, config, cbs, abs, ras, dbs, trs, prs)
    }

    constructor (abrName: Gav -> Name)
      ensures Snapshot() == Store(abrName, map[], map[], map[], map[], map[], map[], map[])
    {
      this.abrName := abrName;
      config, cbs, abs, ras, dbs, trs, prs := map[], map[], map[], map[], map[], map[], map[];
    }

    method GetDependencyBuild(ab: Name, raOk: bool, dbOk: bool) returns (db: Option<Name>)
      ensures db == DependencyBuildOf(Snapshot(), ab, raOk, dbOk)
    {
      if !raOk || ab !in ras {
        return None;
      }
      var owners := ras[ab].owners;
      var name := "";
      for i := 0 to |owners|
        invariant name == LastDependencyOwner(owners[..i])
      {
        assert owners[..i + 1][..i] == owners[..i];
        if owners[i].kind == DependencyBuildKind {
          name := owners[i].name;
        }
      }
      assert owners[..|owners|] == owners;
      db := if name != "" && dbOk && name in dbs then Some(name) else None;
    }

    method FindArtifactState(ab: Name, raOk: bool, dbOk: bool) returns (a: ArtifactState)
      requires ab in abs
      ensures a == StateOf(Snapshot(), ab, raOk, dbOk)
    {
      var failed := abs[ab].state == BuildFailed || abs[ab].state == Missing;
      var built := abs[ab].state == BuildComplete;
      var deployed := false;
      if built {
        var db := GetDependencyBuild(ab, raOk, dbOk);
        if db.Some? && Mark(dbs[db.value]) == DEPLOYED {
          deployed := true;
        }
      }
      a := ArtifactState(ab, built, deployed, failed);
    }

    method DeployRunning(db: Name) returns (running: bool)
      ensures running == DeployInFlight(Snapshot(), db)
    {
      var rest := trs.Keys;
      while rest != {}
        invariant rest <= trs.Keys
        invariant forall r | r in trs && r !in rest :: !Deploying(trs[r], db)
        decreases |rest|
      {
        var r :| r in rest;
        if Deploying(trs[r], db) {
          return true;
        }
        rest := rest - {r};
      }
      return false;
    }

    method NoticeRunning(cb: Name) returns (running: bool)
      ensures running == NoticeInFlight(Snapshot(), cb)
    {
      var rest := prs.Keys;
      while rest != {}
        invariant rest <= prs.Keys
        invariant forall r | r in prs && r !in rest :: !Notifying(prs[r], cb)
        decreases |rest|
      {
        var r :| r in rest;
        if Notifying(prs[r], cb) {
          return true;
        }
        rest := rest - {r};
      }
      return false;
    }

    method DeployArtifact(ab: Name, c: ArtifactCalls) returns (err: bool)
      modifies this`trs
      ensures Snapshot() == Deploy(old(Snapshot()), ab, c)
    {
      var db := GetDependencyBuild(ab, c.deployRa, c.deployDb);
      if db.None? || Mark(dbs[db.value]) != "" {
        return false;
      }
      if !c.list {
        return true;
      }
      var running := DeployRunning(db.value);
      if running {
        return false;
      }
      if !c.task.Rejected? {
        trs := trs[FreshName(c.taskName, trs.Keys) := DeployTaskFor(config, ab, db.value)];
      }
      return !c.task.Ok?;
    }

    /** One round of the loop over the spec, on the loop's local variables and the store. */
    method VisitArtifact(gav: Gav, c: ArtifactCalls, states: map<Gav, ArtifactState>, outstanding: nat)
      returns (states': map<Gav, ArtifactState>, outstanding': nat, err: bool)
      modifies this`abs, this`trs
      ensures Scan(Snapshot(), states', outstanding', err)
           == ScanOne(Scan(old(Snapshot()), states, outstanding, false), gav, c)
    {
      states', outstanding', err := states, outstanding, false;
      var ab := abrName(gav);
      if !c.get {
        states' := states'[gav := NO_BUILD];
        outstanding' := outstanding' + 1;
      } else if ab in abs {
        var a := FindArtifactState(ab, c.stateRa, c.stateDb);
        states' := states'[gav := a];
        if !a.Done() && !a.failed {
          outstanding' := outstanding' + 1;
        }
        if a.built && !a.deployed {
          var _ := DeployArtifact(ab, c);
        }
      } else {
        if !c.create.Rejected? {
          abs := abs[ab := ArtifactBuild(gav, Unset)];
        }
        if !c.create.Ok? {
          err := true;
          return;
        }
        states' := states'[gav := ArtifactState(ab, false, false, false)];
        outstanding' := outstanding' + 1;
      }
    }

    method VisitArtifacts(artifacts: seq<Gav>, calls: nat -> ArtifactCalls)
      returns (states: map<Gav, ArtifactState>, outstanding: nat, err: bool)
      modifies this`abs, this`trs
      ensures Scan(Snapshot(), states, outstanding, err) == ScanFirst(old(Snapshot()), artifacts, calls, |artifacts|)
    {
      states, outstanding, err := map[], 0, false;
      for i := 0 to |artifacts|
        invariant !err
        invariant Scan(Snapshot(), states, outstanding, false) == ScanFirst(old(Snapshot()), artifacts, calls, i)
      {
        states, outstanding, err := VisitArtifact(artifacts[i], calls(i), states, outstanding);
        assert Scan(Snapshot(), states, outstanding, err) == ScanFirst(old(Snapshot()), artifacts, calls, i + 1);
        if err {
          ErrorEndsScan(old(Snapshot()), artifacts, calls, i + 1, |artifacts|);
          return;
        }
      }
    }

    method HasFailed(states: map<Gav, ArtifactState>) returns (failed: bool)
      ensures failed == AnyFailed(states)
    {
      var rest := states.Keys;
      while rest != {}
        invariant rest <= states.Keys
        invariant forall g | g in states && g !in rest :: !states[g].failed
        decreases |rest|
      {
        var g :| g in rest;
        if states[g].failed {
          return true;
        }
        rest := rest - {g};
      }
      return false;
    }

    method CollectFailed(range: seq<Gav>, states: map<Gav, ArtifactState>) returns (failed: seq<Gav>)
      ensures failed == FailedIn(range, states)
    {
      failed := [];
      for i := 0 to |range|
        invariant failed == FailedIn(range[..i], states)
      {
        assert range[..i + 1][..i] == range[..i];
        if range[i] in states && states[range[i]].failed {
          failed := failed + [range[i]];
        }
      }
      assert range[..|range|] == range;
    }

    method NotifyResult(name: Name, url: string, status: ComponentBuildStatus, calls: CbCalls) returns (err: bool)
      modifies this`prs
      ensures Result(Snapshot(), err) == Notify(old(Snapshot()), name, url, status, calls)
    {
      if url == "" {
        return false;
      }
      if !calls.list {
        return true;
      }
      var running := NoticeRunning(name);
      if running {
        return false;
      }
      var notice := NoText;
      if status.state == Failed {
        var failed := CollectFailed(calls.range, status.artifactState);
        notice := FailedBuilds(failed);
      } else if status.state == Complete {
        notice := Retest;
      }
      if !calls.notify.Rejected? {
        prs := prs[FreshName(calls.runName, prs.Keys) := NotifierFor(name, url, notice)];
      }
      return !calls.notify.Ok?;
    }

    method UpdateStatus(name: Name, status: ComponentBuildStatus, w: Write) returns (err: bool)
      requires name in cbs
      modifies this`cbs
      ensures Result(Snapshot(), err) == PutStatus(old(Snapshot()), name, status, w)
    {
      if !w.Rejected? {
        cbs := cbs[name := cbs[name].(status := status)];
      }
      return !w.Ok?;
    }

    /** `cb` is the copy of the ComponentBuild that the request read. */
    method HandleComponentBuild(name: Name, cb: ComponentBuild, calls: CbCalls) returns (err: bool)
      requires name in cbs && cbs[name] == cb
      modifies this`cbs, this`abs, this`trs, this`prs
      ensures Result(Snapshot(), err) == Handlers.HandleComponentBuild(old(Snapshot()), name, calls)
    {
      if !calls.config {
        return true;
      }
      var status := cb.status;
      if !Configured(config) {
        status := status.(message := NoConfig);
        err := UpdateStatus(name, status, calls.status);
        return;
      } else if status.message == NoConfig {
        status := status.(message := NoMessage);
      }
      var states, outstanding, failing := VisitArtifacts(cb.spec.artifacts, calls.artifact);
      ghost var p := FullScan(old(Snapshot()), name, calls);
      assert Scan(Snapshot(), states, outstanding, failing) == p;
      if failing {
        return true;
      }
      status := status.(artifactState := states, outstanding := outstanding);
      if outstanding == 0 {
        var failed := HasFailed(states);
        status := status.(state := if failed then Failed else Complete);
        assert status == StatusFrom(cb.status, p);
        if !status.resultNotified {
          err := NotifyResult(name, cb.spec.prUrl, status, calls);
          if err {
            return;
          }
        }
      } else {
        status := status.(state := InProgress, resultNotified := false);
        assert status == StatusFrom(cb.status, p);
      }
      assert Snapshot() == Announce(p, name, cb, calls).store;
      err := UpdateStatus(name, status, calls.status);
    }

    method HandleArtifactBuild(gav: Gav, calls: RequestCalls) returns (err: bool)
      requires Listed(Snapshot(), calls)
      modifies this`cbs, this`abs, this`trs, this`prs
      ensures Result(Snapshot(), err) == Handlers.HandleArtifactBuild(old(Snapshot()), gav, calls)
    {
      if !calls.listCbs {
        return true;
      }
      var items := cbs;
      for i := 0 to |calls.order|
        invariant Snapshot() == FanOut(old(Snapshot()), gav, calls, i)
      {
        var name := calls.order[i];
        assert name in items;
        FanOutTouchesVisited(old(Snapshot()), gav, calls, i, name);
        if gav in items[name].status.artifactState {
          var _ := HandleComponentBuild(name, items[name], calls.cb(name));
        }
      }
      return false;
    }

    method FindOwner(owners: seq<OwnerRef>, kind: OwnerKind) returns (name: Name)
      ensures name == FirstOwner(owners, kind)
    {
      name := "";
      for i := 0 to |owners|
        invariant name == ""
        invariant FirstOwner(owners, kind) == FirstOwner(owners[i..], kind)
      {
        assert owners[i..][1..] == owners[i + 1..];
        if owners[i].kind == kind {
          name := owners[i].name;
          break;
        }
      }
    }

    method HandleTaskRun(tr: TaskRun, calls: RequestCalls) returns (err: bool)
      requires Listed(Snapshot(), calls)
      modifies this`cbs, this`abs, this`dbs, this`trs, this`prs
      ensures Result(Snapshot(), err) == Handlers.HandleTaskRun(old(Snapshot()), tr, calls)
    {
      if !tr.completed || Lookup(tr.labels, DeployTask) == "" {
        return false;
      }
      var owner := FindOwner(tr.owners, ArtifactBuildKind);
      if owner == "" {
        return false;
      }
      if !calls.owner || owner !in abs {
        return true;
      }
      var gav := abs[owner].gav;
      if tr.succeeded == True {
        var db := GetDependencyBuild(owner, calls.ownerRa, calls.ownerDb);
        if db.Some? && !calls.mark.Rejected? {
          dbs := dbs[db.value := DependencyBuild(dbs[db.value].annotations[DeployedKey := DEPLOYED])];
        }
        assert Snapshot() == MarkDeployed(old(Snapshot()), owner, calls);
      }
      err := HandleArtifactBuild(gav, calls);
    }

    method HandlePipelineRun(pr: PipelineRun, calls: RequestCalls) returns (err: bool)
      modifies this`cbs, this`abs, this`trs, this`prs
      ensures Result(Snapshot(), err) == Handlers.HandlePipelineRun(old(Snapshot()), pr, calls)
    {
      if Lookup(pr.labels, TektonPipeline) != NOTIFIER_PIPELINE || !pr.completed {
        return false;
      }
      var owner := FindOwner(pr.owners, ComponentBuildKind);
      if owner == "" {
        return false;
      }
      if !calls.owner || owner !in cbs {
        return true;
      }
      if pr.succeeded == True {
        err := UpdateStatus(owner, cbs[owner].status.(resultNotified := true), calls.status);
      } else {
        err := HandleComponentBuild(owner, cbs[owner], calls.cb(owner));
      }
    }

    method Reconcile(key: Name, calls: RequestCalls) returns (err: bool)
      requires Listed(Snapshot(), calls)
      modifies this`cbs, this`abs, this`dbs, this`trs, this`prs
      ensures Result(Snapshot(), err) == Handlers.Reconcile(old(Snapshot()), key, calls)
    {
      if !calls.getAb || !calls.getCb || !calls.getTr || !calls.getPr {
        return true;
      }
      if key in cbs {
        err := HandleComponentBuild(key, cbs[key], calls.cb(key));
      } else if key in abs {
        err := HandleArtifactBuild(abs[key].gav, calls);
      } else if key in trs {
        err := HandleTaskRun(trs[key], calls);
      } else if key in prs {
        err := HandlePipelineRun(prs[key], calls);
      } else {
        err := false;
      }
    }
  }

  /** The first owner of the kind decides, whatever follows it. */
  lemma {:induction false} FirstOwnerMeaning(owners: seq<OwnerRef>, kind: OwnerKind, i: nat)
    requires i < |owners| && owners[i].kind == kind && forall j | 0 <= j < i :: owners[j].kind != kind
    ensures FirstOwner(owners, kind) == owners[i].name
  {
    if i > 0 {
      FirstOwnerMeaning(owners[1..], kind, i - 1);
    }
  }

  lemma {:induction false} ErrorEndsScan(s: Store, artifacts: seq<Gav>, calls: nat -> ArtifactCalls, i: nat, n: nat)
    requires i <= n <= |artifacts| && ScanFirst(s, artifacts, calls, i).err
    ensures ScanFirst(s, artifacts, calls, n) == ScanFirst(s, artifacts, calls, i)
  {
    if i < n {
      ErrorEndsScan(s, artifacts, calls, i, n - 1);
    }
  }

  /** A ComponentBuild that the fan-out has not reached yet is still the listed one. */
  lemma {:induction false} FanOutTouchesVisited(s: Store, gav: Gav, calls: RequestCalls, n: nat, name: Name)
    requires n <= |calls.order| && name in s.cbs && forall i | 0 <= i < n :: calls.order[i] != name
    ensures FanOut(s, gav, calls, n).cbs[name] == s.cbs[name]
  {
    if n > 0 {
      FanOutTouchesVisited(s, gav, calls, n - 1, name);
      var p, cb := FanOut(s, gav, calls, n - 1), calls.order[n - 1];
      if Affected(s, cb, gav) {
        HandleTouchesOnly(p, cb, calls.cb(cb));
      }
    }
  }
}
