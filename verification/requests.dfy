/** What any request can do, whichever kind of object its key turns out to name. */
module Requests {
  import opened Wrappers
  import opened Cluster
  import opened Handlers
  import opened Status
  import opened SingleReconcile
  import opened FanningOut

  ghost function WithMark(s: Store, d: Name): Store
    requires d in s.dbs
  {
    s.(dbs := s.dbs[d := DependencyBuild(s.dbs[d].annotations[DeployedKey := DEPLOYED])])
  }

  /** The key names a deploy task that succeeded for an artifact owned by DependencyBuild `d`. */
  ghost predicate Justifies(s: Store, key: Name, d: Name) {
    && key in s.trs && s.trs[key].completed && s.trs[key].succeeded == True
    && Lookup(s.trs[key].labels, DeployTask) != ""
    && Resolved(s, FirstOwner(s.trs[key].owners, ArtifactBuildKind)) == Some(d)
  }

  ghost predicate MarksThenExtends(s: Store, t: Store, key: Name) {
    exists d :: Justifies(s, key, d) && Extends(WithMark(s, d), t)
  }

  lemma ArtifactBuildShape(s: Store, gav: Gav, calls: RequestCalls)
    requires Listed(s, calls)
    ensures var t := HandleArtifactBuild(s, gav, calls).store;
            Extends(s, t) && Keeps(s, t)
  {
    ExtendsReflexive(s);
    FanOutExtends(s, gav, calls, |calls.order|);
    FanOutVerdictsSound(s, gav, calls, |calls.order|);
  }

  /** What a request preserves, apart from what it adds. */
  ghost predicate Keeps(s: Store, t: Store) {
    t.cbs.Keys == s.cbs.Keys && VerdictsSound(s, t) && (OneRunEach(s) ==> OneRunEach(t))
  }

  lemma SuccessShape(s: Store, key: Name, calls: RequestCalls)
    requires Listed(s, calls) && key in s.trs && s.trs[key].completed && s.trs[key].succeeded == True
    requires Lookup(s.trs[key].labels, DeployTask) != "" && FirstOwner(s.trs[key].owners, ArtifactBuildKind) in s.abs
    ensures var ab := FirstOwner(s.trs[key].owners, ArtifactBuildKind);
            var t := HandleArtifactBuild(MarkDeployed(s, ab, calls), s.abs[ab].gav, calls).store;
            (Extends(s, t) || MarksThenExtends(s, t, key)) && Keeps(s, t)
  {
    var ab := FirstOwner(s.trs[key].owners, ArtifactBuildKind);
    var m := MarkDeployed(s, ab, calls);
    assert Listed(m, calls);
    ArtifactBuildShape(m, s.abs[ab].gav, calls);
    KeepsAfterMark(s, m, HandleArtifactBuild(m, s.abs[ab].gav, calls).store);
    if m != s {
      var d := DependencyBuildOf(s, ab, calls.ownerRa, calls.ownerDb).value;
      assert Justifies(s, key, d) && m == WithMark(s, d);
    }
  }

  lemma KeepsAfterMark(s: Store, m: Store, t: Store)
    requires m == s.(dbs := m.dbs) && Keeps(m, t)
    ensures Keeps(s, t)
  {
  }

  lemma NothingKeeps(s: Store)
    ensures Extends(s, s) && Keeps(s, s)
  {
    ExtendsReflexive(s);
  }

  lemma TaskRunShape(s: Store, key: Name, calls: RequestCalls)
    requires Listed(s, calls) && key in s.trs
    ensures var t := HandleTaskRun(s, s.trs[key], calls).store;
            (Extends(s, t) || MarksThenExtends(s, t, key)) && Keeps(s, t)
  {
    var tr := s.trs[key];
    var ab := FirstOwner(tr.owners, ArtifactBuildKind);
    if !tr.completed || Lookup(tr.labels, DeployTask) == "" || ab == "" || !calls.owner || ab !in s.abs {
      NothingKeeps(s);
    } else if tr.succeeded == True {
      SuccessShape(s, key, calls);
    } else {
      ArtifactBuildShape(s, s.abs[ab].gav, calls);
    }
  }

  lemma HandleShape(s: Store, cb: Name, calls: CbCalls)
    requires cb in s.cbs && Ranged(s.cbs[cb], calls)
    ensures var t := HandleComponentBuild(s, cb, calls).store;
            Extends(s, t) && (OneRunEach(s) ==> OneRunEach(t))
  {
    HandleExtends(s, cb, calls);
    if OneRunEach(s) { HandleKeepsOne(s, cb, calls); }
  }

  lemma StatusShape(s: Store, cb: Name, st: ComponentBuildStatus, w: Write)
    requires cb in s.cbs
    ensures var t := PutStatus(s, cb, st, w).store;
            Extends(s, t) && (OneRunEach(s) ==> OneRunEach(t))
  {
    PutStatusExtends(s, cb, st, w);
    if OneRunEach(s) { StatusKeepsOne(s, cb, st, w); }
  }

  lemma PipelineRunShape(s: Store, key: Name, calls: RequestCalls)
    requires Listed(s, calls) && key in s.prs
    ensures var t := HandlePipelineRun(s, s.prs[key], calls).store;
            Extends(s, t) && (OneRunEach(s) ==> OneRunEach(t))
  {
    var pr := s.prs[key];
    var cb := FirstOwner(pr.owners, ComponentBuildKind);
    if Lookup(pr.labels, TektonPipeline) != NOTIFIER_PIPELINE || !pr.completed || cb == "" || !calls.owner || cb !in s.cbs {
      ExtendsReflexive(s);
    } else if pr.succeeded == True {
      StatusShape(s, cb, s.cbs[cb].status.(resultNotified := true), calls.status);
    } else {
      HandleShape(s, cb, calls.cb(cb));
    }
  }

  /** Every request extends the store, at most after marking one DependencyBuild whose deploy succeeded. */
  lemma ReconcileShape(s: Store, key: Name, calls: RequestCalls)
    requires Listed(s, calls)
    ensures var t := Reconcile(s, key, calls).store;
            && (Extends(s, t) || MarksThenExtends(s, t, key))
            && (OneRunEach(s) ==> OneRunEach(t))
  {
    ExtendsReflexive(s);
    if calls.getAb && calls.getCb && calls.getTr && calls.getPr {
      if key in s.cbs {
        HandleShape(s, key, calls.cb(key));
      } else if key in s.abs {
        ArtifactBuildShape(s, s.abs[key].gav, calls);
      } else if key in s.trs {
        TaskRunShape(s, key, calls);
      } else if key in s.prs {
        PipelineRunShape(s, key, calls);
      }
    }
  }

  /** A notifier run of this ComponentBuild finished successfully. */
  ghost predicate NoticeDelivered(s: Store, n: Name) {
    exists r :: r in s.prs && DeliveredBy(s.prs[r], n)
  }

  ghost predicate DeliveredBy(pr: PipelineRun, n: Name) {
    && Lookup(pr.labels, TektonPipeline) == NOTIFIER_PIPELINE && pr.completed && pr.succeeded == True
    && FirstOwner(pr.owners, ComponentBuildKind) == n
  }

  /** How a request may change the published results of ComponentBuild `n`. */
  ghost predicate ResultsSound(s: Store, t: Store, n: Name)
    requires n in s.cbs && n in t.cbs
  {
    && Publishes(t, t.cbs[n], s.cbs[n].status)
    && (t.cbs[n].status.resultNotified ==> s.cbs[n].status.resultNotified || NoticeDelivered(s, n))
  }

  lemma SoundAt(s: Store, t: Store, n: Name)
    requires VerdictsSound(s, t) && n in s.cbs
    ensures n in t.cbs && ResultsSound(s, t, n)
  {
    assert SoundFor(s, t, n);
  }

  lemma PipelineRunResults(s: Store, key: Name, calls: RequestCalls, n: Name)
    requires Listed(s, calls) && n in s.cbs && key in s.prs
    ensures var t := HandlePipelineRun(s, s.prs[key], calls).store;
            n in t.cbs && ResultsSound(s, t, n)
  {
    var pr := s.prs[key];
    var cb := FirstOwner(pr.owners, ComponentBuildKind);
    if cb in s.cbs && pr.succeeded != True {
      HandleVerdictSound(s, cb, calls.cb(cb));
    }
    assert DeliveredBy(pr, cb) ==> NoticeDelivered(s, cb);
  }

  lemma ReconcileResults(s: Store, key: Name, calls: RequestCalls, n: Name)
    requires Listed(s, calls) && n in s.cbs
    ensures var t := Reconcile(s, key, calls).store;
            n in t.cbs && ResultsSound(s, t, n)
  {
    var t := Reconcile(s, key, calls).store;
    if calls.getAb && calls.getCb && calls.getTr && calls.getPr {
      if key in s.cbs {
        HandleVerdictSound(s, key, calls.cb(key));
        SoundAt(s, t, n);
      } else if key in s.abs {
        ArtifactBuildShape(s, s.abs[key].gav, calls);
        SoundAt(s, t, n);
      } else if key in s.trs {
        TaskRunShape(s, key, calls);
        SoundAt(s, t, n);
      } else if key in s.prs {
        PipelineRunResults(s, key, calls, n);
      }
    }
  }

  // ---- Which ComponentBuilds a request handles ----

  ghost predicate EventHandles(s: Store, gav: Gav, calls: RequestCalls, n: Name) {
    calls.listCbs && exists i :: 0 <= i < |calls.order| && calls.order[i] == n && VisitedAt(s, gav, calls, i)
  }

  /** The store in which the event of a task is handled: after a success the DependencyBuild is marked first. */
  ghost function AfterMark(s: Store, key: Name, calls: RequestCalls): Store
    requires key in s.trs
  {
    if s.trs[key].succeeded == True then MarkDeployed(s, FirstOwner(s.trs[key].owners, ArtifactBuildKind), calls) else s
  }

  /** The request handles ComponentBuild `n`, with the config present and without an error. */
  ghost predicate Handles(s: Store, key: Name, calls: RequestCalls, n: Name) {
    && calls.getAb && calls.getCb && calls.getTr && calls.getPr && Configured(s.config) && n in s.cbs
    && if key in s.cbs then key == n && !HandleComponentBuild(s, n, calls.cb(n)).err
       else if key in s.abs then EventHandles(s, s.abs[key].gav, calls, n)
       else if key in s.trs then
         FinishedDeploy(s, key) && calls.owner && EventHandles(AfterMark(s, key, calls), OwnerGav(s, key), calls, n)
       else
         && FinishedNotice(s, key) && calls.owner && NotifiedName(s, key) == n && s.prs[key].succeeded != True
         && !HandleComponentBuild(s, n, calls.cb(n)).err
  }

  lemma EventIsTrue(s: Store, gav: Gav, calls: RequestCalls, n: Name)
    requires Listed(s, calls) && Configured(s.config) && EventHandles(s, gav, calls, n)
    ensures FinalIsTrue(HandleArtifactBuild(s, gav, calls).store, n)
  {
    var i :| 0 <= i < |calls.order| && calls.order[i] == n && VisitedAt(s, gav, calls, i);
    FanOutIsTrue(s, gav, calls, i);
  }

  lemma TaskEventIsTrue(s: Store, key: Name, calls: RequestCalls, n: Name)
    requires Listed(s, calls) && Configured(s.config) && FinishedDeploy(s, key) && calls.owner
    requires EventHandles(AfterMark(s, key, calls), OwnerGav(s, key), calls, n)
    ensures FinalIsTrue(HandleTaskRun(s, s.trs[key], calls).store, n)
  {
    var m := AfterMark(s, key, calls);
    assert m == s.(dbs := m.dbs) && Listed(m, calls);
    EventIsTrue(m, OwnerGav(s, key), calls, n);
  }

  /** Whatever final verdict a request leaves on a ComponentBuild that it handles is true, whether it changed or not. */
  lemma HandlesIsTrue(s: Store, key: Name, calls: RequestCalls, n: Name)
    requires Listed(s, calls) && Handles(s, key, calls, n)
    ensures FinalIsTrue(Reconcile(s, key, calls).store, n)
  {
    if key in s.cbs {
      HandledIsTrue(s, n, calls.cb(n));
    } else if key in s.abs {
      EventIsTrue(s, s.abs[key].gav, calls, n);
    } else if key in s.trs {
      TaskEventIsTrue(s, key, calls, n);
    } else {
      HandledIsTrue(s, n, calls.cb(n));
    }
  }

  /**
   * A successful deploy is recorded by its own event exactly when no ComponentBuild and no ArtifactBuild
   * has the TaskRun's name, as a key carries no kind and those two are looked up first, and the ArtifactBuild
   * that owns the TaskRun still exists.
   */
  lemma DeployRecordedIff(s: Store, key: Name, calls: RequestCalls, d: Name)
    requires Listed(s, calls) && CleanRequest(calls)
    requires Justifies(s, key, d) && Mark(s.dbs[d]) != DEPLOYED
    ensures d in Reconcile(s, key, calls).store.dbs
    ensures var ab := FirstOwner(s.trs[key].owners, ArtifactBuildKind);
            Mark(Reconcile(s, key, calls).store.dbs[d]) == DEPLOYED <==>
              key !in s.cbs && key !in s.abs && ab in s.abs && ab != ""
  {
    var ab := FirstOwner(s.trs[key].owners, ArtifactBuildKind);
    if key in s.cbs {
      HandleExtends(s, key, calls.cb(key));
    } else if key in s.abs {
      ArtifactBuildShape(s, s.abs[key].gav, calls);
    } else if ab in s.abs && ab != "" {
      var m := MarkDeployed(s, ab, calls);
      assert Listed(m, calls);
      ArtifactBuildShape(m, s.abs[ab].gav, calls);
    }
  }

  lemma EventServes(s: Store, gav: Gav, calls: RequestCalls, n: Name)
    requires Listed(s, calls) && CleanRequest(calls) && Configured(s.config) && n in Subscribers(s, gav)
    ensures AllServed(HandleArtifactBuild(s, gav, calls).store, s.cbs[n])
  {
    assert n in calls.order;
    FanOutServes(s, gav, calls, |calls.order|, n);
  }

  lemma ServedNeed(s: Store, t: Store, gav: Gav)
    requires Extends(s, t) && Served(t, gav) && Need(s, gav) != {}
    ensures DeployInFlight(t, Resolved(s, s.abrName(gav)).value)
  {
    StatusStable(s, t, gav);
  }

  /** The event reaches the handler for TaskRuns, and the TaskRun is a deploy with a living owner. */
  ghost predicate FinishedDeploy(s: Store, key: Name) {
    && key in s.trs && key !in s.cbs && key !in s.abs
    && s.trs[key].completed && Lookup(s.trs[key].labels, DeployTask) != ""
    && var ab := FirstOwner(s.trs[key].owners, ArtifactBuildKind); ab != "" && ab in s.abs
  }

  ghost function OwnerGav(s: Store, key: Name): Gav
    requires FinishedDeploy(s, key)
  {
    s.abs[FirstOwner(s.trs[key].owners, ArtifactBuildKind)].gav
  }

  /** Handling a failed deploy leaves one deploy in flight for every need of the ComponentBuilds it concerns. */
  lemma FailedDeployRetried(s: Store, key: Name, calls: RequestCalls, n: Name, gav: Gav)
    requires Listed(s, calls) && CleanRequest(calls) && Configured(s.config) && OneRunEach(s)
    requires FinishedDeploy(s, key) && s.trs[key].succeeded == False
    requires n in Subscribers(s, OwnerGav(s, key)) && gav in Artifacts(s.cbs[n]) && Need(s, gav) != {}
    ensures var t := Reconcile(s, key, calls).store;
            DeployInFlight(t, Resolved(s, s.abrName(gav)).value) && OneRunEach(t)
  {
    var owner := OwnerGav(s, key);
    var t := HandleArtifactBuild(s, owner, calls).store;
    assert Reconcile(s, key, calls).store == t;
    EventServes(s, owner, calls, n);
    ArtifactBuildShape(s, owner, calls);
    ServedNeed(s, t, gav);
  }

  // ---- Finished notifications ----

  /** A finished notifier run whose ComponentBuild exists. */
  ghost predicate FinishedNotice(s: Store, key: Name) {
    && key in s.prs && Lookup(s.prs[key].labels, TektonPipeline) == NOTIFIER_PIPELINE && s.prs[key].completed
    && var cb := FirstOwner(s.prs[key].owners, ComponentBuildKind); cb != "" && cb in s.cbs
  }

  ghost function NotifiedName(s: Store, key: Name): Name
    requires FinishedNotice(s, key)
  {
    FirstOwner(s.prs[key].owners, ComponentBuildKind)
  }

  /** A delivered notice is recorded by its own event exactly when nothing that is looked up earlier has its name. */
  lemma NoticeRecordedIff(s: Store, key: Name, calls: RequestCalls)
    requires Listed(s, calls) && CleanRequest(calls)
    requires FinishedNotice(s, key) && s.prs[key].succeeded == True && !s.cbs[NotifiedName(s, key)].status.resultNotified
    ensures var cb, t := NotifiedName(s, key), Reconcile(s, key, calls).store;
            && cb in t.cbs
            && (t.cbs[cb].status.resultNotified <==> key !in s.cbs && key !in s.abs && key !in s.trs)
            && (t.cbs[cb].status.resultNotified ==>
                  t == s.(cbs := s.cbs[cb := s.cbs[cb].(status := s.cbs[cb].status.(resultNotified := true))]))
  {
    var cb, t := NotifiedName(s, key), Reconcile(s, key, calls).store;
    if key in s.cbs {
      HandleVerdictSound(s, key, calls.cb(key));
    } else if key in s.abs {
      ArtifactBuildShape(s, s.abs[key].gav, calls);
    } else if key in s.trs {
      TaskRunShape(s, key, calls);
    }
  }

  /** A notice that failed is sent again, as long as the result still stands. */
  lemma FailedNoticeRetried(s: Store, key: Name, calls: RequestCalls)
    requires Listed(s, calls) && CleanRequest(calls) && Configured(s.config) && OneRunEach(s)
    requires FinishedNotice(s, key) && s.prs[key].succeeded == False && key !in s.cbs && key !in s.abs && key !in s.trs
    requires var c := s.cbs[NotifiedName(s, key)]; Settled(s, c) && !c.status.resultNotified && c.spec.prUrl != ""
    ensures var t := Reconcile(s, key, calls).store;
            NoticeInFlight(t, NotifiedName(s, key)) && OneRunEach(t)
  {
    var cb := NotifiedName(s, key);
    var t := HandleComponentBuild(s, cb, calls.cb(cb)).store;
    assert Reconcile(s, key, calls).store == t;
    HandleKeepsOne(s, cb, calls.cb(cb));
    LoopRefinesStatus(s, cb, calls.cb(cb));
    SettledIffNonePending(s, s.cbs[cb]);
    CleanAnnounces(s, cb, calls.cb(cb));
  }
}
