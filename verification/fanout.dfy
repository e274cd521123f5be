/** Fanning one ArtifactBuild event out to the ComponentBuilds that name it. */
module FanningOut {
  import opened Wrappers
  import opened Cluster
  import opened Handlers
  import opened Status
  import opened SingleReconcile

  // ---- Any outcome of the calls ----

  lemma {:induction false} FanOutExtends(s: Store, gav: Gav, calls: RequestCalls, n: nat)
    requires n <= |calls.order| && Listed(s, calls)
    ensures Extends(s, FanOut(s, gav, calls, n))
    ensures OneRunEach(s) ==> OneRunEach(FanOut(s, gav, calls, n))
  {
    if n == 0 {
      ExtendsReflexive(s);
    } else {
      FanOutExtends(s, gav, calls, n - 1);
      var p, cb := FanOut(s, gav, calls, n - 1), calls.order[n - 1];
      if Affected(s, cb, gav) {
        assert Ranged(p.cbs[cb], calls.cb(cb));
        HandleExtends(p, cb, calls.cb(cb));
        ExtendsTransitive(s, p, FanOut(s, gav, calls, n));
        if OneRunEach(p) { HandleKeepsOne(p, cb, calls.cb(cb)); }
      }
    }
  }

  /** Whatever is published is sound, at the end of the event as well as when it was written. */
  ghost predicate VerdictsSound(s: Store, t: Store) {
    forall n | n in s.cbs :: SoundFor(s, t, n)
  }

  ghost predicate SoundFor(s: Store, t: Store, n: Name) {
    && n in s.cbs && n in t.cbs
    && Publishes(t, t.cbs[n], s.cbs[n].status)
    && (t.cbs[n].status.resultNotified ==> s.cbs[n].status.resultNotified)
  }

  lemma HandleStatus(s: Store, cb: Name, calls: CbCalls)
    requires cb in s.cbs
    ensures var st, before := HandleComponentBuild(s, cb, calls).store.cbs[cb].status, s.cbs[cb].status;
            var p := FullScan(s, cb, calls);
            st == before || st == before.(message := NoConfig) || (!p.err && st == StatusFrom(before, p))
  {
  }

  lemma HandlePublishes(s: Store, cb: Name, calls: CbCalls)
    requires cb in s.cbs && Ranged(s.cbs[cb], calls)
    ensures var c := HandleComponentBuild(s, cb, calls).store.cbs[cb];
            Publishes(s, c, s.cbs[cb].status) && (c.status.resultNotified ==> s.cbs[cb].status.resultNotified)
  {
    HandleTouchesOnly(s, cb, calls);
    HandleStatus(s, cb, calls);
    FullScanFacts(s, cb, calls);
    var arts := s.cbs[cb].spec.artifacts;
    assert arts[..|arts|] == arts;
  }

  lemma PublishesStable(s: Store, t: Store, c: ComponentBuild, before: ComponentBuildStatus)
    requires Extends(s, t) && Publishes(s, c, before)
    ensures Publishes(t, c, before)
  {
    SameStatusFor(s, t, c, c);
  }

  lemma HandleSoundFor(s: Store, cb: Name, calls: CbCalls, n: Name)
    requires cb in s.cbs && Ranged(s.cbs[cb], calls) && n in s.cbs
    ensures SoundFor(s, HandleComponentBuild(s, cb, calls).store, n)
  {
    var t := HandleComponentBuild(s, cb, calls).store;
    HandleExtends(s, cb, calls);
    if n == cb {
      HandlePublishes(s, cb, calls);
      PublishesStable(s, t, t.cbs[cb], s.cbs[cb].status);
    }
  }

  lemma HandleVerdictSound(s: Store, cb: Name, calls: CbCalls)
    requires cb in s.cbs && Ranged(s.cbs[cb], calls)
    ensures VerdictsSound(s, HandleComponentBuild(s, cb, calls).store)
  {
    forall n | n in s.cbs ensures SoundFor(s, HandleComponentBuild(s, cb, calls).store, n) {
      HandleSoundFor(s, cb, calls, n);
    }
  }

  lemma SoundCompose(s: Store, t: Store, u: Store, n: Name)
    requires Extends(s, t) && Extends(t, u) && SoundFor(s, t, n) && SoundFor(t, u, n)
    ensures SoundFor(s, u, n)
  {
    PublicationsCompose(t, u, t.cbs[n], u.cbs[n], s.cbs[n].status);
  }

  lemma PublicationsCompose(t: Store, u: Store, c: ComponentBuild, c': ComponentBuild, before: ComponentBuildStatus)
    requires Extends(t, u) && c'.spec == c.spec && Publishes(t, c, before) && Publishes(u, c', c.status)
    ensures Publishes(u, c', before)
  {
    SameStatusFor(t, u, c, c');
  }

  lemma FanOutSoundStep(s: Store, gav: Gav, calls: RequestCalls, i: nat, n: Name)
    requires i < |calls.order| && Listed(s, calls) && Affected(s, calls.order[i], gav)
    requires SoundFor(s, FanOut(s, gav, calls, i), n)
    ensures SoundFor(s, FanOut(s, gav, calls, i + 1), n)
  {
    var p, cb := FanOut(s, gav, calls, i), calls.order[i];
    FanOutExtends(s, gav, calls, i);
    assert Ranged(p.cbs[cb], calls.cb(cb)) by { assert p.cbs[cb].spec == s.cbs[cb].spec; }
    HandleExtends(p, cb, calls.cb(cb));
    HandleSoundFor(p, cb, calls.cb(cb), n);
    SoundCompose(s, p, HandleComponentBuild(p, cb, calls.cb(cb)).store, n);
  }

  lemma {:induction false} FanOutSoundFor(s: Store, gav: Gav, calls: RequestCalls, i: nat, n: Name)
    requires i <= |calls.order| && Listed(s, calls) && n in s.cbs
    ensures SoundFor(s, FanOut(s, gav, calls, i), n)
    decreases i
  {
    if i > 0 {
      FanOutSoundFor(s, gav, calls, i - 1, n);
      if Affected(s, calls.order[i - 1], gav) {
        FanOutSoundStep(s, gav, calls, i - 1, n);
      }
    }
  }

  lemma FanOutVerdictsSound(s: Store, gav: Gav, calls: RequestCalls, n: nat)
    requires n <= |calls.order| && Listed(s, calls)
    ensures VerdictsSound(s, FanOut(s, gav, calls, n))
  {
    forall m | m in s.cbs ensures SoundFor(s, FanOut(s, gav, calls, n), m) {
      FanOutSoundFor(s, gav, calls, n, m);
    }
  }

  // ---- One ComponentBuild handled without an error ----

  /** A final verdict, if there is one, is that of the store as it is. */
  ghost predicate FinalIsTrue(t: Store, n: Name) {
    n in t.cbs && (t.cbs[n].status.state in {Complete, Failed} ==> UpToDate(t, t.cbs[n]))
  }

  /** Whatever calls failed on the way: handled without an error, what it says is final is true. */
  lemma HandledIsTrue(s: Store, cb: Name, calls: CbCalls)
    requires cb in s.cbs && Ranged(s.cbs[cb], calls) && Configured(s.config)
    requires !HandleComponentBuild(s, cb, calls).err
    ensures FinalIsTrue(HandleComponentBuild(s, cb, calls).store, cb)
  {
    var t := HandleComponentBuild(s, cb, calls).store;
    FullScanFacts(s, cb, calls);
    HandleExtends(s, cb, calls);
    SameStatusFor(s, t, s.cbs[cb], t.cbs[cb]);
  }

  lemma FinalStaysTrue(s: Store, t: Store, n: Name)
    requires Extends(s, t) && FinalIsTrue(s, n) && t.cbs[n] == s.cbs[n]
    ensures FinalIsTrue(t, n)
  {
    SameStatusFor(s, t, s.cbs[n], t.cbs[n]);
  }

  /** The i-th listed ComponentBuild is handled by the fan-out, without an error. */
  ghost predicate VisitedAt(s: Store, gav: Gav, calls: RequestCalls, i: nat)
    requires i < |calls.order|
  {
    && Affected(s, calls.order[i], gav)
    && !HandleComponentBuild(FanOut(s, gav, calls, i), calls.order[i], calls.cb(calls.order[i])).err
  }

  lemma VisitIsTrue(s: Store, gav: Gav, calls: RequestCalls, i: nat)
    requires i < |calls.order| && Listed(s, calls) && Configured(s.config) && VisitedAt(s, gav, calls, i)
    ensures FinalIsTrue(FanOut(s, gav, calls, i + 1), calls.order[i])
  {
    var p, cb := FanOut(s, gav, calls, i), calls.order[i];
    FanOutExtends(s, gav, calls, i);
    assert Ranged(p.cbs[cb], calls.cb(cb)) by { assert p.cbs[cb].spec == s.cbs[cb].spec; }
    HandledIsTrue(p, cb, calls.cb(cb));
  }

  lemma VisitKeepsTrue(s: Store, gav: Gav, calls: RequestCalls, i: nat, n: Name)
    requires i < |calls.order| && Listed(s, calls) && calls.order[i] != n
    requires FinalIsTrue(FanOut(s, gav, calls, i), n)
    ensures FinalIsTrue(FanOut(s, gav, calls, i + 1), n)
  {
    var p, cb := FanOut(s, gav, calls, i), calls.order[i];
    if Affected(s, cb, gav) {
      FanOutExtends(s, gav, calls, i);
      assert Ranged(p.cbs[cb], calls.cb(cb)) by { assert p.cbs[cb].spec == s.cbs[cb].spec; }
      HandleExtends(p, cb, calls.cb(cb));
      FinalStaysTrue(p, HandleComponentBuild(p, cb, calls.cb(cb)).store, n);
    }
  }

  lemma {:induction false} RestKeepsTrue(s: Store, gav: Gav, calls: RequestCalls, i: nat, n: Name)
    requires i <= |calls.order| && Listed(s, calls) && n !in calls.order[i..]
    requires FinalIsTrue(FanOut(s, gav, calls, i), n)
    ensures FinalIsTrue(FanOut(s, gav, calls, |calls.order|), n)
    decreases |calls.order| - i
  {
    if i < |calls.order| {
      assert calls.order[i..] == [calls.order[i]] + calls.order[i + 1..];
      VisitKeepsTrue(s, gav, calls, i, n);
      RestKeepsTrue(s, gav, calls, i + 1, n);
    }
  }

  /** The rest of the event does not make it untrue. */
  lemma FanOutIsTrue(s: Store, gav: Gav, calls: RequestCalls, i: nat)
    requires i < |calls.order| && Listed(s, calls) && Configured(s.config) && VisitedAt(s, gav, calls, i)
    ensures FinalIsTrue(FanOut(s, gav, calls, |calls.order|), calls.order[i])
  {
    VisitIsTrue(s, gav, calls, i);
    RestKeepsTrue(s, gav, calls, i + 1, calls.order[i]);
  }

  // ---- Error-free fan-out ----

  /** The DependencyBuilds with a deploy in flight. */
  ghost function DeployingNow(s: Store): set<Name> {
    set r | r in s.trs && DeployTask in s.trs[r].labels && s.trs[r].succeeded == Unknown :: s.trs[r].labels[DeployTask]
  }

  /** The ComponentBuilds with a notice in flight. */
  ghost function NotifyingNow(s: Store): set<Name> {
    set r | r in s.prs && NotifyPipeline in s.prs[r].labels && s.prs[r].succeeded == Unknown :: s.prs[r].labels[NotifyPipeline]
  }

  /** The DependencyBuild, if any, that is still to be deployed for a built artifact. */
  ghost function Need(s: Store, gav: Gav): set<Name> {
    var ab := s.abrName(gav);
    if ab in s.abs && s.abs[ab].state == BuildComplete && Resolved(s, ab).Some? && Mark(s.dbs[Resolved(s, ab).value]) == ""
    then {Resolved(s, ab).value} else {}
  }

  ghost function Needs(s: Store, gavs: set<Gav>): set<Name> {
    set g, d | g in gavs && d in Need(s, g) :: d
  }

  ghost function BuildNames(s: Store, gavs: set<Gav>): set<Name> {
    set g | g in gavs :: s.abrName(g)
  }

  /** Everything the given ComponentBuilds name. */
  ghost function Gavs(s: Store, names: set<Name>): set<Gav> {
    set n, g | n in names && n in s.cbs && g in Artifacts(s.cbs[n]) :: g
  }

  ghost function Announcing(s: Store, names: set<Name>): set<Name> {
    set n | n in names && n in s.cbs && s.cbs[n].spec.prUrl != "" && Settled(s, s.cbs[n]) && !s.cbs[n].status.resultNotified
  }

  /** `t` is what handling exactly these ComponentBuilds, each once and without errors, makes of `s`. */
  ghost predicate Effect(s: Store, t: Store, names: set<Name>) {
    var on := Configured(s.config);
    && t.cbs.Keys == s.cbs.Keys
    && (forall n | n in s.cbs :: t.cbs[n] == if n in names then Updated(s, n) else s.cbs[n])
    && t.abs.Keys == s.abs.Keys + (if on then BuildNames(s, Gavs(s, names)) else {})
    && DeployingNow(t) == DeployingNow(s) + (if on then Needs(s, Gavs(s, names)) else {})
    && NotifyingNow(t) == NotifyingNow(s) + (if on then Announcing(s, names) else {})
  }

  lemma DeployingIff(s: Store, d: Name)
    ensures d in DeployingNow(s) <==> DeployInFlight(s, d)
  {
  }

  lemma NotifyingIff(s: Store, n: Name)
    ensures n in NotifyingNow(s) <==> NoticeInFlight(s, n)
  {
  }

  lemma AddedRun(s: Store, name: Name, tr: TaskRun, d: Name)
    requires name !in s.trs && tr.labels == map[DeployTask := d] && tr.succeeded == Unknown
    ensures DeployingNow(s.(trs := s.trs[name := tr])) == DeployingNow(s) + {d}
  {
    var t := s.(trs := s.trs[name := tr]);
    forall x | x in DeployingNow(s) + {d} ensures x in DeployingNow(t) {
      if x == d {
        assert name in t.trs && t.trs[name].labels[DeployTask] == d;
      } else {
        var r :| r in s.trs && DeployTask in s.trs[r].labels && s.trs[r].succeeded == Unknown && s.trs[r].labels[DeployTask] == x;
        assert r in t.trs && t.trs[r] == s.trs[r];
      }
    }
  }

  lemma AddedNotice(s: Store, name: Name, pr: PipelineRun, n: Name)
    requires name !in s.prs && pr.labels == map[NotifyPipeline := n] && pr.succeeded == Unknown
    ensures NotifyingNow(s.(prs := s.prs[name := pr])) == NotifyingNow(s) + {n}
  {
    var t := s.(prs := s.prs[name := pr]);
    forall x | x in NotifyingNow(s) + {n} ensures x in NotifyingNow(t) {
      if x == n {
        assert name in t.prs && t.prs[name].labels[NotifyPipeline] == n;
      } else {
        var r :| r in s.prs && NotifyPipeline in s.prs[r].labels && s.prs[r].succeeded == Unknown && s.prs[r].labels[NotifyPipeline] == x;
        assert r in t.prs && t.prs[r] == s.prs[r];
      }
    }
  }

  lemma DeployEffect(s: Store, gav: Gav, c: ArtifactCalls)
    requires CleanArtifact(c) && s.abrName(gav) in s.abs && s.abs[s.abrName(gav)].state == BuildComplete
    ensures DeployingNow(Deploy(s, s.abrName(gav), c)) == DeployingNow(s) + Need(s, gav)
  {
    var d := Resolved(s, s.abrName(gav));
    if d.Some? && Mark(s.dbs[d.value]) == "" {
      DeployingIff(s, d.value);
      if d.value !in DeployingNow(s) {
        AddedRun(s, FreshName(c.taskName, s.trs.Keys), DeployTaskFor(s.config, s.abrName(gav), d.value), d.value);
      }
    }
  }

  lemma ScanOneEffect(p: Scan, gav: Gav, c: ArtifactCalls)
    requires CleanArtifact(c)
    ensures var q := ScanOne(p, gav, c);
            && DeployingNow(q.store) == DeployingNow(p.store) + Need(p.store, gav)
            && q.store.abs.Keys == p.store.abs.Keys + {p.store.abrName(gav)}
  {
    var s := p.store;
    var ab := s.abrName(gav);
    if ab in s.abs && s.abs[ab].state == BuildComplete {
      DeployEffect(s, gav, c);
    }
  }

  /** The scan so far has started exactly the needed deploys and requested exactly the named builds. */
  ghost predicate Scanned(s: Store, t: Store, gavs: set<Gav>) {
    && DeployingNow(t) == DeployingNow(s) + Needs(s, gavs)
    && t.abs.Keys == s.abs.Keys + BuildNames(s, gavs)
  }

  lemma ScannedStep(s: Store, p: Scan, gavs: set<Gav>, g: Gav, c: ArtifactCalls)
    requires Scanned(s, p.store, gavs) && CleanArtifact(c)
    requires p.store.abrName(g) == s.abrName(g) && Need(p.store, g) == Need(s, g)
    ensures Scanned(s, ScanOne(p, g, c).store, gavs + {g})
    ensures !ScanOne(p, g, c).err
  {
    ScanOneEffect(p, g, c);
    NeedsAdd(s, gavs, g);
  }

  lemma {:induction false} ScanEffect(s: Store, artifacts: seq<Gav>, calls: nat -> ArtifactCalls, n: nat)
    requires n <= |artifacts| && forall i :: CleanArtifact(calls(i))
    ensures var p := ScanFirst(s, artifacts, calls, n);
            !p.err && Scanned(s, p.store, Named(artifacts[..n]))
  {
    if n > 0 {
      ScanEffect(s, artifacts, calls, n - 1);
      PrefixStep(artifacts, n);
      ScanKeepsNeed(s, artifacts, calls, n - 1, artifacts[n - 1]);
      ScannedStep(s, ScanFirst(s, artifacts, calls, n - 1), Named(artifacts[..n - 1]), artifacts[n - 1], calls(n - 1));
    }
  }

  lemma NeedsAdd(s: Store, gavs: set<Gav>, g: Gav)
    ensures Needs(s, gavs + {g}) == Needs(s, gavs) + Need(s, g)
    ensures BuildNames(s, gavs + {g}) == BuildNames(s, gavs) + {s.abrName(g)}
  {
  }

  lemma ScanKeepsNeed(s: Store, artifacts: seq<Gav>, calls: nat -> ArtifactCalls, n: nat, gav: Gav)
    requires n <= |artifacts|
    ensures Need(ScanFirst(s, artifacts, calls, n).store, gav) == Need(s, gav)
  {
    ScanExtends(s, artifacts, calls, n);
  }

  lemma SingleGavs(s: Store, cb: Name)
    requires cb in s.cbs
    ensures Gavs(s, {cb}) == Artifacts(s.cbs[cb])
  {
  }

  lemma HandleDeploys(s: Store, cb: Name, calls: CbCalls)
    requires cb in s.cbs && Clean(calls) && Configured(s.config)
    ensures var t := HandleComponentBuild(s, cb, calls).store;
            && DeployingNow(t) == DeployingNow(s) + Needs(s, Gavs(s, {cb}))
            && t.abs.Keys == s.abs.Keys + BuildNames(s, Gavs(s, {cb}))
  {
    var c := s.cbs[cb];
    var arts := c.spec.artifacts;
    assert arts[..|arts|] == arts;
    SingleGavs(s, cb);
    ScanEffect(s, arts, calls.artifact, |arts|);
    var p := FullScan(s, cb, calls);
    var t := HandleComponentBuild(s, cb, calls).store;
    assert t.trs == p.store.trs && t.abs == p.store.abs;
  }

  lemma AnnounceEffect(p: Scan, cb: Name, c: ComponentBuild, calls: CbCalls)
    requires Clean(calls)
    ensures NotifyingNow(Announce(p, cb, c, calls).store) == NotifyingNow(p.store) +
              if p.outstanding == 0 && !c.status.resultNotified && c.spec.prUrl != "" then {cb} else {}
  {
    var st := StatusFrom(c.status, p);
    NotifyingIff(p.store, cb);
    if p.outstanding == 0 && !c.status.resultNotified && c.spec.prUrl != "" && !NoticeInFlight(p.store, cb) {
      AddedNotice(p.store, FreshName(calls.runName, p.store.prs.Keys),
                  NotifierFor(cb, c.spec.prUrl, NoticeFor(st.state, calls.range, st.artifactState)), cb);
    }
  }

  lemma AnnouncingOne(s: Store, cb: Name)
    requires cb in s.cbs
    ensures Announcing(s, {cb}) ==
              if s.cbs[cb].spec.prUrl != "" && Settled(s, s.cbs[cb]) && !s.cbs[cb].status.resultNotified then {cb} else {}
  {
  }

  lemma HandlePrs(s: Store, cb: Name, calls: CbCalls)
    requires cb in s.cbs && Clean(calls) && Configured(s.config)
    ensures HandleComponentBuild(s, cb, calls).store.prs == Announce(FullScan(s, cb, calls), cb, s.cbs[cb], calls).store.prs
  {
    FullScanFacts(s, cb, calls);
    AnnounceStarts(FullScan(s, cb, calls), cb, s.cbs[cb], calls);
  }

  lemma ScanSettles(s: Store, cb: Name, calls: CbCalls)
    requires cb in s.cbs && Clean(calls)
    ensures FullScan(s, cb, calls).outstanding == 0 <==> Settled(s, s.cbs[cb])
  {
    FullScanFacts(s, cb, calls);
    SettledIffNonePending(s, s.cbs[cb]);
  }

  lemma HandleNotices(s: Store, cb: Name, calls: CbCalls)
    requires cb in s.cbs && Clean(calls) && Configured(s.config)
    ensures NotifyingNow(HandleComponentBuild(s, cb, calls).store) == NotifyingNow(s) + Announcing(s, {cb})
  {
    var p := FullScan(s, cb, calls);
    ScanSettles(s, cb, calls);
    AnnounceEffect(p, cb, s.cbs[cb], calls);
    AnnouncingOne(s, cb);
    HandlePrs(s, cb, calls);
    SameNotices(p.store, s);
    SameNotices(HandleComponentBuild(s, cb, calls).store, Announce(p, cb, s.cbs[cb], calls).store);
  }

  lemma SameNotices(s: Store, t: Store)
    requires s.prs == t.prs
    ensures NotifyingNow(s) == NotifyingNow(t)
  {
  }

  lemma HandleEffect(s: Store, cb: Name, calls: CbCalls)
    requires cb in s.cbs && Ranged(s.cbs[cb], calls) && Clean(calls)
    ensures Effect(s, HandleComponentBuild(s, cb, calls).store, {cb})
  {
    LoopRefinesStatus(s, cb, calls);
    if Configured(s.config) {
      HandleDeploys(s, cb, calls);
      HandleNotices(s, cb, calls);
    }
  }

  lemma NeedsStable(s: Store, t: Store, n: Name)
    requires Extends(s, t) && n in s.cbs
    ensures Needs(t, Gavs(t, {n})) == Needs(s, Gavs(s, {n}))
    ensures BuildNames(t, Gavs(t, {n})) == BuildNames(s, Gavs(s, {n}))
  {
    SingleGavs(s, n);
    SingleGavs(t, n);
    forall g ensures Need(t, g) == Need(s, g) {}
  }

  lemma UpdatedStable(s: Store, t: Store, n: Name)
    requires Extends(s, t) && n in s.cbs && t.cbs[n] == s.cbs[n]
    ensures Updated(t, n) == Updated(s, n) && Announcing(t, {n}) == Announcing(s, {n})
  {
    SameStatusFor(s, t, s.cbs[n], t.cbs[n]);
  }

  lemma UnionOfNames(s: Store, names: set<Name>, n: Name)
    ensures Gavs(s, names + {n}) == Gavs(s, names) + Gavs(s, {n})
    ensures Announcing(s, names + {n}) == Announcing(s, names) + Announcing(s, {n})
    ensures Needs(s, Gavs(s, names + {n})) == Needs(s, Gavs(s, names)) + Needs(s, Gavs(s, {n}))
    ensures BuildNames(s, Gavs(s, names + {n})) == BuildNames(s, Gavs(s, names)) + BuildNames(s, Gavs(s, {n}))
  {
    assert Gavs(s, names + {n}) == Gavs(s, names) + Gavs(s, {n});
  }

  lemma EffectCompose(s: Store, t: Store, u: Store, names: set<Name>, n: Name)
    requires n in s.cbs && n !in names && t.config == s.config
    requires Needs(t, Gavs(t, {n})) == Needs(s, Gavs(s, {n}))
    requires BuildNames(t, Gavs(t, {n})) == BuildNames(s, Gavs(s, {n}))
    requires Effect(s, t, names) && Effect(t, u, {n})
    requires Updated(t, n) == Updated(s, n) && Announcing(t, {n}) == Announcing(s, {n})
    ensures Effect(s, u, names + {n})
  {
    UnionOfNames(s, names, n);
    UnionAssociates(s.abs.Keys, t.abs.Keys, u.abs.Keys, BuildNames(s, Gavs(s, names)), BuildNames(s, Gavs(s, {n})));
    UnionAssociates(DeployingNow(s), DeployingNow(t), DeployingNow(u), Needs(s, Gavs(s, names)), Needs(s, Gavs(s, {n})));
    UnionAssociates(NotifyingNow(s), NotifyingNow(t), NotifyingNow(u), Announcing(s, names), Announcing(s, {n}));
    UpdatesCompose(s, t, u, names, n);
  }

  lemma UnionAssociates(a: set<Name>, b: set<Name>, c: set<Name>, x: set<Name>, y: set<Name>)
    ensures b == a + x && c == b + y ==> c == a + (x + y)
    ensures b == a + {} && c == b + {} ==> c == a + {}
  {
  }

  lemma UpdatesCompose(s: Store, t: Store, u: Store, names: set<Name>, n: Name)
    requires s.cbs.Keys == t.cbs.Keys == u.cbs.Keys && n in s.cbs && n !in names
    requires forall m | m in s.cbs :: t.cbs[m] == if m in names then Updated(s, m) else s.cbs[m]
    requires forall m | m in t.cbs :: u.cbs[m] == if m in {n} then Updated(t, m) else t.cbs[m]
    requires Updated(t, n) == Updated(s, n)
    ensures forall m | m in s.cbs :: u.cbs[m] == if m in names + {n} then Updated(s, m) else s.cbs[m]
  {
  }

  /** The ComponentBuilds among the first `n` listed that the event concerns. */
  ghost function Concerned(s: Store, gav: Gav, order: seq<Name>, n: nat): set<Name>
    requires n <= |order|
  {
    set i | 0 <= i < n && Affected(s, order[i], gav) :: order[i]
  }

  lemma ConcernedStep(s: Store, gav: Gav, order: seq<Name>, n: nat)
    requires 0 < n <= |order|
    ensures Concerned(s, gav, order, n)
         == Concerned(s, gav, order, n - 1) + if Affected(s, order[n - 1], gav) then {order[n - 1]} else {}
  {
  }

  lemma {:induction false} FanOutEffect(s: Store, gav: Gav, calls: RequestCalls, n: nat)
    requires n <= |calls.order| && Listed(s, calls) && CleanRequest(calls)
    ensures Effect(s, FanOut(s, gav, calls, n), Concerned(s, gav, calls.order, n))
  {
    if n == 0 {
      NoEffect(s);
      assert Concerned(s, gav, calls.order, 0) == {};
    } else {
      FanOutEffect(s, gav, calls, n - 1);
      ConcernedStep(s, gav, calls.order, n);
      var before := Concerned(s, gav, calls.order, n - 1);
      if Affected(s, calls.order[n - 1], gav) {
        FanOutStep(s, FanOut(s, gav, calls, n - 1), calls.order[n - 1], calls, before, gav, n);
      } else {
        assert before + {} == before;
      }
    }
  }

  lemma NoEffect(s: Store)
    ensures Effect(s, s, {})
  {
  }

  lemma HandleAfter(s: Store, p: Store, cb: Name, calls: CbCalls, before: set<Name>)
    requires Extends(s, p) && Effect(s, p, before) && cb in s.cbs && cb !in before
    requires Ranged(p.cbs[cb], calls) && Clean(calls)
    ensures Effect(s, HandleComponentBuild(p, cb, calls).store, before + {cb})
  {
    HandleEffect(p, cb, calls);
    NeedsStable(s, p, cb);
    UpdatedStable(s, p, cb);
    EffectCompose(s, p, HandleComponentBuild(p, cb, calls).store, before, cb);
  }

  lemma FanOutStep(s: Store, p: Store, cb: Name, calls: RequestCalls, before: set<Name>, gav: Gav, n: nat)
    requires 0 < n <= |calls.order| && Listed(s, calls) && CleanRequest(calls)
    requires p == FanOut(s, gav, calls, n - 1) && cb == calls.order[n - 1] && cb in s.cbs
    requires before == Concerned(s, gav, calls.order, n - 1) && Effect(s, p, before)
    ensures Effect(s, HandleComponentBuild(p, cb, calls.cb(cb)).store, before + {cb})
  {
    FanOutExtends(s, gav, calls, n - 1);
    assert cb !in before;
    assert Ranged(p.cbs[cb], calls.cb(cb)) by { assert p.cbs[cb].spec == s.cbs[cb].spec; }
    HandleAfter(s, p, cb, calls.cb(cb), before);
  }

  /** After an error-free event no artifact of a ComponentBuild it concerns is stalled. */
  lemma {:induction false} FanOutServes(s: Store, gav: Gav, calls: RequestCalls, n: nat, m: Name)
    requires n <= |calls.order| && Listed(s, calls) && CleanRequest(calls) && Configured(s.config)
    requires m in Concerned(s, gav, calls.order, n)
    ensures AllServed(FanOut(s, gav, calls, n), s.cbs[m])
    decreases n
  {
    ConcernedStep(s, gav, calls.order, n);
    var cb := calls.order[n - 1];
    if m != cb {
      FanOutServes(s, gav, calls, n - 1, m);
    }
    if Affected(s, cb, gav) {
      VisitServes(s, gav, calls, n, s.cbs[m], m == cb);
    }
  }

  lemma VisitServes(s: Store, gav: Gav, calls: RequestCalls, n: nat, c: ComponentBuild, same: bool)
    requires 0 < n <= |calls.order| && Listed(s, calls) && CleanRequest(calls) && Configured(s.config)
    requires Affected(s, calls.order[n - 1], gav)
    requires if same then c == s.cbs[calls.order[n - 1]] else AllServed(FanOut(s, gav, calls, n - 1), c)
    ensures AllServed(FanOut(s, gav, calls, n), c)
  {
    var p, cb := FanOut(s, gav, calls, n - 1), calls.order[n - 1];
    FanOutExtends(s, gav, calls, n - 1);
    assert p.cbs[cb].spec == s.cbs[cb].spec && p.config == s.config;
    HandleServes(p, cb, calls.cb(cb), c, same);
  }

  lemma HandleServes(p: Store, cb: Name, calls: CbCalls, c: ComponentBuild, same: bool)
    requires cb in p.cbs && Ranged(p.cbs[cb], calls) && Clean(calls) && Configured(p.config)
    requires if same then c.spec == p.cbs[cb].spec else AllServed(p, c)
    ensures AllServed(HandleComponentBuild(p, cb, calls).store, c)
  {
    if same {
      NoSilentStall(p, cb, calls);
    } else {
      HandleExtends(p, cb, calls);
      AllServedStable(p, HandleComponentBuild(p, cb, calls).store, c);
    }
  }

  lemma AllServedStable(s: Store, t: Store, c: ComponentBuild)
    requires Extends(s, t) && AllServed(s, c)
    ensures AllServed(t, c)
  {
    forall g | g in Artifacts(c) ensures Served(t, g) { ServedStable(s, t, g); }
  }

  /** All ComponentBuilds whose published index holds the GAV. */
  ghost function Subscribers(s: Store, gav: Gav): set<Name> {
    set n | n in s.cbs && Affected(s, n, gav)
  }

  /** An error-free event brings exactly its subscribers up to date. */
  lemma CompleteFanOut(s: Store, gav: Gav, calls: RequestCalls)
    requires Listed(s, calls) && CleanRequest(calls)
    ensures var t := HandleArtifactBuild(s, gav, calls).store;
            Extends(s, t) && Effect(s, t, Subscribers(s, gav))
  {
    FanOutExtends(s, gav, calls, |calls.order|);
    FanOutEffect(s, gav, calls, |calls.order|);
    forall n | n in Subscribers(s, gav) ensures n in Concerned(s, gav, calls.order, |calls.order|) {
      assert n in calls.order;
    }
    assert Concerned(s, gav, calls.order, |calls.order|) == Subscribers(s, gav);
  }

  /** Two stores that differ at most in which generated run serves a DependencyBuild or a notice. */
  ghost predicate SameOutcome(t: Store, u: Store) {
    && t.cbs == u.cbs && t.abs.Keys == u.abs.Keys && t.ras == u.ras && t.dbs == u.dbs && t.config == u.config
    && DeployingNow(t) == DeployingNow(u)
    && NotifyingNow(t) == NotifyingNow(u)
  }

  lemma EffectDetermines(s: Store, t: Store, u: Store, names: set<Name>)
    requires Extends(s, t) && Extends(s, u) && Effect(s, t, names) && Effect(s, u, names)
    ensures SameOutcome(t, u)
  {
  }

  lemma SameBuilds(s: Store, t: Store, u: Store)
    requires Extends(s, t) && Extends(s, u) && t.abs.Keys == u.abs.Keys
    requires forall g, h | s.abrName(g) == s.abrName(h) :: g == h
    ensures t.abs == u.abs
  {
    forall k | k in t.abs ensures t.abs[k] == u.abs[k] {
      if k !in s.abs {
        assert s.abrName(t.abs[k].gav) == k == s.abrName(u.abs[k].gav);
      }
    }
  }

  /** The order in which the ComponentBuilds of an event are handled does not matter. */
  lemma Confluence(s: Store, gav: Gav, one: RequestCalls, two: RequestCalls)
    requires Listed(s, one) && CleanRequest(one) && Listed(s, two) && CleanRequest(two)
    ensures var t, u := HandleArtifactBuild(s, gav, one).store, HandleArtifactBuild(s, gav, two).store;
            && SameOutcome(t, u)
            && ((forall g, h | s.abrName(g) == s.abrName(h) :: g == h) ==> t.abs == u.abs)
  {
    var t, u := HandleArtifactBuild(s, gav, one).store, HandleArtifactBuild(s, gav, two).store;
    CompleteFanOut(s, gav, one);
    CompleteFanOut(s, gav, two);
    EffectDetermines(s, t, u, Subscribers(s, gav));
    if forall g, h | s.abrName(g) == s.abrName(h) :: g == h {
      SameBuilds(s, t, u);
    }
  }
}
