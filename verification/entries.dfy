/** What a published status says field by field, read off the objects. */
module Entries {
  import opened Wrappers
  import opened Cluster
  import opened Handlers
  import opened Status
  import opened SingleReconcile
  import opened FanningOut

  /** The ArtifactBuild exists and is complete. */
  ghost predicate IsBuilt(s: Store, gav: Gav) {
    s.abrName(gav) in s.abs && s.abs[s.abrName(gav)].state == BuildComplete
  }

  /** The entry names the artifact's own build, and says of it what the objects say. */
  ghost predicate SaysOf(s: Store, gav: Gav, a: ArtifactState) {
    && a.artifactBuild == s.abrName(gav)
    && (a.built <==> IsBuilt(s, gav))
    && (a.deployed <==> IsDeployed(s, gav))
    && (a.failed <==> IsFailed(s, gav))
  }

  /** What an entry says, given which reads failed: nothing at all, or the truth but that a deploy may go unseen. */
  ghost predicate SaysThrough(s: Store, gav: Gav, c: ArtifactCalls, a: ArtifactState) {
    if !c.get then a.artifactBuild == "" && !a.built && !a.deployed && !a.failed
    else
      && a.artifactBuild == s.abrName(gav)
      && (a.built <==> IsBuilt(s, gav))
      && (a.deployed <==> IsDeployed(s, gav) && c.stateRa && c.stateDb)
      && (a.failed <==> IsFailed(s, gav))
  }

  lemma StateSays(s: Store, gav: Gav)
    ensures SaysOf(s, gav, StatusOf(s, gav))
  {
    StatusMeaning(s, gav);
  }

  /** What an error-free handling publishes of each artifact of the spec, and of no other. */
  lemma PublishedEntries(s: Store, cb: Name, calls: CbCalls)
    requires cb in s.cbs && Ranged(s.cbs[cb], calls) && Clean(calls) && Configured(s.config)
    ensures var published := HandleComponentBuild(s, cb, calls).store.cbs[cb].status.artifactState;
            && (forall g :: g in published <==> g in s.cbs[cb].spec.artifacts)
            && (forall g | g in published :: SaysOf(s, g, published[g]))
  {
    LoopRefinesStatus(s, cb, calls);
    forall g ensures SaysOf(s, g, StatusOf(s, g)) { StateSays(s, g); }
  }

  /** The fields beside the verdict: what an error-free handling makes of message and flag, and what it never touches. */
  lemma PublishedFields(s: Store, cb: Name, calls: CbCalls)
    requires cb in s.cbs && Ranged(s.cbs[cb], calls) && Clean(calls)
    ensures var before, c := s.cbs[cb], HandleComponentBuild(s, cb, calls).store.cbs[cb];
            && c.spec == before.spec
            && (c.status.message == NoConfig <==> !Configured(s.config))
            && (Configured(s.config) && before.status.message != NoConfig ==> c.status.message == before.status.message)
            && (!Configured(s.config) ==> c.status == before.status.(message := NoConfig))
            && (Configured(s.config) ==>
                  (c.status.resultNotified <==> before.status.resultNotified && c.status.outstanding == 0))
  {
    LoopRefinesStatus(s, cb, calls);
    SettledIffNonePending(s, s.cbs[cb]);
  }

  /** The positions of the spec whose artifact is neither deployed nor failed. */
  ghost function Open(s: Store, artifacts: seq<Gav>): set<int> {
    set i | 0 <= i < |artifacts| && !IsDeployed(s, artifacts[i]) && !IsFailed(s, artifacts[i])
  }

  /** An error-free handling counts every such position, duplicates included. */
  lemma PublishedCount(s: Store, cb: Name, calls: CbCalls)
    requires cb in s.cbs && Ranged(s.cbs[cb], calls) && Clean(calls) && Configured(s.config)
    ensures HandleComponentBuild(s, cb, calls).store.cbs[cb].status.outstanding == |Open(s, s.cbs[cb].spec.artifacts)|
  {
    var arts := s.cbs[cb].spec.artifacts;
    LoopRefinesStatus(s, cb, calls);
    forall g ensures StatusOf(s, g).Pending() <==> !IsDeployed(s, g) && !IsFailed(s, g) { StatusMeaning(s, g); }
    assert PendingPositions(s, arts, |arts|) == Open(s, arts);
  }

  // ---- Failing reads ----

  lemma FaultyState(s: Store, gav: Gav, ra: bool, db: bool)
    requires s.abrName(gav) in s.abs
    ensures var a := StateOf(s, s.abrName(gav), ra, db);
            && a.artifactBuild == s.abrName(gav) && (a.built <==> IsBuilt(s, gav)) && (a.failed <==> IsFailed(s, gav))
            && (a.deployed <==> IsDeployed(s, gav) && ra && db)
  {
    StateSays(s, gav);
    var ab := s.abrName(gav);
    if ra && db {
      assert DependencyBuildOf(s, ab, ra, db) == Resolved(s, ab);
    } else {
      assert DependencyBuildOf(s, ab, ra, db) == None;
    }
  }

  lemma SaysStable(s: Store, t: Store, gav: Gav, c: ArtifactCalls, a: ArtifactState)
    requires Extends(s, t) && SaysThrough(t, gav, c, a)
    ensures SaysThrough(s, gav, c, a)
  {
    StatusStable(s, t, gav);
    StateSays(s, gav);
    StateSays(t, gav);
  }

  lemma RoundSays(s: Store, p: Scan, gav: Gav, c: ArtifactCalls)
    requires Extends(s, p.store) && !ScanOne(p, gav, c).err
    ensures var q := ScanOne(p, gav, c);
            gav in q.states && q.states == p.states[gav := q.states[gav]] && SaysThrough(s, gav, c, q.states[gav])
  {
    var q, ab := ScanOne(p, gav, c), p.store.abrName(gav);
    if c.get && ab in p.store.abs {
      FaultyState(p.store, gav, c.stateRa, c.stateDb);
    } else {
      StateSays(p.store, gav);
    }
    SaysStable(s, p.store, gav, c, q.states[gav]);
  }

  /** Position `i` is the last of the first `n` that names the GAV. */
  ghost predicate LastOf(artifacts: seq<Gav>, n: nat, gav: Gav, i: nat)
    requires n <= |artifacts|
  {
    i < n && artifacts[i] == gav && forall j | i < j < n :: artifacts[j] != gav
  }

  /** Each entry says what the reads at the last position of its GAV let through. */
  ghost predicate StatesSay(s: Store, artifacts: seq<Gav>, calls: nat -> ArtifactCalls, n: nat, states: map<Gav, ArtifactState>)
    requires n <= |artifacts|
  {
    forall g, i: nat | g in states && LastOf(artifacts, n, g, i) :: SaysThrough(s, g, calls(i), states[g])
  }

  lemma StatesSayNext(s: Store, artifacts: seq<Gav>, calls: nat -> ArtifactCalls, n: nat)
    requires n < |artifacts| && !ScanFirst(s, artifacts, calls, n + 1).err
    requires StatesSay(s, artifacts, calls, n, ScanFirst(s, artifacts, calls, n).states)
    ensures StatesSay(s, artifacts, calls, n + 1, ScanFirst(s, artifacts, calls, n + 1).states)
  {
    var p, q := ScanFirst(s, artifacts, calls, n), ScanFirst(s, artifacts, calls, n + 1);
    ScanExtends(s, artifacts, calls, n);
    RoundSays(s, p, artifacts[n], calls(n));
    forall g, i: nat | g in q.states && LastOf(artifacts, n + 1, g, i) ensures SaysThrough(s, g, calls(i), q.states[g]) {
      if g != artifacts[n] {
        assert LastOf(artifacts, n, g, i) && g in p.states;
      }
    }
  }

  lemma {:induction false} ScanSays(s: Store, artifacts: seq<Gav>, calls: nat -> ArtifactCalls, n: nat)
    requires n <= |artifacts| && !ScanFirst(s, artifacts, calls, n).err
    ensures StatesSay(s, artifacts, calls, n, ScanFirst(s, artifacts, calls, n).states)
    decreases n
  {
    if n > 0 {
      ScanSays(s, artifacts, calls, n - 1);
      StatesSayNext(s, artifacts, calls, n - 1);
    }
  }

  /** Under any faults: what is published anew says of each artifact what the reads let through, and no more. */
  lemma FaultyEntries(s: Store, cb: Name, calls: CbCalls)
    requires cb in s.cbs
    ensures var before, after := s.cbs[cb].status, HandleComponentBuild(s, cb, calls).store.cbs[cb].status;
            var arts := s.cbs[cb].spec.artifacts;
            || after == before.(message := after.message)
            || ((forall g :: g in after.artifactState <==> g in arts)
                && StatesSay(s, arts, calls.artifact, |arts|, after.artifactState))
  {
    HandleStatus(s, cb, calls);
    FullScanFacts(s, cb, calls);
    var arts := s.cbs[cb].spec.artifacts;
    assert arts[..|arts|] == arts;
    if !FullScan(s, cb, calls).err { ScanSays(s, arts, calls.artifact, |arts|); }
  }

  // ---- What an event does, read off the objects ----

  /** The DependencyBuild of an artifact, under any faults: the last owner of that kind of its RebuiltArtifact, if it exists. */
  lemma ResolvedIff(s: Store, ab: Name, ra: bool, db: bool, d: Name)
    ensures DependencyBuildOf(s, ab, ra, db) == Some(d) <==>
              ra && db && ab in s.ras && OwnedBy(s.ras[ab].owners, d) && d in s.dbs
  {
    if ab in s.ras { LastOwnerMeaning(s.ras[ab].owners, d); }
  }

  /** Built, owned by this DependencyBuild, and not marked in any way. */
  ghost predicate ToDeploy(s: Store, gav: Gav, d: Name) {
    var ab := s.abrName(gav);
    && IsBuilt(s, gav) && ab in s.ras && OwnedBy(s.ras[ab].owners, d) && d in s.dbs
    && (DeployedKey in s.dbs[d].annotations ==> s.dbs[d].annotations[DeployedKey] == "")
  }

  lemma NeedIff(s: Store, gav: Gav, d: Name)
    ensures d in Need(s, gav) <==> ToDeploy(s, gav, d)
  {
    ResolvedIff(s, s.abrName(gav), true, true, d);
  }

  /** After an error-free event there is a deploy in flight exactly for what was in flight and what subscribers need. */
  lemma EventDeploysIff(s: Store, gav: Gav, calls: RequestCalls, d: Name)
    requires Listed(s, calls) && CleanRequest(calls) && Configured(s.config)
    ensures DeployInFlight(HandleArtifactBuild(s, gav, calls).store, d) <==>
              || DeployInFlight(s, d)
              || exists n, g :: n in s.cbs && gav in s.cbs[n].status.artifactState && g in s.cbs[n].spec.artifacts && ToDeploy(s, g, d)
  {
    var t := HandleArtifactBuild(s, gav, calls).store;
    CompleteFanOut(s, gav, calls);
    DeployingIff(s, d);
    DeployingIff(t, d);
    forall g ensures d in Need(s, g) <==> ToDeploy(s, g, d) { NeedIff(s, g, d); }
    var gavs := Gavs(s, Subscribers(s, gav));
    assert d in Needs(s, gavs) <==> exists g :: g in gavs && d in Need(s, g);
    if n, g :| n in s.cbs && gav in s.cbs[n].status.artifactState && g in s.cbs[n].spec.artifacts && ToDeploy(s, g, d) {
      assert n in Subscribers(s, gav) && g in Artifacts(s.cbs[n]) && g in gavs;
    }
  }

  lemma AnnouncingIff(s: Store, names: set<Name>, n: Name)
    requires n in s.cbs
    ensures n in Announcing(s, names) <==>
              && n in names && s.cbs[n].spec.prUrl != "" && !s.cbs[n].status.resultNotified
              && forall g | g in s.cbs[n].spec.artifacts :: IsDeployed(s, g) || IsFailed(s, g)
  {
    var c := s.cbs[n];
    forall g ensures !StatusOf(s, g).Pending() <==> IsDeployed(s, g) || IsFailed(s, g) { StatusMeaning(s, g); }
    assert forall g :: g in Artifacts(c) <==> g in c.spec.artifacts;
  }

  /** After an error-free event a notice is in flight exactly where one was, and for settled subscribers not yet announced. */
  lemma EventAnnouncesIff(s: Store, gav: Gav, calls: RequestCalls, n: Name)
    requires Listed(s, calls) && CleanRequest(calls) && Configured(s.config) && n in s.cbs
    ensures NoticeInFlight(HandleArtifactBuild(s, gav, calls).store, n) <==>
              || NoticeInFlight(s, n)
              || (&& gav in s.cbs[n].status.artifactState && s.cbs[n].spec.prUrl != "" && !s.cbs[n].status.resultNotified
                  && forall g | g in s.cbs[n].spec.artifacts :: IsDeployed(s, g) || IsFailed(s, g))
  {
    CompleteFanOut(s, gav, calls);
    NotifyingIff(s, n);
    NotifyingIff(HandleArtifactBuild(s, gav, calls).store, n);
    AnnouncingIff(s, Subscribers(s, gav), n);
  }

  /** Whatever fails: an event leaves a ComponentBuild alone whose published states do not name the GAV. */
  lemma UnnamedUntouched(s: Store, gav: Gav, calls: RequestCalls, n: Name)
    requires n in s.cbs && gav !in s.cbs[n].status.artifactState
    ensures var t := HandleArtifactBuild(s, gav, calls).store; n in t.cbs && t.cbs[n] == s.cbs[n]
  {
    if calls.listCbs {
      for i := 0 to |calls.order|
        invariant FanOut(s, gav, calls, i).cbs[n] == s.cbs[n]
      {
        var p, cb := FanOut(s, gav, calls, i), calls.order[i];
        if Affected(s, cb, gav) { HandleTouchesOnly(p, cb, calls.cb(cb)); }
      }
    }
  }

  /** An error-free event makes every ComponentBuild whose published states name the GAV say what the objects say. */
  lemma NamedUpdated(s: Store, gav: Gav, calls: RequestCalls, n: Name)
    requires Listed(s, calls) && CleanRequest(calls) && Configured(s.config)
    requires n in s.cbs && gav in s.cbs[n].status.artifactState
    ensures var t := HandleArtifactBuild(s, gav, calls).store;
            && n in t.cbs && t.cbs[n].status == StatusFor(s, s.cbs[n])
            && (forall g :: g in t.cbs[n].status.artifactState <==> g in s.cbs[n].spec.artifacts)
            && (forall g | g in t.cbs[n].status.artifactState :: SaysOf(s, g, t.cbs[n].status.artifactState[g]))
  {
    CompleteFanOut(s, gav, calls);
    assert n in Subscribers(s, gav);
    forall g ensures SaysOf(s, g, StatusOf(s, g)) { StateSays(s, g); }
  }
}
