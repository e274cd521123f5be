/** Whether a stopped run of the deploy command can be resumed. */
module DeployResume {
  import opened Wrappers
  import opened Deploy
  import opened DeploySafety

  ghost function MarkedNames(artifacts: map<Name, Rebuilt>): set<Name> {
    set n | n in artifacts && Marked(artifacts[n])
  }

  /** What a run that is not stopped leaves. */
  ghost function Done(w: World, o: Options): World {
    ApplyAll(w, PlanOf(w.artifacts, o).actions)
  }

  // ---- Which groups a run deploys ----

  /** The group is to be deployed and can be. */
  ghost predicate Redone(artifacts: map<Name, Rebuilt>, o: Options, image: Image) {
    GroupDecision(artifacts, o, image) == Go && o.available(image) == Present
  }

  /** The run gets as far as the k-th group and deploys it. */
  ghost predicate DeploysAt(artifacts: map<Name, Rebuilt>, o: Options, k: nat)
    requires k < |o.order|
  {
    !PlanFirst(artifacts, o, k).threw && Redone(artifacts, o, o.order[k])
  }

  ghost predicate MarksAt(artifacts: map<Name, Rebuilt>, o: Options, k: nat, n: Name)
    requires k < |o.order|
  {
    DeploysAt(artifacts, o, k) && n in Members(artifacts, o.listing, o.order[k])
  }

  lemma MarksContents(members: seq<Name>, n: Name)
    ensures MarkArtifact(n) in Marks(members) <==> n in members
  {
    if n in members {
      var i :| 0 <= i < |members| && members[i] == n;
      assert Marks(members)[i] == MarkArtifact(n);
    }
  }

  lemma GroupMarks(artifacts: map<Name, Rebuilt>, o: Options, image: Image, n: Name)
    ensures MarkArtifact(n) in GroupPlan(artifacts, o, image).actions <==>
              Redone(artifacts, o, image) && n in Members(artifacts, o.listing, image)
  {
    var members := Members(artifacts, o.listing, image);
    MarksContents(members, n);
    if Redone(artifacts, o, image) {
      assert GroupPlan(artifacts, o, image).actions == [DeployImage(image)] + Marks(members);
    }
  }

  /** A run marks exactly the members of the groups that it deploys. */
  lemma {:induction false} MarksOfPlan(artifacts: map<Name, Rebuilt>, o: Options, j: nat, n: Name)
    requires j <= |o.order|
    ensures MarkArtifact(n) in PlanFirst(artifacts, o, j).actions <==> exists k :: 0 <= k < j && MarksAt(artifacts, o, k, n)
  {
    if j > 0 {
      MarksOfPlan(artifacts, o, j - 1, n);
      GroupMarks(artifacts, o, o.order[j - 1], n);
      assert MarksAt(artifacts, o, j - 1, n) <==>
        !PlanFirst(artifacts, o, j - 1).threw && MarkArtifact(n) in GroupPlan(artifacts, o, o.order[j - 1]).actions;
    }
  }

  lemma MarksAtImage(artifacts: map<Name, Rebuilt>, o: Options, k: nat, n: Name)
    requires k < |o.order| && MarksAt(artifacts, o, k, n)
    ensures n in o.listing && n in artifacts && artifacts[n].image == Some(o.order[k])
    ensures o.available(o.order[k]) == Present
  {
    MembersMeaning(artifacts, o.listing, o.order[k]);
  }

  /** After a whole run an artifact is marked if it was, or if the run marks it. */
  lemma DoneMarked(w: World, o: Options, n: Name)
    requires n in w.artifacts
    ensures n in Done(w, o).artifacts
    ensures Marked(Done(w, o).artifacts[n]) <==> Marked(w.artifacts[n]) || MarkArtifact(n) in PlanOf(w.artifacts, o).actions
  {
    ApplyFacts(w, PlanOf(w.artifacts, o).actions);
    WithMarkTwice(w.artifacts[n]);
  }

  lemma NotThrownBefore(artifacts: map<Name, Rebuilt>, o: Options, k: nat, n: nat)
    requires k <= n <= |o.order| && !PlanFirst(artifacts, o, n).threw
    ensures !PlanFirst(artifacts, o, k).threw
  {
    if PlanFirst(artifacts, o, k).threw { PlanEnds(artifacts, o, k, n); }
  }

  lemma GroupNotThrown(artifacts: map<Name, Rebuilt>, o: Options, k: nat)
    requires k < |o.order| && !PlanOf(artifacts, o).threw
    ensures !PlanFirst(artifacts, o, k).threw && !GroupPlan(artifacts, o, o.order[k]).threw
  {
    NotThrownBefore(artifacts, o, k, |o.order|);
    NotThrownBefore(artifacts, o, k + 1, |o.order|);
  }

  // ---- Where complete runs lead ----

  ghost predicate ListsAll(artifacts: map<Name, Rebuilt>, o: Options) {
    Valid(artifacts, o) && forall n | n in artifacts :: n in o.listing
  }

  /** What was marked, and every artifact whose image can be extracted. */
  ghost function Final(artifacts: map<Name, Rebuilt>, available: Image -> Availability): set<Name> {
    MarkedNames(artifacts)
    + set n | n in artifacts && artifacts[n].image.Some? && available(artifacts[n].image.value) == Present
  }

  /** A run that does not throw marks every listed artifact whose image can be extracted, unless it is marked. */
  lemma UnthrownMarks(artifacts: map<Name, Rebuilt>, o: Options, n: Name)
    requires Valid(artifacts, o) && !PlanOf(artifacts, o).threw && n in o.listing
    requires artifacts[n].image.Some? && o.available(artifacts[n].image.value) == Present
    ensures Marked(artifacts[n]) || MarkArtifact(n) in PlanOf(artifacts, o).actions
  {
    var image := artifacts[n].image.value;
    var k :| 0 <= k < |o.order| && o.order[k] == image;
    MembersMeaning(artifacts, o.listing, image);
    GroupNotThrown(artifacts, o, k);
    SkippedIffMarked(artifacts, Members(artifacts, o.listing, image));
    MarksOfPlan(artifacts, o, |o.order|, n);
    if !Marked(artifacts[n]) { assert MarksAt(artifacts, o, k, n); }
  }

  /** A complete run over all artifacts that does not throw, forced or not, leaves exactly the final marks. */
  lemma CompleteRun(w: World, o: Options)
    requires ListsAll(w.artifacts, o) && !PlanOf(w.artifacts, o).threw
    ensures MarkedNames(Done(w, o).artifacts) == Final(w.artifacts, o.available)
  {
    ApplyFacts(w, PlanOf(w.artifacts, o).actions);
    forall n | n in w.artifacts ensures n in MarkedNames(Done(w, o).artifacts) <==> n in Final(w.artifacts, o.available) {
      DoneMarked(w, o, n);
      if MarkArtifact(n) in PlanOf(w.artifacts, o).actions {
        MarkedWasPresent(w.artifacts, o, n);
      } else if n in Final(w.artifacts, o.available) && !Marked(w.artifacts[n]) {
        UnthrownMarks(w.artifacts, o, n);
      }
    }
  }

  /** Only listed artifacts of extractable images are ever marked, also by a run that throws. */
  lemma MarkedWasPresent(artifacts: map<Name, Rebuilt>, o: Options, n: Name)
    requires MarkArtifact(n) in PlanOf(artifacts, o).actions
    ensures n in artifacts && n in o.listing && artifacts[n].image.Some? && o.available(artifacts[n].image.value) == Present
  {
    MarksOfPlan(artifacts, o, |o.order|, n);
    var k :| 0 <= k < |o.order| && MarksAt(artifacts, o, k, n);
    MarksAtImage(artifacts, o, k, n);
  }

  /** No run, stopped or thrown out of, changes where a complete run leads. */
  lemma StoppedKeepsFinal(w: World, w': World, o: Options, stop: nat)
    requires StoppedRun(w, w', o, stop)
    ensures Final(w'.artifacts, o.available) == Final(w.artifacts, o.available)
  {
    var actions := PlanOf(w.artifacts, o).actions[..stop];
    ApplyFacts(w, actions);
    forall n | n in w.artifacts ensures n in Final(w'.artifacts, o.available) <==> n in Final(w.artifacts, o.available) {
      WithMarkTwice(w.artifacts[n]);
      if MarkArtifact(n) in actions {
        MarkedWasPresent(w.artifacts, o, n);
      }
    }
  }

  ghost predicate StoppedWith(w: World, w': World, available: Image -> Availability) {
    exists o: Options, stop: nat :: o.available == available && StoppedRun(w, w', o, stop)
  }

  ghost predicate StoppedWithAt(worlds: seq<World>, i: int, available: Image -> Availability)
    requires 0 < i < |worlds|
  {
    StoppedWith(worlds[i - 1], worlds[i], available)
  }

  /** Stopped runs with any options, over the same images. */
  ghost predicate Stops(worlds: seq<World>, available: Image -> Availability) {
    worlds != [] && forall i | 0 < i < |worlds| :: StoppedWithAt(worlds, i, available)
  }

  lemma StoppedWithKeepsFinal(w: World, w': World, available: Image -> Availability)
    requires StoppedWith(w, w', available)
    ensures Final(w'.artifacts, available) == Final(w.artifacts, available)
  {
    var o: Options, stop: nat :| o.available == available && StoppedRun(w, w', o, stop);
    StoppedKeepsFinal(w, w', o, stop);
  }

  lemma StopsStep(worlds: seq<World>, i: nat, available: Image -> Availability)
    requires Stops(worlds, available) && 0 < i < |worlds|
    ensures Final(worlds[i].artifacts, available) == Final(worlds[i - 1].artifacts, available)
  {
    assert StoppedWithAt(worlds, i, available);
    StoppedWithKeepsFinal(worlds[i - 1], worlds[i], available);
  }

  lemma HistoryKeepsFinal(worlds: seq<World>, i: nat, available: Image -> Availability)
    requires Stops(worlds, available) && i < |worlds|
    ensures Final(worlds[i].artifacts, available) == Final(worlds[0].artifacts, available)
  {
    for j := 0 to i
      invariant Final(worlds[j].artifacts, available) == Final(worlds[0].artifacts, available)
    {
      StopsStep(worlds, j + 1, available);
    }
  }

  /** After any stopped runs with any options, a complete run that does not throw leaves the final marks of the start. */
  lemma FinalAfterStops(worlds: seq<World>, i: nat, o: Options)
    requires Stops(worlds, o.available) && i < |worlds|
    requires ListsAll(worlds[i].artifacts, o) && !PlanOf(worlds[i].artifacts, o).threw
    ensures MarkedNames(Done(worlds[i], o).artifacts) == Final(worlds[0].artifacts, o.available)
  {
    HistoryKeepsFinal(worlds, i, o.available);
    CompleteRun(worlds[i], o);
  }

  /** Once a complete run has deployed everything, the next unforced run has no effect at all. */
  lemma NothingLeft(w: World, o: Options, next: Options)
    requires ListsAll(w.artifacts, o) && !PlanOf(w.artifacts, o).threw && forall image :: o.available(image) == Present
    requires Valid(Done(w, o).artifacts, next) && !next.force
    ensures PlanOf(Done(w, o).artifacts, next) == Plan([], false)
  {
    var done := Done(w, o);
    CompleteRun(w, o);
    ApplyFacts(w, PlanOf(w.artifacts, o).actions);
    forall n | n in done.artifacts && done.artifacts[n].image.Some? ensures Marked(done.artifacts[n]) {
      WithMarkTwice(w.artifacts[n]);
      assert n in Final(w.artifacts, o.available);
      assert n in MarkedNames(done.artifacts);
    }
    MarkedPlan(done.artifacts, next, |next.order|);
  }

  lemma MarkedGroup(artifacts: map<Name, Rebuilt>, o: Options, image: Image)
    requires !o.force && forall n | n in artifacts && artifacts[n].image.Some? :: Marked(artifacts[n])
    ensures GroupPlan(artifacts, o, image) == Plan([], false)
  {
    MembersMeaning(artifacts, o.listing, image);
    SkippedIffMarked(artifacts, Members(artifacts, o.listing, image));
  }

  lemma {:induction false} MarkedPlan(artifacts: map<Name, Rebuilt>, o: Options, k: nat)
    requires k <= |o.order| && !o.force
    requires forall n | n in artifacts && artifacts[n].image.Some? :: Marked(artifacts[n])
    ensures PlanFirst(artifacts, o, k) == Plan([], false)
  {
    if k > 0 {
      MarkedPlan(artifacts, o, k - 1);
      MarkedGroup(artifacts, o, o.order[k - 1]);
    }
  }

  // ---- When a stop can be resumed ----

  /** Running again from either world ends with the same marks, and throws or not alike. */
  ghost predicate SameEnd(w: World, w': World, o: Options) {
    && MarkedNames(Done(w', o).artifacts) == MarkedNames(Done(w, o).artifacts)
    && PlanOf(w'.artifacts, o).threw == PlanOf(w.artifacts, o).threw
  }

  /** The run can be stopped after any number of effects and run again. */
  ghost predicate Resumable(w: World, o: Options) {
    var actions := PlanOf(w.artifacts, o).actions;
    forall stop | 0 <= stop <= |actions| :: SameEnd(w, ApplyAll(w, actions[..stop]), o)
  }

  ghost predicate GroupReadable(artifacts: map<Name, Rebuilt>, o: Options, image: Image) {
    MembersMeaning(artifacts, o.listing, image);
    forall n | n in Members(artifacts, o.listing, image) :: !Unreadable(artifacts[n])
  }

  /** No group that the run deploys has a member whose version is no number. */
  ghost predicate DeploysReadable(artifacts: map<Name, Rebuilt>, o: Options) {
    forall k | 0 <= k < |o.order| && DeploysAt(artifacts, o, k) :: GroupReadable(artifacts, o, o.order[k])
  }

  /** `b` is `a` with further marks on the given artifacts. */
  ghost predicate Remarked(a: map<Name, Rebuilt>, b: map<Name, Rebuilt>, names: set<Name>) {
    && b.Keys == a.Keys
    && forall n | n in a :: b[n] == if n in names then WithMark(a[n]) else a[n]
  }

  ghost function NamesIn(artifacts: map<Name, Rebuilt>, actions: seq<Action>): set<Name> {
    set n | n in artifacts && MarkArtifact(n) in actions
  }

  lemma StopRemarks(w: World, actions: seq<Action>)
    ensures Remarked(w.artifacts, ApplyAll(w, actions).artifacts, NamesIn(w.artifacts, actions))
  {
    ApplyFacts(w, actions);
  }

  lemma {:induction false} SameMembers(a: map<Name, Rebuilt>, b: map<Name, Rebuilt>, names: set<Name>, listing: seq<Name>, image: Image)
    requires Remarked(a, b, names)
    ensures Members(b, listing, image) == Members(a, listing, image)
  {
    if listing != [] {
      SameMembers(a, b, names, listing[..|listing| - 1], image);
      var n := listing[|listing| - 1];
      if n in a { WithMarkTwice(a[n]); }
    }
  }

  lemma {:induction false} SameDecision(a: map<Name, Rebuilt>, b: map<Name, Rebuilt>, members: seq<Name>)
    requires forall n | n in members :: n in a && n in b && a[n] == b[n]
    ensures Decide(a, members) == Decide(b, members)
  {
    if members != [] {
      assert members[0] in members && forall n | n in members[1..] :: n in members;
      SameDecision(a, b, members[1..]);
    }
  }

  lemma MarkedInOwnGroup(artifacts: map<Name, Rebuilt>, o: Options, j: nat, k: nat, n: Name)
    requires (forall i, j | 0 <= i < j < |o.order| :: o.order[i] != o.order[j]) && j < |o.order| && k < |o.order|
    requires MarksAt(artifacts, o, j, n) && n in Members(artifacts, o.listing, o.order[k])
    ensures j == k
  {
    MarksAtImage(artifacts, o, j, n);
    MembersMeaning(artifacts, o.listing, o.order[k]);
  }

  /** A group that the run does not deploy is none of its business. */
  lemma GroupUnmarked(artifacts: map<Name, Rebuilt>, o: Options, k: nat, n: Name)
    requires Valid(artifacts, o) && k < |o.order|
    requires !DeploysAt(artifacts, o, k) && n in Members(artifacts, o.listing, o.order[k])
    ensures MarkArtifact(n) !in PlanOf(artifacts, o).actions
  {
    MarksOfPlan(artifacts, o, |o.order|, n);
    if j :| 0 <= j < |o.order| && MarksAt(artifacts, o, j, n) {
      MarkedInOwnGroup(artifacts, o, j, k, n);
    }
  }

  lemma Untouched(artifacts: map<Name, Rebuilt>, o: Options, stop: nat, k: nat, n: Name)
    requires Valid(artifacts, o) && stop <= |PlanOf(artifacts, o).actions| && k < |o.order|
    requires !DeploysAt(artifacts, o, k) && n in Members(artifacts, o.listing, o.order[k])
    ensures n !in NamesIn(artifacts, PlanOf(artifacts, o).actions[..stop])
  {
    GroupUnmarked(artifacts, o, k, n);
  }

  /** How the k-th group looks to the next run: alike, or partly marked, or all marked. */
  ghost predicate GroupGoesOn(a: map<Name, Rebuilt>, b: map<Name, Rebuilt>, o: Options, image: Image) {
    && GroupPlan(b, o, image).threw == GroupPlan(a, o, image).threw
    && (Redone(b, o, image) ==> Redone(a, o, image))
    && (Redone(a, o, image) && !Redone(b, o, image) ==>
          forall n | n in Members(a, o.listing, image) && n in b :: Marked(b[n]))
  }

  lemma DeployedGroupGoesOn(a: map<Name, Rebuilt>, b: map<Name, Rebuilt>, names: set<Name>, o: Options, image: Image)
    requires Remarked(a, b, names) && !o.force && Redone(a, o, image) && GroupReadable(a, o, image)
    ensures GroupGoesOn(a, b, o, image)
  {
    SameMembers(a, b, names, o.listing, image);
    MembersMeaning(a, o.listing, image);
    var members := Members(a, o.listing, image);
    forall n | n in members ensures !Unreadable(b[n]) { WithMarkTwice(a[n]); }
    DecideThrowsIff(b, members);
    SkippedIffMarked(b, members);
  }

  lemma GroupAfterStop(a: map<Name, Rebuilt>, b: map<Name, Rebuilt>, o: Options, stop: nat, k: nat)
    requires Valid(a, o) && stop <= |PlanOf(a, o).actions| && k < |o.order| && !PlanFirst(a, o, k).threw
    requires Remarked(a, b, NamesIn(a, PlanOf(a, o).actions[..stop]))
    requires o.force || DeploysReadable(a, o)
    ensures GroupGoesOn(a, b, o, o.order[k])
  {
    var names, image := NamesIn(a, PlanOf(a, o).actions[..stop]), o.order[k];
    SameMembers(a, b, names, o.listing, image);
    if !o.force {
      if DeploysAt(a, o, k) {
        DeployedGroupGoesOn(a, b, names, o, image);
      } else {
        MembersMeaning(a, o.listing, image);
        forall n | n in Members(a, o.listing, image) ensures n in a && n in b && a[n] == b[n] {
          Untouched(a, o, stop, k, n);
        }
        SameDecision(a, b, Members(a, o.listing, image));
      }
    }
  }

  lemma {:induction false} ThrowsAlike(a: map<Name, Rebuilt>, b: map<Name, Rebuilt>, o: Options, stop: nat, k: nat)
    requires Valid(a, o) && stop <= |PlanOf(a, o).actions| && k <= |o.order|
    requires Remarked(a, b, NamesIn(a, PlanOf(a, o).actions[..stop]))
    requires o.force || DeploysReadable(a, o)
    ensures PlanFirst(b, o, k).threw == PlanFirst(a, o, k).threw
    decreases k
  {
    if k > 0 {
      ThrowsAlike(a, b, o, stop, k - 1);
      if !PlanFirst(a, o, k - 1).threw {
        GroupAfterStop(a, b, o, stop, k - 1);
      }
    }
  }

  lemma SameMarks(w: World, w': World, o: Options, stop: nat, n: Name)
    requires StoppedRun(w, w', o, stop) && n in w.artifacts && (o.force || DeploysReadable(w.artifacts, o))
    ensures n in MarkedNames(Done(w', o).artifacts) <==> n in MarkedNames(Done(w, o).artifacts)
  {
    var a, b, actions := w.artifacts, w'.artifacts, PlanOf(w.artifacts, o).actions;
    StopRemarks(w, actions[..stop]);
    DoneMarked(w, o, n);
    DoneMarked(w', o, n);
    WithMarkTwice(a[n]);
    MarksOfPlan(a, o, |o.order|, n);
    MarksOfPlan(b, o, |o.order|, n);
    forall k | 0 <= k < |o.order|
      ensures MarksAt(b, o, k, n) ==> MarksAt(a, o, k, n)
      ensures MarksAt(a, o, k, n) ==> MarksAt(b, o, k, n) || Marked(b[n])
    {
      ThrowsAlike(a, b, o, stop, k);
      SameMembers(a, b, NamesIn(a, actions[..stop]), o.listing, o.order[k]);
      if !PlanFirst(a, o, k).threw { GroupAfterStop(a, b, o, stop, k); }
    }
    assert MarkArtifact(n) in actions[..stop] ==> MarkArtifact(n) in actions;
  }

  lemma StopResumes(w: World, w': World, o: Options, stop: nat)
    requires StoppedRun(w, w', o, stop) && (o.force || DeploysReadable(w.artifacts, o))
    ensures SameEnd(w, w', o)
  {
    var actions := PlanOf(w.artifacts, o).actions;
    StopRemarks(w, actions[..stop]);
    ThrowsAlike(w.artifacts, w'.artifacts, o, stop, |o.order|);
    ApplyFacts(w, actions);
    ApplyFacts(w', PlanOf(w'.artifacts, o).actions);
    forall n ensures n in MarkedNames(Done(w', o).artifacts) <==> n in MarkedNames(Done(w, o).artifacts) {
      if n in w.artifacts { SameMarks(w, w', o, stop, n); }
    }
  }

  // ---- When it cannot ----

  lemma FirstUnreadable(artifacts: map<Name, Rebuilt>, members: seq<Name>) returns (u: nat)
    requires (forall n | n in members :: n in artifacts) && exists n :: n in members && Unreadable(artifacts[n])
    ensures u < |members| && Unreadable(artifacts[members[u]])
    ensures forall i | 0 <= i < u :: !Unreadable(artifacts[members[i]])
  {
    u := 0;
    while !Unreadable(artifacts[members[u]])
      invariant u < |members| && forall i | 0 <= i < u :: !Unreadable(artifacts[members[i]])
      decreases |members| - u
    {
      var n :| n in members && Unreadable(artifacts[n]);
      var i :| 0 <= i < |members| && members[i] == n;
      assert u < i;
      u := u + 1;
    }
  }

  /** The effects up to the u-th mark of the k-th group. */
  lemma StopInGroup(artifacts: map<Name, Rebuilt>, o: Options, k: nat, u: nat) returns (stop: nat)
    requires k < |o.order| && DeploysAt(artifacts, o, k) && u <= |Members(artifacts, o.listing, o.order[k])|
    ensures var all, members := PlanOf(artifacts, o).actions, Members(artifacts, o.listing, o.order[k]);
            && stop <= |all|
            && all[..stop] == PlanFirst(artifacts, o, k).actions + [DeployImage(o.order[k])] + Marks(members)[..u]
  {
    var p, members := PlanFirst(artifacts, o, k).actions, Members(artifacts, o.listing, o.order[k]);
    var g := GroupPlan(artifacts, o, o.order[k]).actions;
    PlanStep(artifacts, o, k);
    assert g == [DeployImage(o.order[k])] + Marks(members);
    stop := |p| + 1 + u;
    PrefixOf(p, g, PlanOf(artifacts, o).actions, u + 1);
    assert g[..u + 1] == [DeployImage(o.order[k])] + Marks(members)[..u];
    assert p + ([DeployImage(o.order[k])] + Marks(members)[..u]) == p + [DeployImage(o.order[k])] + Marks(members)[..u];
  }

  lemma MarkedBeforeStop(artifacts: map<Name, Rebuilt>, o: Options, k: nat, u: nat, i: nat)
    requires Valid(artifacts, o) && k < |o.order|
    requires var members := Members(artifacts, o.listing, o.order[k]);
             u < |members| && i < |members| && (i < u || (i == u && forall j | 0 <= j < u :: members[j] != members[u]))
    ensures var members := Members(artifacts, o.listing, o.order[k]);
            MarkArtifact(members[i]) in PlanFirst(artifacts, o, k).actions + [DeployImage(o.order[k])] + Marks(members)[..u] <==> i < u
  {
    var members := Members(artifacts, o.listing, o.order[k]);
    if i < u {
      assert Marks(members)[..u][i] == MarkArtifact(members[i]);
    } else {
      MembersMeaning(artifacts, o.listing, o.order[k]);
      assert members[u] in members;
      MarksOfPlan(artifacts, o, k, members[u]);
      forall j | 0 <= j < k ensures !MarksAt(artifacts, o, j, members[u]) {
        if MarksAt(artifacts, o, j, members[u]) { MarksAtImage(artifacts, o, j, members[u]); }
      }
      forall j | 0 <= j < u ensures Marks(members)[..u][j] != MarkArtifact(members[u]) {}
    }
  }

  /** Stopped right before a member whose version is no number, the run cannot be resumed: the next one throws. */
  lemma StopBreaks(w: World, o: Options, k: nat)
    requires Valid(w.artifacts, o) && !o.force && k < |o.order|
    requires DeploysAt(w.artifacts, o, k) && !GroupReadable(w.artifacts, o, o.order[k])
    ensures !Resumable(w, o)
    ensures exists stop :: 0 <= stop <= |PlanOf(w.artifacts, o).actions|
                           && PlanOf(ApplyAll(w, PlanOf(w.artifacts, o).actions[..stop]).artifacts, o).threw
  {
    var a, image := w.artifacts, o.order[k];
    MembersMeaning(a, o.listing, image);
    var members := Members(a, o.listing, image);
    var u := FirstUnreadable(a, members);
    var stop := StopInGroup(a, o, k, u);
    var w' := ApplyAll(w, PlanOf(a, o).actions[..stop]);
    StopRemarks(w, PlanOf(a, o).actions[..stop]);
    SameMembers(a, w'.artifacts, NamesIn(a, PlanOf(a, o).actions[..stop]), o.listing, image);
    forall i | 0 <= i <= u
      ensures if i < u then Marked(w'.artifacts[members[i]]) else w'.artifacts[members[i]] == a[members[i]]
    {
      assert members[i] in members;
      MarkedBeforeStop(a, o, k, u, i);
      WithMarkTwice(a[members[i]]);
    }
    assert Stumbles(w'.artifacts, members, u);
    DecideThrowsIff(w'.artifacts, members);
    NeverMarked(w', o, k, members[u]);
    MarksOfPlan(a, o, |o.order|, members[u]);
    assert MarksAt(a, o, k, members[u]);
    DoneMarked(w, o, members[u]);
    assert members[u] in MarkedNames(Done(w, o).artifacts);
    assert !SameEnd(w, w', o);
    ThrownLater(w'.artifacts, o, k);
  }

  lemma NeverMarked(w: World, o: Options, k: nat, n: Name)
    requires k < |o.order| && n in w.artifacts && w.artifacts[n].image == Some(o.order[k]) && !Marked(w.artifacts[n])
    requires (forall i, j | 0 <= i < j < |o.order| :: o.order[i] != o.order[j]) && !Redone(w.artifacts, o, o.order[k])
    ensures n !in MarkedNames(Done(w, o).artifacts)
  {
    DoneMarked(w, o, n);
    MarksOfPlan(w.artifacts, o, |o.order|, n);
    forall j | 0 <= j < |o.order| ensures !MarksAt(w.artifacts, o, j, n) {
      if MarksAt(w.artifacts, o, j, n) { MarksAtImage(w.artifacts, o, j, n); }
    }
  }

  lemma ThrownLater(artifacts: map<Name, Rebuilt>, o: Options, k: nat)
    requires k < |o.order| && GroupPlan(artifacts, o, o.order[k]).threw
    ensures PlanOf(artifacts, o).threw
  {
    if !PlanOf(artifacts, o).threw { GroupNotThrown(artifacts, o, k); }
  }

  /** Every stop of a run can be resumed exactly if it is forced or deploys no group with an unreadable member. */
  lemma ResumableIff(w: World, o: Options)
    requires Valid(w.artifacts, o)
    ensures Resumable(w, o) <==> o.force || DeploysReadable(w.artifacts, o)
  {
    var actions := PlanOf(w.artifacts, o).actions;
    if o.force || DeploysReadable(w.artifacts, o) {
      forall stop | 0 <= stop <= |actions| ensures SameEnd(w, ApplyAll(w, actions[..stop]), o) {
        StopResumes(w, ApplyAll(w, actions[..stop]), o, stop);
      }
    } else {
      var k :| 0 <= k < |o.order| && DeploysAt(w.artifacts, o, k) && !GroupReadable(w.artifacts, o, o.order[k]);
      StopBreaks(w, o, k);
    }
  }

  // ---- Any number of stops ----

  ghost predicate StoppedOnce(w: World, w': World, o: Options) {
    exists stop: nat :: StoppedRun(w, w', o, stop)
  }

  ghost predicate StoppedSame(worlds: seq<World>, i: int, o: Options)
    requires 0 < i < |worlds|
  {
    StoppedOnce(worlds[i - 1], worlds[i], o)
  }

  /** One run, stopped and run again any number of times. */
  ghost predicate Repeats(worlds: seq<World>, o: Options) {
    worlds != [] && forall i | 0 < i < |worlds| :: StoppedSame(worlds, i, o)
  }

  /** No stop of the run breaks it. */
  ghost predicate Withstands(w: World, o: Options) {
    Valid(w.artifacts, o) && (o.force || DeploysReadable(w.artifacts, o))
  }

  /** From `w` the run ends as from `w0`, and no stop breaks it. */
  ghost predicate EndsAlike(w0: World, w: World, o: Options) {
    SameEnd(w0, w, o) && Withstands(w, o)
  }

  lemma EndsAlikeAtFirst(w: World, o: Options)
    requires Withstands(w, o)
    ensures EndsAlike(w, w, o)
  {
  }

  lemma SameEndTransitive(u: World, v: World, w: World, o: Options)
    requires SameEnd(u, v, o) && SameEnd(v, w, o)
    ensures SameEnd(u, w, o)
  {
  }

  lemma StopKeepsReadable(w: World, w': World, o: Options, stop: nat)
    requires StoppedRun(w, w', o, stop) && Withstands(w, o)
    ensures Withstands(w', o)
  {
    var a, b, actions := w.artifacts, w'.artifacts, PlanOf(w.artifacts, o).actions;
    StopRemarks(w, actions[..stop]);
    forall n | n in a ensures b[n].image == a[n].image && (!Unreadable(a[n]) ==> !Unreadable(b[n])) { WithMarkTwice(a[n]); }
    if !o.force {
      forall k | 0 <= k < |o.order| && DeploysAt(b, o, k) ensures GroupReadable(b, o, o.order[k]) {
        ThrowsAlike(a, b, o, stop, k);
        GroupAfterStop(a, b, o, stop, k);
        SameMembers(a, b, NamesIn(a, actions[..stop]), o.listing, o.order[k]);
        MembersMeaning(a, o.listing, o.order[k]);
        assert DeploysAt(a, o, k) && GroupReadable(a, o, o.order[k]);
      }
    }
  }

  lemma StopStep(w0: World, w: World, w': World, o: Options)
    requires StoppedOnce(w, w', o) && EndsAlike(w0, w, o)
    ensures EndsAlike(w0, w', o)
  {
    var stop: nat :| StoppedRun(w, w', o, stop);
    StopResumes(w, w', o, stop);
    StopKeepsReadable(w, w', o, stop);
    SameEndTransitive(w0, w, w', o);
  }

  lemma RepeatStep(worlds: seq<World>, i: nat, o: Options)
    requires Repeats(worlds, o) && 0 < i < |worlds| && EndsAlike(worlds[0], worlds[i - 1], o)
    ensures EndsAlike(worlds[0], worlds[i], o)
  {
    assert StoppedSame(worlds, i, o);
    StopStep(worlds[0], worlds[i - 1], worlds[i], o);
  }

  /** However often the same run is stopped and run again, it ends as if it had not been stopped. */
  lemma {:induction false} Resumes(worlds: seq<World>, i: nat, o: Options)
    requires Repeats(worlds, o) && i < |worlds| && Withstands(worlds[0], o)
    ensures EndsAlike(worlds[0], worlds[i], o)
    decreases i
  {
    if i == 0 {
      EndsAlikeAtFirst(worlds[0], o);
    } else {
      Resumes(worlds, i - 1, o);
      RepeatStep(worlds, i, o);
    }
  }

  // ---- An input on which a stop breaks a run ----

  const FRESH := Rebuilt(Some("i"), None)
  const ODD := Rebuilt(Some("i"), Some(map[DeployedVersion := "true"]))

  lemma OddIsUnreadable()
    ensures Unreadable(ODD) && VersionText(FRESH) == None
  {
    var s := "true";
    assert ParseDigits(s) == None by { assert s[|s| - 1] == 'e'; }
  }

  /** The run would deploy the image and mark both; stopped after the first mark, every later run throws. */
  lemma StopExample(o: Options)
    requires o.listing == ["a", "b"] && o.order == ["i"] && !o.force && o.available("i") == Present
    ensures var w := World(map["a" := FRESH, "b" := ODD], {});
            && Valid(w.artifacts, o)
            && PlanOf(w.artifacts, o) == Plan([DeployImage("i"), MarkArtifact("a"), MarkArtifact("b")], false)
            && PlanOf(ApplyAll(w, PlanOf(w.artifacts, o).actions[..2]).artifacts, o) == Plan([], true)
  {
    OddIsUnreadable();
    var w := World(map["a" := FRESH, "b" := ODD], {});
    PairMembers(w.artifacts, o.listing);
    assert o.order[0] == "i" && PlanFirst(w.artifacts, o, 0) == Plan([], false);
    assert GroupPlan(w.artifacts, o, "i").actions == [DeployImage("i")] + Marks(["a", "b"]);
    assert Marks(["a", "b"]) == [MarkArtifact("a"), MarkArtifact("b")];
    var actions := PlanOf(w.artifacts, o).actions;
    assert actions == [DeployImage("i"), MarkArtifact("a"), MarkArtifact("b")];
    var stopped := actions[..2];
    assert stopped == [DeployImage("i"), MarkArtifact("a")] && stopped[..1] == [DeployImage("i")] && stopped[..1][..0] == [];
    var w' := ApplyAll(w, stopped);
    assert ApplyAll(w, stopped[..1]) == Apply(ApplyAll(w, []), DeployImage("i"));
    assert w'.artifacts == map["a" := WithMark(FRESH), "b" := ODD];
    WithMarkTwice(FRESH);
    PairMembers(w'.artifacts, o.listing);
    assert Stumbles(w'.artifacts, ["a", "b"], 1);
    DecideThrowsIff(w'.artifacts, ["a", "b"]);
    assert GroupPlan(w'.artifacts, o, "i") == Plan([], true);
    assert PlanFirst(w'.artifacts, o, 0) == Plan([], false);
  }

  lemma PairMembers(artifacts: map<Name, Rebuilt>, listing: seq<Name>)
    requires listing == ["a", "b"] && "a" in artifacts && "b" in artifacts
    requires artifacts["a"].image == Some("i") && artifacts["b"].image == Some("i")
    ensures Members(artifacts, listing, "i") == ["a", "b"]
  {
    assert listing[..1] == ["a"] && listing[..1][..0] == [];
    assert Members(artifacts, listing[..1][..0], "i") == [];
    assert Members(artifacts, listing[..1], "i") == ["a"];
  }
}
