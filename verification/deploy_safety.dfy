/** Crashes and repeated runs of the deploy command. */
module DeploySafety {
  import opened Wrappers
  import opened Deploy

  /** An artifact marked with the current version had its image deployed. */
  ghost predicate MarksBacked(w: World) {
    forall n | n in w.artifacts && Marked(w.artifacts[n]) ::
      w.artifacts[n].image.Some? && w.artifacts[n].image.value in w.deployed
  }

  ghost predicate Unmarked(w: World) {
    forall n | n in w.artifacts :: !Marked(w.artifacts[n])
  }

  /** Every effect is justified: an artifact is marked only after its image. */
  ghost predicate MarksFollow(artifacts: map<Name, Rebuilt>, actions: seq<Action>) {
    forall i | 0 <= i < |actions| && actions[i].MarkArtifact? :: MarkFollows(artifacts, actions, i)
  }

  ghost predicate MarkFollows(artifacts: map<Name, Rebuilt>, actions: seq<Action>, i: nat)
    requires i < |actions| && actions[i].MarkArtifact?
  {
    var n := actions[i].name;
    n in artifacts && artifacts[n].image.Some? && DeployImage(artifacts[n].image.value) in actions[..i]
  }

  lemma GroupFollows(artifacts: map<Name, Rebuilt>, o: Options, image: Image)
    ensures MarksFollow(artifacts, GroupPlan(artifacts, o, image).actions)
  {
    var actions := GroupPlan(artifacts, o, image).actions;
    MembersMeaning(artifacts, o.listing, image);
    var members := Members(artifacts, o.listing, image);
    forall i | 0 <= i < |actions| && actions[i].MarkArtifact? ensures MarkFollows(artifacts, actions, i) {
      assert actions[0] == DeployImage(image);
      assert actions[..i][0] == DeployImage(image);
      assert actions[i] == MarkArtifact(members[i - 1]);
      assert members[i - 1] in members;
    }
  }

  lemma FollowsAppend(artifacts: map<Name, Rebuilt>, a: seq<Action>, b: seq<Action>)
    requires MarksFollow(artifacts, a) && MarksFollow(artifacts, b)
    ensures MarksFollow(artifacts, a + b)
  {
    forall i | 0 <= i < |a + b| && (a + b)[i].MarkArtifact? ensures MarkFollows(artifacts, a + b, i) {
      if i < |a| {
        assert MarkFollows(artifacts, a, i);
        assert (a + b)[..i] == a[..i];
      } else {
        assert MarkFollows(artifacts, b, i - |a|);
        assert (a + b)[..i] == a + b[..i - |a|];
      }
    }
  }

  lemma {:induction false} PlanFollows(artifacts: map<Name, Rebuilt>, o: Options, n: nat)
    requires n <= |o.order|
    ensures MarksFollow(artifacts, PlanFirst(artifacts, o, n).actions)
  {
    if n > 0 {
      PlanFollows(artifacts, o, n - 1);
      GroupFollows(artifacts, o, o.order[n - 1]);
      FollowsAppend(artifacts, PlanFirst(artifacts, o, n - 1).actions, GroupPlan(artifacts, o, o.order[n - 1]).actions);
    }
  }

  /** Nothing but marks changes, and deployed images stay deployed. */
  ghost predicate OnlyMarks(w: World, w': World) {
    && w'.artifacts.Keys == w.artifacts.Keys && w.deployed <= w'.deployed
    && forall n | n in w.artifacts :: w'.artifacts[n] in {w.artifacts[n], WithMark(w.artifacts[n])}
  }

  lemma WithMarkTwice(a: Rebuilt)
    ensures WithMark(WithMark(a)) == WithMark(a) && WithMark(a).image == a.image && Marked(WithMark(a))
  {
    CurrentParses();
    var m := if a.annotations.Some? then a.annotations.value else map[];
    assert m[DeployedVersion := CURRENT_TEXT][DeployedVersion := CURRENT_TEXT] == m[DeployedVersion := CURRENT_TEXT];
  }

  lemma {:induction false} ApplyFacts(w: World, actions: seq<Action>)
    ensures OnlyMarks(w, ApplyAll(w, actions))
    ensures forall image :: image in ApplyAll(w, actions).deployed <==> image in w.deployed || DeployImage(image) in actions
    ensures forall n | n in w.artifacts ::
              ApplyAll(w, actions).artifacts[n] == if MarkArtifact(n) in actions then WithMark(w.artifacts[n]) else w.artifacts[n]
  {
    if actions != [] {
      var init, a := actions[..|actions| - 1], actions[|actions| - 1];
      ApplyFacts(w, init);
      assert actions == init + [a];
      forall n | n in w.artifacts { WithMarkTwice(w.artifacts[n]); }
    }
  }

  /** Stopping a run anywhere, between two marks of a group included, leaves every mark backed. */
  lemma StoppedRunSafe(w: World, w': World, o: Options, stop: nat)
    requires MarksBacked(w) && StoppedRun(w, w', o, stop)
    ensures MarksBacked(w') && OnlyMarks(w, w')
  {
    var all := PlanOf(w.artifacts, o).actions;
    var actions := all[..stop];
    PlanFollows(w.artifacts, o, |o.order|);
    ApplyFacts(w, actions);
    forall n | n in w'.artifacts && Marked(w'.artifacts[n])
      ensures w'.artifacts[n].image.Some? && w'.artifacts[n].image.value in w'.deployed
    {
      if MarkArtifact(n) in actions {
        var i :| 0 <= i < |actions| && actions[i] == MarkArtifact(n);
        assert MarkFollows(w.artifacts, all, i) by { assert all[i] == actions[i]; }
        var image := w.artifacts[n].image.value;
        var k :| 0 <= k < i && all[..i][k] == DeployImage(image);
        assert actions[k] == DeployImage(image);
      }
    }
  }

  /** Some run, with some options, leads from one world to the other and stops there. */
  ghost predicate StoppedBetween(w: World, w': World) {
    exists o, stop :: StoppedRun(w, w', o, stop)
  }

  ghost predicate History(worlds: seq<World>) {
    worlds != [] && forall i | 0 < i < |worlds| :: StoppedAt(worlds, i)
  }

  ghost predicate StoppedAt(worlds: seq<World>, i: int)
    requires 0 < i < |worlds|
  {
    StoppedBetween(worlds[i - 1], worlds[i])
  }

  lemma StoppedSafe(w: World, w': World)
    requires MarksBacked(w) && StoppedBetween(w, w')
    ensures MarksBacked(w')
  {
    var o, stop :| StoppedRun(w, w', o, stop);
    StoppedRunSafe(w, w', o, stop);
  }

  /** Starting without marks, in every reachable state a marked artifact had its image deployed. */
  lemma {:induction false} MarksAlwaysBacked(worlds: seq<World>, i: nat)
    requires History(worlds) && Unmarked(worlds[0]) && i < |worlds|
    ensures MarksBacked(worlds[i])
  {
    if i > 0 {
      MarksAlwaysBacked(worlds, i - 1);
      assert StoppedAt(worlds, i);
      StoppedSafe(worlds[i - 1], worlds[i]);
    }
  }

  // ---- Skipping ----

  /** An unforced run skips a group exactly when every member is marked. */
  lemma {:induction false} SkippedIffMarked(artifacts: map<Name, Rebuilt>, members: seq<Name>)
    requires forall n | n in members :: n in artifacts
    ensures Decide(artifacts, members) == Skip <==> forall n | n in members :: Marked(artifacts[n])
  {
    if members != [] {
      assert members == [members[0]] + members[1..];
      SkippedIffMarked(artifacts, members[1..]);
    }
  }

  /** The version of an artifact is present, but is no number. */
  predicate Unreadable(a: Rebuilt) {
    VersionText(a).Some? && ParseInt(VersionText(a).value).None?
  }

  /** The first member that is not marked is one whose version cannot be read. */
  ghost predicate Stumbles(artifacts: map<Name, Rebuilt>, members: seq<Name>, i: nat)
    requires i < |members| && forall n | n in members :: n in artifacts
  {
    Unreadable(artifacts[members[i]]) && forall k | 0 <= k < i :: Marked(artifacts[members[k]])
  }

  lemma {:induction false} DecideThrowsIff(artifacts: map<Name, Rebuilt>, members: seq<Name>)
    requires forall n | n in members :: n in artifacts
    ensures Decide(artifacts, members) == Throw <==> exists i :: 0 <= i < |members| && Stumbles(artifacts, members, i)
  {
    if members != [] {
      var rest := members[1..];
      DecideThrowsIff(artifacts, rest);
      if Decide(artifacts, members) == Throw {
        if Marked(artifacts[members[0]]) {
          var i :| 0 <= i < |rest| && Stumbles(artifacts, rest, i);
          assert Stumbles(artifacts, members, i + 1);
        } else {
          assert Stumbles(artifacts, members, 0);
        }
      } else if exists i :: 0 <= i < |members| && Stumbles(artifacts, members, i) {
        var i :| 0 <= i < |members| && Stumbles(artifacts, members, i);
        assert Marked(artifacts[members[0]]);
        assert Stumbles(artifacts, rest, i - 1);
      }
    }
  }

  /** A run ends in an exception exactly when some group stumbles, or is to be deployed and cannot be. */
  lemma {:induction false} ThrowsIff(artifacts: map<Name, Rebuilt>, o: Options, n: nat)
    requires n <= |o.order|
    ensures PlanFirst(artifacts, o, n).threw <==> exists i :: 0 <= i < n && FailsAt(artifacts, o, i)
  {
    if n > 0 {
      ThrowsIff(artifacts, o, n - 1);
      GroupFails(artifacts, o, o.order[n - 1]);
      assert FailsAt(artifacts, o, n - 1) <==> GroupPlan(artifacts, o, o.order[n - 1]).threw;
    }
  }

  ghost predicate FailsAt(artifacts: map<Name, Rebuilt>, o: Options, i: nat)
    requires i < |o.order|
  {
    Fails(artifacts, o, o.order[i])
  }

  ghost predicate Fails(artifacts: map<Name, Rebuilt>, o: Options, image: Image) {
    MembersMeaning(artifacts, o.listing, image);
    var members := Members(artifacts, o.listing, image);
    || (!o.force && exists i :: 0 <= i < |members| && Stumbles(artifacts, members, i))
    || (o.available(image) == Broken && (o.force || exists n :: n in members && !Marked(artifacts[n])))
  }

  lemma GroupFails(artifacts: map<Name, Rebuilt>, o: Options, image: Image)
    ensures GroupPlan(artifacts, o, image).threw <==> Fails(artifacts, o, image)
  {
    MembersMeaning(artifacts, o.listing, image);
    var members := Members(artifacts, o.listing, image);
    DecideThrowsIff(artifacts, members);
    SkippedIffMarked(artifacts, members);
  }
}
