/** The deploy command: group rebuilt artifacts by image, deploy what is not marked, mark what was deployed. */
module Deploy {
  import opened Wrappers

  type Name = string
  type Image = string

  datatype Key = DeployedVersion | OtherAnnotation(text: string)

  datatype Rebuilt = Rebuilt(image: Option<Image>, annotations: Option<map<Key, string>>)

  /** The artifacts, and (as history) the images whose deployment was completed. */
  datatype World = World(artifacts: map<Name, Rebuilt>, deployed: set<Image>)

  const CURRENT_VERSION := 3
  const CURRENT_TEXT := "3"

  /** Extracting and deploying an image works, finds nothing, or throws. */
  datatype Availability = Present | Absent | Broken

  /** `listing` is what the client lists, `order` the order in which the map of groups is iterated. */
  datatype Options = Options(listing: seq<Name>, order: seq<Image>, force: bool, available: Image -> Availability)

  datatype Action = DeployImage(image: Image) | MarkArtifact(name: Name)

  datatype Decision = Skip | Go | Throw

  /** The effects of a run that is not stopped, and whether it ends in an exception. */
  datatype Plan = Plan(actions: seq<Action>, threw: bool)

  // ---- Annotations ----

  function ParseDigits(s: string): Option<nat> {
    if s == "" then Some(0)
    else
      var init, c := ParseDigits(s[..|s| - 1]), s[|s| - 1];
      if init.None? || !('0' <= c <= '9') then None else Some(10 * init.value + (c as int - '0' as int))
  }

  /** Integer.parseInt; None stands for NumberFormatException. */
  function ParseInt(s: string): Option<int> {
    var negative := s != "" && s[0] == '-';
    var digits := if s != "" && (s[0] == '-' || s[0] == '+') then s[1..] else s;
    var n := ParseDigits(digits);
    if digits == "" || n.None? then None
    else
      var v: int := if negative then 0 - n.value else n.value;
      if -0x8000_0000 <= v < 0x8000_0000 then Some(v) else None
  }

  lemma CurrentParses()
    ensures ParseInt(CURRENT_TEXT) == Some(CURRENT_VERSION)
  {
    assert CURRENT_TEXT[..0] == "";
    assert ParseDigits(CURRENT_TEXT[..0]) == Some(0);
    assert CURRENT_TEXT[0] == '3';
  }

  function VersionText(a: Rebuilt): Option<string> {
    if a.annotations.Some? && DeployedVersion in a.annotations.value then Some(a.annotations.value[DeployedVersion]) else None
  }

  predicate Marked(a: Rebuilt) {
    VersionText(a).Some? && ParseInt(VersionText(a).value) == Some(CURRENT_VERSION)
  }

  function WithMark(a: Rebuilt): Rebuilt {
    a.(annotations := Some((if a.annotations.Some? then a.annotations.value else map[])[DeployedVersion := CURRENT_TEXT]))
  }

  function Min(a: nat, b: nat): nat {
    if a < b then a else b
  }

  // ---- The plan of a run ----

  function Members(artifacts: map<Name, Rebuilt>, listing: seq<Name>, image: Image): seq<Name> {
    if listing == [] then []
    else
      var rest, n := Members(artifacts, listing[..|listing| - 1], image), listing[|listing| - 1];
      if n in artifacts && artifacts[n].image == Some(image) then rest + [n] else rest
  }

  function Decide(artifacts: map<Name, Rebuilt>, members: seq<Name>): Decision
    requires forall n | n in members :: n in artifacts
  {
    if members == [] then Skip
    else
      var v := VersionText(artifacts[members[0]]);
      if v.None? then Go
      else if ParseInt(v.value).None? then Throw
      else if ParseInt(v.value).value != CURRENT_VERSION then Go
      else Decide(artifacts, members[1..])
  }

  function Marks(members: seq<Name>): seq<Action> {
    seq(|members|, i requires 0 <= i < |members| => MarkArtifact(members[i]))
  }

  lemma {:induction false} MembersMeaning(artifacts: map<Name, Rebuilt>, listing: seq<Name>, image: Image)
    ensures forall n :: n in Members(artifacts, listing, image) <==> n in listing && n in artifacts && artifacts[n].image == Some(image)
  {
    if listing != [] {
      MembersMeaning(artifacts, listing[..|listing| - 1], image);
      assert listing == listing[..|listing| - 1] + [listing[|listing| - 1]];
    }
  }

  ghost function GroupDecision(artifacts: map<Name, Rebuilt>, o: Options, image: Image): Decision {
    MembersMeaning(artifacts, o.listing, image);
    if o.force then Go else Decide(artifacts, Members(artifacts, o.listing, image))
  }

  ghost function GroupPlan(artifacts: map<Name, Rebuilt>, o: Options, image: Image): Plan {
    var d := GroupDecision(artifacts, o, image);
    if d == Skip || (d == Go && o.available(image) == Absent) then Plan([], false)
    else if d == Throw || o.available(image) == Broken then Plan([], true)
    else Plan([DeployImage(image)] + Marks(Members(artifacts, o.listing, image)), false)
  }

  ghost function PlanFirst(artifacts: map<Name, Rebuilt>, o: Options, n: nat): Plan
    requires n <= |o.order|
  {
    if n == 0 then Plan([], false)
    else
      var p := PlanFirst(artifacts, o, n - 1);
      if p.threw then p
      else
        var g := GroupPlan(artifacts, o, o.order[n - 1]);
        Plan(p.actions + g.actions, g.threw)
  }

  ghost function PlanOf(artifacts: map<Name, Rebuilt>, o: Options): Plan {
    PlanFirst(artifacts, o, |o.order|)
  }

  function Apply(w: World, a: Action): World {
    match a
    case DeployImage(image) => w.(deployed := w.deployed + {image})
    case MarkArtifact(n) => if n in w.artifacts then w.(artifacts := w.artifacts[n := WithMark(w.artifacts[n])]) else w
  }

  function ApplyAll(w: World, actions: seq<Action>): World {
    if actions == [] then w else Apply(ApplyAll(w, actions[..|actions| - 1]), actions[|actions| - 1])
  }

  /** Every listed name exists, and the groups iterated are those of the listed artifacts, each once. */
  ghost predicate Valid(artifacts: map<Name, Rebuilt>, o: Options) {
    && (forall n | n in o.listing :: n in artifacts)
    && (forall i, j | 0 <= i < j < |o.order| :: o.order[i] != o.order[j])
    && (forall image :: image in o.order <==> exists n :: n in o.listing && artifacts[n].image == Some(image))
  }

  /** The run may stop after any number of effects. */
  ghost predicate StoppedRun(w: World, w': World, o: Options, stop: nat) {
    && Valid(w.artifacts, o)
    && var actions := PlanOf(w.artifacts, o).actions;
    && stop <= |actions| && w' == ApplyAll(w, actions[..stop])
  }

  /** A run that dies after `stop` effects leaves exactly those; it throws if its plan does and it lives that long. */
  ghost predicate EndsIn(artifacts: map<Name, Rebuilt>, o: Options, w: World, w': World, stop: nat, threw: bool) {
    var plan := PlanOf(artifacts, o);
    && w' == ApplyAll(w, plan.actions[..Min(stop, |plan.actions|)])
    && (threw <==> plan.threw && stop >= |plan.actions|)
  }

  /** The run has got through the first `i` groups, with these effects. */
  ghost predicate GotTo(artifacts: map<Name, Rebuilt>, o: Options, i: nat, p: seq<Action>, w: World, w': World)
    requires i <= |o.order|
  {
    PlanFirst(artifacts, o, i) == Plan(p, false) && w' == ApplyAll(w, p)
  }

  lemma EndsAtLast(artifacts: map<Name, Rebuilt>, o: Options, p: seq<Action>, w: World, w': World, stop: nat)
    requires GotTo(artifacts, o, |o.order|, p, w, w') && |p| <= stop
    ensures EndsIn(artifacts, o, w, w', stop, false)
  {
    assert p[..|p|] == p;
  }

  // ---- The command as it runs ----

  class DeployCommand {
    var artifacts: map<Name, Rebuilt>
    ghost var deployed: set<Image>

    ghost function Now(): World
      reads this
    {
      World(artifacts, deployed)
    }

    constructor (artifacts: map<Name, Rebuilt>)
      ensures Now() == World(artifacts, {})
    {
      this.artifacts := artifacts;
      deployed := {};
    }

    method GroupByImage(listing: seq<Name>) returns (groups: map<Image, seq<Name>>)
      requires forall n | n in listing :: n in artifacts
      ensures forall image :: (if image in groups then groups[image] else []) == Members(artifacts, listing, image)
    {
      groups := map[];
      for i := 0 to |listing|
        invariant forall image :: (if image in groups then groups[image] else []) == Members(artifacts, listing[..i], image)
      {
        var n := listing[i];
        assert listing[..i + 1][..i] == listing[..i];
        if artifacts[n].image.Some? {
          var image := artifacts[n].image.value;
          var group := if image in groups then groups[image] else [];
          groups := groups[image := group + [n]];
        }
      }
      assert listing[..|listing|] == listing;
    }

    method DecideGroup(snapshot: map<Name, Rebuilt>, members: seq<Name>) returns (d: Decision)
      requires forall n | n in members :: n in snapshot
      ensures d == Decide(snapshot, members)
    {
      for i := 0 to |members|
        invariant Decide(snapshot, members) == Decide(snapshot, members[i..])
      {
        assert members[i..][1..] == members[i + 1..];
        var v := VersionText(snapshot[members[i]]);
        if v.None? {
          return Go;
        }
        var version := ParseInt(v.value);
        if version.None? {
          return Throw;
        }
        if version.value != CURRENT_VERSION {
          return Go;
        }
      }
      return Skip;
    }

    /** Marks the members one by one until the run is stopped. */
    method MarkGroup(members: seq<Name>, left: nat) returns (left': nat)
      requires forall n | n in members :: n in artifacts
      modifies this
      ensures var k := Min(left, |members|);
              left' == left - k && Now() == ApplyAll(old(Now()), Marks(members)[..k])
    {
      left' := left;
      var i := 0;
      while i < |members| && left' > 0
        invariant 0 <= i <= |members| && i + left' == left
        invariant Now() == ApplyAll(old(Now()), Marks(members)[..i])
        invariant forall n | n in members :: n in artifacts
      {
        ghost var done := Marks(members)[..i + 1];
        assert done[..i] == Marks(members)[..i] && done[i] == MarkArtifact(members[i]);
        assert members[i] in members;
        artifacts := artifacts[members[i] := WithMark(artifacts[members[i]])];
        left' := left' - 1;
        i := i + 1;
      }
    }

    /** Deploys an image and marks its members, until the run is stopped. */
    method DeployGroup(image: Image, members: seq<Name>, left: nat) returns (goesOn: bool, left': nat)
      requires forall n | n in members :: n in artifacts
      modifies this
      ensures var actions := [DeployImage(image)] + Marks(members); var k := Min(left, |actions|);
              left' == left - k && Now() == ApplyAll(old(Now()), actions[..k]) && (goesOn <==> k == |actions|)
    {
      if left == 0 {
        return false, left;
      }
      ghost var before := Now();
      deployed := deployed + {image};
      left' := MarkGroup(members, left - 1);
      ghost var k := Min(left - 1, |members|);
      DeployThenMark(before, image, Marks(members), k);
      goesOn := left - 1 >= |members|;
    }

    /** One entry of the map of groups; the answers say whether the run goes on, and if not whether it threw. */
    method HandleGroup(o: Options, snapshot: map<Name, Rebuilt>, image: Image, members: seq<Name>, left: nat)
      returns (goesOn: bool, threw: bool, left': nat)
      requires members == Members(snapshot, o.listing, image)
      requires forall n | n in members :: n in snapshot && n in artifacts
      modifies this
      ensures var g := GroupPlan(snapshot, o, image); var k := Min(left, |g.actions|);
              && left' == left - k && Now() == ApplyAll(old(Now()), g.actions[..k])
              && (goesOn <==> !g.threw && k == |g.actions|) && threw == g.threw
    {
      var d := Go;
      if !o.force {
        d := DecideGroup(snapshot, members);
      }
      if d == Skip {
        return true, false, left;
      }
      if d == Throw || o.available(image) == Broken {
        return false, true, left;
      }
      if o.available(image) == Absent {
        return true, false, left;
      }
      threw := false;
      goesOn, left' := DeployGroup(image, members, left);
    }

    /** Handles one image of the map; `p` are the effects so far, and `before` the state in which the run began. */
    method VisitGroup(o: Options, snapshot: map<Name, Rebuilt>, i: nat, members: seq<Name>, left: nat,
                      ghost before: World, ghost p: seq<Action>)
      returns (goesOn: bool, threw: bool, left': nat)
      requires i < |o.order| && members == Members(snapshot, o.listing, o.order[i])
      requires artifacts.Keys == snapshot.Keys
      requires GotTo(snapshot, o, i, p, before, Now())
      modifies this
      ensures artifacts.Keys == snapshot.Keys
      ensures goesOn ==>
                && GotTo(snapshot, o, i + 1, p + GroupPlan(snapshot, o, o.order[i]).actions, before, Now())
                && left' + |GroupPlan(snapshot, o, o.order[i]).actions| == left
      ensures !goesOn ==> EndsIn(snapshot, o, before, Now(), |p| + left, threw)
    {
      MembersMeaning(snapshot, o.listing, o.order[i]);
      AfterGroup(snapshot, o, i, before, p, Now(), left);
      ghost var g := GroupPlan(snapshot, o, o.order[i]);
      ApplyKeepsKeys(Now(), g.actions[..Min(left, |g.actions|)]);
      goesOn, threw, left' := HandleGroup(o, snapshot, o.order[i], members, left);
    }

    /** Iterates over the groups. */
    method RunGroups(o: Options, groups: map<Image, seq<Name>>, stop: nat) returns (threw: bool)
      requires forall image :: (if image in groups then groups[image] else []) == Members(artifacts, o.listing, image)
      modifies this
      ensures EndsIn(old(artifacts), o, old(Now()), Now(), stop, threw)
    {
      var snapshot := artifacts;
      var left: nat := stop;
      ghost var before := Now();
      ghost var p := [];
      for i := 0 to |o.order|
        invariant artifacts.Keys == snapshot.Keys
        invariant |p| + left == stop && GotTo(snapshot, o, i, p, before, Now())
      {
        var image := o.order[i];
        var members := if image in groups then groups[image] else [];
        var goesOn;
        goesOn, threw, left := VisitGroup(o, snapshot, i, members, left, before, p);
        if !goesOn {
          return;
        }
        p := p + GroupPlan(snapshot, o, image).actions;
      }
      EndsAtLast(snapshot, o, p, before, Now(), stop);
      threw := false;
    }

    /** Runs the command; `stop` is the number of effects after which the process dies. */
    method Run(o: Options, stop: nat) returns (threw: bool)
      requires Valid(artifacts, o)
      modifies this
      ensures EndsIn(old(artifacts), o, old(Now()), Now(), stop, threw)
    {
      var groups := GroupByImage(o.listing);
      threw := RunGroups(o, groups, stop);
    }
  }

  lemma DeployThenMark(w: World, image: Image, marks: seq<Action>, k: nat)
    requires k <= |marks|
    ensures ApplyAll(Apply(w, DeployImage(image)), marks[..k]) == ApplyAll(w, ([DeployImage(image)] + marks)[..k + 1])
  {
    assert ([DeployImage(image)] + marks)[..k + 1] == [DeployImage(image)] + marks[..k];
    ApplyAppend(w, [DeployImage(image)], marks[..k]);
    assert [DeployImage(image)][..0] == [];
    assert ApplyAll(w, [DeployImage(image)]) == Apply(ApplyAll(w, []), DeployImage(image));
  }

  lemma PrefixOf(p: seq<Action>, g: seq<Action>, all: seq<Action>, k: nat)
    requires p + g <= all && k <= |g|
    ensures |p| + k <= |all| && p + g[..k] == all[..|p| + k]
    ensures k == |g| ==> p + g == all[..|p| + k]
  {
    assert (p + g)[..|p| + k] == p + g[..k];
    assert all[..|p| + k] == all[..|p + g|][..|p| + k];
  }

  lemma PlanStep(artifacts: map<Name, Rebuilt>, o: Options, i: nat)
    requires i < |o.order| && !PlanFirst(artifacts, o, i).threw
    ensures var p, g := PlanFirst(artifacts, o, i).actions, GroupPlan(artifacts, o, o.order[i]);
            && PlanFirst(artifacts, o, i + 1) == Plan(p + g.actions, g.threw)
            && p + g.actions <= PlanOf(artifacts, o).actions
            && (g.threw ==> PlanOf(artifacts, o) == Plan(p + g.actions, true))
  {
    PlanGrows(artifacts, o, i + 1, |o.order|);
    if PlanFirst(artifacts, o, i + 1).threw { PlanEnds(artifacts, o, i + 1, |o.order|); }
  }

  /** After one group the run goes on with all effects of that group, or has ended. */
  lemma AfterGroup(artifacts: map<Name, Rebuilt>, o: Options, i: nat, before: World, p: seq<Action>, now: World, left: nat)
    requires i < |o.order| && GotTo(artifacts, o, i, p, before, now)
    ensures var g := GroupPlan(artifacts, o, o.order[i]); var k := Min(left, |g.actions|);
            var w := ApplyAll(now, g.actions[..k]);
            if !g.threw && k == |g.actions| then GotTo(artifacts, o, i + 1, p + g.actions, before, w)
            else EndsIn(artifacts, o, before, w, |p| + left, g.threw)
  {
    var g := GroupPlan(artifacts, o, o.order[i]);
    var k := Min(left, |g.actions|);
    PlanStep(artifacts, o, i);
    RunStep(before, p, g.actions, PlanOf(artifacts, o).actions, k);
    if g.threw || k < |g.actions| {
      EndsAt(artifacts, o, i, p, left);
      EndsHere(artifacts, o, before, ApplyAll(now, g.actions[..k]), |p| + left, |p| + k, g.threw);
    }
  }

  lemma EndsHere(artifacts: map<Name, Rebuilt>, o: Options, before: World, w: World, stop: nat, k: nat, threw: bool)
    requires var all := PlanOf(artifacts, o);
             && k <= |all.actions| && w == ApplyAll(before, all.actions[..k])
             && k == Min(stop, |all.actions|) && (threw <==> all.threw && stop >= |all.actions|)
    ensures EndsIn(artifacts, o, before, w, stop, threw)
  {
  }

  lemma EndsAt(artifacts: map<Name, Rebuilt>, o: Options, i: nat, p: seq<Action>, left: nat)
    requires i < |o.order| && PlanFirst(artifacts, o, i) == Plan(p, false)
    requires GroupPlan(artifacts, o, o.order[i]).threw || left < |GroupPlan(artifacts, o, o.order[i]).actions|
    ensures var g, all := GroupPlan(artifacts, o, o.order[i]), PlanOf(artifacts, o);
            && Min(|p| + left, |all.actions|) == |p| + Min(left, |g.actions|)
            && (g.threw <==> all.threw && |p| + left >= |all.actions|)
  {
    PlanStep(artifacts, o, i);
  }

  /** The first `k` effects of one group, after all effects of the groups before it, are a prefix of the whole plan. */
  lemma RunStep(w: World, p: seq<Action>, g: seq<Action>, all: seq<Action>, k: nat)
    requires p + g <= all && k <= |g|
    ensures |p| + k <= |all| && ApplyAll(ApplyAll(w, p), g[..k]) == ApplyAll(w, all[..|p| + k])
    ensures k == |g| ==> ApplyAll(ApplyAll(w, p), g[..k]) == ApplyAll(w, p + g)
  {
    ApplyAppend(w, p, g[..k]);
    PrefixOf(p, g, all, k);
  }

  lemma {:induction false} ApplyAppend(w: World, a: seq<Action>, b: seq<Action>)
    ensures ApplyAll(w, a + b) == ApplyAll(ApplyAll(w, a), b)
  {
    if b == [] {
      assert a + b == a;
    } else {
      ApplyAppend(w, a, b[..|b| - 1]);
      assert (a + b)[..|a + b| - 1] == a + b[..|b| - 1];
    }
  }

  lemma {:induction false} ApplyKeepsKeys(w: World, actions: seq<Action>)
    ensures ApplyAll(w, actions).artifacts.Keys == w.artifacts.Keys
  {
    if actions != [] { ApplyKeepsKeys(w, actions[..|actions| - 1]); }
  }

  lemma {:induction false} PlanGrows(artifacts: map<Name, Rebuilt>, o: Options, i: nat, n: nat)
    requires i <= n <= |o.order|
    ensures PlanFirst(artifacts, o, i).actions <= PlanFirst(artifacts, o, n).actions
  {
    if i < n { PlanGrows(artifacts, o, i, n - 1); }
  }

  lemma {:induction false} PlanEnds(artifacts: map<Name, Rebuilt>, o: Options, i: nat, n: nat)
    requires i <= n <= |o.order| && PlanFirst(artifacts, o, i).threw
    ensures PlanFirst(artifacts, o, n) == PlanFirst(artifacts, o, i)
  {
    if i < n { PlanEnds(artifacts, o, i, n - 1); }
  }
}
