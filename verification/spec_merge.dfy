/** Turning the findings of an analysis into the artifact list of a ComponentBuild. */
module SpecMerge {
  import opened Wrappers
  import opened MavenPaths
  import opened Ordered
  import opened Analyser
  import opened Matching
  import opened Analysis

  // ---- Editing an existing ComponentBuild ----

  /** LinkedHashSet.add */
  function AddNew(s: seq<string>, x: string): seq<string> {
    if x in s then s else s + [x]
  }

  /** A LinkedHashSet filled from a list. */
  function Distinct(s: seq<string>): seq<string> {
    if s == [] then [] else AddNew(Distinct(s[..|s| - 1]), s[|s| - 1])
  }

  function FirstIndex(s: seq<string>, x: string): nat
    requires x in s
  {
    if s[0] == x then 0 else 1 + FirstIndex(s[1..], x)
  }

  ghost predicate NoRepeats(s: seq<string>) {
    forall i, j | 0 <= i < j < |s| :: s[i] != s[j]
  }

  method EditArtifacts(existing: seq<string>, community: seq<string>) returns (r: seq<string>)
    ensures r == Distinct(existing + community)
  {
    r := [];
    var all := existing + community;
    for i := 0 to |all|
      invariant r == Distinct(all[..i])
    {
      assert all[..i + 1][..i] == all[..i];
      r := AddNew(r, all[i]);
    }
    assert all[..|all|] == all;
  }

  lemma {:induction false} DistinctElements(s: seq<string>)
    ensures NoRepeats(Distinct(s)) && forall x :: x in Distinct(s) <==> x in s
  {
    if s != [] {
      DistinctElements(s[..|s| - 1]);
      assert s == s[..|s| - 1] + [s[|s| - 1]];
    }
  }

  lemma {:induction false} FirstIndexBounds(s: seq<string>, x: string)
    requires x in s
    ensures FirstIndex(s, x) < |s| && s[FirstIndex(s, x)] == x
    ensures forall i | 0 <= i < FirstIndex(s, x) :: s[i] != x
  {
    if s[0] != x {
      assert s == [s[0]] + s[1..];
      FirstIndexBounds(s[1..], x);
    }
  }

  lemma FirstIndexUnique(s: seq<string>, x: string, k: nat)
    requires k < |s| && s[k] == x && forall i | 0 <= i < k :: s[i] != x
    ensures FirstIndex(s, x) == k
  {
    FirstIndexBounds(s, x);
  }

  /** The kept elements stand in the order of their first occurrences. */
  lemma {:induction false} DistinctOrder(s: seq<string>, i: nat, j: nat)
    requires i < j < |Distinct(s)|
    ensures Distinct(s)[i] in s && Distinct(s)[j] in s
    ensures FirstIndex(s, Distinct(s)[i]) < FirstIndex(s, Distinct(s)[j])
  {
    var init, last := s[..|s| - 1], s[|s| - 1];
    assert s == init + [last];
    DistinctElements(init);
    var a, b := Distinct(s)[i], Distinct(s)[j];
    assert a in Distinct(init);
    FirstIndexBounds(init, a);
    FirstIndexUnique(s, a, FirstIndex(init, a));
    if j < |Distinct(init)| {
      DistinctOrder(init, i, j);
      FirstIndexBounds(init, b);
      FirstIndexUnique(s, b, FirstIndex(init, b));
    } else {
      FirstIndexUnique(s, b, |init|);
    }
  }

  /** Editing keeps what was there, in order, and appends exactly the new GAVs. */
  lemma {:induction false} EditKeeps(existing: seq<string>, community: seq<string>)
    ensures Distinct(existing) <= Distinct(existing + community)
    ensures forall x | x in Distinct(existing + community)[|Distinct(existing)|..] :: x in community && x !in existing
  {
    if community == [] {
      assert existing + community == existing;
    } else {
      var init := community[..|community| - 1];
      EditKeeps(existing, init);
      DistinctElements(existing + init);
      assert (existing + community)[..|existing + community| - 1] == existing + init;
      var d, d', n := Distinct(existing + init), Distinct(existing + community), |Distinct(existing)|;
      assert d' == d || d' == d + [community[|community| - 1]];
      assert d' == d || d'[n..] == d[n..] + [community[|community| - 1]];
    }
  }

  lemma {:induction false} DistinctOfDistinct(s: seq<string>)
    requires NoRepeats(s)
    ensures Distinct(s) == s
  {
    if s != [] {
      var init := s[..|s| - 1];
      DistinctOfDistinct(init);
      assert s == init + [s[|s| - 1]];
    }
  }

  lemma {:induction false} NothingNew(s: seq<string>, more: seq<string>)
    requires NoRepeats(s) && forall x | x in more :: x in s
    ensures Distinct(s + more) == s
  {
    if more == [] {
      assert s + more == s;
      DistinctOfDistinct(s);
    } else {
      var init := more[..|more| - 1];
      NothingNew(s, init);
      assert (s + more)[..|s + more| - 1] == s + init;
      assert more[|more| - 1] in more;
    }
  }

  /** Repeating an edit, in whatever order the GAVs come, changes nothing. */
  lemma EditAgain(existing: seq<string>, community: seq<string>, again: seq<string>)
    requires Elements(again) <= Elements(community)
    ensures Distinct(Distinct(existing + community) + again) == Distinct(existing + community)
  {
    DistinctElements(existing + community);
    forall x | x in again ensures x in Distinct(existing + community) {
      assert x in Elements(again);
    }
    NothingNew(Distinct(existing + community), again);
  }

  // ---- Creating a new ComponentBuild ----

  ghost function Unallowed(tracking: set<Option<Tracking>>, allowed: seq<string -> bool>): set<string> {
    set r | r in tracking && r.Some? && !Allows(allowed, r.value.gav) :: r.value.gav
  }

  method IsAllowed(gav: string, allowed: seq<string -> bool>) returns (r: bool)
    ensures r == Allows(allowed, gav)
  {
    for i := 0 to |allowed|
      invariant forall j | 0 <= j < i :: !allowed[j](gav)
    {
      if allowed[i](gav) {
        return true;
      }
    }
    return false;
  }

  lemma StringsAdd(s: seq<string>, x: string)
    requires Ascending(Compare, s)
    ensures Ascending(Compare, Add(Compare, s, x))
    ensures forall y :: y in Add(Compare, s, x) <==> y in s || (y == x && !Present(Compare, s, x))
  {
    StringsCompare();
    AddElements(Compare, s, x);
  }

  lemma PresentString(s: seq<string>, x: string)
    ensures Present(Compare, s, x) <==> x in s
  {
    CompareSigns(x, x);
    if Present(Compare, s, x) {
      var y :| y in s && Compare(x, y) == 0;
      CompareSigns(x, y);
    }
  }

  lemma SortedInsert(s: seq<string>, x: string)
    requires Ascending(Compare, s)
    ensures Ascending(Compare, Add(Compare, s, x)) && Elements(Add(Compare, s, x)) == Elements(s) + {x}
  {
    StringsAdd(s, x);
    PresentString(s, x);
  }

  method Sorted(gavs: set<string>) returns (s: seq<string>)
    ensures Ascending(Compare, s) && Elements(s) == gavs
  {
    s := [];
    var rest := gavs;
    while rest != {}
      invariant rest <= gavs && Ascending(Compare, s) && Elements(s) == gavs - rest
      decreases |rest|
    {
      var g :| g in rest;
      SortedInsert(s, g);
      s := Add(Compare, s, g);
      rest := rest - {g};
    }
  }

  lemma UnallowedStep(records: set<Option<Tracking>>, r: Option<Tracking>, allowed: seq<string -> bool>)
    ensures Unallowed(records + {r}, allowed)
         == Unallowed(records, allowed) + if r.Some? && !Allows(allowed, r.value.gav) then {r.value.gav} else {}
  {
  }

  /** The artifacts of a new ComponentBuild; a null record among the tracking data ends in an exception. */
  method CreateArtifacts(gavs: set<string>, tracking: set<Option<Tracking>>, allowed: seq<string -> bool>)
    returns (r: Option<seq<string>>)
    ensures r.None? <==> None in tracking
    ensures r.Some? ==> Ascending(Compare, r.value) && Elements(r.value) == gavs + Unallowed(tracking, allowed)
  {
    var all := Sorted(gavs);
    var rest := tracking;
    ghost var done := {};
    while rest != {}
      invariant done + rest == tracking && None !in done
      invariant Ascending(Compare, all) && Elements(all) == gavs + Unallowed(done, allowed)
      decreases |rest|
    {
      var d :| d in rest;
      if d.None? {
        return None;
      }
      var exclude := IsAllowed(d.value.gav, allowed);
      UnallowedStep(done, d, allowed);
      if !exclude {
        SortedInsert(all, d.value.gav);
        all := Add(Compare, all, d.value.gav);
      }
      done := done + {d};
      rest := rest - {d};
    }
    assert done == tracking;
    r := Some(all);
  }

  lemma AscendingHasNoRepeats(s: seq<string>)
    requires Ascending(Compare, s)
    ensures NoRepeats(s)
  {
    forall i, j | 0 <= i < j < |s| ensures s[i] != s[j] {
      CompareSigns(s[i], s[i]);
      assert Compare(s[i], s[j]) < 0;
    }
  }

  /** A new spec is exactly the tracked GAVs that no pattern allows, each once; editing it with the same findings is a no-op. */
  lemma CreatedSpec(input: Input, f: Findings, index: Index, sets: seq<Ambiguity>, spec: seq<string>, again: seq<string>)
    requires AnalysedVia(input, f, index, sets)
    requires Ascending(Compare, spec) && Elements(spec) == f.gavs + Unallowed(f.tracking, input.allowed)
    requires Elements(again) == f.gavs
    ensures Elements(spec) == Unallowed(f.tracking, input.allowed) && NoRepeats(spec)
    ensures Distinct(spec + again) == spec
  {
    forall g | g in f.gavs ensures g in Unallowed(f.tracking, input.allowed) {
      Backed(input, f, index, sets, g);
      var t :| Some(t) in f.tracking && t.gav == g;
    }
    AscendingHasNoRepeats(spec);
    forall x | x in again ensures x in spec {
      assert x in Elements(again);
      assert x in Elements(spec);
    }
    NothingNew(spec, again);
  }

  /** Which GAVs a new spec names, read off the records of the findings and the patterns. */
  lemma CreatedIff(input: Input, f: Findings, index: Index, sets: seq<Ambiguity>, spec: seq<string>, g: string)
    requires AnalysedVia(input, f, index, sets)
    requires Ascending(Compare, spec) && Elements(spec) == f.gavs + Unallowed(f.tracking, input.allowed)
    ensures g in spec <==>
              && (exists t :: Some(t) in f.tracking && t.gav == g)
              && forall i | 0 <= i < |input.allowed| :: !input.allowed[i](g)
  {
    assert g in spec <==> g in Elements(spec);
    if g in f.gavs { Backed(input, f, index, sets, g); }
    if r :| r in f.tracking && r.Some? && r.value.gav == g { assert Some(r.value) in f.tracking; }
    if t :| Some(t) in f.tracking && t.gav == g { assert Allows(input.allowed, t.gav) || g in Unallowed(f.tracking, input.allowed); }
  }
}
