/** Choosing jars so that every ambiguous set is met: smallest sets first, a set nobody meets is taken whole. */
module Greedy {

  /** One pass over the ambiguous sets, in order. */
  function Resolve<T>(sets: seq<set<T>>, chosen: set<T>): set<T> {
    if sets == [] then chosen
    else Resolve(sets[1..], if sets[0] !! chosen then chosen + sets[0] else chosen)
  }

  /** The sets that the pass takes whole, in order. */
  function Wholesale<T>(sets: seq<set<T>>, chosen: set<T>): seq<set<T>> {
    if sets == [] then []
    else if sets[0] !! chosen then [sets[0]] + Wholesale(sets[1..], chosen + sets[0])
    else Wholesale(sets[1..], chosen)
  }

  function Union<T>(sets: seq<set<T>>): set<T> {
    if sets == [] then {} else sets[0] + Union(sets[1..])
  }

  ghost predicate NoneEmpty<T>(sets: seq<set<T>>) {
    forall m | m in sets :: m != {}
  }

  ghost predicate Hits<T>(jars: set<T>, sets: seq<set<T>>) {
    forall m | m in sets :: m * jars != {}
  }

  /** The sets that the jars chosen so far leave unmet. */
  ghost predicate HitsUnmet<T>(jars: set<T>, sets: seq<set<T>>, chosen: set<T>) {
    forall m | m in sets && m !! chosen :: m * jars != {}
  }

  ghost predicate SmallestFirst<T>(sets: seq<set<T>>) {
    forall i, j | 0 <= i < j < |sets| :: |sets[i]| <= |sets[j]|
  }

  lemma {:induction false} ResolveAddsWholesale<T>(sets: seq<set<T>>, chosen: set<T>)
    ensures Resolve(sets, chosen) == chosen + Union(Wholesale(sets, chosen))
  {
    if sets != [] {
      var taken := sets[0] !! chosen;
      ResolveAddsWholesale(sets[1..], if taken then chosen + sets[0] else chosen);
      if taken {
        assert Wholesale(sets, chosen)[1..] == Wholesale(sets[1..], chosen + sets[0]);
      }
    }
  }

  lemma Meet<T>(a: set<T>, b: set<T>)
    requires !(a !! b)
    ensures a * b != {}
  {
    var x :| x in a && x in b;
    assert x in a * b;
  }

  /** After the pass every ambiguous set is met. */
  lemma {:induction false} EverySetMet<T>(sets: seq<set<T>>, chosen: set<T>)
    requires NoneEmpty(sets)
    ensures Hits(Resolve(sets, chosen), sets)
  {
    if sets != [] {
      var chosen' := if sets[0] !! chosen then chosen + sets[0] else chosen;
      assert sets[0] in sets && forall m | m in sets[1..] :: m in sets;
      EverySetMet(sets[1..], chosen');
      ResolveAddsWholesale(sets[1..], chosen');
      assert sets[0] * chosen' != {} by {
        if sets[0] !! chosen { assert sets[0] * chosen' == sets[0]; } else { Meet(sets[0], chosen); }
      }
      forall m | m in sets ensures m * Resolve(sets, chosen) != {} {
        if m == sets[0] {
          var x :| x in m * chosen';
          assert x in m * Resolve(sets, chosen);
        } else {
          assert m in sets[1..];
        }
      }
    }
  }

  /** These are the positions that the pass takes whole: nothing chosen before meets the set there. */
  ghost predicate TakesAt<T>(sets: seq<set<T>>, chosen: set<T>, taken: set<int>) {
    forall i | 0 <= i < |sets| ::
      i in taken <==> sets[i] !! chosen && forall j | 0 <= j < i && j in taken :: sets[i] !! sets[j]
  }

  lemma {:induction false} ResolveLast<T>(sets: seq<set<T>>, m: set<T>, chosen: set<T>)
    ensures var r := Resolve(sets, chosen); Resolve(sets + [m], chosen) == if m !! r then r + m else r
  {
    if sets != [] {
      ResolveLast(sets[1..], m, if sets[0] !! chosen then chosen + sets[0] else chosen);
      assert (sets + [m])[1..] == sets[1..] + [m];
    }
  }

  /** What is chosen after some positions: what was chosen before, and the sets taken whole so far. */
  ghost predicate ChosenAt<T(!new)>(sets: seq<set<T>>, chosen: set<T>, taken: set<int>, n: nat)
    requires n <= |sets|
  {
    forall x :: x in Resolve(sets[..n], chosen) <==> x in chosen || exists i :: 0 <= i < n && i in taken && x in sets[i]
  }

  lemma ChosenNext<T(!new)>(sets: seq<set<T>>, chosen: set<T>, taken: set<int>, n: nat)
    requires n < |sets| && TakesAt(sets, chosen, taken) && ChosenAt(sets, chosen, taken, n)
    ensures ChosenAt(sets, chosen, taken, n + 1)
  {
    var r := Resolve(sets[..n], chosen);
    ResolveLast(sets[..n], sets[n], chosen);
    assert sets[..n + 1] == sets[..n] + [sets[n]];
    assert sets[n] !! r <==> n in taken by {
      if x :| x in sets[n] && x in r { assert x in chosen || exists i :: 0 <= i < n && i in taken && x in sets[i]; }
    }
  }

  /** What is chosen in the end: what was chosen at the start, and the sets at the positions that are taken whole. */
  lemma TakenDecides<T(!new)>(sets: seq<set<T>>, chosen: set<T>, taken: set<int>)
    requires TakesAt(sets, chosen, taken)
    ensures forall x :: x in Resolve(sets, chosen) <==> x in chosen || exists i :: 0 <= i < |sets| && i in taken && x in sets[i]
  {
    assert ChosenAt(sets, chosen, taken, 0);
    for n := 0 to |sets|
      invariant ChosenAt(sets, chosen, taken, n)
    {
      ChosenNext(sets, chosen, taken, n);
    }
    assert sets[..|sets|] == sets;
  }

  /** There are such positions. */
  lemma SomeTaken<T(!new)>(sets: seq<set<T>>, chosen: set<T>) returns (taken: set<int>)
    ensures TakesAt(sets, chosen, taken)
  {
    taken := set i | 0 <= i < |sets| && sets[i] !! Resolve(sets[..i], chosen);
    for n := 0 to |sets|
      invariant TakesAt(sets[..n], chosen, taken)
    {
      TakenDecides(sets[..n], chosen, taken);
      TakesNext(sets, chosen, taken, n);
    }
    assert sets[..|sets|] == sets;
  }

  lemma UnmetIff<T(!new)>(sets: seq<set<T>>, chosen: set<T>, taken: set<int>, n: nat)
    requires n < |sets| && TakesAt(sets[..n], chosen, taken)
    ensures sets[n] !! Resolve(sets[..n], chosen) <==> sets[n] !! chosen && forall j | 0 <= j < n && j in taken :: sets[n] !! sets[j]
  {
    TakenDecides(sets[..n], chosen, taken);
    var r := Resolve(sets[..n], chosen);
    if sets[n] !! r {
      forall j | 0 <= j < n && j in taken ensures sets[n] !! sets[j] {
        forall x | x in sets[j] ensures x in r { assert sets[..n][j] == sets[j]; }
      }
    } else {
      var x :| x in sets[n] && x in r;
      if x !in chosen {
        var j :| 0 <= j < |sets[..n]| && j in taken && x in sets[..n][j];
        assert sets[..n][j] == sets[j] && !(sets[n] !! sets[j]);
      }
    }
  }

  lemma TakesNext<T(!new)>(sets: seq<set<T>>, chosen: set<T>, taken: set<int>, n: nat)
    requires n < |sets| && TakesAt(sets[..n], chosen, taken)
    requires n in taken <==> sets[n] !! Resolve(sets[..n], chosen)
    ensures TakesAt(sets[..n + 1], chosen, taken)
  {
    UnmetIff(sets, chosen, taken, n);
    assert forall i | 0 <= i < n :: sets[..n][i] == sets[..n + 1][i];
  }

  /** A set taken whole was disjoint from everything chosen before it. */
  lemma {:induction false} WholesaleDisjoint<T>(sets: seq<set<T>>, chosen: set<T>, k: nat)
    requires k < |Wholesale(sets, chosen)|
    ensures Wholesale(sets, chosen)[k] in sets
    ensures Wholesale(sets, chosen)[k] !! chosen + Union(Wholesale(sets, chosen)[..k])
  {
    var w := Wholesale(sets, chosen);
    if sets[0] !! chosen {
      var rest := Wholesale(sets[1..], chosen + sets[0]);
      assert w == [sets[0]] + rest;
      if k > 0 {
        WholesaleDisjoint(sets[1..], chosen + sets[0], k - 1);
        assert w[..k][1..] == rest[..k - 1];
      }
    } else {
      WholesaleDisjoint(sets[1..], chosen, k);
    }
  }

  /** A set taken whole has no proper subset among the ambiguous sets. */
  lemma {:induction false} WholesaleMinimal<T>(sets: seq<set<T>>, chosen: set<T>, w: set<T>, a: set<T>)
    requires SmallestFirst(sets) && NoneEmpty(sets)
    requires w in Wholesale(sets, chosen) && a in sets && a <= w
    ensures a == w
  {
    if sets[0] !! chosen && w == sets[0] {
      SubsetOfSmallest(sets, a);
    } else {
      var chosen' := if sets[0] !! chosen then chosen + sets[0] else chosen;
      assert sets[0] in sets && forall m | m in sets[1..] :: m in sets;
      assert w in Wholesale(sets[1..], chosen');
      var k :| 0 <= k < |Wholesale(sets[1..], chosen')| && Wholesale(sets[1..], chosen')[k] == w;
      WholesaleDisjoint(sets[1..], chosen', k);
      assert sets[0] * chosen' != {} by {
        if sets[0] !! chosen { assert sets[0] * chosen' == sets[0]; } else { Meet(sets[0], chosen); }
      }
      var x :| x in sets[0] * chosen';
      assert x !in w;
      WholesaleMinimal(sets[1..], chosen', w, a);
    }
  }

  lemma SubsetOfSmallest<T>(sets: seq<set<T>>, a: set<T>)
    requires SmallestFirst(sets) && a in sets && a <= sets[0]
    ensures a == sets[0]
  {
    var i :| 0 <= i < |sets| && sets[i] == a;
    assert |sets[0]| <= |a| by { if i > 0 { assert |sets[0]| <= |sets[i]|; } }
    assert |sets[0] - a| == |sets[0]| - |a|;
    assert sets[0] - a == {};
  }

  lemma {:induction false} UnionSize<T>(sets: seq<set<T>>, k: nat)
    requires forall m | m in sets :: |m| <= k
    ensures |Union(sets)| <= k * |sets|
  {
    if sets != [] {
      UnionSize(sets[1..], k);
      UnionAtMost(sets[0], Union(sets[1..]));
      assert k * |sets| == k + k * |sets[1..]|;
    }
  }

  lemma UnionAtMost<T>(a: set<T>, b: set<T>)
    ensures |a + b| <= |a| + |b|
  {
    assert a + b == a + (b - a);
    assert b == (b - a) + (b * a);
  }

  /** Meeting sets taken whole costs at least one jar each: they share none. */
  lemma {:induction false} WholesaleCost<T>(sets: seq<set<T>>, chosen: set<T>, jars: set<T>)
    requires HitsUnmet(jars, sets, chosen)
    ensures |Wholesale(sets, chosen)| <= |jars|
  {
    if sets != [] {
      if sets[0] !! chosen {
        assert sets[0] in sets && sets[0] * jars != {};
        var x :| x in sets[0] * jars;
        forall m | m in sets[1..] && m !! chosen + sets[0] ensures m * (jars - {x}) != {} {
          assert m in sets && m !! chosen;
          var y :| y in m * jars;
          assert y in m * (jars - {x});
        }
        WholesaleCost(sets[1..], chosen + sets[0], jars - {x});
        assert |jars - {x}| == |jars| - 1;
      } else {
        WholesaleCost(sets[1..], chosen, jars);
      }
    }
  }

  /**
   * The pass adds at most k times as many jars as any set of jars that meets what the definite jars leave unmet,
   * where k bounds the size of the sets taken whole.
   */
  lemma ApproximationBound<T>(sets: seq<set<T>>, definite: set<T>, jars: set<T>, k: nat)
    requires HitsUnmet(jars, sets, definite)
    requires forall w | w in Wholesale(sets, definite) :: |w| <= k
    ensures |Resolve(sets, definite) - definite| <= k * |jars|
  {
    var w := Wholesale(sets, definite);
    ResolveAddsWholesale(sets, definite);
    UnionSize(w, k);
    WholesaleCost(sets, definite, jars);
    var added := Resolve(sets, definite) - definite;
    assert Union(w) == added + (Union(w) - added);
    assert |added| <= |Union(w)|;
    Scale(k, |w|, |jars|);
  }

  lemma Scale(k: nat, a: nat, b: nat)
    requires a <= b
    ensures k * a <= k * b
  {
    assert k * b == k * a + k * (b - a);
  }

  ghost predicate Disjoint<T>(sets: seq<set<T>>) {
    forall i, j | 0 <= i < j < |sets| :: sets[i] !! sets[j]
  }

  /** `ones` picks one jar from each set. */
  ghost predicate Picks<T>(ones: seq<T>, sets: seq<set<T>>) {
    |ones| == |sets| && forall i | 0 <= i < |sets| :: ones[i] in sets[i]
  }

  /** Sets that share no jar, with the chosen jars or each other, are all taken whole. */
  lemma {:induction false} ApartTakenWhole<T>(sets: seq<set<T>>, chosen: set<T>)
    requires Disjoint(sets) && forall i | 0 <= i < |sets| :: sets[i] !! chosen
    ensures Wholesale(sets, chosen) == sets
  {
    if sets != [] {
      forall i | 0 <= i < |sets[1..]| ensures sets[1..][i] !! chosen + sets[0] {
        assert sets[0] !! sets[i + 1] && sets[i + 1] !! chosen;
      }
      assert sets[0] !! chosen;
      ApartTakenWhole(sets[1..], chosen + sets[0]);
    }
  }

  lemma HeadApart<T>(sets: seq<set<T>>)
    requires Disjoint(sets) && sets != []
    ensures sets[0] !! Union(sets[1..])
  {
    forall x | x in Union(sets[1..]) ensures x !in sets[0] {
      var i := UnionMember(sets[1..], x);
      assert sets[0] !! sets[i + 1];
    }
  }

  lemma ApartSize<T>(a: set<T>, b: set<T>)
    requires a !! b
    ensures |a + b| == |a| + |b|
  {
  }

  lemma {:induction false} ApartUnionSize<T>(sets: seq<set<T>>, k: nat)
    requires Disjoint(sets) && forall m | m in sets :: |m| == k
    ensures |Union(sets)| == k * |sets|
  {
    if sets != [] {
      assert sets[0] in sets && forall m | m in sets[1..] :: m in sets;
      ApartUnionSize(sets[1..], k);
      HeadApart(sets);
      ApartSize(sets[0], Union(sets[1..]));
      assert |sets| == |sets[1..]| + 1;
      assert k * (|sets[1..]| + 1) == k * |sets[1..]| + k;
    }
  }

  lemma {:induction false} UnionMember<T>(sets: seq<set<T>>, x: T) returns (i: nat)
    requires x in Union(sets)
    ensures i < |sets| && x in sets[i]
  {
    if x in sets[0] {
      i := 0;
    } else {
      var j := UnionMember(sets[1..], x);
      i := j + 1;
    }
  }

  lemma {:induction false} InUnion<T>(sets: seq<set<T>>, i: nat, x: T)
    requires i < |sets| && x in sets[i]
    ensures x in Union(sets)
  {
    if i > 0 { InUnion(sets[1..], i - 1, x); }
  }

  lemma PickedOnce<T>(ones: seq<T>, sets: seq<set<T>>)
    requires Picks(ones, sets) && Disjoint(sets) && sets != []
    ensures ones[0] !in ones[1..]
  {
    forall i | 0 <= i < |ones[1..]| ensures ones[1..][i] != ones[0] { assert sets[0] !! sets[i + 1]; }
  }

  lemma {:induction false} PicksDiffer<T>(ones: seq<T>, sets: seq<set<T>>)
    requires Picks(ones, sets) && Disjoint(sets)
    ensures |set x | x in ones| == |sets|
  {
    if sets != [] {
      var rest := set x | x in ones[1..];
      assert forall i | 0 <= i < |ones[1..]| :: ones[1..][i] == ones[i + 1] && sets[1..][i] == sets[i + 1];
      PicksDiffer(ones[1..], sets[1..]);
      assert ones == [ones[0]] + ones[1..];
      assert (set x | x in ones) == {ones[0]} + rest;
      PickedOnce(ones, sets);
    }
  }

  /**
   * The factor k cannot be improved, for any number n of sets: n sets of k jars that share none are all taken whole,
   * k * n jars, where one jar of each would do.
   */
  lemma BoundIsTight<T>(sets: seq<set<T>>, ones: seq<T>, k: nat)
    requires Disjoint(sets) && Picks(ones, sets) && forall m | m in sets :: |m| == k
    ensures var jars := set x | x in ones;
            && HitsUnmet(jars, sets, {}) && |jars| == |sets|
            && |Resolve(sets, {}) - {}| == k * |jars|
  {
    var jars := set x | x in ones;
    PicksDiffer(ones, sets);
    ResolveAddsWholesale(sets, {});
    assert forall i | 0 <= i < |sets| :: sets[i] !! {};
    ApartTakenWhole(sets, {});
    ApartUnionSize(sets, k);
    assert Resolve(sets, {}) - {} == Union(sets);
    forall m | m in sets ensures m * jars != {} {
      var i :| 0 <= i < |sets| && sets[i] == m;
      assert ones[i] in m * jars;
    }
  }
}
