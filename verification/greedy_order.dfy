/** When the order of equally large ambiguous sets does not matter to the greedy pass. */
module GreedyOrder {
  import opened Ordered
  import opened Greedy

  /** An order in which the pass may see these sets; a set may come up more than once. */
  ghost predicate Orders<T(!new)>(sets: seq<set<T>>, ambiguous: set<set<T>>) {
    SmallestFirst(sets) && Elements(sets) == ambiguous
  }

  /** The sets of one size that are unmet when their turn comes. */
  ghost function Unmet<T(!new)>(ambiguous: set<set<T>>, n: nat, chosen: set<T>): set<set<T>> {
    set a | a in ambiguous && |a| == n && a !! chosen
  }

  ghost function Flatten<T(!new)>(sets: set<set<T>>): set<T> {
    set a, x | a in sets && x in a :: x
  }

  /** The jars chosen once all sets smaller than n are dealt with, if equally large sets do not clash. */
  ghost function Level<T(!new)>(ambiguous: set<set<T>>, definite: set<T>, n: nat): set<T> {
    if n == 0 then definite
    else
      var chosen := Level(ambiguous, definite, n - 1);
      chosen + Flatten(Unmet(ambiguous, n - 1, chosen))
  }

  ghost predicate Clash<T(!new)>(sets: set<set<T>>) {
    exists a, b :: a in sets && b in sets && a != b && !(a !! b)
  }

  ghost predicate ClashAt<T(!new)>(ambiguous: set<set<T>>, definite: set<T>, n: nat) {
    Clash(Unmet(ambiguous, n, Level(ambiguous, definite, n)))
  }

  /** No two different sets of one size that are both unmet when their turn comes share a jar. */
  ghost predicate Clashless<T(!new)>(ambiguous: set<set<T>>, definite: set<T>) {
    forall n: nat :: !ClashAt(ambiguous, definite, n)
  }

  // ---- The pass in two parts ----

  lemma {:induction false} ResolveAppend<T>(p: seq<set<T>>, q: seq<set<T>>, chosen: set<T>)
    ensures Resolve(p + q, chosen) == Resolve(q, Resolve(p, chosen))
    ensures Wholesale(p + q, chosen) == Wholesale(p, chosen) + Wholesale(q, Resolve(p, chosen))
  {
    if p == [] {
      assert p + q == q;
    } else {
      assert (p + q)[1..] == p[1..] + q;
      ResolveAppend(p[1..], q, if p[0] !! chosen then chosen + p[0] else chosen);
    }
  }

  lemma ResolveOne<T>(a: set<T>, chosen: set<T>)
    ensures Resolve([a], chosen) == if a !! chosen then chosen + a else chosen
    ensures Wholesale([a], chosen) == if a !! chosen then [a] else []
  {
    assert [a][1..] == [];
  }

  // ---- One size ----

  /** The sets that are unmet before a block of sets are taken whole, and no other. */
  ghost predicate TakesUnmet<T(!new)>(block: seq<set<T>>, chosen: set<T>, unmet: set<set<T>>) {
    Resolve(block, chosen) == chosen + Flatten(unmet) && Elements(Wholesale(block, chosen)) == unmet
  }

  /** A block of sets of one size: if they do not clash, exactly those that were unmet before are taken whole. */
  lemma {:induction false} BlockResolves<T(!new)>(block: seq<set<T>>, chosen: set<T>, unmet: set<set<T>>)
    requires NoneEmpty(block) && !Clash(unmet) && unmet == set a | a in block && a !! chosen
    ensures TakesUnmet(block, chosen, unmet)
    decreases |block|
  {
    if block != [] {
      var init, a := block[..|block| - 1], block[|block| - 1];
      assert block == init + [a];
      assert forall m :: m in block <==> m in init || m == a;
      var before := set m | m in init && m !! chosen;
      assert unmet == before + if a !! chosen then {a} else {};
      NoClashBelow(before, unmet);
      BlockResolves(init, chosen, before);
      BlockNext(init, a, chosen, before, unmet);
    }
  }

  lemma BlockNext<T(!new)>(init: seq<set<T>>, a: set<T>, chosen: set<T>, before: set<set<T>>, unmet: set<set<T>>)
    requires a != {} && !Clash(unmet) && unmet == before + (if a !! chosen then {a} else {})
    requires TakesUnmet(init, chosen, before)
    ensures TakesUnmet(init + [a], chosen, unmet)
  {
    ResolveAppend(init, [a], chosen);
    ResolveOne(a, chosen + Flatten(before));
    BlockStep(chosen, before, unmet, a);
    ElementsAppend(Wholesale(init, chosen), Wholesale([a], chosen + Flatten(before)));
  }

  lemma NoClashBelow<T(!new)>(few: set<set<T>>, many: set<set<T>>)
    requires few <= many && !Clash(many)
    ensures !Clash(few)
  {
  }

  lemma NoShare<T(!new)>(sets: set<set<T>>, a: set<T>, b: set<T>, x: T)
    requires !Clash(sets) && a in sets && b in sets && x in a && x in b
    ensures a == b
  {
    assert !(a !! b);
  }

  lemma BlockStep<T(!new)>(chosen: set<T>, before: set<set<T>>, unmet: set<set<T>>, a: set<T>)
    requires a != {} && !Clash(unmet) && unmet == before + (if a !! chosen then {a} else {})
    ensures a !! chosen + Flatten(before) <==> a !! chosen && a !in before
    ensures Flatten(unmet) == Flatten(before) + if a !! chosen then a else {}
  {
    var x :| x in a;
    if a in before {
      assert x in Flatten(before);
    } else if a !! chosen {
      forall y | y in Flatten(before) ensures y !in a {
        var b :| b in before && y in b;
        if y in a { NoShare(unmet, a, b, y); }
      }
    }
  }

  // ---- All sizes ----

  /** The number of leading sets smaller than n. */
  function Cut<T>(sets: seq<set<T>>, n: nat): (c: nat)
    ensures c <= |sets|
  {
    if sets == [] || |sets[0]| >= n then 0 else 1 + Cut(sets[1..], n)
  }

  lemma {:induction false} CutMeaning<T>(sets: seq<set<T>>, n: nat, i: nat)
    requires SmallestFirst(sets) && i < |sets|
    ensures i < Cut(sets, n) <==> |sets[i]| < n
  {
    if |sets[0]| >= n {
      assert i > 0 ==> |sets[0]| <= |sets[i]|;
    } else if i > 0 {
      TailSmallestFirst(sets);
      CutMeaning(sets[1..], n, i - 1);
    }
  }

  lemma TailSmallestFirst<T>(sets: seq<set<T>>)
    requires SmallestFirst(sets) && sets != []
    ensures SmallestFirst(sets[1..])
  {
  }

  lemma CutMonotone<T>(sets: seq<set<T>>, n: nat)
    requires SmallestFirst(sets)
    ensures Cut(sets, n) <= Cut(sets, n + 1)
  {
    if Cut(sets, n + 1) < Cut(sets, n) {
      CutMeaning(sets, n, Cut(sets, n + 1));
      CutMeaning(sets, n + 1, Cut(sets, n + 1));
    }
  }

  /** The sets of size n stand together. */
  lemma BlockMeaning<T(!new)>(sets: seq<set<T>>, ambiguous: set<set<T>>, n: nat)
    requires Orders(sets, ambiguous)
    ensures Cut(sets, n) <= Cut(sets, n + 1)
    ensures forall a :: a in sets[Cut(sets, n)..Cut(sets, n + 1)] <==> a in ambiguous && |a| == n
  {
    CutMonotone(sets, n);
    var lo, hi := Cut(sets, n), Cut(sets, n + 1);
    forall a ensures a in sets[lo..hi] <==> a in ambiguous && |a| == n {
      if a in sets[lo..hi] { BlockIsOfSize(sets, ambiguous, n, a); }
      if a in ambiguous && |a| == n { SizeIsInBlock(sets, ambiguous, n, a); }
    }
  }

  lemma BlockIsOfSize<T(!new)>(sets: seq<set<T>>, ambiguous: set<set<T>>, n: nat, a: set<T>)
    requires Orders(sets, ambiguous) && Cut(sets, n) <= Cut(sets, n + 1) && a in sets[Cut(sets, n)..Cut(sets, n + 1)]
    ensures a in ambiguous && |a| == n
  {
    var lo, hi := Cut(sets, n), Cut(sets, n + 1);
    var i :| 0 <= i < hi - lo && sets[lo..hi][i] == a;
    assert sets[lo + i] == a && a in Elements(sets);
    CutMeaning(sets, n, lo + i);
    CutMeaning(sets, n + 1, lo + i);
  }

  lemma SizeIsInBlock<T(!new)>(sets: seq<set<T>>, ambiguous: set<set<T>>, n: nat, a: set<T>)
    requires Orders(sets, ambiguous) && Cut(sets, n) <= Cut(sets, n + 1) && a in ambiguous && |a| == n
    ensures a in sets[Cut(sets, n)..Cut(sets, n + 1)]
  {
    var lo, hi := Cut(sets, n), Cut(sets, n + 1);
    assert a in Elements(sets);
    var i :| 0 <= i < |sets| && sets[i] == a;
    CutMeaning(sets, n, i);
    CutMeaning(sets, n + 1, i);
    assert sets[lo..hi][i - lo] == a;
  }

  ghost predicate ClashlessBelow<T(!new)>(ambiguous: set<set<T>>, definite: set<T>, n: nat) {
    forall m: nat | m < n :: !ClashAt(ambiguous, definite, m)
  }

  /** Which sets are taken whole, as long as none clash. */
  ghost predicate Taken<T(!new)>(ambiguous: set<set<T>>, definite: set<T>, a: set<T>) {
    a in ambiguous && a !! Level(ambiguous, definite, |a|)
  }

  ghost function TakenBelow<T(!new)>(ambiguous: set<set<T>>, definite: set<T>, n: nat): set<set<T>> {
    set a | a in ambiguous && |a| < n && Taken(ambiguous, definite, a)
  }

  lemma TakenStep<T(!new)>(ambiguous: set<set<T>>, definite: set<T>, n: nat)
    ensures TakenBelow(ambiguous, definite, n + 1)
         == TakenBelow(ambiguous, definite, n) + Unmet(ambiguous, n, Level(ambiguous, definite, n))
  {
  }

  lemma ElementsAppend<T>(p: seq<T>, q: seq<T>)
    ensures Elements(p + q) == Elements(p) + Elements(q)
  {
  }

  /** Dealing with the sets of size n. */
  lemma LevelStep<T(!new)>(sets: seq<set<T>>, ambiguous: set<set<T>>, definite: set<T>, n: nat)
    requires Orders(sets, ambiguous) && NoneEmpty(sets) && !ClashAt(ambiguous, definite, n)
    ensures Cut(sets, n) <= Cut(sets, n + 1)
    ensures var block, chosen := sets[Cut(sets, n)..Cut(sets, n + 1)], Level(ambiguous, definite, n);
            && Resolve(block, chosen) == Level(ambiguous, definite, n + 1)
            && Elements(Wholesale(block, chosen)) == Unmet(ambiguous, n, chosen)
  {
    BlockMeaning(sets, ambiguous, n);
    var block, chosen := sets[Cut(sets, n)..Cut(sets, n + 1)], Level(ambiguous, definite, n);
    BlockNoneEmpty(sets, Cut(sets, n), Cut(sets, n + 1));
    BlockUnmet(block, ambiguous, n, chosen);
    BlockResolves(block, chosen, Unmet(ambiguous, n, chosen));
  }

  lemma BlockNoneEmpty<T>(sets: seq<set<T>>, lo: nat, hi: nat)
    requires lo <= hi <= |sets| && NoneEmpty(sets)
    ensures NoneEmpty(sets[lo..hi])
  {
    forall m | m in sets[lo..hi] ensures m != {} { assert m in sets; }
  }

  lemma BlockUnmet<T(!new)>(block: seq<set<T>>, ambiguous: set<set<T>>, n: nat, chosen: set<T>)
    requires forall a :: a in block <==> a in ambiguous && |a| == n
    ensures Unmet(ambiguous, n, chosen) == set a | a in block && a !! chosen
  {
  }

  /** The part of the pass that deals with the sets smaller than n leads to the level's jars and takes its sets whole. */
  ghost predicate Reaches<T(!new)>(sets: seq<set<T>>, ambiguous: set<set<T>>, definite: set<T>, n: nat) {
    && Resolve(sets[..Cut(sets, n)], definite) == Level(ambiguous, definite, n)
    && Elements(Wholesale(sets[..Cut(sets, n)], definite)) == TakenBelow(ambiguous, definite, n)
  }

  lemma TwoParts<T(!new)>(sets: seq<set<T>>, lo: nat, hi: nat, definite: set<T>)
    requires lo <= hi <= |sets|
    ensures var chosen := Resolve(sets[..lo], definite);
            && Resolve(sets[..hi], definite) == Resolve(sets[lo..hi], chosen)
            && Elements(Wholesale(sets[..hi], definite))
               == Elements(Wholesale(sets[..lo], definite)) + Elements(Wholesale(sets[lo..hi], chosen))
  {
    assert sets[..hi] == sets[..lo] + sets[lo..hi];
    ResolveAppend(sets[..lo], sets[lo..hi], definite);
    ElementsAppend(Wholesale(sets[..lo], definite), Wholesale(sets[lo..hi], Resolve(sets[..lo], definite)));
  }

  lemma ReachesNone<T(!new)>(sets: seq<set<T>>, ambiguous: set<set<T>>, definite: set<T>)
    ensures Reaches(sets, ambiguous, definite, 0)
  {
    assert Cut(sets, 0) == 0 && sets[..0] == [];
  }

  lemma ReachesNext<T(!new)>(sets: seq<set<T>>, ambiguous: set<set<T>>, definite: set<T>, n: nat)
    requires Orders(sets, ambiguous) && NoneEmpty(sets) && !ClashAt(ambiguous, definite, n)
    requires Reaches(sets, ambiguous, definite, n)
    ensures Reaches(sets, ambiguous, definite, n + 1)
  {
    LevelStep(sets, ambiguous, definite, n);
    TakenStep(ambiguous, definite, n);
    TwoParts(sets, Cut(sets, n), Cut(sets, n + 1), definite);
  }

  /** Whatever the order, dealing with the sets smaller than n leads to the same jars and takes the same sets whole. */
  lemma LevelReached<T(!new)>(sets: seq<set<T>>, ambiguous: set<set<T>>, definite: set<T>, n: nat)
    requires Orders(sets, ambiguous) && NoneEmpty(sets) && ClashlessBelow(ambiguous, definite, n)
    ensures Reaches(sets, ambiguous, definite, n)
  {
    ReachesNone(sets, ambiguous, definite);
    for i := 0 to n
      invariant Reaches(sets, ambiguous, definite, i)
    {
      NoClashAt(ambiguous, definite, n, i);
      ReachesNext(sets, ambiguous, definite, i);
    }
  }

  lemma NoClashAt<T(!new)>(ambiguous: set<set<T>>, definite: set<T>, limit: nat, n: nat)
    requires n < limit && ClashlessBelow(ambiguous, definite, limit)
    ensures !ClashAt(ambiguous, definite, n)
  {
  }

  lemma {:induction false} BeyondAll<T>(sets: seq<set<T>>) returns (n: nat)
    ensures Cut(sets, n) == |sets|
  {
    if sets == [] {
      n := 0;
    } else {
      var m := BeyondAll(sets[1..]);
      n := if m > |sets[0]| then m else |sets[0]| + 1;
      CutGrows(sets[1..], m, n);
    }
  }

  lemma {:induction false} CutGrows<T>(sets: seq<set<T>>, m: nat, n: nat)
    requires m <= n && Cut(sets, m) == |sets|
    ensures Cut(sets, n) == |sets|
  {
    if sets != [] { CutGrows(sets[1..], m, n); }
  }

  /** Without clashes the sets taken whole, and so the chosen jars, do not depend on the order. */
  lemma ClashlessTakes<T(!new)>(sets: seq<set<T>>, ambiguous: set<set<T>>, definite: set<T>)
    requires Orders(sets, ambiguous) && NoneEmpty(sets) && Clashless(ambiguous, definite)
    ensures Elements(Wholesale(sets, definite)) == set a | a in ambiguous && Taken(ambiguous, definite, a)
  {
    var n := BeyondAll(sets);
    LevelReached(sets, ambiguous, definite, n);
    assert sets[..|sets|] == sets;
    forall a | a in ambiguous ensures |a| < n {
      assert a in sets;
      var i :| 0 <= i < |sets| && sets[i] == a;
      CutMeaning(sets, n, i);
    }
  }

  lemma UnionOfElements<T(!new)>(sets: seq<set<T>>)
    ensures Union(sets) == Flatten(Elements(sets))
  {
    forall x | x in Union(sets) ensures x in Flatten(Elements(sets)) {
      var i := UnionMember(sets, x);
      assert sets[i] in Elements(sets);
    }
    forall x | x in Flatten(Elements(sets)) ensures x in Union(sets) {
      var a :| a in Elements(sets) && x in a;
      var i :| 0 <= i < |sets| && sets[i] == a;
      InUnion(sets, i, x);
    }
  }

  lemma SameTakenSameJars<T(!new)>(sets: seq<set<T>>, sets': seq<set<T>>, definite: set<T>)
    requires Elements(Wholesale(sets, definite)) == Elements(Wholesale(sets', definite))
    ensures Resolve(sets, definite) == Resolve(sets', definite)
  {
    ResolveAddsWholesale(sets, definite);
    ResolveAddsWholesale(sets', definite);
    UnionOfElements(Wholesale(sets, definite));
    UnionOfElements(Wholesale(sets', definite));
  }

  // ---- A clash shows ----

  /** Inserts before the first set that is not smaller. */
  function InsertBySize<T>(sets: seq<set<T>>, a: set<T>): seq<set<T>> {
    if sets == [] || |a| <= |sets[0]| then [a] + sets else [sets[0]] + InsertBySize(sets[1..], a)
  }

  lemma {:induction false} InsertElements<T(!new)>(sets: seq<set<T>>, a: set<T>)
    ensures forall m :: m in InsertBySize(sets, a) <==> m in sets || m == a
  {
    if sets != [] && |a| > |sets[0]| {
      InsertElements(sets[1..], a);
      assert sets == [sets[0]] + sets[1..];
    }
  }

  lemma {:induction false} InsertSorted<T(!new)>(sets: seq<set<T>>, a: set<T>)
    requires SmallestFirst(sets)
    ensures SmallestFirst(InsertBySize(sets, a))
  {
    if sets == [] {
    } else if |a| <= |sets[0]| {
      forall i | 0 <= i < |sets| ensures |a| <= |sets[i]| {
        if i > 0 { assert |sets[0]| <= |sets[i]|; }
      }
    } else {
      TailSmallestFirst(sets);
      InsertSorted(sets[1..], a);
      InsertElements(sets[1..], a);
      var r := InsertBySize(sets[1..], a);
      forall i | 0 <= i < |r| ensures |sets[0]| <= |r[i]| {
        assert r[i] in r;
        if r[i] in sets[1..] {
          var j :| 0 <= j < |sets[1..]| && sets[1..][j] == r[i];
          assert |sets[0]| <= |sets[j + 1]|;
        }
      }
    }
  }

  ghost predicate Once<T>(s: seq<T>) {
    forall i, j | 0 <= i < j < |s| :: s[i] != s[j]
  }

  lemma {:induction false} InsertOnce<T(!new)>(sets: seq<set<T>>, a: set<T>)
    requires Once(sets) && a !in sets
    ensures Once(InsertBySize(sets, a))
  {
    if sets != [] && |a| > |sets[0]| {
      assert sets[0] !in sets[1..];
      InsertOnce(sets[1..], a);
      InsertElements(sets[1..], a);
      OnceCons(sets[0], InsertBySize(sets[1..], a));
    } else {
      OnceCons(a, sets);
    }
  }

  lemma OnceCons<T>(a: T, s: seq<T>)
    requires Once(s) && a !in s
    ensures Once([a] + s)
  {
  }

  lemma {:induction false} AnOrder<T(!new)>(ambiguous: set<set<T>>) returns (sets: seq<set<T>>)
    ensures Orders(sets, ambiguous) && Once(sets)
    decreases |ambiguous|
  {
    if ambiguous == {} {
      sets := [];
    } else {
      var a :| a in ambiguous;
      var rest := AnOrder(ambiguous - {a});
      InsertSorted(rest, a);
      InsertElements(rest, a);
      sets := InsertBySize(rest, a);
      assert forall m :: m in rest <==> m in Elements(rest);
      InsertOnce(rest, a);
    }
  }

  lemma {:induction false} LevelBelow<T(!new)>(low: set<set<T>>, ambiguous: set<set<T>>, definite: set<T>, n: nat, m: nat)
    requires m <= n && low == set a | a in ambiguous && |a| < n
    ensures Level(low, definite, m) == Level(ambiguous, definite, m)
    ensures m < n ==> Unmet(low, m, Level(low, definite, m)) == Unmet(ambiguous, m, Level(ambiguous, definite, m))
    decreases m
  {
    if m > 0 { LevelBelow(low, ambiguous, definite, n, m - 1); }
  }

  lemma OnceThree<T>(before: seq<set<T>>, a: set<T>, after: seq<set<T>>)
    requires Once(before) && Once(after)
    requires (forall i | 0 <= i < |before| :: |before[i]| < |a|) && forall i | 0 <= i < |after| :: |after[i]| >= |a| && after[i] != a
    ensures Once(before + [a] + after)
  {
  }

  /** An order in which `a` comes first among the sets of its size. */
  lemma FirstOfItsSize<T(!new)>(ambiguous: set<set<T>>, a: set<T>) returns (before: seq<set<T>>, after: seq<set<T>>)
    requires a in ambiguous
    ensures Orders(before + [a] + after, ambiguous) && Once(before + [a] + after)
    ensures Orders(before, set m | m in ambiguous && |m| < |a|)
  {
    var low, high := set m | m in ambiguous && |m| < |a|, set m | m in ambiguous && |m| >= |a| && m != a;
    before := AnOrder(low);
    after := AnOrder(high);
    var sets := before + [a] + after;
    forall i | 0 <= i < |before| ensures |before[i]| < |a| { assert before[i] in Elements(before); }
    forall i | 0 <= i < |after| ensures |after[i]| >= |a| && after[i] != a { assert after[i] in Elements(after); }
    assert Elements(sets) == Elements(before) + {a} + Elements(after);
    assert ambiguous == low + {a} + high;
    OnceThree(before, a, after);
  }

  lemma CutAll<T>(sets: seq<set<T>>, n: nat)
    requires forall m | m in sets :: |m| < n
    ensures Cut(sets, n) == |sets|
  {
    if sets != [] {
      assert sets[0] in sets && forall m | m in sets[1..] :: m in sets;
      CutAll(sets[1..], n);
    }
  }

  lemma NotTaken<T>(sets: seq<set<T>>, chosen: set<T>, b: set<T>)
    requires b !in sets || !(b !! chosen)
    ensures b !in Wholesale(sets, chosen)
  {
    forall k | 0 <= k < |Wholesale(sets, chosen)| ensures Wholesale(sets, chosen)[k] != b {
      WholesaleDisjoint(sets, chosen, k);
    }
  }

  lemma TakesFirst<T(!new)>(before: seq<set<T>>, a: set<T>, after: seq<set<T>>, definite: set<T>, chosen: set<T>)
    requires Resolve(before, definite) == chosen && a !! chosen
    ensures Wholesale(before + [a] + after, definite) == Wholesale(before, definite) + [a] + Wholesale(after, chosen + a)
  {
    assert before + [a] + after == before + ([a] + after);
    ResolveAppend(before, [a] + after, definite);
    ResolveAppend([a], after, chosen);
    ResolveOne(a, chosen);
  }

  lemma FirstTaken<T(!new)>(before: seq<set<T>>, a: set<T>, after: seq<set<T>>, definite: set<T>, chosen: set<T>, b: set<T>)
    requires Resolve(before, definite) == chosen && a !! chosen && b !in before && a != b && !(a !! b)
    ensures a in Wholesale(before + [a] + after, definite) && b !in Wholesale(before + [a] + after, definite)
  {
    TakesFirst(before, a, after, definite, chosen);
    NotTaken(before, definite, b);
    NotTaken(after, chosen + a, b);
  }

  /** Of two clashing sets, the one that comes first is taken whole and the other is not. */
  lemma FirstWins<T(!new)>(ambiguous: set<set<T>>, definite: set<T>, a: set<T>, b: set<T>) returns (sets: seq<set<T>>)
    requires (forall m | m in ambiguous :: m != {}) && a in ambiguous && b in ambiguous && a != b && |a| == |b| && !(a !! b)
    requires ClashlessBelow(ambiguous, definite, |a|) && a !! Level(ambiguous, definite, |a|)
    ensures Orders(sets, ambiguous) && Once(sets)
    ensures a in Wholesale(sets, definite) && b !in Wholesale(sets, definite)
  {
    var before, after := FirstOfItsSize(ambiguous, a);
    sets := before + [a] + after;
    var low := set m | m in ambiguous && |m| < |a|;
    LowReached(before, low, ambiguous, definite, |a|);
    assert b !in Elements(before);
    FirstTaken(before, a, after, definite, Level(ambiguous, definite, |a|), b);
  }

  lemma LowReached<T(!new)>(before: seq<set<T>>, low: set<set<T>>, ambiguous: set<set<T>>, definite: set<T>, n: nat)
    requires low == (set m | m in ambiguous && |m| < n) && Orders(before, low)
    requires (forall m | m in ambiguous :: m != {}) && ClashlessBelow(ambiguous, definite, n)
    ensures Resolve(before, definite) == Level(ambiguous, definite, n)
  {
    forall m | m in before ensures m in low { assert m in Elements(before); }
    CutAll(before, n);
    forall m: nat | m < n ensures !ClashAt(low, definite, m) {
      LevelBelow(low, ambiguous, definite, n, m);
      assert !ClashAt(ambiguous, definite, m);
    }
    LevelReached(before, low, definite, n);
    LevelBelow(low, ambiguous, definite, n, n);
    assert before[..|before|] == before;
  }

  lemma {:induction false} LeastClash<T(!new)>(ambiguous: set<set<T>>, definite: set<T>, n: nat) returns (m: nat)
    requires ClashAt(ambiguous, definite, n)
    ensures ClashAt(ambiguous, definite, m) && ClashlessBelow(ambiguous, definite, m)
    decreases n
  {
    if ClashlessBelow(ambiguous, definite, n) {
      m := n;
    } else {
      var l: nat :| l < n && ClashAt(ambiguous, definite, l);
      m := LeastClash(ambiguous, definite, l);
    }
  }

  /** Every order takes the same sets whole. */
  ghost predicate OrderFree<T(!new)>(ambiguous: set<set<T>>, definite: set<T>) {
    forall sets, sets' | Orders(sets, ambiguous) && Orders(sets', ambiguous) ::
      Elements(Wholesale(sets, definite)) == Elements(Wholesale(sets', definite))
  }

  /** Two orders that take different sets whole. */
  lemma ClashingOrders<T(!new)>(ambiguous: set<set<T>>, definite: set<T>) returns (one: seq<set<T>>, two: seq<set<T>>)
    requires (forall m | m in ambiguous :: m != {}) && !Clashless(ambiguous, definite)
    ensures Orders(one, ambiguous) && Once(one) && Orders(two, ambiguous) && Once(two)
    ensures Elements(Wholesale(one, definite)) != Elements(Wholesale(two, definite))
  {
    var n: nat :| ClashAt(ambiguous, definite, n);
    var m := LeastClash(ambiguous, definite, n);
    var unmet := Unmet(ambiguous, m, Level(ambiguous, definite, m));
    var a, b :| a in unmet && b in unmet && a != b && !(a !! b);
    one := FirstWins(ambiguous, definite, a, b);
    two := FirstWins(ambiguous, definite, b, a);
    assert a in Elements(Wholesale(one, definite)) && a !in Elements(Wholesale(two, definite));
  }

  /** Which sets are taken whole is independent of the order among equally large sets exactly if none clash. */
  lemma OrderFreeIff<T(!new)>(ambiguous: set<set<T>>, definite: set<T>)
    requires forall m | m in ambiguous :: m != {}
    ensures OrderFree(ambiguous, definite) <==> Clashless(ambiguous, definite)
  {
    if Clashless(ambiguous, definite) {
      forall sets, sets' | Orders(sets, ambiguous) && Orders(sets', ambiguous)
        ensures Elements(Wholesale(sets, definite)) == Elements(Wholesale(sets', definite))
      {
        OrdersNoneEmpty(sets, ambiguous);
        OrdersNoneEmpty(sets', ambiguous);
        ClashlessTakes(sets, ambiguous, definite);
        ClashlessTakes(sets', ambiguous, definite);
      }
    } else {
      var one, two := ClashingOrders(ambiguous, definite);
    }
  }

  lemma OrdersNoneEmpty<T(!new)>(sets: seq<set<T>>, ambiguous: set<set<T>>)
    requires Orders(sets, ambiguous) && forall m | m in ambiguous :: m != {}
    ensures NoneEmpty(sets)
  {
    forall m | m in sets ensures m != {} { assert m in Elements(sets); }
  }

  /** Without clashes the chosen jars are the same in every order. */
  lemma ClashlessChooses<T(!new)>(sets: seq<set<T>>, sets': seq<set<T>>, ambiguous: set<set<T>>, definite: set<T>)
    requires Orders(sets, ambiguous) && Orders(sets', ambiguous) && Clashless(ambiguous, definite)
    requires forall m | m in ambiguous :: m != {}
    ensures Resolve(sets, definite) == Resolve(sets', definite)
  {
    OrderFreeIff(ambiguous, definite);
    SameTakenSameJars(sets, sets', definite);
  }

  lemma ResolveStep<T>(a: set<T>, rest: seq<set<T>>, chosen: set<T>)
    ensures Resolve([a] + rest, chosen) == Resolve(rest, if a !! chosen then chosen + a else chosen)
    ensures Wholesale([a] + rest, chosen) ==
              if a !! chosen then [a] + Wholesale(rest, chosen + a) else Wholesale(rest, chosen)
  {
    assert ([a] + rest)[1..] == rest;
  }

  lemma ResolveFour<T>(a: set<T>, b: set<T>, c: set<T>, d: set<T>)
    requires !(a !! b) && c !! a && !(d !! a + c)
    ensures Resolve([a, b, c, d], {}) == a + c && Wholesale([a, b, c, d], {}) == [a, c]
  {
    assert [a, b, c, d] == [a] + ([b] + ([c] + ([d] + [])));
    ResolveStep(a, [b] + ([c] + ([d] + [])), {});
    assert {} + a == a;
    ResolveStep(b, [c] + ([d] + []), a);
    ResolveStep(c, [d] + [], a);
    ResolveStep(d, [], a + c);
  }

  /** Clashing sets need not show in the jars: both orders choose the same ones, though they take other sets whole. */
  lemma SameJarsDespiteClash()
    ensures var a, b, c, d := {1, 2}, {1, 3}, {3, 4, 5}, {2, 4, 5};
            && Resolve([a, b, c, d], {}) == Resolve([b, a, d, c], {}) == {1, 2, 3, 4, 5}
            && Wholesale([a, b, c, d], {}) == [a, c] && Wholesale([b, a, d, c], {}) == [b, d]
  {
    var a, b, c, d := {1, 2}, {1, 3}, {3, 4, 5}, {2, 4, 5};
    assert 1 in a && 1 in b && 2 in a && 2 in d && 3 in b && 3 in c;
    ResolveFour(a, b, c, d);
    ResolveFour(b, a, d, c);
    assert a + c == {1, 2, 3, 4, 5} == b + d;
  }
}
