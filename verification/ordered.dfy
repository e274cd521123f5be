/** Sorted sets kept by a comparator, as java.util.TreeSet keeps them. */
module Ordered {

  function Elements<T>(s: seq<T>): set<T> {
    set x | x in s
  }

  lemma ElementsStep<T>(s: seq<T>, n: nat)
    requires n < |s|
    ensures Elements(s[..n + 1]) == Elements(s[..n]) + {s[n]}
  {
    assert s[..n + 1] == s[..n] + [s[n]];
  }

  /** The sign of `Compare` is that of String.compareTo. */
  function Compare(a: string, b: string): int {
    if a == [] || b == [] then |a| - |b|
    else if a[0] != b[0] then a[0] as int - b[0] as int
    else Compare(a[1..], b[1..])
  }

  lemma {:induction false} CompareSigns(a: string, b: string)
    ensures Compare(a, b) == -Compare(b, a)
    ensures Compare(a, b) == 0 <==> a == b
  {
    if a != [] && b != [] && a[0] == b[0] {
      CompareSigns(a[1..], b[1..]);
      assert a == [a[0]] + a[1..] && b == [b[0]] + b[1..];
    }
  }

  /** Comparing is lexicographic: a proper prefix comes first, otherwise the first character that differs decides. */
  lemma {:induction false} CompareIff(a: string, b: string)
    ensures Compare(a, b) < 0 <==> (a < b || exists i :: DecidesAt(a, b, i))
  {
    if a == [] || b == [] {
      assert Compare(a, b) == |a| - |b|;
    } else {
      CompareIff(a[1..], b[1..]);
      assert a[0] == b[0] ==> (a < b <==> a[1..] < b[1..]);
      assert DecidesAt(a, b, 0) <==> a[0] < b[0];
      if i :| DecidesAt(a[1..], b[1..], i) && a[0] == b[0] {
        assert a[..i + 1] == [a[0]] + a[1..][..i] && b[..i + 1] == [b[0]] + b[1..][..i];
        assert DecidesAt(a, b, i + 1);
      }
      if i :| DecidesAt(a, b, i) && i > 0 {
        assert a[0] == a[..i][0] == b[..i][0] == b[0];
        assert a[1..][..i - 1] == a[..i][1..] && b[1..][..i - 1] == b[..i][1..];
        assert DecidesAt(a[1..], b[1..], i - 1);
      }
    }
  }

  ghost predicate DecidesAt(a: string, b: string, i: int) {
    0 <= i < |a| && i < |b| && a[..i] == b[..i] && a[i] < b[i]
  }

  lemma {:induction false} CompareTransitive(a: string, b: string, c: string)
    requires Compare(a, b) < 0 && Compare(b, c) < 0
    ensures Compare(a, c) < 0
  {
    if a != [] && b != [] && c != [] && a[0] == b[0] == c[0] {
      CompareTransitive(a[1..], b[1..], c[1..]);
    }
  }

  /** Comparing is antisymmetric and transitive. */
  ghost predicate Comparator<T(!new)>(cmp: (T, T) -> int) {
    && (forall a, b :: cmp(a, b) < 0 <==> cmp(b, a) > 0)
    && (forall a, b, c :: cmp(a, b) < 0 && cmp(b, c) < 0 ==> cmp(a, c) < 0)
  }

  lemma StringsCompare()
    ensures Comparator(Compare)
  {
    forall a, b ensures Compare(a, b) == -Compare(b, a) && (Compare(a, b) == 0 <==> a == b) { CompareSigns(a, b); }
    forall a, b, c | Compare(a, b) < 0 && Compare(b, c) < 0 ensures Compare(a, c) < 0 { CompareTransitive(a, b, c); }
  }

  ghost predicate Ascending<T>(cmp: (T, T) -> int, s: seq<T>) {
    forall i, j | 0 <= i < j < |s| :: cmp(s[i], s[j]) < 0
  }

  /** TreeSet.add: an element that compares as 0 with a present one is not added. */
  function Add<T>(cmp: (T, T) -> int, s: seq<T>, x: T): seq<T> {
    if s == [] then [x]
    else if cmp(x, s[0]) < 0 then [x] + s
    else if cmp(x, s[0]) == 0 then s
    else [s[0]] + Add(cmp, s[1..], x)
  }

  ghost predicate Present<T>(cmp: (T, T) -> int, s: seq<T>, x: T) {
    exists y :: y in s && cmp(x, y) == 0
  }

  lemma {:induction false} AddElements<T(!new)>(cmp: (T, T) -> int, s: seq<T>, x: T)
    requires Comparator(cmp) && Ascending(cmp, s)
    ensures forall y :: y in Add(cmp, s, x) <==> y in s || (y == x && !Present(cmp, s, x))
    ensures Ascending(cmp, Add(cmp, s, x))
  {
    if s != [] {
      assert s == [s[0]] + s[1..];
      if cmp(x, s[0]) < 0 {
        AddInFront(cmp, s, x);
      } else if cmp(x, s[0]) == 0 {
        assert Present(cmp, s, x) by { assert s[0] in s; }
      } else {
        AddElements(cmp, s[1..], x);
        AddBehind(cmp, s, x);
      }
    }
  }

  lemma AddPresent<T(!new)>(cmp: (T, T) -> int, s: seq<T>, x: T, a: T)
    requires Comparator(cmp) && Ascending(cmp, s)
    ensures Present(cmp, s, a) ==> Present(cmp, Add(cmp, s, x), a)
    ensures Present(cmp, s, x) || (cmp(x, x) == 0 ==> Present(cmp, Add(cmp, s, x), x))
  {
    AddElements(cmp, s, x);
    if Present(cmp, s, a) {
      var y :| y in s && cmp(a, y) == 0;
      assert y in Add(cmp, s, x);
    }
  }

  lemma AddInFront<T(!new)>(cmp: (T, T) -> int, s: seq<T>, x: T)
    requires Comparator(cmp) && Ascending(cmp, s) && s != [] && cmp(x, s[0]) < 0
    ensures Ascending(cmp, [x] + s) && !Present(cmp, s, x)
  {
    forall i | 0 <= i < |s| ensures cmp(x, s[i]) < 0 {
      if i > 0 { assert cmp(s[0], s[i]) < 0; }
    }
  }

  lemma AddBehind<T(!new)>(cmp: (T, T) -> int, s: seq<T>, x: T)
    requires Comparator(cmp) && Ascending(cmp, s) && s != [] && cmp(x, s[0]) > 0
    requires var r := Add(cmp, s[1..], x);
             Ascending(cmp, r) && forall y :: y in r <==> y in s[1..] || (y == x && !Present(cmp, s[1..], x))
    ensures Ascending(cmp, [s[0]] + Add(cmp, s[1..], x))
    ensures Present(cmp, s, x) <==> Present(cmp, s[1..], x)
  {
    var r := Add(cmp, s[1..], x);
    forall i | 0 <= i < |r| ensures cmp(s[0], r[i]) < 0 {
      assert r[i] in r;
      if r[i] in s[1..] {
        var k :| 0 <= k < |s[1..]| && s[1..][k] == r[i];
        assert s[k + 1] == r[i];
      }
    }
    assert s == [s[0]] + s[1..];
  }

  lemma Least<T>(cmp: (T, T) -> int, s: seq<T>, k: nat)
    requires Ascending(cmp, s) && k < |s|
    ensures k == 0 || cmp(s[0], s[k]) < 0
  {
  }

  lemma AscendingTail<T>(cmp: (T, T) -> int, s: seq<T>)
    requires Ascending(cmp, s) && s != []
    ensures Ascending(cmp, s[1..])
  {
  }

  lemma SameHead<T(!new)>(cmp: (T, T) -> int, s: seq<T>, t: seq<T>)
    requires Comparator(cmp) && Ascending(cmp, s) && Ascending(cmp, t)
    requires s != [] && t != [] && s[0] in t && t[0] in s
    ensures s[0] == t[0]
  {
    var i :| 0 <= i < |t| && t[i] == s[0];
    var j :| 0 <= j < |s| && s[j] == t[0];
    Least(cmp, t, i);
    Least(cmp, s, j);
  }

  lemma SameTail<T(!new)>(s: seq<T>, t: seq<T>)
    requires s != [] && t != [] && s[0] == t[0] && s[0] !in s[1..] && t[0] !in t[1..]
    requires forall x :: x in s <==> x in t
    ensures forall x :: x in s[1..] <==> x in t[1..]
  {
    assert s == [s[0]] + s[1..] && t == [t[0]] + t[1..];
    forall x ensures x in s[1..] <==> x in t[1..] {
      assert x in s <==> x == s[0] || x in s[1..];
      assert x in t <==> x == t[0] || x in t[1..];
    }
  }

  /** A sorted set is determined by its elements. */
  lemma {:induction false} AscendingUnique<T(!new)>(cmp: (T, T) -> int, s: seq<T>, t: seq<T>)
    requires Comparator(cmp) && Ascending(cmp, s) && Ascending(cmp, t)
    requires forall x :: x in s <==> x in t
    ensures s == t
  {
    SameEmptiness(s, t);
    if s != [] {
      SameHead(cmp, s, t);
      HeadOnce(cmp, s);
      HeadOnce(cmp, t);
      SameTail(s, t);
      AscendingTail(cmp, s);
      AscendingTail(cmp, t);
      AscendingUnique(cmp, s[1..], t[1..]);
      Rebuild(s, t);
    }
  }

  lemma SameEmptiness<T(!new)>(s: seq<T>, t: seq<T>)
    requires forall x :: x in s <==> x in t
    ensures s == [] <==> t == []
    ensures s != [] ==> s[0] in t && t[0] in s
  {
    assert |t| > 0 ==> t[0] in t;
    assert |s| > 0 ==> s[0] in s;
  }

  lemma Rebuild<T>(s: seq<T>, t: seq<T>)
    requires s != [] && t != [] && s[0] == t[0] && s[1..] == t[1..]
    ensures s == t
  {
    assert s == [s[0]] + s[1..] && t == [t[0]] + t[1..];
  }

  lemma HeadOnce<T(!new)>(cmp: (T, T) -> int, s: seq<T>)
    requires Comparator(cmp) && Ascending(cmp, s) && s != []
    ensures s[0] !in s[1..]
  {
    forall k | 0 <= k < |s[1..]| ensures s[1..][k] != s[0] {
      assert cmp(s[0], s[k + 1]) < 0;
    }
  }
}
