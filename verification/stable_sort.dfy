/**
 * Python's `sorted(xs, key=k)` and `sorted(xs, key=k, reverse=True)`, as a
 * stable insertion sort over a "strictly before" relation: `before(a, b)`
 * is `k(a) < k(b)` for an ascending sort and `k(a) > k(b)` for a reversed
 * one. Both keep elements with equal keys in their input order, as
 * Python's sort does.
 */
module StableSort {

  /** `before` is asymmetric and its complement is transitive. */
  ghost predicate StrictWeakOrder<T(!new)>(before: (T, T) -> bool)
  {
    && (forall a, b :: before(a, b) ==> !before(b, a))
    && (forall a, b, c :: !before(a, b) && !before(b, c) ==> !before(a, c))
  }

  /** No element is strictly before one that precedes it. */
  ghost predicate SortedBy<T>(s: seq<T>, before: (T, T) -> bool)
  {
    forall i, j :: 0 <= i < j < |s| ==> !before(s[j], s[i])
  }

  /** Puts `x` in front of the first element it is not strictly after. */
  function Insert<T>(x: T, t: seq<T>, before: (T, T) -> bool): (r: seq<T>)
    ensures multiset(r) == multiset(t) + multiset{x}
    ensures |r| == |t| + 1
  {
    if |t| == 0 || !before(t[0], x) then [x] + t
    else
      assert t == [t[0]] + t[1..];
      [t[0]] + Insert(x, t[1..], before)
  }

  function Sort<T>(s: seq<T>, before: (T, T) -> bool): (r: seq<T>)
    ensures multiset(r) == multiset(s)
    ensures |r| == |s|
  {
    if |s| == 0 then []
    else
      assert s == [s[0]] + s[1..];
      Insert(s[0], Sort(s[1..], before), before)
  }

  lemma {:induction false} InsertSorted<T(!new)>(x: T, t: seq<T>, before: (T, T) -> bool)
    requires StrictWeakOrder(before)
    requires SortedBy(t, before)
    ensures SortedBy(Insert(x, t, before), before)
  {
    if |t| == 0 || !before(t[0], x) {
      var r := [x] + t;
      forall i, j | 0 <= i < j < |r|
        ensures !before(r[j], r[i])
      {
        if i == 0 && j > 1 {
          assert !before(t[j - 1], t[0]);
        }
      }
    } else {
      var rest := Insert(x, t[1..], before);
      InsertSorted(x, t[1..], before);
      forall k | 0 <= k < |rest|
        ensures !before(rest[k], t[0])
      {
        assert rest[k] in multiset(rest);
        if rest[k] != x {
          assert rest[k] in multiset(t[1..]);
          var m :| 0 <= m < |t[1..]| && t[1..][m] == rest[k];
          assert !before(t[m + 1], t[0]);
        }
      }
      var r := [t[0]] + rest;
      assert r == Insert(x, t, before);
      forall i, j | 0 <= i < j < |r|
        ensures !before(r[j], r[i])
      {
        if i > 0 {
          assert r[i] == rest[i - 1] && r[j] == rest[j - 1];
        }
      }
    }
  }

  lemma {:induction false} SortSorted<T(!new)>(s: seq<T>, before: (T, T) -> bool)
    requires StrictWeakOrder(before)
    ensures SortedBy(Sort(s, before), before)
  {
    if |s| > 0 {
      SortSorted(s[1..], before);
      InsertSorted(s[0], Sort(s[1..], before), before);
    }
  }

  /** A sequence already in order is left as it is; in particular ties keep their order. */
  lemma {:induction false} SortOfSorted<T>(s: seq<T>, before: (T, T) -> bool)
    requires SortedBy(s, before)
    ensures Sort(s, before) == s
  {
    if |s| > 0 {
      assert SortedBy(s[1..], before);
      SortOfSorted(s[1..], before);
      assert s == [s[0]] + s[1..];
    }
  }

  /** Sorting two elements swaps them only when the second is strictly first. */
  lemma SortPair<T>(a: T, b: T, before: (T, T) -> bool)
    ensures Sort([a, b], before) == if before(b, a) then [b, a] else [a, b]
  {
    assert [a, b][1..] == [b];
    assert [b][1..] == [];
    assert Sort([b], before) == [b];
    if before(b, a) {
      assert Insert(a, [b], before) == [b] + Insert(a, [], before);
    }
  }

}
