/**
 * Small building blocks shared by the session tracker, the calendar heat-map
 * and the locale helpers: an optional value, JavaScript's `indexOf` and
 * `slice(start)` on arrays and strings, and the stable ascending sort that
 * `Array.prototype.sort` performs with a numeric comparator.
 */
module Util {

  /** A value that may be absent (`undefined`, `null` or `NaN` in the source). */
  datatype Option<+T> = None | Some(value: T)

  /** `s.indexOf(x)`: the first position of `x`, or -1 when `x` does not occur. */
  function IndexOf<T(==)>(s: seq<T>, x: T): (r: int)
    ensures -1 <= r < |s|
    ensures r == -1 <==> x !in s
    ensures 0 <= r ==> s[r] == x && x !in s[..r]
  {
    if |s| == 0 then -1
    else if s[0] == x then 0
    else
      var k := IndexOf(s[1..], x);
      if k == -1 then -1 else k + 1
  }

  /**
   * `s.slice(start)`: a negative start counts from the end and is clamped at
   * the beginning, a non-negative one is clamped at the end. The result is
   * always a suffix of `s`.
   */
  function JsSlice<T>(s: seq<T>, start: int): (r: seq<T>)
    ensures |r| <= |s| && r == s[|s| - |r|..]
    ensures 0 <= start ==> |r| == (if start <= |s| then |s| - start else 0)
    ensures start < 0 ==> |r| == (if -start <= |s| then -start else |s|)
  {
    if start < 0 then
      (if |s| + start < 0 then s else s[|s| + start..])
    else if start <= |s| then s[start..]
    else []
  }

  /** A slice that starts at or before the end of `s` keeps its last element. */
  lemma JsSliceLast<T>(s: seq<T>, start: int)
    requires |s| > 0 && start <= 0
    ensures var r := JsSlice(s, start); |r| > 0 && r[|r| - 1] == s[|s| - 1]
  {
  }

  /** `s` is in ascending order of `key`. */
  ghost predicate SortedBy<T>(s: seq<T>, key: T -> int) {
    forall i, j :: 0 <= i < j < |s| ==> key(s[i]) <= key(s[j])
  }

  /**
   * Puts `x` into the ascending sequence `s` after every element whose key
   * is not larger than its own, so equal keys keep their arrival order.
   */
  function InsertBy<T>(x: T, s: seq<T>, key: T -> int): seq<T>
  {
    if |s| == 0 then [x]
    else if key(x) < key(s[0]) then [x] + s
    else [s[0]] + InsertBy(x, s[1..], key)
  }

  /** Inserting into an ascending sequence keeps it ascending and adds exactly `x`. */
  lemma {:induction false} InsertBySorted<T>(x: T, s: seq<T>, key: T -> int)
    requires SortedBy(s, key)
    ensures var r := InsertBy(x, s, key);
            SortedBy(r, key) && multiset(r) == multiset(s) + multiset{x} && |r| == |s| + 1 &&
            (r[0] == x || (|s| > 0 && r[0] == s[0]))
  {
    if |s| > 0 && key(x) >= key(s[0]) {
      var rest := InsertBy(x, s[1..], key);
      SortedTail(s, key);
      InsertBySorted(x, s[1..], key);
      assert s == [s[0]] + s[1..];
      assert key(s[0]) <= key(rest[0]);
      forall i, j | 0 <= i < j < |[s[0]] + rest|
        ensures key(([s[0]] + rest)[i]) <= key(([s[0]] + rest)[j])
      {
        if i == 0 && j > 1 {
          assert key(rest[0]) <= key(rest[j - 1]);
        }
      }
    }
  }

  lemma SortedTail<T>(s: seq<T>, key: T -> int)
    requires |s| > 0 && SortedBy(s, key)
    ensures SortedBy(s[1..], key)
  {
    forall i, j | 0 <= i < j < |s| - 1
      ensures key(s[1..][i]) <= key(s[1..][j])
    {
      assert s[1..][i] == s[i + 1] && s[1..][j] == s[j + 1];
    }
  }

  /**
   * The stable ascending sort `a.sort((p, q) => key(p) - key(q))`: a
   * permutation of `s` in ascending order of `key`.
   */
  function SortBy<T>(s: seq<T>, key: T -> int): seq<T>
  {
    if |s| == 0 then [] else InsertBy(s[|s| - 1], SortBy(s[..|s| - 1], key), key)
  }

  /** The sort returns a permutation of its input in ascending order of `key`. */
  lemma {:induction false} SortBySorted<T>(s: seq<T>, key: T -> int)
    ensures var r := SortBy(s, key); SortedBy(r, key) && multiset(r) == multiset(s) && |r| == |s|
  {
    if |s| > 0 {
      SortBySorted(s[..|s| - 1], key);
      InsertBySorted(s[|s| - 1], SortBy(s[..|s| - 1], key), key);
      assert s == s[..|s| - 1] + [s[|s| - 1]];
    }
  }

  /** The last element of an ascending sequence carries the largest key. */
  lemma {:induction false} LastIsLargest<T>(s: seq<T>, key: T -> int, x: T)
    requires SortedBy(s, key) && x in s
    ensures key(x) <= key(s[|s| - 1])
  {
    var i :| 0 <= i < |s| && s[i] == x;
    if i < |s| - 1 {
      assert key(s[i]) <= key(s[|s| - 1]);
    }
  }

  /** The last element of the sorted sequence comes from `s` and carries a key no smaller than any element of `s`. */
  lemma LastOfSortBy<T>(s: seq<T>, key: T -> int, x: T)
    requires x in s
    ensures var r := SortBy(s, key); r != [] && r[|r| - 1] in s && key(x) <= key(r[|r| - 1])
  {
    SortBySorted(s, key);
    LastOfPermutation(s, SortBy(s, key), key, x);
  }

  lemma LastOfPermutation<T>(s: seq<T>, r: seq<T>, key: T -> int, x: T)
    requires x in s && multiset(r) == multiset(s) && SortedBy(r, key)
    ensures r != [] && r[|r| - 1] in s && key(x) <= key(r[|r| - 1])
  {
    assert x in multiset(r);
    LastIsLargest(r, key, x);
    assert r[|r| - 1] in multiset(s);
  }
}
