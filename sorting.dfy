/**
 * `Array.prototype.sort(cmp)` as a stable insertion sort. The comparator is given
 * as `greater(a, b)`, which holds when `cmp(a, b) > 0`; a comparator result of NaN
 * counts as 0 (ECMAScript's SortCompare), so an element with a NaN key is never
 * "greater". For a consistent comparator every stable sort gives this order; for
 * an inconsistent one the order is implementation-defined and this is one of them.
 */
module Sorting {

  /** Insert `x` into `s` from the right, moving it left past every element greater than it. */
  function InsertFromRight<T>(s: seq<T>, x: T, greater: (T, T) -> bool): (r: seq<T>)
    ensures |r| == |s| + 1
    ensures multiset(r) == multiset(s) + multiset{x}
  {
    if s == [] then [x]
    else if greater(s[|s| - 1], x) then
      assert s == s[..|s| - 1] + [s[|s| - 1]];
      InsertFromRight(s[..|s| - 1], x, greater) + [s[|s| - 1]]
    else s + [x]
  }

  /** `s.sort(cmp)`. */
  function SortBy<T>(s: seq<T>, greater: (T, T) -> bool): (r: seq<T>)
    ensures |r| == |s|
    ensures multiset(r) == multiset(s)
  {
    if s == [] then []
    else
      assert s == s[..|s| - 1] + [s[|s| - 1]];
      InsertFromRight(SortBy(s[..|s| - 1], greater), s[|s| - 1], greater)
  }

  /** No element is greater than one after it. */
  ghost predicate SortedBy<T>(s: seq<T>, greater: (T, T) -> bool)
  {
    forall i, j :: 0 <= i < j < |s| ==> !greater(s[i], s[j])
  }

  /** `greater` is a strict weak order on the elements of `s`: a consistent comparator there. */
  ghost predicate StrictWeakOn<T>(s: seq<T>, greater: (T, T) -> bool)
  {
    (forall a, b :: a in s && b in s && greater(a, b) ==> !greater(b, a)) &&
    (forall a, b, c ::
       a in s && b in s && c in s && !greater(a, b) && !greater(b, c) ==> !greater(a, c))
  }

  lemma StrictWeakOnPrefix<T>(s: seq<T>, n: nat, greater: (T, T) -> bool)
    requires n <= |s|
    requires StrictWeakOn(s, greater)
    ensures StrictWeakOn(s[..n], greater)
  {
    forall x | x in s[..n] ensures x in s { }
  }

  lemma {:induction false} InsertKeepsSorted<T>(s: seq<T>, x: T, greater: (T, T) -> bool)
    requires SortedBy(s, greater)
    requires StrictWeakOn(s + [x], greater)
    ensures SortedBy(InsertFromRight(s, x, greater), greater)
    decreases |s|
  {
    if s != [] {
      var y := s[|s| - 1];
      var init := s[..|s| - 1];
      assert s == init + [y];
      assert y in s + [x] && x in s + [x];
      if greater(y, x) {
        forall z | z in init + [x] ensures z in s + [x] { }
        assert StrictWeakOn(init + [x], greater);
        InsertKeepsSorted(init, x, greater);
        assert !greater(x, y);
        InsertBelowLast(init, x, y, greater);
      } else {
        AppendKeepsSorted(s, x, greater);
      }
    }
  }

  /** Once `x` is inserted into `init`, nothing there is greater than `y`, the element that followed `init`. */
  lemma InsertBelowLast<T>(init: seq<T>, x: T, y: T, greater: (T, T) -> bool)
    requires SortedBy(init + [y], greater) && !greater(x, y)
    ensures forall k :: 0 <= k < |init| + 1 ==> !greater(InsertFromRight(init, x, greater)[k], y)
  {
    var ins := InsertFromRight(init, x, greater);
    var s := init + [y];
    forall k | 0 <= k < |ins| ensures !greater(ins[k], y) {
      assert ins[k] in multiset(ins);
      if ins[k] != x {
        assert ins[k] in init;
        var i :| 0 <= i < |init| && init[i] == ins[k];
        assert s[i] == ins[k] && s[|s| - 1] == y;
      }
    }
  }

  /** Appending an element that nothing is greater than keeps a sorted sequence sorted. */
  lemma AppendKeepsSorted<T>(s: seq<T>, x: T, greater: (T, T) -> bool)
    requires s != [] && SortedBy(s, greater) && StrictWeakOn(s + [x], greater)
    requires !greater(s[|s| - 1], x)
    ensures SortedBy(s + [x], greater)
  {
    var y := s[|s| - 1];
    assert y in s + [x] && x in s + [x];
    forall i | 0 <= i < |s| ensures !greater(s[i], x) {
      if i < |s| - 1 {
        assert !greater(s[i], y);
        assert s[i] in s + [x];
      }
    }
  }

  /** Under a consistent comparator the result is sorted. */
  lemma {:induction false} SortBySorted<T>(s: seq<T>, greater: (T, T) -> bool)
    requires StrictWeakOn(s, greater)
    ensures SortedBy(SortBy(s, greater), greater)
    decreases |s|
  {
    if s != [] {
      var init := s[..|s| - 1];
      StrictWeakOnPrefix(s, |s| - 1, greater);
      SortBySorted(init, greater);
      var sorted := SortBy(init, greater);
      forall z | z in sorted + [s[|s| - 1]] ensures z in s {
        if z in sorted {
          assert z in multiset(init);
          assert z in init;
        }
      }
      InsertKeepsSorted(sorted, s[|s| - 1], greater);
    }
  }

  function Map<A, B>(f: A -> B, s: seq<A>): (r: seq<B>)
    ensures |r| == |s| && forall i :: 0 <= i < |s| ==> r[i] == f(s[i])
  {
    seq(|s|, i requires 0 <= i < |s| => f(s[i]))
  }

  /** Sorting the images under `f` by a comparator that `f` carries over is sorting before mapping. */
  lemma {:induction false} SortByMap<A, B>(f: A -> B, s: seq<A>, ga: (A, A) -> bool, gb: (B, B) -> bool)
    requires forall a, b :: gb(f(a), f(b)) == ga(a, b)
    ensures SortBy(Map(f, s), gb) == Map(f, SortBy(s, ga))
    decreases |s|
  {
    if s != [] {
      var init := s[..|s| - 1];
      assert Map(f, s)[..|s| - 1] == Map(f, init);
      SortByMap(f, init, ga, gb);
      InsertMap(f, SortBy(init, ga), s[|s| - 1], ga, gb);
    }
  }

  lemma {:induction false} InsertMap<A, B>(f: A -> B, s: seq<A>, x: A, ga: (A, A) -> bool, gb: (B, B) -> bool)
    requires forall a, b :: gb(f(a), f(b)) == ga(a, b)
    ensures InsertFromRight(Map(f, s), f(x), gb) == Map(f, InsertFromRight(s, x, ga))
    decreases |s|
  {
    if s != [] {
      assert Map(f, s)[..|s| - 1] == Map(f, s[..|s| - 1]);
      InsertMap(f, s[..|s| - 1], x, ga, gb);
    }
  }
}
