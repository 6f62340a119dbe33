/**
 * `Array.prototype.sort` with a comparator, which JavaScript requires to be
 * stable. A comparator is given as `le(a, b)`: "`a` may stay before `b`",
 * i.e. `compare(a, b) <= 0`. Insertion sort is the model: each element is
 * placed before the first element it may precede, so equal elements keep
 * their input order.
 */
module Sorting {

  ghost predicate TotalPreorder<T(!new)>(le: (T, T) -> bool) {
    && (forall a, b :: le(a, b) || le(b, a))
    && (forall a, b, c :: le(a, b) && le(b, c) ==> le(a, c))
  }

  predicate SortedBy<T>(le: (T, T) -> bool, s: seq<T>) {
    forall i, j :: 0 <= i < j < |s| ==> le(s[i], s[j])
  }

  function Insert<T>(le: (T, T) -> bool, x: T, s: seq<T>): (r: seq<T>)
    ensures multiset(r) == multiset(s) + multiset{x}
    ensures |r| == |s| + 1
  {
    if s == [] || le(x, s[0]) then [x] + s
    else
      assert s == [s[0]] + s[1..];
      [s[0]] + Insert(le, x, s[1..])
  }

  function StableSort<T>(le: (T, T) -> bool, s: seq<T>): (r: seq<T>)
    ensures multiset(r) == multiset(s)
    ensures |r| == |s|
  {
    if s == [] then []
    else
      assert s == [s[0]] + s[1..];
      Insert(le, s[0], StableSort(le, s[1..]))
  }

  lemma {:induction false} InsertSorted<T(!new)>(le: (T, T) -> bool, x: T, s: seq<T>)
    requires TotalPreorder(le)
    requires SortedBy(le, s)
    ensures SortedBy(le, Insert(le, x, s))
  {
    if s == [] || le(x, s[0]) {
    } else {
      InsertSorted(le, x, s[1..]);
      var t := Insert(le, x, s[1..]);
      forall k | 0 <= k < |t| ensures le(s[0], t[k]) {
        assert t[k] in multiset(s[1..]) + multiset{x};
        if t[k] == x {
        } else {
          assert t[k] in s[1..];
        }
      }
    }
  }

  /** The sorted result is ordered by the comparator and is a permutation of the input. */
  lemma {:induction false} StableSortSorted<T(!new)>(le: (T, T) -> bool, s: seq<T>)
    requires TotalPreorder(le)
    ensures SortedBy(le, StableSort(le, s))
    ensures multiset(StableSort(le, s)) == multiset(s)
  {
    if s != [] {
      StableSortSorted(le, s[1..]);
      InsertSorted(le, s[0], StableSort(le, s[1..]));
    }
  }

  /** An input that is already in order comes back unchanged. */
  lemma {:induction false} SortedUnchanged<T>(le: (T, T) -> bool, s: seq<T>)
    requires SortedBy(le, s)
    ensures StableSort(le, s) == s
  {
    if s != [] {
      SortedUnchanged(le, s[1..]);
      assert s == [s[0]] + s[1..];
    }
  }

  /** The elements of `s` equivalent to `p`, in order. */
  function EqualTo<T>(le: (T, T) -> bool, p: T, s: seq<T>): seq<T> {
    if s == [] then []
    else (if le(p, s[0]) && le(s[0], p) then [s[0]] else []) + EqualTo(le, p, s[1..])
  }

  lemma {:induction false} InsertKeepsEqualOrder<T(!new)>(le: (T, T) -> bool, p: T, x: T, s: seq<T>)
    requires TotalPreorder(le)
    ensures EqualTo(le, p, Insert(le, x, s))
         == (if le(p, x) && le(x, p) then [x] else []) + EqualTo(le, p, s)
  {
    var hx := if le(p, x) && le(x, p) then [x] else [];
    if s == [] || le(x, s[0]) {
      AppendHeadTail([x], s);
    } else {
      var i := Insert(le, x, s[1..]);
      var h0 := if le(p, s[0]) && le(s[0], p) then [s[0]] else [];
      var e := EqualTo(le, p, s[1..]);
      InsertKeepsEqualOrder(le, p, x, s[1..]);
      assert EqualTo(le, p, [s[0]] + i) == h0 + (hx + e) by {
        AppendHeadTail([s[0]], i);
      }
      // x is not equivalent to both p and s[0], as it does not stay before s[0].
      assert hx == [] || h0 == [] by {
        assert !(le(x, p) && le(p, s[0]));
      }
      SwapHeads(h0, hx, e);
    }
  }

  /** Stability: for every element, the ones that compare equal to it keep their input order. */
  lemma {:induction false} StableSortIsStable<T(!new)>(le: (T, T) -> bool, p: T, s: seq<T>)
    requires TotalPreorder(le)
    ensures EqualTo(le, p, StableSort(le, s)) == EqualTo(le, p, s)
  {
    if s != [] {
      StableSortIsStable(le, p, s[1..]);
      InsertKeepsEqualOrder(le, p, s[0], StableSort(le, s[1..]));
    }
  }

  // ------------------------------------------------------------------
  // Two facts about concatenation the filters' proofs lean on

  /** The head and the tail of `a + b` when `a` is not empty. */
  lemma AppendHeadTail<T>(a: seq<T>, b: seq<T>)
    requires a != []
    ensures (a + b)[0] == a[0] && (a + b)[1..] == a[1..] + b
  {
  }

  /** Two prefixes of which one is empty may be swapped. */
  lemma SwapHeads<T>(h: seq<T>, k: seq<T>, e: seq<T>)
    requires h == [] || k == []
    ensures h + (k + e) == k + (h + e)
  {
    if h == [] {
      assert h + (k + e) == k + e == k + (h + e);
    } else {
      assert h + (k + e) == h + e == k + (h + e);
    }
  }

  lemma AppendAssoc<T>(h: seq<T>, x: seq<T>, y: seq<T>)
    ensures h + (x + y) == (h + x) + y
  {
  }
}
