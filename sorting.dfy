/** Python's `sorted(xs, key=...)`, and `sorted(..., reverse=True)`, as a
    stable sort described by the order in which it places the INDICES of
    the input. Element `i` goes before element `j` when its key is smaller,
    or when the keys are equal and `i < j` (stability); `reverse=True` keeps
    that tie rule, so it is the same sort under the reversed key order.
    The sort is written as an insertion sort; `StableSortUnique` shows that
    any stable sort (Python's Timsort included) gives the same order. */
module Sorting {

  /** `less` is a strict total order on keys. */
  ghost predicate StrictTotalOrder<K(!new)>(less: (K, K) -> bool) {
    && (forall a :: !less(a, a))
    && (forall a, b, c :: less(a, b) && less(b, c) ==> less(a, c))
    && (forall a, b :: a != b ==> less(a, b) || less(b, a))
  }

  /** Element `i` goes before element `j` in the stable order. */
  predicate Before<K>(keys: seq<K>, less: (K, K) -> bool, i: nat, j: nat)
    requires i < |keys| && j < |keys|
  {
    less(keys[i], keys[j]) || (!less(keys[j], keys[i]) && i < j)
  }

  predicate InRange<K>(keys: seq<K>, s: seq<nat>) {
    forall k :: 0 <= k < |s| ==> s[k] < |keys|
  }

  /** Consecutive or not, every two indices of `s` are in stable order. */
  ghost predicate Sorted<K>(keys: seq<K>, less: (K, K) -> bool, s: seq<nat>)
    requires InRange(keys, s)
  {
    forall p, q :: 0 <= p < q < |s| ==> Before(keys, less, s[p], s[q])
  }

  function Range(n: nat): (r: seq<nat>)
    ensures |r| == n && forall k :: 0 <= k < n ==> r[k] == k
  {
    seq(n, k => k)
  }

  /** `s` lists every index of `keys` exactly once, in stable order: it is
      what a stable sort returns. */
  ghost predicate StablySorted<K>(keys: seq<K>, less: (K, K) -> bool, s: seq<nat>) {
    && InRange(keys, s)
    && multiset(s) == multiset(Range(|keys|))
    && Sorted(keys, less, s)
  }

  lemma BeforeIrreflexive<K(!new)>(keys: seq<K>, less: (K, K) -> bool, i: nat)
    requires StrictTotalOrder(less) && i < |keys|
    ensures !Before(keys, less, i, i)
  {
  }

  lemma BeforeTransitive<K(!new)>(keys: seq<K>, less: (K, K) -> bool, i: nat, j: nat, k: nat)
    requires StrictTotalOrder(less) && i < |keys| && j < |keys| && k < |keys|
    requires Before(keys, less, i, j) && Before(keys, less, j, k)
    ensures Before(keys, less, i, k)
  {
  }

  lemma BeforeTotal<K(!new)>(keys: seq<K>, less: (K, K) -> bool, i: nat, j: nat)
    requires StrictTotalOrder(less) && i < |keys| && j < |keys| && i != j
    ensures Before(keys, less, i, j) != Before(keys, less, j, i)
  {
  }

  /** Insert index `i` into the sorted `s` before the first index it precedes. */
  function Insert<K(!new)>(keys: seq<K>, less: (K, K) -> bool, i: nat, s: seq<nat>): (r: seq<nat>)
    requires StrictTotalOrder(less)
    requires i < |keys| && InRange(keys, s) && Sorted(keys, less, s) && i !in s
    ensures InRange(keys, r) && Sorted(keys, less, r)
    ensures multiset(r) == multiset(s) + multiset{i}
    ensures |r| == |s| + 1
  {
    if s == [] then
      [i]
    else if Before(keys, less, i, s[0]) then
      forall q | 0 < q < |s| ensures Before(keys, less, i, s[q]) {
        BeforeTransitive(keys, less, i, s[0], s[q]);
      }
      [i] + s
    else
      var rest := Insert(keys, less, i, s[1..]);
      assert s == [s[0]] + s[1..];
      BeforeTotal(keys, less, i, s[0]);
      forall k | 0 <= k < |rest| ensures Before(keys, less, s[0], rest[k]) {
        assert rest[k] in multiset(s[1..]) + multiset{i};
      }
      SortedCons(keys, less, s[0], rest);
      [s[0]] + rest
  }

  lemma SortedCons<K>(keys: seq<K>, less: (K, K) -> bool, x: nat, s: seq<nat>)
    requires x < |keys| && InRange(keys, s) && Sorted(keys, less, s)
    requires forall k :: 0 <= k < |s| ==> Before(keys, less, x, s[k])
    ensures InRange(keys, [x] + s) && Sorted(keys, less, [x] + s)
  {
    var r := [x] + s;
    forall p, q | 0 <= p < q < |r| ensures Before(keys, less, r[p], r[q]) {
      if p > 0 {
        assert r[p] == s[p - 1] && r[q] == s[q - 1];
      } else {
        assert r[q] == s[q - 1];
      }
    }
  }

  /** The stable order of the first `n` indices. */
  function SortPrefix<K(!new)>(keys: seq<K>, less: (K, K) -> bool, n: nat): (r: seq<nat>)
    requires StrictTotalOrder(less) && n <= |keys|
    ensures InRange(keys, r) && Sorted(keys, less, r)
    ensures multiset(r) == multiset(Range(n))
    ensures forall k :: 0 <= k < |r| ==> r[k] < n
    ensures |r| == n
  {
    if n == 0 then
      []
    else
      var last: nat := n - 1;
      var r := SortPrefix(keys, less, last);
      assert last !in r;
      assert Range(n) == Range(last) + [last];
      var r' := Insert(keys, less, last, r);
      assert forall k :: 0 <= k < |r'| ==> r'[k] in multiset(r) + multiset{last};
      r'
  }

  /** `sorted(xs, key=K)` as the order of the input's indices. */
  function StableSort<K(!new)>(keys: seq<K>, less: (K, K) -> bool): (r: seq<nat>)
    requires StrictTotalOrder(less)
    ensures StablySorted(keys, less, r)
    ensures |r| == |keys|
  {
    SortPrefix(keys, less, |keys|)
  }

  /** The stable order is unique: two index sequences that are both stably
      sorted arrangements of the same input are equal. */
  lemma {:induction false} StableSortUnique<K(!new)>(keys: seq<K>, less: (K, K) -> bool, r1: seq<nat>, r2: seq<nat>)
    requires StrictTotalOrder(less)
    requires StablySorted(keys, less, r1) && StablySorted(keys, less, r2)
    ensures r1 == r2
  {
    SortedUnique(keys, less, r1, r2);
  }

  lemma {:induction false} SortedUnique<K(!new)>(keys: seq<K>, less: (K, K) -> bool, r1: seq<nat>, r2: seq<nat>)
    requires StrictTotalOrder(less)
    requires InRange(keys, r1) && InRange(keys, r2)
    requires Sorted(keys, less, r1) && Sorted(keys, less, r2)
    requires multiset(r1) == multiset(r2)
    ensures r1 == r2
    decreases |r1|
  {
    assert |r2| == |multiset(r2)| == |r1|;
    if r1 != [] {
      SameHead(keys, less, r1, r2);
      var a := r1[0];
      assert r1 == [a] + r1[1..] && r2 == [a] + r2[1..];
      assert multiset(r1[1..]) == multiset(r2[1..]) by {
        assert multiset(r1[1..]) == multiset(r1) - multiset([a]);
        assert multiset(r2[1..]) == multiset(r2) - multiset([a]);
      }
      SortedTail(keys, less, r1);
      SortedTail(keys, less, r2);
      SortedUnique(keys, less, r1[1..], r2[1..]);
    }
  }

  lemma SortedTail<K>(keys: seq<K>, less: (K, K) -> bool, s: seq<nat>)
    requires s != [] && InRange(keys, s) && Sorted(keys, less, s)
    ensures InRange(keys, s[1..]) && Sorted(keys, less, s[1..])
  {
    forall p, q | 0 <= p < q < |s| - 1 ensures Before(keys, less, s[1..][p], s[1..][q]) {
      assert s[1..][p] == s[p + 1] && s[1..][q] == s[q + 1];
    }
  }

  /** Both arrangements start with the element that goes before all others. */
  lemma SameHead<K(!new)>(keys: seq<K>, less: (K, K) -> bool, r1: seq<nat>, r2: seq<nat>)
    requires StrictTotalOrder(less)
    requires InRange(keys, r1) && InRange(keys, r2)
    requires Sorted(keys, less, r1) && Sorted(keys, less, r2)
    requires multiset(r1) == multiset(r2) && r1 != [] && r2 != []
    ensures r1[0] == r2[0]
  {
    var a, b := r1[0], r2[0];
    if a != b {
      assert a in multiset(r2) && b in multiset(r1);
      var p :| 0 <= p < |r2| && r2[p] == a;
      var q :| 0 <= q < |r1| && r1[q] == b;
      assert Before(keys, less, b, a) && Before(keys, less, a, b);
      BeforeTotal(keys, less, a, b);
    }
  }

  /** What a client reads off a stably sorted arrangement: the keys never
      decrease along it, and elements with equal keys keep their input order. */
  lemma StablyOrdered<K(!new)>(keys: seq<K>, less: (K, K) -> bool, r: seq<nat>, p: nat, q: nat)
    requires StrictTotalOrder(less) && StablySorted(keys, less, r) && p < q < |r|
    ensures !less(keys[r[q]], keys[r[p]])
    ensures keys[r[p]] == keys[r[q]] ==> r[p] < r[q]
  {
  }

  /** Every entry of `order` is an index of `xs`. */
  predicate Indexes<T>(xs: seq<T>, order: seq<nat>) {
    forall k :: 0 <= k < |order| ==> order[k] < |xs|
  }

  /** The elements of `xs` in the order `order` lists their indices. */
  function Arrange<T>(xs: seq<T>, order: seq<nat>): (r: seq<T>)
    requires Indexes(xs, order)
    ensures |r| == |order|
  {
    if order == [] then [] else [xs[order[0]]] + Arrange(xs, order[1..])
  }

  lemma {:induction false} ArrangeAt<T>(xs: seq<T>, order: seq<nat>, k: nat)
    requires Indexes(xs, order) && k < |order|
    ensures Arrange(xs, order)[k] == xs[order[k]]
  {
    if k > 0 {
      ArrangeAt(xs, order[1..], k - 1);
    }
  }

  lemma {:induction false} ArrangeConcat<T>(xs: seq<T>, a: seq<nat>, b: seq<nat>)
    requires Indexes(xs, a) && Indexes(xs, b)
    ensures Indexes(xs, a + b)
    ensures Arrange(xs, a + b) == Arrange(xs, a) + Arrange(xs, b)
  {
    if a == [] {
      assert a + b == b;
    } else {
      assert (a + b)[1..] == a[1..] + b;
      ArrangeConcat(xs, a[1..], b);
    }
  }

  lemma MultisetRemove(t: seq<nat>, p: nat)
    requires p < |t|
    ensures multiset(t[..p] + t[p + 1..]) == multiset(t) - multiset{t[p]}
  {
    assert t == t[..p] + [t[p]] + t[p + 1..];
    assert multiset(t) == multiset(t[..p]) + multiset{t[p]} + multiset(t[p + 1..]);
  }

  /** Arranging by two index sequences that hold the same indices gives the
      same elements. */
  lemma {:induction false} ArrangeSameIndices<T>(xs: seq<T>, s: seq<nat>, t: seq<nat>)
    requires Indexes(xs, s) && Indexes(xs, t)
    requires multiset(s) == multiset(t)
    ensures multiset(Arrange(xs, s)) == multiset(Arrange(xs, t))
    decreases |s|
  {
    if s == [] {
      assert |t| == |multiset(t)| == 0;
    } else {
      assert s[0] in multiset(t);
      var p :| 0 <= p < |t| && t[p] == s[0];
      ArrangeRemove(xs, s, 0);
      ArrangeRemove(xs, t, p);
      assert s[..0] + s[1..] == s[1..];
      ArrangeSameIndices(xs, s[1..], t[..p] + t[p + 1..]);
    }
  }

  /** Taking the index at `p` out of `order` takes its element out of the
      arrangement. */
  lemma ArrangeRemove<T>(xs: seq<T>, order: seq<nat>, p: nat)
    requires Indexes(xs, order) && p < |order|
    ensures Indexes(xs, order[..p] + order[p + 1..])
    ensures multiset(order[..p] + order[p + 1..]) == multiset(order) - multiset{order[p]}
    ensures multiset(Arrange(xs, order))
         == multiset{xs[order[p]]} + multiset(Arrange(xs, order[..p] + order[p + 1..]))
  {
    var before, after := order[..p], order[p + 1..];
    assert Indexes(xs, before) && Indexes(xs, after) && Indexes(xs, [order[p]]);
    ArrangeConcat(xs, before, [order[p]]);
    ArrangeConcat(xs, before + [order[p]], after);
    ArrangeConcat(xs, before, after);
    assert before + [order[p]] + after == order;
    MultisetRemove(order, p);
  }

  /** Arranging by a stable order permutes the elements. */
  lemma ArrangePermutes<K, T>(keys: seq<K>, less: (K, K) -> bool, xs: seq<T>, order: seq<nat>)
    requires |xs| == |keys| && StablySorted(keys, less, order)
    ensures multiset(Arrange(xs, order)) == multiset(xs)
  {
    ArrangeSameIndices(xs, order, Range(|xs|));
    forall k | 0 <= k < |xs| ensures Arrange(xs, Range(|xs|))[k] == xs[k] {
      ArrangeAt(xs, Range(|xs|), k);
    }
    assert Arrange(xs, Range(|xs|)) == xs;
  }
}
