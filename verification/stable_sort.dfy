/** `Array.prototype.sort` with a numeric comparator is stable: elements whose comparator
    result is 0 keep their input order. The sorts of the analytics code are all of the
    form "descending by a numeric key" (an ascending sort is a descending sort by the
    negated key), so one stable sort serves them all. It sorts the INDICES of the input:
    index `i` goes before index `j` exactly when its key is larger, or the keys are equal
    and `i < j`. */
module StableSort {

  /** In a stable descending sort, index `i` is placed before index `j`. */
  predicate Precedes(keys: seq<real>, i: nat, j: nat)
    requires i < |keys| && j < |keys|
  {
    keys[i] > keys[j] || (keys[i] == keys[j] && i < j)
  }

  /** Every entry of `order` is an index below `n`. */
  predicate Indices(n: nat, order: seq<nat>)
  {
    forall k :: 0 <= k < |order| ==> order[k] < n
  }

  /** `order` lists indices of `keys` in the stable descending order. */
  predicate Ordered(keys: seq<real>, order: seq<nat>)
  {
    && Indices(|keys|, order)
    && (forall a, b :: 0 <= a < b < |order| ==> Precedes(keys, order[a], order[b]))
  }

  /** Inserts index `i` before the first index it precedes. */
  function Insert(keys: seq<real>, i: nat, order: seq<nat>): (r: seq<nat>)
    requires i < |keys|
    requires Indices(|keys|, order)
    ensures Indices(|keys|, r)
    ensures |r| == |order| + 1
    ensures forall x :: x in r <==> x == i || x in order
  {
    if |order| == 0 then [i]
    else if Precedes(keys, i, order[0]) then [i] + order
    else [order[0]] + Insert(keys, i, order[1..])
  }

  /** Insertion keeps a list ordered. */
  lemma {:induction false} InsertOrdered(keys: seq<real>, i: nat, order: seq<nat>)
    requires i < |keys|
    requires Ordered(keys, order)
    requires i !in order
    ensures Ordered(keys, Insert(keys, i, order))
  {
    if |order| > 0 && !Precedes(keys, i, order[0]) {
      var rest := Insert(keys, i, order[1..]);
      InsertOrdered(keys, i, order[1..]);
      assert forall x :: x in order[1..] ==> Precedes(keys, order[0], x);
      assert forall k :: 0 <= k < |rest| ==> Precedes(keys, order[0], rest[k]);
    }
  }

  /** The indices `0 .. n-1` in stable descending order of their keys. */
  function OrderPrefix(keys: seq<real>, n: nat): (r: seq<nat>)
    requires n <= |keys|
    ensures Ordered(keys, r)
    ensures |r| == n
    ensures forall x :: x in r <==> 0 <= x < n
  {
    if n == 0 then []
    else
      var prefix := OrderPrefix(keys, n - 1);
      InsertOrdered(keys, n - 1, prefix);
      Insert(keys, n - 1, prefix)
  }

  /** Every index of `keys`, in stable descending order of their keys. */
  function Order(keys: seq<real>): (r: seq<nat>)
    ensures Ordered(keys, r)
    ensures |r| == |keys|
    ensures forall x :: x in r <==> 0 <= x < |keys|
  {
    OrderPrefix(keys, |keys|)
  }

  /** The elements of `s` rearranged as `order` lists their indices. */
  function Permute<T>(s: seq<T>, order: seq<nat>): (r: seq<T>)
    requires forall k :: 0 <= k < |order| ==> order[k] < |s|
    ensures |r| == |order|
    ensures forall k :: 0 <= k < |order| ==> r[k] == s[order[k]]
  {
    seq(|order|, k requires 0 <= k < |order| => s[order[k]])
  }

  /** Sorting `s` stably by descending key, keys given per position. */
  function SortDesc<T>(s: seq<T>, keys: seq<real>): (r: seq<T>)
    requires |keys| == |s|
    ensures |r| == |s|
    ensures forall a, b :: 0 <= a < b < |r| ==>
      keys[Order(keys)[a]] >= keys[Order(keys)[b]]
    ensures forall k :: 0 <= k < |r| ==> r[k] == s[Order(keys)[k]]
  {
    Permute(s, Order(keys))
  }

  /** An ordered list never repeats an index. */
  lemma OrderedDistinct(keys: seq<real>, order: seq<nat>)
    requires Ordered(keys, order)
    ensures forall a, b :: 0 <= a < |order| && 0 <= b < |order| && a != b ==> order[a] != order[b]
  {
    forall a, b | 0 <= a < |order| && 0 <= b < |order| && a != b
      ensures order[a] != order[b]
    {
      if a < b {
        assert Precedes(keys, order[a], order[b]);
      } else {
        assert Precedes(keys, order[b], order[a]);
      }
    }
  }

  lemma PermuteCons<T>(s: seq<T>, x: nat, rest: seq<nat>)
    requires x < |s|
    requires Indices(|s|, rest)
    ensures Permute(s, [x] + rest) == [s[x]] + Permute(s, rest)
  {
  }

  /** Putting the same index in front of two rearrangements keeps the difference of
      their multisets. */
  lemma ConsMultiset<T>(s: seq<T>, x: nat, rest: seq<nat>, other: seq<nat>, extra: T)
    requires x < |s| && Indices(|s|, rest) && Indices(|s|, other)
    requires multiset(Permute(s, rest)) == multiset(Permute(s, other)) + multiset{extra}
    ensures multiset(Permute(s, [x] + rest)) == multiset(Permute(s, [x] + other)) + multiset{extra}
  {
    PermuteCons(s, x, rest);
    PermuteCons(s, x, other);
    assert multiset([s[x]] + Permute(s, rest)) == multiset{s[x]} + multiset(Permute(s, rest));
    assert multiset([s[x]] + Permute(s, other)) == multiset{s[x]} + multiset(Permute(s, other));
  }

  /** Rearranging by an insertion adds exactly the inserted element. */
  lemma {:induction false} InsertMultiset<T>(s: seq<T>, keys: seq<real>, i: nat, order: seq<nat>)
    requires |keys| == |s|
    requires i < |keys|
    requires Indices(|keys|, order)
    ensures multiset(Permute(s, Insert(keys, i, order))) == multiset(Permute(s, order)) + multiset{s[i]}
  {
    if |order| == 0 {
      assert Permute(s, [i]) == [s[i]];
    } else if Precedes(keys, i, order[0]) {
      PermuteCons(s, i, order);
    } else {
      var rest := Insert(keys, i, order[1..]);
      InsertMultiset(s, keys, i, order[1..]);
      ConsMultiset(s, order[0], rest, order[1..], s[i]);
      assert Insert(keys, i, order) == [order[0]] + rest;
      assert [order[0]] + order[1..] == order;
    }
  }

  lemma {:induction false} OrderPrefixMultiset<T>(s: seq<T>, keys: seq<real>, n: nat)
    requires |keys| == |s|
    requires n <= |s|
    ensures multiset(Permute(s, OrderPrefix(keys, n))) == multiset(s[..n])
  {
    if n > 0 {
      var m := n - 1;
      var prefix := OrderPrefix(keys, m);
      OrderPrefixMultiset(s, keys, m);
      InsertMultiset(s, keys, m, prefix);
      PrefixSnoc(s, m);
    }
  }

  lemma PrefixSnoc<T>(s: seq<T>, m: nat)
    requires m < |s|
    ensures multiset(s[..m + 1]) == multiset(s[..m]) + multiset{s[m]}
  {
    assert s[..m + 1] == s[..m] + [s[m]];
  }

  /** The stable sort is a permutation of its input. */
  lemma SortDescIsPermutation<T>(s: seq<T>, keys: seq<real>)
    requires |keys| == |s|
    ensures multiset(SortDesc(s, keys)) == multiset(s)
  {
    OrderPrefixMultiset(s, keys, |s|);
    assert s[..|s|] == s;
  }

  /** The stable sort is stable: among equal keys, input order is kept. */
  lemma SortDescIsStable<T>(s: seq<T>, keys: seq<real>, a: nat, b: nat)
    requires |keys| == |s|
    requires a < b < |s|
    requires keys[Order(keys)[a]] == keys[Order(keys)[b]]
    ensures Order(keys)[a] < Order(keys)[b]
  {
    assert Precedes(keys, Order(keys)[a], Order(keys)[b]);
  }
}
