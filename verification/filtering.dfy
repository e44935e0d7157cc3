/** `Array.prototype.filter` and the first-match `find`: the filters of the calculators
    keep the elements satisfying a predicate, in their input order. A filter is described
    by the POSITIONS it keeps, so that order and completeness can both be stated. */
module Filtering {
  import opened Options

  /** The positions of `s` whose element satisfies `p`, in increasing order. */
  function Positions<T>(s: seq<T>, p: T -> bool): (ps: seq<nat>)
    ensures |ps| <= |s|
    ensures forall k :: 0 <= k < |ps| ==> ps[k] < |s| && p(s[ps[k]])
    ensures forall a, b :: 0 <= a < b < |ps| ==> ps[a] < ps[b]
    ensures forall i :: 0 <= i < |s| && p(s[i]) ==> i in ps
  {
    if |s| == 0 then []
    else
      var n := |s| - 1;
      var front := Positions(s[..n], p);
      assert forall k :: 0 <= k < |front| ==> s[..n][front[k]] == s[front[k]];
      front + (if p(s[n]) then [n] else [])
  }

  /** `s.filter(p)` */
  function Filter<T>(s: seq<T>, p: T -> bool): (r: seq<T>)
    ensures |r| == |Positions(s, p)|
    ensures forall k :: 0 <= k < |r| ==> r[k] == s[Positions(s, p)[k]]
  {
    var ps := Positions(s, p);
    seq(|ps|, k requires 0 <= k < |ps| => s[ps[k]])
  }

  /** The filter keeps exactly the elements satisfying the predicate. */
  lemma FilterMembers<T>(s: seq<T>, p: T -> bool)
    ensures forall x :: x in Filter(s, p) <==> x in s && p(x)
  {
    var r := Filter(s, p);
    var ps := Positions(s, p);
    forall x | x in s && p(x)
      ensures x in r
    {
      var i :| 0 <= i < |s| && s[i] == x;
      var k :| 0 <= k < |ps| && ps[k] == i;
      assert r[k] == x;
    }
  }

  /** Filtering one more element appends it exactly when it passes. */
  lemma FilterSnoc<T>(s: seq<T>, x: T, p: T -> bool)
    ensures Filter(s + [x], p) == Filter(s, p) + (if p(x) then [x] else [])
  {
    assert (s + [x])[..|s|] == s;
  }

  /** When every element passes exactly one of three predicates, the three filters
      together are as long as the input. */
  lemma {:induction false} PartitionSizes<T>(s: seq<T>, p: T -> bool, q: T -> bool, r: T -> bool)
    requires forall x :: x in s ==> (if p(x) then 1 else 0) + (if q(x) then 1 else 0) + (if r(x) then 1 else 0) == 1
    ensures |Filter(s, p)| + |Filter(s, q)| + |Filter(s, r)| == |s|
  {
    if |s| > 0 {
      var n := |s| - 1;
      PartitionSizes(s[..n], p, q, r);
      assert s == s[..n] + [s[n]];
      FilterSnoc(s[..n], s[n], p);
      FilterSnoc(s[..n], s[n], q);
      FilterSnoc(s[..n], s[n], r);
    }
  }

  /** `s.find(p)`: the first element satisfying `p`, if any. */
  function Find<T(==)>(s: seq<T>, p: T -> bool): (r: Option<T>)
    ensures r.None? <==> forall i :: 0 <= i < |s| ==> !p(s[i])
    ensures r.Some? ==> exists k :: (0 <= k < |s| && s[k] == r.value && p(s[k])
      && forall j :: 0 <= j < k ==> !p(s[j]))
  {
    if |s| == 0 then None
    else if p(s[0]) then Some(s[0])
    else
      var rest := Find(s[1..], p);
      assert forall i :: 1 <= i < |s| ==> s[i] == s[1..][i - 1];
      if rest.Some? then
        var k :| 0 <= k < |s[1..]| && s[1..][k] == rest.value && p(s[1..][k])
          && forall j :: 0 <= j < k ==> !p(s[1..][j]);
        assert s[k + 1] == rest.value;
        rest
      else rest
  }

  /** The first `n` elements, or all of them when there are fewer: `s.slice(0, n)` for
      `n >= 0`; a negative `n` counts from the end, as `slice` does. */
  function Take<T>(s: seq<T>, n: int): (r: seq<T>)
    ensures n >= 0 ==> |r| == if n < |s| then n else |s|
    ensures n < 0 ==> |r| == if |s| + n > 0 then |s| + n else 0
    ensures r == s[..|r|]
  {
    if n >= 0 then (if n < |s| then s[..n] else s)
    else if |s| + n > 0 then s[..|s| + n]
    else []
  }

  /** The position of the first occurrence of `x` in `s`: `s.indexOf(x)`. */
  function FirstIndex<T(==)>(s: seq<T>, x: T): (i: nat)
    requires x in s
    ensures i < |s| && s[i] == x
    ensures forall j :: 0 <= j < i ==> s[j] != x
  {
    if s[0] == x then 0 else 1 + FirstIndex(s[1..], x)
  }

  /** An element of a prefix first occurs at the same position in the whole sequence. */
  lemma FirstIndexPrefix<T>(s: seq<T>, n: nat, x: T)
    requires n <= |s| && x in s[..n]
    ensures FirstIndex(s, x) == FirstIndex(s[..n], x)
  {
    var i := FirstIndex(s[..n], x);
    assert s[..n][i] == s[i];
    assert forall j :: 0 <= j < i ==> s[j] == s[..n][j];
  }

  /** Distinct elements in the order of their first occurrence: `[...new Set(s)]`. */
  function Dedup<T(==, !new)>(s: seq<T>): (r: seq<T>)
    ensures DedupOf(s, r)
    ensures |r| <= |s|
  {
    if |s| == 0 then []
    else
      var front := Dedup(s[..|s| - 1]);
      DedupStep(s, front);
      if s[|s| - 1] in front then front else front + [s[|s| - 1]]
  }

  /** `r` holds the elements of `s`, each once, in the order they first occur in `s`. */
  ghost predicate DedupOf<T(!new)>(s: seq<T>, r: seq<T>)
  {
    && (forall x :: x in r <==> x in s)
    && (forall a, b :: 0 <= a < b < |r| ==> r[a] != r[b])
    && (forall a, b :: 0 <= a < b < |r| ==> FirstIndex(s, r[a]) < FirstIndex(s, r[b]))
  }

  /** The recursive step of `Dedup`: the last element is appended exactly when it is new,
      and then it first occurs after all the others. */
  lemma DedupStep<T(!new)>(s: seq<T>, front: seq<T>)
    requires |s| > 0 && DedupOf(s[..|s| - 1], front) && |front| <= |s| - 1
    ensures var r := if s[|s| - 1] in front then front else front + [s[|s| - 1]];
      DedupOf(s, r) && |r| <= |s|
  {
    var n := |s| - 1;
    assert s == s[..n] + [s[n]];
    forall k | 0 <= k < |front|
      ensures FirstIndex(s, front[k]) == FirstIndex(s[..n], front[k]) < n
    {
      FirstIndexPrefix(s, n, front[k]);
    }
    if s[n] !in front {
      assert s[n] !in s[..n];
      assert FirstIndex(s, s[n]) == n;
      var r := front + [s[n]];
      forall a, b | 0 <= a < b < |r|
        ensures FirstIndex(s, r[a]) < FirstIndex(s, r[b])
      {
        assert r[a] == front[a];
        if b < |front| {
          assert r[b] == front[b];
        }
      }
    }
  }
}
