/** Python's `sorted(xs, key=k, reverse=True)` is stable: items with equal keys
    keep their input order. It is modelled on positions: the result is the list
    of input positions ordered by key, largest first, and by position among
    equal keys. That order is strict and total, so the result is unique. */
module Sorting {

  import opened Common

  /** Position a comes before position b in the stable descending order. */
  predicate Precedes(keys: seq<real>, a: nat, b: nat)
    requires a < |keys| && b < |keys|
  {
    keys[a] > keys[b] || (keys[a] == keys[b] && a < b)
  }

  predicate InStableDescOrder(keys: seq<real>, r: seq<nat>)
  {
    && (forall j :: 0 <= j < |r| ==> r[j] < |keys|)
    && (forall p, q :: 0 <= p < q < |r| ==> Precedes(keys, r[p], r[q]))
  }

  predicate NonIncreasing(xs: seq<real>)
  {
    forall p, q :: 0 <= p < q < |xs| ==> xs[p] >= xs[q]
  }

  predicate NonDecreasing(xs: seq<real>)
  {
    forall p, q :: 0 <= p < q < |xs| ==> xs[p] <= xs[q]
  }

  /** Puts position i, which is after every position already in r, behind all
      positions whose key is at least keys[i]. */
  function Insert(keys: seq<real>, r: seq<nat>, i: nat): (res: seq<nat>)
    requires i < |keys|
    requires InStableDescOrder(keys, r)
    requires forall j :: 0 <= j < |r| ==> r[j] < i
    ensures |res| == |r| + 1
    ensures forall x :: x in res <==> x in r || x == i
    ensures InStableDescOrder(keys, res)
  {
    if r == [] then [i]
    else if keys[r[0]] >= keys[i] then
      var rest := Insert(keys, r[1..], i);
      InsertBehindHead(keys, r, i, rest);
      [r[0]] + rest
    else
      InsertInFront(keys, r, i);
      [i] + r
  }

  lemma InsertBehindHead(keys: seq<real>, r: seq<nat>, i: nat, rest: seq<nat>)
    requires i < |keys| && r != [] && InStableDescOrder(keys, r)
    requires forall j :: 0 <= j < |r| ==> r[j] < i
    requires keys[r[0]] >= keys[i]
    requires forall x :: x in rest <==> x in r[1..] || x == i
    requires InStableDescOrder(keys, rest)
    ensures forall x :: x in [r[0]] + rest <==> x in r || x == i
    ensures InStableDescOrder(keys, [r[0]] + rest)
  {
    assert r == [r[0]] + r[1..];
    assert forall x :: x in r[1..] ==> x in r;
    assert forall q :: 0 <= q < |rest| ==> rest[q] in r[1..] || rest[q] == i;
  }

  lemma InsertInFront(keys: seq<real>, r: seq<nat>, i: nat)
    requires i < |keys| && r != [] && InStableDescOrder(keys, r)
    requires forall j :: 0 <= j < |r| ==> r[j] < i
    requires keys[r[0]] < keys[i]
    ensures InStableDescOrder(keys, [i] + r)
  {
    assert forall q :: 0 <= q < |r| ==> keys[r[q]] <= keys[r[0]];
  }

  /** The first n positions of `keys` in stable descending order of their key. */
  function SortIndicesDesc(keys: seq<real>, n: nat): (r: seq<nat>)
    requires n <= |keys|
    ensures |r| == n
    ensures forall x: int :: x in r <==> 0 <= x < n
    ensures InStableDescOrder(keys, r)
  {
    if n == 0 then []
    else
      var prev := SortIndicesDesc(keys, n - 1);
      assert forall j :: 0 <= j < |prev| ==> prev[j] in prev;
      Insert(keys, prev, n - 1)
  }

  /** All positions of `keys` in stable descending order. */
  function StableOrder(keys: seq<real>): (r: seq<nat>)
    ensures |r| == |keys|
    ensures forall x: int :: x in r <==> 0 <= x < |keys|
    ensures InStableDescOrder(keys, r)
  {
    SortIndicesDesc(keys, |keys|)
  }

  /** `sorted(enumerate(keys), key=..., reverse=True)[:k]`, as positions. */
  function TopPositions(keys: seq<real>, k: int): (r: seq<nat>)
    ensures r == StableOrder(keys)[..SliceStop(|keys|, k)]
    ensures |r| == SliceStop(|keys|, k)
    ensures InStableDescOrder(keys, r)
    ensures forall p, q :: 0 <= p < q < |r| ==> r[p] != r[q]
    ensures forall x, j :: 0 <= x < |keys| && x !in r && 0 <= j < |r| ==> Precedes(keys, r[j], x)
  {
    var order := StableOrder(keys);
    var r := order[..SliceStop(|keys|, k)];
    assert forall p, q :: 0 <= p < q < |r| ==> Precedes(keys, r[p], r[q]);
    PrefixDominates(keys, order, |r|);
    r
  }

  /** A prefix of the stable order comes before every position left out of
      it. */
  lemma PrefixDominates(keys: seq<real>, order: seq<nat>, n: nat)
    requires n <= |order|
    requires InStableDescOrder(keys, order)
    requires forall x: int :: x in order <==> 0 <= x < |keys|
    ensures forall x, j :: 0 <= x < |keys| && x !in order[..n] && 0 <= j < n ==> Precedes(keys, order[j], x)
  {
    forall x, j | 0 <= x < |keys| && x !in order[..n] && 0 <= j < n
      ensures Precedes(keys, order[j], x)
    {
      assert x in order;
      var m :| 0 <= m < |order| && order[m] == x;
      assert n <= m;
    }
  }

  /** When keys are already non-increasing, the stable order keeps every
      position where it is. */
  lemma {:induction false} StableOrderOfNonIncreasing(keys: seq<real>, n: nat)
    requires n <= |keys|
    requires NonIncreasing(keys)
    ensures SortIndicesDesc(keys, n) == seq(n, i => i)
  {
    if n > 0 {
      var ids := seq(n - 1, i => i);
      assert ids + [n - 1] == seq(n, i => i);
      StableOrderOfNonIncreasing(keys, n - 1);
      assert forall j :: 0 <= j < |ids| ==> ids[j] < n - 1 && keys[ids[j]] >= keys[n - 1];
      InsertBehindAll(keys, ids, n - 1);
    }
  }

  lemma {:induction false} InsertBehindAll(keys: seq<real>, r: seq<nat>, i: nat)
    requires i < |keys|
    requires InStableDescOrder(keys, r)
    requires forall j :: 0 <= j < |r| ==> r[j] < i && keys[r[j]] >= keys[i]
    ensures Insert(keys, r, i) == r + [i]
  {
    if r != [] {
      InsertBehindAll(keys, r[1..], i);
      assert [r[0]] + (r[1..] + [i]) == r + [i];
    }
  }

  /** Every position missing from the first k of the stable order has a key no
      larger than the last key kept. */
  lemma TopKDominates(keys: seq<real>, k: nat, x: nat)
    requires 0 < k <= |keys|
    requires x < |keys| && x !in StableOrder(keys)[..k]
    ensures keys[x] <= keys[StableOrder(keys)[k - 1]]
  {
    var r := StableOrder(keys);
    assert x in r;
    var j :| 0 <= j < |r| && r[j] == x;
    assert forall i :: 0 <= i < k ==> r[i] in r[..k];
    assert k - 1 < j;
    assert Precedes(keys, r[k - 1], r[j]);
  }

  /** `sorted(xs, reverse=True)` on plain values, largest first. */
  function SortDesc(xs: seq<real>): (r: seq<real>)
    ensures |r| == |xs|
    ensures NonIncreasing(r)
    ensures multiset(r) == multiset(xs)
  {
    if xs == [] then []
    else
      assert xs == xs[..|xs| - 1] + [xs[|xs| - 1]];
      InsertDesc(SortDesc(xs[..|xs| - 1]), xs[|xs| - 1])
  }

  function InsertDesc(r: seq<real>, x: real): (res: seq<real>)
    requires NonIncreasing(r)
    ensures |res| == |r| + 1
    ensures forall y :: y in res ==> y in r || y == x
    ensures NonIncreasing(res)
    ensures multiset(res) == multiset(r) + multiset{x}
  {
    if r == [] then [x]
    else if r[0] >= x then
      var rest := InsertDesc(r[1..], x);
      assert r == [r[0]] + r[1..];
      HeadDominates(r, x, rest);
      ConsNonIncreasing(r[0], rest);
      [r[0]] + rest
    else
      ConsNonIncreasing(x, r);
      [x] + r
  }

  /** The head of a non-increasing list, at least x, is at least every item
      of what inserting x into its tail gives. */
  lemma HeadDominates(r: seq<real>, x: real, rest: seq<real>)
    requires r != [] && NonIncreasing(r) && r[0] >= x
    requires forall y :: y in rest ==> y in r[1..] || y == x
    ensures forall q :: 0 <= q < |rest| ==> r[0] >= rest[q]
  {
    forall q | 0 <= q < |rest|
      ensures r[0] >= rest[q]
    {
      assert rest[q] in rest;
      if rest[q] != x {
        var k :| 0 <= k < |r[1..]| && r[1..][k] == rest[q];
        assert r[k + 1] == rest[q];
      }
    }
  }

  lemma ConsNonIncreasing(a: real, rest: seq<real>)
    requires NonIncreasing(rest) && forall q :: 0 <= q < |rest| ==> a >= rest[q]
    ensures NonIncreasing([a] + rest)
  {
    var s := [a] + rest;
    forall p, q | 0 <= p < q < |s|
      ensures s[p] >= s[q]
    {
      assert s[q] == rest[q - 1];
      if p > 0 {
        assert s[p] == rest[p - 1];
      }
    }
  }

  /** `sorted(xs)` on plain values, smallest first. */
  function SortAsc(xs: seq<real>): (r: seq<real>)
    ensures |r| == |xs|
    ensures NonDecreasing(r)
    ensures multiset(r) == multiset(xs)
  {
    if xs == [] then []
    else
      assert xs == xs[..|xs| - 1] + [xs[|xs| - 1]];
      InsertAsc(SortAsc(xs[..|xs| - 1]), xs[|xs| - 1])
  }

  function InsertAsc(r: seq<real>, x: real): (res: seq<real>)
    requires NonDecreasing(r)
    ensures |res| == |r| + 1
    ensures forall y :: y in res ==> y in r || y == x
    ensures NonDecreasing(res)
    ensures multiset(res) == multiset(r) + multiset{x}
  {
    if r == [] then [x]
    else if r[0] <= x then
      var rest := InsertAsc(r[1..], x);
      assert r == [r[0]] + r[1..];
      HeadIsLeast(r, x, rest);
      ConsNonDecreasing(r[0], rest);
      [r[0]] + rest
    else
      ConsNonDecreasing(x, r);
      [x] + r
  }

  lemma HeadIsLeast(r: seq<real>, x: real, rest: seq<real>)
    requires r != [] && NonDecreasing(r) && r[0] <= x
    requires forall y :: y in rest ==> y in r[1..] || y == x
    ensures forall q :: 0 <= q < |rest| ==> r[0] <= rest[q]
  {
    forall q | 0 <= q < |rest|
      ensures r[0] <= rest[q]
    {
      assert rest[q] in rest;
      if rest[q] != x {
        var k :| 0 <= k < |r[1..]| && r[1..][k] == rest[q];
        assert r[k + 1] == rest[q];
      }
    }
  }

  lemma ConsNonDecreasing(a: real, rest: seq<real>)
    requires NonDecreasing(rest) && forall q :: 0 <= q < |rest| ==> a <= rest[q]
    ensures NonDecreasing([a] + rest)
  {
    var s := [a] + rest;
    forall p, q | 0 <= p < q < |s|
      ensures s[p] <= s[q]
    {
      assert s[q] == rest[q - 1];
      if p > 0 {
        assert s[p] == rest[p - 1];
      }
    }
  }
}
