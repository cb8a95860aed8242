/** Sequence helpers shared by the pipeline: list comprehensions with a
    condition (Filter) and Python's max(xs, key=...) (ArgMaxFirst). */
module Seqs {

  /** [x for x in xs if p(x)] */
  function Filter<T(!new)>(xs: seq<T>, p: T -> bool): (r: seq<T>)
    ensures |r| <= |xs|
    ensures forall x {:trigger x in r} {:trigger x in xs} :: x in r <==> x in xs && p(x)
  {
    if xs == [] then []
    else Filter(xs[..|xs| - 1], p) + (if p(xs[|xs| - 1]) then [xs[|xs| - 1]] else [])
  }

  lemma {:induction false} FilterAppend<T(!new)>(a: seq<T>, b: seq<T>, p: T -> bool)
    ensures Filter(a + b, p) == Filter(a, p) + Filter(b, p)
    decreases |b|
  {
    if b == [] {
      assert a + b == a;
    } else {
      var b' := b[..|b| - 1];
      assert (a + b)[..|a + b| - 1] == a + b';
      FilterAppend(a, b', p);
    }
  }

  lemma {:induction false} FilterNone<T(!new)>(xs: seq<T>, p: T -> bool)
    requires forall x :: x in xs ==> !p(x)
    ensures Filter(xs, p) == []
    decreases |xs|
  {
    if xs != [] {
      assert forall x :: x in xs[..|xs| - 1] ==> x in xs;
      FilterNone(xs[..|xs| - 1], p);
    }
  }

  /** The indices of the elements that satisfy p, in order. */
  function Positions<T>(xs: seq<T>, p: T -> bool): (idx: seq<nat>)
    ensures |idx| <= |xs|
    ensures forall k :: 0 <= k < |idx| ==> idx[k] < |xs|
  {
    if xs == [] then []
    else Positions(xs[..|xs| - 1], p) + (if p(xs[|xs| - 1]) then [|xs| - 1] else [])
  }

  /** The positions increase and are exactly those where p holds. */
  lemma {:induction false} PositionsExact<T>(xs: seq<T>, p: T -> bool)
    ensures var idx := Positions(xs, p);
      && (forall k, l :: 0 <= k < l < |idx| ==> idx[k] < idx[l])
      && (forall j :: 0 <= j < |xs| ==> (p(xs[j]) <==> j in idx))
    decreases |xs|
  {
    if xs != [] {
      var n := |xs| - 1;
      var init := xs[..n];
      PositionsExact(init, p);
      var i0 := Positions(init, p);
      var idx := Positions(xs, p);
      assert idx == i0 + (if p(xs[n]) then [n] else []);
      forall k, l | 0 <= k < l < |idx|
        ensures idx[k] < idx[l]
      {
        if l >= |i0| {
          assert idx[k] == i0[k] < n;
        }
      }
      forall j | 0 <= j < |xs|
        ensures p(xs[j]) <==> j in idx
      {
        if j < n {
          assert init[j] == xs[j];
          assert j in idx <==> j in i0;
        } else {
          assert j !in i0;
        }
      }
    }
  }

  /** The k-th element Filter keeps is the element at the k-th position. */
  lemma {:induction false} FilterAtPositions<T(!new)>(xs: seq<T>, p: T -> bool)
    ensures var idx := Positions(xs, p);
      |Filter(xs, p)| == |idx| && forall k :: 0 <= k < |idx| ==> Filter(xs, p)[k] == xs[idx[k]]
    decreases |xs|
  {
    if xs != [] {
      var n := |xs| - 1;
      var init := xs[..n];
      FilterAtPositions(init, p);
      var f0, i0 := Filter(init, p), Positions(init, p);
      var f, idx := Filter(xs, p), Positions(xs, p);
      assert f == f0 + (if p(xs[n]) then [xs[n]] else []);
      assert idx == i0 + (if p(xs[n]) then [n] else []);
      forall k | 0 <= k < |idx|
        ensures f[k] == xs[idx[k]]
      {
        if k < |i0| {
          assert f[k] == f0[k] && idx[k] == i0[k] && init[i0[k]] == xs[i0[k]];
        }
      }
    }
  }

  lemma FilterKeepsAll<T(!new)>(xs: seq<T>, p: T -> bool)
    requires forall i :: 0 <= i < |xs| ==> p(xs[i])
    ensures Filter(xs, p) == xs
  {
    FilterKeepsPrefix(xs, p, |xs|);
    assert xs[..|xs|] == xs;
  }

  /** The prefixes of a list whose elements all pass are kept whole. */
  lemma {:induction false} FilterKeepsPrefix<T(!new)>(xs: seq<T>, p: T -> bool, n: nat)
    requires forall i :: 0 <= i < |xs| ==> p(xs[i])
    requires n <= |xs|
    ensures Filter(xs[..n], p) == xs[..n]
    decreases n
  {
    if n > 0 {
      FilterKeepsPrefix(xs, p, n - 1);
      assert xs[..n - 1] + [xs[n - 1]] == xs[..n];
      FilterSnoc(xs[..n - 1], xs[n - 1], p);
    }
  }

  /** Filter taking one more element. */
  lemma FilterSnoc<T(!new)>(xs: seq<T>, x: T, p: T -> bool)
    ensures Filter(xs + [x], p) == Filter(xs, p) + (if p(x) then [x] else [])
  {
    assert (xs + [x])[..|xs|] == xs;
  }

  /** Index of the element with the largest key; on ties the earliest one,
      as Python's max() keeps the first maximal element it meets. */
  function ArgMaxFirst<T>(xs: seq<T>, key: T -> real): (k: nat)
    requires |xs| > 0
    ensures k < |xs|
    ensures forall j :: 0 <= j < |xs| ==> key(xs[j]) <= key(xs[k])
    ensures forall j :: 0 <= j < k ==> key(xs[j]) < key(xs[k])
    decreases |xs|
  {
    if |xs| == 1 then 0
    else
      var k := ArgMaxFirst(xs[..|xs| - 1], key);
      if key(xs[|xs| - 1]) > key(xs[k]) then |xs| - 1 else k
  }

  /** sum(1 for x in xs if p(x)) */
  function Count<T>(xs: seq<T>, p: T -> bool): (n: nat)
    ensures n <= |xs|
  {
    if xs == [] then 0
    else Count(xs[..|xs| - 1], p) + (if p(xs[|xs| - 1]) then 1 else 0)
  }

  lemma {:induction false} CountAppend<T>(a: seq<T>, b: seq<T>, p: T -> bool)
    ensures Count(a + b, p) == Count(a, p) + Count(b, p)
    decreases |b|
  {
    if b == [] {
      assert a + b == a;
    } else {
      var b' := b[..|b| - 1];
      assert (a + b)[..|a + b| - 1] == a + b';
      CountAppend(a, b', p);
    }
  }

  /** Count is the length of the filtered sequence. */
  lemma {:induction false} CountIsFilterLength<T(!new)>(xs: seq<T>, p: T -> bool)
    ensures Count(xs, p) == |Filter(xs, p)|
    decreases |xs|
  {
    if xs != [] {
      CountIsFilterLength(xs[..|xs| - 1], p);
    }
  }

  /** A positive count has a witness. */
  lemma {:induction false} CountPositive<T>(xs: seq<T>, p: T -> bool)
    ensures Count(xs, p) > 0 <==> exists i :: 0 <= i < |xs| && p(xs[i])
    decreases |xs|
  {
    if xs != [] {
      var init := xs[..|xs| - 1];
      CountPositive(init, p);
      assert forall i :: 0 <= i < |init| ==> init[i] == xs[i];
    }
  }
}
