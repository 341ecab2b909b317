/** Sequence helpers shared by the grid, streaming, lookup and import models. */
module Seqs {

  function Min(a: int, b: int): int { if a <= b then a else b }

  function Max(a: int, b: int): int { if a >= b then a else b }

  /** Flattens a sequence of blocks, keeping blocks and their elements in order. */
  function Concat<T>(xss: seq<seq<T>>): seq<T>
  {
    if |xss| == 0 then [] else xss[0] + Concat(xss[1..])
  }

  lemma {:induction false} ConcatOne<T>(x: seq<T>, xss: seq<seq<T>>)
    ensures Concat([x] + xss) == x + Concat(xss)
  {
    assert ([x] + xss)[1..] == xss;
  }

  lemma {:induction false} ConcatSplit<T>(a: seq<seq<T>>, b: seq<seq<T>>)
    ensures Concat(a + b) == Concat(a) + Concat(b)
    decreases |a|
  {
    if |a| == 0 {
      assert a + b == b;
    } else {
      assert (a + b)[1..] == a[1..] + b;
      ConcatSplit(a[1..], b);
    }
  }

  /** Every element of a flattened sequence comes from one of its blocks. */
  lemma {:induction false} ConcatMember<T>(xss: seq<seq<T>>, x: T)
    requires x in Concat(xss)
    ensures exists k :: 0 <= k < |xss| && x in xss[k]
    decreases |xss|
  {
    if x !in xss[0] {
      ConcatMember(xss[1..], x);
      var k :| 0 <= k < |xss[1..]| && x in xss[1..][k];
      assert x in xss[k + 1];
    }
  }

  lemma MulSucc(a: int, m: int)
    ensures (a + 1) * m == a * m + m
  {
  }

  lemma MulMonotone(a: nat, b: nat, m: nat)
    requires a <= b
    ensures a * m <= b * m
  {
  }

  /** Euclidean division has a unique quotient. */
  lemma DivUnique(n: nat, m: nat, q: nat, rm: nat)
    requires 0 < m && rm < m && n == q * m + rm
    ensures n / m == q
  {
    var q', r' := n / m, n % m;
    assert n == q' * m + r' && 0 <= r' < m;
    if q' < q {
      MulMonotone(q' + 1, q, m);
      MulSucc(q', m);
    } else if q < q' {
      MulMonotone(q + 1, q', m);
      MulSucc(q, m);
    }
  }

  lemma DivStep(n: nat, m: nat)
    requires 0 < m <= n
    ensures n / m == 1 + (n - m) / m
  {
    var q, rm := (n - m) / m, (n - m) % m;
    assert n - m == q * m + rm && 0 <= rm < m;
    MulSucc(q, m);
    DivUnique(n, m, q + 1, rm);
  }

  /** Blocks of one length m flatten to |xss| * m elements. */
  lemma {:induction false} ConcatUniformLength<T>(xss: seq<seq<T>>, m: nat)
    requires forall k :: 0 <= k < |xss| ==> |xss[k]| == m
    ensures |Concat(xss)| == |xss| * m
    decreases |xss|
  {
    if |xss| > 0 {
      ConcatUniformLength(xss[1..], m);
      MulSucc(|xss| - 1, m);
    }
  }

  /** Blocks of one length m: element j of block i sits at position i*m + j. */
  lemma {:induction false} ConcatUniformAt<T>(xss: seq<seq<T>>, m: nat, i: nat, j: nat)
    requires forall k :: 0 <= k < |xss| ==> |xss[k]| == m
    requires i < |xss| && j < m
    ensures i * m + j < |Concat(xss)| && Concat(xss)[i * m + j] == xss[i][j]
    decreases i
  {
    ConcatUniformLength(xss, m);
    if i > 0 {
      ConcatUniformAt(xss[1..], m, i - 1, j);
      MulSucc(i - 1, m);
      assert xss[1..][i - 1] == xss[i];
    }
  }

  /**
    * Cuts xs into consecutive blocks of `size` elements and drops a final
    * partial block, as a batching step with `drop_remainder=True` does.
    */
  function Batch<T>(xs: seq<T>, size: nat): (r: seq<seq<T>>)
    requires size > 0
    ensures |r| == |xs| / size
    ensures forall i :: 0 <= i < |r| ==> |r[i]| == size
    ensures |r| * size <= |xs| && Concat(r) == xs[..|r| * size]
    decreases |xs|
  {
    if |xs| < size then []
    else
      var rest := Batch(xs[size..], size);
      BatchStep(xs, size, rest);
      [xs[..size]] + rest
  }

  /**
    * bs is the batching of xs into blocks of `size`: as many full blocks as
    * fit, each of `size` elements, which laid end to end are the front of xs.
    */
  predicate Batched<T(==)>(bs: seq<seq<T>>, xs: seq<T>, size: nat)
    requires size > 0
  {
    && |bs| == |xs| / size
    && (forall i :: 0 <= i < |bs| ==> |bs[i]| == size)
    && |bs| * size <= |xs| && Concat(bs) == xs[..|bs| * size]
  }

  /** The step of Batch: one full block in front of the batches of the remainder. */
  lemma BatchStep<T>(xs: seq<T>, size: nat, rest: seq<seq<T>>)
    requires 0 < size <= |xs|
    requires |rest| == (|xs| - size) / size
    requires forall i :: 0 <= i < |rest| ==> |rest[i]| == size
    requires |rest| * size <= |xs| - size && Concat(rest) == xs[size..][..|rest| * size]
    ensures var r := [xs[..size]] + rest;
      && |r| == |xs| / size
      && (forall i :: 0 <= i < |r| ==> |r[i]| == size)
      && |r| * size <= |xs| && Concat(r) == xs[..|r| * size]
  {
    ConcatOne(xs[..size], rest);
    DivStep(|xs|, size);
    MulSucc(|rest|, size);
    assert xs[..size] + xs[size..][..|rest| * size] == xs[..size + |rest| * size];
  }

  /** Batch i holds exactly the elements xs[i*size .. (i+1)*size]. */
  lemma BatchAt<T>(xs: seq<T>, size: nat, i: nat)
    requires size > 0 && i < |xs| / size
    ensures (i + 1) * size <= |xs|
    ensures Batch(xs, size)[i] == xs[i * size..(i + 1) * size]
  {
    var r := Batch(xs, size);
    MulSucc(i, size);
    MulMonotone(i + 1, |r|, size);
    forall j | 0 <= j < size
      ensures r[i][j] == xs[i * size..(i + 1) * size][j]
    {
      ConcatUniformAt(r, size, i, j);
    }
  }

  /**
    * Python's normalisation of a slice start for a sequence of length n:
    * a negative start counts from the end and every start is clamped to [0, n].
    */
  function SliceStart(start: int, n: nat): (r: nat)
    ensures r <= n
    ensures 0 <= start <= n ==> r == start
    ensures start < 0 && n + start >= 0 ==> r == n + start
  {
    if start < 0 then (if n + start < 0 then 0 else n + start)
    else if start > n then n else start
  }

  /** Python's `s[lo:hi]` for non-negative bounds: both ends clamped to |s|. */
  function ClampedSlice<T>(s: seq<T>, lo: nat, hi: nat): (r: seq<T>)
    requires lo <= hi
    ensures |r| == Max(0, Min(hi, |s|) - lo)
    ensures forall k :: 0 <= k < |r| ==> r[k] == s[lo + k]
  {
    if |s| <= lo then [] else s[lo..Min(hi, |s|)]
  }

  /**
    * The elements s[start], s[start+step], s[start+2*step], ... that lie in s:
    * Python's `s[start::step]` once the start is normalised.
    */
  function StrideFrom<T>(s: seq<T>, start: nat, step: nat): (r: seq<T>)
    requires step > 0
    ensures start <= |s| ==> (|r| - 1) * step < |s| - start <= |r| * step
    ensures forall k :: 0 <= k < |r| ==> start + k * step < |s| && r[k] == s[start + k * step]
    decreases |s| - start
  {
    if start >= |s| then []
    else
      var rest := StrideFrom(s, start + step, step);
      StrideStep(s, start, step, rest);
      [s[start]] + rest
  }

  /** The step of StrideFrom: s[start] in front of the stride from start + step. */
  lemma StrideStep<T>(s: seq<T>, start: nat, step: nat, rest: seq<T>)
    requires step > 0 && start < |s|
    requires start + step <= |s| ==> (|rest| - 1) * step < |s| - (start + step) <= |rest| * step
    requires start + step > |s| ==> rest == []
    requires forall k :: 0 <= k < |rest| ==>
      start + step + k * step < |s| && rest[k] == s[start + step + k * step]
    ensures var r := [s[start]] + rest;
      && (|r| - 1) * step < |s| - start <= |r| * step
      && forall k :: 0 <= k < |r| ==> start + k * step < |s| && r[k] == s[start + k * step]
  {
    MulSucc(|rest|, step);
    forall k | 1 <= k <= |rest|
      ensures start + k * step == (start + step) + (k - 1) * step
    {
      MulSucc(k - 1, step);
    }
  }

  /** Sum of a sequence of reals, from the front. */
  function Sum(xs: seq<real>): real
  {
    if |xs| == 0 then 0.0 else xs[0] + Sum(xs[1..])
  }

  /** A sum of non-negative terms is non-negative, and zero exactly when every term is. */
  lemma {:induction false} SumNonNegative(xs: seq<real>)
    requires forall i :: 0 <= i < |xs| ==> xs[i] >= 0.0
    ensures Sum(xs) >= 0.0
    ensures Sum(xs) == 0.0 <==> forall i :: 0 <= i < |xs| ==> xs[i] == 0.0
    decreases |xs|
  {
    if |xs| > 0 {
      SumNonNegative(xs[1..]);
      assert forall i :: 1 <= i < |xs| ==> xs[i] == xs[1..][i - 1];
    }
  }

  /** Product of a sequence of naturals. */
  function Product(xs: seq<nat>): nat
  {
    if |xs| == 0 then 1 else xs[0] * Product(xs[1..])
  }

  lemma {:induction false} ProductAppend(xs: seq<nat>, x: nat)
    ensures Product(xs + [x]) == Product(xs) * x
    decreases |xs|
  {
    if |xs| > 0 {
      assert (xs + [x])[1..] == xs[1..] + [x];
      ProductAppend(xs[1..], x);
    }
  }

  lemma TelescopeStep(a: nat, p: nat, m: nat, w: nat, w': nat)
    requires a * p == w && w * m == w'
    ensures a * (p * m) == w'
  {
    assert a * (p * m) == (a * p) * m;
  }

  /** Multiplying by a positive factor keeps a strict order. */
  lemma ScaleBelow(a: real, b: real, c: real)
    requires a < b && c > 0.0
    ensures a * c < b * c
  {
  }

  /** Multiplying by a positive factor keeps a non-strict order. */
  lemma ScaleAtLeast(a: real, b: real, c: real)
    requires a >= b && c > 0.0
    ensures a * c >= b * c
  {
  }
}
