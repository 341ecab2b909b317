/**
  * How `lookup` (lookup.py) scores one library spectrum against a partially
  * specified target: the mean squared error over the known target points.
  */
module Scoring {
  import opened Results
  import opened Seqs

  /** A target spectrum: `None` marks a point left unconstrained. */
  type Target = seq<Option<real>>

  /** Number of values every library line must hold. */
  const SpectrumLength: nat := 300

  function Square(x: real): real { x * x }

  lemma SquareSign(x: real)
    ensures Square(x) >= 0.0
    ensures x == 0.0 ==> Square(x) == 0.0
  {
  }

  /** The indices below m whose target value is known, in ascending order. */
  function KnownIndices(sstar: Target, m: nat): (r: seq<nat>)
    requires m <= |sstar|
    ensures forall k :: 0 <= k < |r| ==> r[k] < m && sstar[r[k]].Some?
    ensures forall i :: 0 <= i < m && sstar[i].Some? ==> i in r
    ensures forall k, l :: 0 <= k < l < |r| ==> r[k] < r[l]
  {
    if m == 0 then []
    else KnownIndices(sstar, m - 1) + (if sstar[m - 1].Some? then [m - 1] else [])
  }

  /** Number of points `zip(sstar, spectrum)` pairs up. */
  function Paired(sstar: Target, spectrum: seq<real>): nat
  {
    Min(|sstar|, |spectrum|)
  }

  /** The squared error at index i. */
  function PointError(sstar: Target, spectrum: seq<real>, i: nat): real
    requires i < |sstar| && i < |spectrum| && sstar[i].Some?
  {
    Square(spectrum[i] - sstar[i].value)
  }

  /** The squared errors the loop over the first m pairs appends, in order. */
  function ErrorsUpTo(sstar: Target, spectrum: seq<real>, m: nat): (r: seq<real>)
    requires m <= |sstar| && m <= |spectrum|
    ensures |r| == |KnownIndices(sstar, m)|
  {
    if m == 0 then []
    else
      ErrorsUpTo(sstar, spectrum, m - 1)
      + (if sstar[m - 1].Some? then [PointError(sstar, spectrum, m - 1)] else [])
  }

  /** Error k is the squared error at the k-th known index. */
  lemma {:induction false} ErrorsUpToAt(sstar: Target, spectrum: seq<real>, m: nat)
    requires m <= |sstar| && m <= |spectrum|
    ensures forall k :: 0 <= k < |ErrorsUpTo(sstar, spectrum, m)| ==>
      ErrorsUpTo(sstar, spectrum, m)[k] == PointError(sstar, spectrum, KnownIndices(sstar, m)[k])
  {
    if m > 0 {
      ErrorsUpToAt(sstar, spectrum, m - 1);
      var prev := ErrorsUpTo(sstar, spectrum, m - 1);
      var ks := KnownIndices(sstar, m - 1);
      if sstar[m - 1].Some? {
        assert KnownIndices(sstar, m) == ks + [m - 1];
      } else {
        assert KnownIndices(sstar, m) == ks;
      }
    }
  }

  /** The `errors` list of `lookup` for one spectrum. */
  function Errors(sstar: Target, spectrum: seq<real>): seq<real>
  {
    ErrorsUpTo(sstar, spectrum, Paired(sstar, spectrum))
  }

  /** A spectrum can be scored when some paired target point is known (`np.mean` of nothing is not a number). */
  predicate Scorable(sstar: Target, spectrum: seq<real>)
  {
    |KnownIndices(sstar, Paired(sstar, spectrum))| > 0
  }

  lemma MeanSign(total: real, n: nat)
    requires n > 0 && total >= 0.0
    ensures total / (n as real) >= 0.0
    ensures total / (n as real) == 0.0 <==> total == 0.0
  {
  }

  /** Every known paired point of the target is met by the spectrum. */
  predicate Matches(sstar: Target, spectrum: seq<real>)
  {
    forall i :: 0 <= i < Paired(sstar, spectrum) && sstar[i].Some? ==> spectrum[i] == sstar[i].value
  }

  /**
    * The squared errors are non-negative, their sum is zero exactly when
    * each of them is, and so it is zero when every known point is met.
    */
  lemma ErrorsSign(sstar: Target, spectrum: seq<real>)
    ensures Sum(Errors(sstar, spectrum)) >= 0.0
    ensures Sum(Errors(sstar, spectrum)) == 0.0 <==> NoError(sstar, spectrum)
    ensures Matches(sstar, spectrum) ==> NoError(sstar, spectrum)
  {
    var errs := Errors(sstar, spectrum);
    var ks := KnownIndices(sstar, Paired(sstar, spectrum));
    ErrorsUpToAt(sstar, spectrum, Paired(sstar, spectrum));
    forall k | 0 <= k < |errs|
      ensures errs[k] >= 0.0
      ensures spectrum[ks[k]] == sstar[ks[k]].value ==> errs[k] == 0.0
    {
      SquareSign(spectrum[ks[k]] - sstar[ks[k]].value);
    }
    SumNonNegative(errs);
  }

  /** Every squared error of the spectrum is zero. */
  predicate NoError(sstar: Target, spectrum: seq<real>)
  {
    forall k :: 0 <= k < |Errors(sstar, spectrum)| ==> Errors(sstar, spectrum)[k] == 0.0
  }

  /**
    * The mean squared error over the known points. It is never negative,
    * it is zero exactly when every squared error is, and so it is zero when
    * the spectrum meets every known target value.
    */
  function Score(sstar: Target, spectrum: seq<real>): (r: real)
    requires Scorable(sstar, spectrum)
    ensures r >= 0.0
    ensures r == 0.0 <==> NoError(sstar, spectrum)
    ensures Matches(sstar, spectrum) ==> r == 0.0
  {
    var errs := Errors(sstar, spectrum);
    ErrorsSign(sstar, spectrum);
    MeanSign(Sum(errs), |errs|);
    Sum(errs) / (|errs| as real)
  }

  /** A target has a known point among the indices a full-length library spectrum pairs with. */
  predicate HasKnownPoint(sstar: Target)
  {
    exists i :: 0 <= i < |sstar| && i < SpectrumLength && sstar[i].Some?
  }

  lemma KnownPointScorable(sstar: Target, spectrum: seq<real>)
    requires HasKnownPoint(sstar) && |spectrum| == SpectrumLength
    ensures Scorable(sstar, spectrum)
  {
    var i :| 0 <= i < |sstar| && i < SpectrumLength && sstar[i].Some?;
    assert i in KnownIndices(sstar, Paired(sstar, spectrum));
  }

  /** The `[index, value]` pairs of the known points among the first m, in index order. */
  function KeyPointsUpTo(sstar: Target, m: nat): (r: seq<(nat, real)>)
    requires m <= |sstar|
    ensures |r| == |KnownIndices(sstar, m)|
    ensures forall k :: 0 <= k < |r| ==>
      r[k].0 == KnownIndices(sstar, m)[k] && Some(r[k].1) == sstar[r[k].0]
  {
    if m == 0 then []
    else KeyPointsUpTo(sstar, m - 1) + (if sstar[m - 1].Some? then [(m - 1, sstar[m - 1].value)] else [])
  }

  /** `sstar_keyPoints`: every known point of the target with its index. */
  function KeyPoints(sstar: Target): seq<(nat, real)>
  {
    KeyPointsUpTo(sstar, |sstar|)
  }

  /**
    * When the spectrum is at least as long as the target, the score is taken
    * over exactly the key points: error k compares the spectrum at key point
    * k's index with key point k's value.
    */
  lemma ErrorsAtKeyPoints(sstar: Target, spectrum: seq<real>)
    requires |sstar| <= |spectrum|
    ensures |Errors(sstar, spectrum)| == |KeyPoints(sstar)|
    ensures forall k :: 0 <= k < |KeyPoints(sstar)| ==>
      KeyPoints(sstar)[k].0 < |spectrum| &&
      Errors(sstar, spectrum)[k] == Square(spectrum[KeyPoints(sstar)[k].0] - KeyPoints(sstar)[k].1)
  {
    assert Paired(sstar, spectrum) == |sstar|;
    ErrorsUpToAt(sstar, spectrum, |sstar|);
  }

  /** Only index 1 of the target is known, so the score is the one squared difference there. */
  lemma ScoreExample()
    ensures Score([None, Some(2.0), None], [9.0, 3.0, 9.0]) == 1.0
  {
    var sstar: Target := [None, Some(2.0), None];
    assert KnownIndices(sstar, 3) == [1];
    assert Errors(sstar, [9.0, 3.0, 9.0]) == [1.0];
    assert Sum([1.0]) == 1.0;
  }
}
