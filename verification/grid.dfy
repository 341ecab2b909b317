/**
  * The parameter lattice of `gen_data` (lookup.py): eight nested loops, h1
  * outermost and r4 innermost, each over `np.arange(lower, upper, spacing)`,
  * writing one comma-joined record per combination.
  */
module Grid {
  import opened Results
  import opened Seqs
  import opened Text

  /** Four heights h1..h4 followed by four radii r1..r4. */
  const Dimensions: nat := 8

  datatype GridError = ZeroSpacing(dimension: nat)

  function Ceil(q: real): int
  {
    if q.Floor as real == q then q.Floor else q.Floor + 1
  }

  /**
    * `np.arange(start, stop, step)` over exact reals: start, start+step, ...
    * as many values as the least count n with n >= (stop-start)/step.
    * A zero step is the division by zero numpy raises.
    */
  function Arange(start: real, stop: real, step: real): (r: Option<seq<real>>)
    ensures r.None? <==> step == 0.0
    ensures r.Some? ==> (|r.value| as real) >= (stop - start) / step
    ensures r.Some? && |r.value| > 0 ==> ((|r.value| - 1) as real) < (stop - start) / step
    ensures r.Some? ==> forall k :: 0 <= k < |r.value| ==> r.value[k] == start + (k as real) * step
  {
    if step == 0.0 then None
    else
      var q := (stop - start) / step;
      var n := if q <= 0.0 then 0 else Ceil(q);
      Some(seq(n, k => start + (k as real) * step))
  }

  /** With a positive step every value lies in [start, stop), and one more step would reach stop. */
  lemma ArangeBounds(start: real, stop: real, step: real)
    requires step > 0.0
    ensures var v := Arange(start, stop, step).value;
      && (forall k :: 0 <= k < |v| ==> start <= v[k] < stop)
      && start + (|v| as real) * step >= stop
  {
    var v := Arange(start, stop, step).value;
    CountBounds(start, stop, step, |v|);
    forall k | 0 <= k < |v|
      ensures start <= v[k] < stop
    {
      CountBoundsAt(start, stop, step, |v|, k);
      assert v[k] == start + (k as real) * step;
    }
  }

  /** The arithmetic of ArangeBounds: n values spaced by step from start, n the least count covering stop. */
  lemma CountBounds(start: real, stop: real, step: real, n: nat)
    requires step > 0.0
    requires (n as real) >= (stop - start) / step
    ensures start + (n as real) * step >= stop
  {
    var q := (stop - start) / step;
    DivTimes(stop - start, step);
    assert q * step == stop - start;
    var m := n as real;
    ScaleAtLeast(m, q, step);
    assert m * step >= q * step;
  }

  /** Value k of the n lies in [start, stop). */
  lemma CountBoundsAt(start: real, stop: real, step: real, n: nat, k: nat)
    requires step > 0.0 && k < n
    requires ((n - 1) as real) < (stop - start) / step
    ensures start <= start + (k as real) * step < stop
  {
    var q := (stop - start) / step;
    DivTimes(stop - start, step);
    assert q * step == stop - start;
    assert (k as real) <= ((n - 1) as real) < q;
    StepWithin(start, step, q, k as real, start + (k as real) * step);
  }

  lemma DivTimes(x: real, y: real)
    requires y != 0.0
    ensures (x / y) * y == x
  {
  }

  /** A value x < q steps from start lies below start plus q steps. */
  lemma StepWithin(start: real, step: real, q: real, x: real, y: real)
    requires step > 0.0 && 0.0 <= x < q && y == start + x * step
    ensures start <= y < start + q * step
  {
    ScaleBelow(x, q, step);
    ScaleAtLeast(x, 0.0, step);
  }

  /** Number of records the product of the axes holds. */
  function GridSize<V>(axes: seq<seq<V>>): nat
  {
    if |axes| == 0 then 1 else |axes[0]| * GridSize(axes[1..])
  }

  /** Each record of recs with x put in front. */
  function Prefixed<V>(x: V, recs: seq<seq<V>>): (r: seq<seq<V>>)
    ensures |r| == |recs|
    ensures forall i :: 0 <= i < |r| ==> r[i] == [x] + recs[i]
  {
    seq(|recs|, i requires 0 <= i < |recs| => [x] + recs[i])
  }

  /** The records of the nested loops over the axes, first axis outermost. */
  function Cartesian<V>(axes: seq<seq<V>>): (r: seq<seq<V>>)
    ensures |r| == GridSize(axes)
    ensures forall i :: 0 <= i < |r| ==> |r[i]| == |axes|
    decreases |axes|
  {
    if |axes| == 0 then [[]]
    else
      var rest := Cartesian(axes[1..]);
      var blocks := seq(|axes[0]|, k requires 0 <= k < |axes[0]| => Prefixed(axes[0][k], rest));
      ConcatUniformLength(blocks, |rest|);
      var r := Concat(blocks);
      assert forall i :: 0 <= i < |r| ==> |r[i]| == |axes| by {
        forall i | 0 <= i < |r|
          ensures |r[i]| == |axes|
        {
          ConcatMember(blocks, r[i]);
        }
      }
      r
  }

  /** Position of the combination (axes[0][ds[0]], axes[1][ds[1]], ...) in mixed radix, last axis fastest. */
  function Rank<V>(axes: seq<seq<V>>, ds: seq<nat>): nat
    requires |ds| == |axes|
  {
    if |axes| == 0 then 0 else ds[0] * GridSize(axes[1..]) + Rank(axes[1..], ds[1..])
  }

  predicate ValidDigits<V>(axes: seq<seq<V>>, ds: seq<nat>)
  {
    |ds| == |axes| && forall d :: 0 <= d < |ds| ==> ds[d] < |axes[d]|
  }

  /** Record i * |rest| + j of the product is value i of the first axis in front of record j of the rest. */
  lemma CartesianStep<V>(axes: seq<seq<V>>, i: nat, j: nat)
    requires |axes| > 0 && i < |axes[0]| && j < GridSize(axes[1..])
    ensures i * GridSize(axes[1..]) + j < |Cartesian(axes)|
    ensures Cartesian(axes)[i * GridSize(axes[1..]) + j] == [axes[0][i]] + Cartesian(axes[1..])[j]
  {
    var rest := Cartesian(axes[1..]);
    var blocks := seq(|axes[0]|, k requires 0 <= k < |axes[0]| => Prefixed(axes[0][k], rest));
    ConcatUniformAt(blocks, |rest|, i, j);
    assert Cartesian(axes) == Concat(blocks);
  }

  /** The digits after the first are valid for the axes after the first. */
  lemma ValidDigitsTail<V>(axes: seq<seq<V>>, ds: seq<nat>)
    requires ValidDigits(axes, ds) && |ds| > 0
    ensures ValidDigits(axes[1..], ds[1..])
  {
    forall d | 0 <= d < |ds[1..]|
      ensures ds[1..][d] < |axes[1..][d]|
    {
      assert ds[1..][d] == ds[d + 1] && axes[1..][d] == axes[d + 1];
    }
  }

  /** The chosen values of all axes are the first axis's value in front of the chosen values of the rest. */
  lemma PickedCons<V>(axes: seq<seq<V>>, ds: seq<nat>, tail: seq<V>)
    requires ValidDigits(axes, ds) && |ds| > 0
    requires ValidDigits(axes[1..], ds[1..])
    requires tail == seq(|ds| - 1, d requires 0 <= d < |ds| - 1 => axes[1..][d][ds[1..][d]])
    ensures [axes[0][ds[0]]] + tail == seq(|ds|, d requires 0 <= d < |ds| => axes[d][ds[d]])
  {
  }

  /** Every combination of axis values is a record, at the position its mixed-radix rank gives. */
  lemma {:induction false} CartesianAt<V>(axes: seq<seq<V>>, ds: seq<nat>)
    requires ValidDigits(axes, ds)
    ensures Rank(axes, ds) < |Cartesian(axes)|
    ensures Cartesian(axes)[Rank(axes, ds)] == seq(|ds|, d requires 0 <= d < |ds| => axes[d][ds[d]])
    decreases |axes|
  {
    if |axes| > 0 {
      ValidDigitsTail(axes, ds);
      CartesianAt(axes[1..], ds[1..]);
      CartesianStep(axes, ds[0], Rank(axes[1..], ds[1..]));
      PickedCons(axes, ds, Cartesian(axes[1..])[Rank(axes[1..], ds[1..])]);
    }
  }

  /** Lexicographic order on digit vectors, first axis most significant. */
  predicate LexLess(ds: seq<nat>, es: seq<nat>)
    requires |ds| == |es|
    decreases |ds|
  {
    |ds| > 0 && (ds[0] < es[0] || (ds[0] == es[0] && LexLess(ds[1..], es[1..])))
  }

  lemma {:induction false} RankBound<V>(axes: seq<seq<V>>, ds: seq<nat>)
    requires ValidDigits(axes, ds)
    ensures Rank(axes, ds) < GridSize(axes)
  {
    CartesianAt(axes, ds);
  }

  /** Records come out in lexicographic order of their axis positions: h1 outermost, r4 innermost. */
  lemma {:induction false} RankLexMonotone<V>(axes: seq<seq<V>>, ds: seq<nat>, es: seq<nat>)
    requires ValidDigits(axes, ds) && ValidDigits(axes, es)
    requires LexLess(ds, es)
    ensures Rank(axes, ds) < Rank(axes, es)
    decreases |axes|
  {
    assert ValidDigits(axes[1..], ds[1..]) by {
      forall d | 0 <= d < |ds[1..]|
        ensures ds[1..][d] < |axes[1..][d]|
      {
        assert ds[1..][d] == ds[d + 1] && axes[1..][d] == axes[d + 1];
      }
    }
    assert ValidDigits(axes[1..], es[1..]) by {
      forall d | 0 <= d < |es[1..]|
        ensures es[1..][d] < |axes[1..][d]|
      {
        assert es[1..][d] == es[d + 1] && axes[1..][d] == axes[d + 1];
      }
    }
    var m := GridSize(axes[1..]);
    if ds[0] < es[0] {
      RankBound(axes[1..], ds[1..]);
      MulSucc(ds[0], m);
      MulMonotone(ds[0] + 1, es[0], m);
    } else {
      RankLexMonotone(axes[1..], ds[1..], es[1..]);
    }
  }

  /** The values dimension d iterates over; a zero spacing contributes none. */
  function AxisValues(bounds: seq<(real, real)>, spacings: seq<real>, d: nat): seq<real>
    requires d < |bounds| && d < |spacings|
  {
    match Arange(bounds[d].0, bounds[d].1, spacings[d])
    case None => []
    case Some(v) => v
  }

  /** The axes of dimensions d..7. */
  function AxesFrom(bounds: seq<(real, real)>, spacings: seq<real>, d: nat): (r: seq<seq<real>>)
    requires d <= Dimensions <= |bounds| && Dimensions <= |spacings|
    ensures |r| == Dimensions - d
    ensures forall e :: 0 <= e < |r| ==> r[e] == AxisValues(bounds, spacings, d + e)
  {
    seq(Dimensions - d, e requires 0 <= e < Dimensions - d => AxisValues(bounds, spacings, d + e))
  }

  /**
    * Whether the loop of dimension d is ever entered: every outer spacing is
    * non-zero and every outer axis has a value. numpy evaluates the arange of
    * an inner loop only when the loop is entered.
    */
  predicate Reached(bounds: seq<(real, real)>, spacings: seq<real>, d: nat)
    requires d <= Dimensions <= |bounds| && Dimensions <= |spacings|
  {
    forall e :: 0 <= e < d ==> spacings[e] != 0.0 && |AxisValues(bounds, spacings, e)| > 0
  }

  /** The nested loops from dimension d inward, failing at the first zero spacing they reach. */
  function LoopsFrom(bounds: seq<(real, real)>, spacings: seq<real>, d: nat): Result<seq<seq<real>>, GridError>
    requires d <= Dimensions <= |bounds| && Dimensions <= |spacings|
    decreases Dimensions - d
  {
    if d == Dimensions then Ok([[]])
    else
      match Arange(bounds[d].0, bounds[d].1, spacings[d])
      case None => Err(ZeroSpacing(d))
      case Some(v) =>
        if |v| == 0 then Ok([])
        else
          match LoopsFrom(bounds, spacings, d + 1)
          case Err(e) => Err(e)
          case Ok(rest) => Ok(Concat(seq(|v|, k requires 0 <= k < |v| => Prefixed(v[k], rest))))
  }

  /**
    * The records gen_data writes (before rounding), or the error it raises.
    * Bounds and spacings are indexed 0..7; extra rows are never read.
    */
  function GenData(bounds: seq<(real, real)>, spacings: seq<real>): (r: Result<seq<seq<real>>, GridError>)
    requires Dimensions <= |bounds| && Dimensions <= |spacings|
    ensures r.Ok? ==> r.value == Cartesian(AxesFrom(bounds, spacings, 0))
    ensures r.Ok? ==> |r.value| == GridSize(AxesFrom(bounds, spacings, 0))
    ensures r.Err? <==> exists d :: 0 <= d < Dimensions && Reached(bounds, spacings, d) && spacings[d] == 0.0
    ensures r.Err? ==> var d := r.error.dimension;
      d < Dimensions && Reached(bounds, spacings, d) && spacings[d] == 0.0
  {
    LoopsFromSpec(bounds, spacings, 0);
    LoopsFrom(bounds, spacings, 0)
  }

  /**
    * What the loops from dimension d inward produce: on success the records
    * of the axes d..7, and they fail exactly when a reachable dimension has
    * a zero spacing, naming one.
    */
  predicate LoopsMeet(bounds: seq<(real, real)>, spacings: seq<real>, d: nat)
    requires d <= Dimensions <= |bounds| && Dimensions <= |spacings|
  {
    var r := LoopsFrom(bounds, spacings, d);
    && (r.Ok? ==> r.value == Cartesian(AxesFrom(bounds, spacings, d)))
    && (r.Err? <==> exists e :: d <= e < Dimensions && Reached(bounds, spacings, e) && spacings[e] == 0.0)
    && (r.Err? ==> var e := r.error.dimension;
          e < Dimensions && Reached(bounds, spacings, e) && spacings[e] == 0.0)
  }

  lemma {:induction false} LoopsFromSpec(bounds: seq<(real, real)>, spacings: seq<real>, d: nat)
    requires d <= Dimensions <= |bounds| && Dimensions <= |spacings|
    requires Reached(bounds, spacings, d)
    ensures LoopsMeet(bounds, spacings, d)
    decreases Dimensions - d
  {
    if d < Dimensions {
      match Arange(bounds[d].0, bounds[d].1, spacings[d])
      case None =>
        assert spacings[d] == 0.0;
      case Some(v) =>
        if |v| == 0 {
          LoopsEmptyAxis(bounds, spacings, d);
        } else {
          assert Reached(bounds, spacings, d + 1);
          LoopsFromSpec(bounds, spacings, d + 1);
          LoopsOuterAxis(bounds, spacings, d);
        }
    }
  }

  /** An axis without values gives no records, and every loop inside it is never reached. */
  lemma LoopsEmptyAxis(bounds: seq<(real, real)>, spacings: seq<real>, d: nat)
    requires d < Dimensions <= |bounds| && Dimensions <= |spacings|
    requires Reached(bounds, spacings, d)
    requires Arange(bounds[d].0, bounds[d].1, spacings[d]).Some?
    requires |Arange(bounds[d].0, bounds[d].1, spacings[d]).value| == 0
    ensures LoopsMeet(bounds, spacings, d)
  {
    var axes := AxesFrom(bounds, spacings, d);
    assert axes[0] == AxisValues(bounds, spacings, d);
    assert Cartesian(axes) == [];
    forall e | d < e < Dimensions
      ensures !Reached(bounds, spacings, e)
    {
      assert |AxisValues(bounds, spacings, d)| == 0;
    }
  }

  /** An axis with values: the loops meet their description when the loops inside it do. */
  lemma LoopsOuterAxis(bounds: seq<(real, real)>, spacings: seq<real>, d: nat)
    requires d < Dimensions <= |bounds| && Dimensions <= |spacings|
    requires Reached(bounds, spacings, d)
    requires Arange(bounds[d].0, bounds[d].1, spacings[d]).Some?
    requires |Arange(bounds[d].0, bounds[d].1, spacings[d]).value| > 0
    requires LoopsMeet(bounds, spacings, d + 1)
    ensures LoopsMeet(bounds, spacings, d)
  {
    var axes := AxesFrom(bounds, spacings, d);
    assert axes[0] == AxisValues(bounds, spacings, d);
    assert axes[1..] == AxesFrom(bounds, spacings, d + 1);
    assert Reached(bounds, spacings, d + 1);
    forall e | d < e < Dimensions && Reached(bounds, spacings, e) && spacings[e] == 0.0
      ensures exists e' :: d + 1 <= e' < Dimensions && Reached(bounds, spacings, e') && spacings[e'] == 0.0
    {
    }
  }

  /** `[str(el) for el in geom_params]`: the text forms of a record's values. */
  function Shown(rec: seq<real>, show: real -> string): seq<string>
  {
    seq(|rec|, i requires 0 <= i < |rec| => show(rec[i]))
  }

  /** `",".join(geom_strs)`: the values' text forms joined by commas. */
  function FormatRecord(rec: seq<real>, show: real -> string): string
  {
    Join(Shown(rec, show), ',')
  }

  /** One line as written to the grid file, its newline included. */
  function RecordLine(rec: seq<real>, show: real -> string): string
  {
    FormatRecord(rec, show) + "\n"
  }

  /**
    * The grid file's lines, one per record, in record order. Each ends in a
    * newline and, when no text form holds a comma, splits on commas back
    * into the record's eight text forms, the last one carrying the newline.
    */
  function GridLines(recs: seq<seq<real>>, show: real -> string): (r: seq<string>)
    ensures |r| == |recs|
    ensures forall i :: 0 <= i < |r| ==> EndsWith(r[i], "\n")
    ensures (forall x :: ',' !in show(x)) ==>
      forall i :: 0 <= i < |r| && |recs[i]| == Dimensions ==>
        Split(r[i], ',') == Terminated(Shown(recs[i], show), "\n")
  {
    var r := seq(|recs|, i requires 0 <= i < |recs| => RecordLine(recs[i], show));
    assert forall i :: 0 <= i < |r| ==> EndsWith(r[i], "\n") by {
      forall i | 0 <= i < |r|
        ensures EndsWith(r[i], "\n")
      {
        var line := FormatRecord(recs[i], show);
        assert r[i] == line + "\n";
        assert (line + "\n")[|line|..] == "\n";
      }
    }
    assert (forall x :: ',' !in show(x)) ==>
      forall i :: 0 <= i < |r| && |recs[i]| == Dimensions ==>
        Split(r[i], ',') == Terminated(Shown(recs[i], show), "\n") by {
      if forall x :: ',' !in show(x) {
        forall i | 0 <= i < |r| && |recs[i]| == Dimensions
          ensures Split(r[i], ',') == Terminated(Shown(recs[i], show), "\n")
        {
          GridLineFields(recs[i], show);
        }
      }
    }
    r
  }

  /**
    * A record splits back into exactly its values' text forms, one field per
    * dimension; as a written line, the last field carries the newline.
    */
  lemma GridLineFields(rec: seq<real>, show: real -> string)
    requires |rec| == Dimensions
    requires forall x :: ',' !in show(x)
    ensures Split(FormatRecord(rec, show), ',') == Shown(rec, show)
    ensures Split(RecordLine(rec, show), ',') == Terminated(Shown(rec, show), "\n")
    ensures |Split(RecordLine(rec, show), ',')| == Dimensions
  {
    var fs := Shown(rec, show);
    forall i | 0 <= i < |fs|
      ensures ',' !in fs[i]
    {
      var x := rec[i];
      assert ',' !in show(x);
      assert fs[i] == show(x);
    }
    SplitJoin(fs, ',');
    SplitTerminated(fs, "\n", ',');
  }
}
