/**
  * The static shape bookkeeping of utils.py: argument validation and shape
  * rewriting in `conv1d_transpose`, the output shape `conv1d_transpose_wrap`
  * builds, the result shape of `repeat_2d`, and the stride/filter chain of
  * the `my_model_fn*` upsampling stacks. Only shapes are modelled; the
  * tensors and the operations computing on them are not.
  */
module Shapes {
  import opened Results
  import opened Seqs

  /** One dimension of a static shape: a known size, or unknown until the graph runs. */
  datatype Dim = Known(n: nat) | Unknown

  /** `Dimension.is_compatible_with`: unknown is compatible with everything. */
  predicate Compatible(a: Dim, b: Dim)
  {
    a.Unknown? || b.Unknown? || a.n == b.n
  }

  /**
    * `list.insert(i, x)`: a negative index counts from the end and every
    * index is clamped to the list, exactly like a slice start.
    */
  function PyInsert<T>(s: seq<T>, i: int, x: T): (r: seq<T>)
    ensures |r| == |s| + 1
    ensures r[SliceStart(i, |s|)] == x
    ensures r[..SliceStart(i, |s|)] == s[..SliceStart(i, |s|)]
    ensures r[SliceStart(i, |s|) + 1..] == s[SliceStart(i, |s|)..]
  {
    var p := SliceStart(i, |s|);
    assert (s[..p] + [x] + s[p..])[p + 1..] == s[p..];
    s[..p] + [x] + s[p..]
  }

  /** The sequence with its entry at position p taken out (`squeeze` of a unit dimension). */
  function RemoveAt<T>(s: seq<T>, p: nat): (r: seq<T>)
    requires p < |s|
    ensures |r| == |s| - 1
  {
    s[..p] + s[p + 1..]
  }

  /** Inserting then removing at the same place gives the original back. */
  lemma RemoveInserted<T>(s: seq<T>, i: int, x: T)
    ensures RemoveAt(PyInsert(s, i, x), SliceStart(i, |s|)) == s
  {
    var p := SliceStart(i, |s|);
    var r := PyInsert(s, i, x);
    assert r[..p] + r[p + 1..] == s[..p] + s[p..];
    assert s[..p] + s[p..] == s;
  }

  // ---------------------------------------------------------------------
  // conv1d_transpose

  /** The 2-D layout the 1-D operation is mapped to. */
  datatype Format2d = NHWC | NCHW

  /** `output_shape` as given: a Python list (or numpy array), or a 1-D tensor of known length. */
  datatype OutputShape = ListShape(entries: seq<Dim>) | TensorShape(entries: seq<Dim>)

  datatype ConvError =
    | OutputShapeNotVector(length: nat)                        // not compatible with shape (3,)
    | BadDataFormat                                            // neither "NWC" nor "NCW"
    | ShapeIndex                                               // `get_shape()[k]` past the rank
    | InputChannelMismatch(value: Dim, filter: Dim)            // value's channels vs filter dimension 2
    | OutputChannelMismatch(output: Dim, filter: Dim)          // list output channels vs filter dimension 1
    | BadPadding                                               // neither "VALID" nor "SAME"

  /**
    * What `conv1d_transpose` hands to the 2-D backprop operation: the layout,
    * the 4-D output shape, the strides, the expanded value and filter
    * shapes, and the unit dimension squeezed out of the result.
    */
  datatype Conv1dPlan = Conv1dPlan(
    format: Format2d,
    inputSizes: seq<Dim>,
    strides: seq<int>,
    value4d: seq<Dim>,
    filter4d: seq<Dim>,
    squeezeDim: nat)

  /** The channel axis of a 1-D data format: 2 for `None` or "NWC", 1 for "NCW", none otherwise. */
  function ChannelAxis(dataFormat: Option<string>): (r: Option<nat>)
    ensures r == Some(2) <==> dataFormat == None || dataFormat == Some("NWC")
    ensures r == Some(1) <==> dataFormat == Some("NCW")
    ensures r.None? <==> dataFormat != None && dataFormat != Some("NWC") && dataFormat != Some("NCW")
  {
    match dataFormat
    case None => Some(2)
    case Some(f) => if f == "NWC" then Some(2) else if f == "NCW" then Some(1) else None
  }

  predicate ValidPadding(padding: string)
  {
    padding == "VALID" || padding == "SAME"
  }

  /** The first two checks pass: three output entries and a known data format. */
  predicate Formatted(output: OutputShape, dataFormat: Option<string>)
  {
    |output.entries| == 3 && ChannelAxis(dataFormat).Some?
  }

  /** The checks after the format is known, from the value/filter channel check on. */
  predicate ChannelsAgree(value: seq<Dim>, filter: seq<Dim>, output: OutputShape, axis: nat)
    requires |output.entries| == 3 && axis < 3
  {
    && axis < |value| && 2 < |filter|
    && Compatible(value[axis], filter[2])
    && (output.ListShape? ==> Compatible(filter[1], output.entries[axis]))
  }

  /**
    * `conv1d_transpose`'s validation and shape rewriting. The checks run in
    * source order, and the first that fails decides the error: the output
    * shape must have three entries, the data format must be known, the
    * value's channel dimension must match filter dimension 2 (reading a
    * dimension past a shape's rank fails first), a list output shape's
    * channel entry must match filter dimension 1, and the padding must be
    * "VALID" or "SAME".
    */
  function Conv1dTranspose(value: seq<Dim>, filter: seq<Dim>, output: OutputShape, stride: int,
                           padding: string, dataFormat: Option<string>): (r: Result<Conv1dPlan, ConvError>)
    ensures r == Err(OutputShapeNotVector(|output.entries|)) <==> |output.entries| != 3
    ensures r == Err(BadDataFormat) <==> |output.entries| == 3 && ChannelAxis(dataFormat).None?
    ensures r == Err(ShapeIndex) <==> (&& Formatted(output, dataFormat)
                                       && !(ChannelAxis(dataFormat).value < |value| && 2 < |filter|))
    ensures r.Err? && r.error.InputChannelMismatch? <==>
      (&& Formatted(output, dataFormat) && ChannelAxis(dataFormat).value < |value| && 2 < |filter|
       && !Compatible(value[ChannelAxis(dataFormat).value], filter[2]))
    ensures r.Err? && r.error.OutputChannelMismatch? <==>
      (&& Formatted(output, dataFormat) && ChannelAxis(dataFormat).value < |value| && 2 < |filter|
       && Compatible(value[ChannelAxis(dataFormat).value], filter[2])
       && output.ListShape? && !Compatible(filter[1], output.entries[ChannelAxis(dataFormat).value]))
    ensures r.Ok? <==> && Formatted(output, dataFormat)
                       && ChannelsAgree(value, filter, output, ChannelAxis(dataFormat).value)
                       && ValidPadding(padding)
    ensures r == Err(BadPadding) <==> && Formatted(output, dataFormat)
                                      && ChannelsAgree(value, filter, output, ChannelAxis(dataFormat).value)
                                      && !ValidPadding(padding)
    ensures r.Ok? ==> && r.value.format == (if ChannelAxis(dataFormat) == Some(2) then NHWC else NCHW)
                      && r.value.squeezeDim == 3 - ChannelAxis(dataFormat).value
                      && r.value.inputSizes == PyInsert(output.entries, r.value.squeezeDim, Known(1))
                      && r.value.value4d == PyInsert(value, r.value.squeezeDim, Known(1))
                      && r.value.filter4d == [Known(1)] + filter
  {
    var o := output.entries;
    if |o| != 3 then Err(OutputShapeNotVector(|o|))
    else
      match ChannelAxis(dataFormat)
      case None => Err(BadDataFormat)
      case Some(axis) =>
        if !(axis < |value|) || !(2 < |filter|) then Err(ShapeIndex)
        else if !Compatible(value[axis], filter[2]) then Err(InputChannelMismatch(value[axis], filter[2]))
        else if output.ListShape? && !Compatible(filter[1], o[axis]) then Err(OutputChannelMismatch(o[axis], filter[1]))
        else if !ValidPadding(padding) then Err(BadPadding)
        else if axis == 2 then
          Ok(Conv1dPlan(NHWC, o[..1] + [Known(1)] + o[1..], [1, 1, stride, 1],
                        PyInsert(value, 1, Known(1)), [Known(1)] + filter, 1))
        else
          Ok(Conv1dPlan(NCHW, o[..2] + [Known(1)] + o[2..], [1, 1, 1, stride],
                        PyInsert(value, 2, Known(1)), [Known(1)] + filter, 2))
  }

  /**
    * The rewritten shapes fit together: NHWC gives [o0, 1, o1, o2] and NCHW
    * gives [o0, o1, 1, o2]; the unit dimension is the one squeezed out, so
    * the result has the requested 1-D shape; and the stride is applied on
    * the axis right after it, which holds the requested width, with 1 on
    * every other axis.
    */
  lemma Conv1dTransposeShapes(value: seq<Dim>, filter: seq<Dim>, output: OutputShape, stride: int,
                              padding: string, dataFormat: Option<string>)
    requires Conv1dTranspose(value, filter, output, stride, padding, dataFormat).Ok?
    ensures var p := Conv1dTranspose(value, filter, output, stride, padding, dataFormat).value;
      var o := output.entries;
      && |p.inputSizes| == 4 && |p.strides| == 4 && p.squeezeDim < 3
      && (p.format == NHWC ==> p.inputSizes == [o[0], Known(1), o[1], o[2]])
      && (p.format == NCHW ==> p.inputSizes == [o[0], o[1], Known(1), o[2]])
      && p.inputSizes[p.squeezeDim] == Known(1)
      && RemoveAt(p.inputSizes, p.squeezeDim) == o
      && p.inputSizes[p.squeezeDim + 1] == o[p.squeezeDim]
      && (forall k :: 0 <= k < 4 ==> p.strides[k] == if k == p.squeezeDim + 1 then stride else 1)
  {
    var p := Conv1dTranspose(value, filter, output, stride, padding, dataFormat).value;
    assert p.strides == if p.squeezeDim == 1 then [1, 1, stride, 1] else [1, 1, 1, stride];
    PlanShapes(output.entries, p.squeezeDim, stride, p.strides, p.inputSizes);
  }

  /** The 4-D sizes and strides for a unit dimension inserted at position d of a 3-entry output shape. */
  lemma PlanShapes(o: seq<Dim>, d: nat, stride: int, strides: seq<int>, sizes: seq<Dim>)
    requires |o| == 3 && (d == 1 || d == 2)
    requires sizes == PyInsert(o, d, Known(1))
    requires strides == if d == 1 then [1, 1, stride, 1] else [1, 1, 1, stride]
    ensures |sizes| == 4 && |strides| == 4
    ensures sizes == if d == 1 then [o[0], Known(1), o[1], o[2]] else [o[0], o[1], Known(1), o[2]]
    ensures sizes[d] == Known(1) && RemoveAt(sizes, d) == o && sizes[d + 1] == o[d]
    ensures forall k :: 0 <= k < 4 ==> strides[k] == if k == d + 1 then stride else 1
  {
    RemoveInserted(o, d, Known(1));
    if d == 1 {
      assert sizes == o[..1] + [Known(1)] + o[1..];
    } else {
      assert sizes == o[..2] + [Known(1)] + o[2..];
    }
  }

  /**
    * `conv1d_transpose_wrap`: the output shape becomes a stacked tensor of
    * the value's run-time batch size (unknown statically) and entries 1 and
    * 2 of the given list; a list with fewer than three entries fails on the
    * index. The wrapped call is the library's `conv1d_transpose`, which
    * this model takes to be the one above.
    */
  function Conv1dTransposeWrap(value: seq<Dim>, filter: seq<Dim>, output: seq<Dim>, stride: int,
                               padding: string, dataFormat: Option<string>): (r: Result<Conv1dPlan, ConvError>)
    ensures |output| < 3 ==> r == Err(ShapeIndex)
    ensures |output| >= 3 ==>
      r == Conv1dTranspose(value, filter, TensorShape([Unknown, output[1], output[2]]), stride, padding, dataFormat)
    ensures !(r.Err? && (r.error.OutputChannelMismatch? || r.error.OutputShapeNotVector?))
    ensures r.Ok? <==> && |output| >= 3 && ChannelAxis(dataFormat).Some?
                       && ChannelAxis(dataFormat).value < |value| && 2 < |filter|
                       && Compatible(value[ChannelAxis(dataFormat).value], filter[2])
                       && ValidPadding(padding)
    ensures r.Ok? ==> RemoveAt(r.value.inputSizes, r.value.squeezeDim) == [Unknown, output[1], output[2]]
  {
    if |output| < 3 then Err(ShapeIndex)
    else
      var out := TensorShape([Unknown, output[1], output[2]]);
      var r := Conv1dTranspose(value, filter, out, stride, padding, dataFormat);
      if r.Ok? then
        Conv1dTransposeShapes(value, filter, out, stride, padding, dataFormat);
        r
      else r
  }

  /**
    * Through the wrapper the output shape is a tensor, so the output-channel
    * check never applies: a well-formatted call with matching input channels
    * and valid padding succeeds whatever the requested channel count, and
    * the result keeps entries 1 and 2 of the list with an unknown batch.
    */
  lemma WrapSkipsOutputCheck(value: seq<Dim>, filter: seq<Dim>, output: seq<Dim>, stride: int)
    requires |output| >= 3 && |value| == 3 && |filter| == 3
    requires Compatible(value[2], filter[2])
    ensures var r := Conv1dTransposeWrap(value, filter, output, stride, "SAME", Some("NWC"));
      && r.Ok?
      && RemoveAt(r.value.inputSizes, r.value.squeezeDim) == [Unknown, output[1], output[2]]
  {
    var out := TensorShape([Unknown, output[1], output[2]]);
    assert ChannelsAgree(value, filter, out, 2);
    Conv1dTransposeShapes(value, filter, out, stride, "SAME", Some("NWC"));
  }

  // ---------------------------------------------------------------------
  // repeat_2d

  datatype RepeatError =
    | TileRank(rank: nat)        // `tile` with two multiples needs a rank-2 input
    | NegativeRepeat             // `tile` rejects negative multiples
    | UnknownDimension           // `reshape` cannot take an unknown (None) dimension

  /** The sizes of a fully known shape. */
  function Sizes(shape: seq<Dim>): (r: seq<nat>)
    requires forall k :: 0 <= k < |shape| ==> shape[k].Known?
    ensures |r| == |shape| && forall k :: 0 <= k < |shape| ==> r[k] == shape[k].n
  {
    seq(|shape|, k requires 0 <= k < |shape| => shape[k].n)
  }

  /**
    * `repeat_2d(input_, axis, repeat_num)`: the input is tiled repeat_num
    * times along its first axis and reshaped to its original shape with
    * repeat_num inserted at `axis`.
    */
  function RepeatShape(shape: seq<Dim>, axis: int, repeatNum: int): (r: Result<seq<nat>, RepeatError>)
    ensures r == Err(TileRank(|shape|)) <==> |shape| != 2
    ensures r == Err(NegativeRepeat) <==> |shape| == 2 && repeatNum < 0
    ensures r == Err(UnknownDimension) <==> |shape| == 2 && repeatNum >= 0 && (shape[0].Unknown? || shape[1].Unknown?)
    ensures r.Ok? ==> (&& |shape| == 2 && repeatNum >= 0 && shape[0].Known? && shape[1].Known?
                       && r.value == PyInsert([shape[0].n, shape[1].n], axis, repeatNum as nat))
  {
    if |shape| != 2 then Err(TileRank(|shape|))
    else if repeatNum < 0 then Err(NegativeRepeat)
    else if shape[0].Unknown? || shape[1].Unknown? then Err(UnknownDimension)
    else Ok(PyInsert(Sizes(shape), axis, repeatNum))
  }

  /**
    * The reshape is always legal: the new shape has as many elements as
    * the tiled tensor [d0 * repeat_num, d1], and taking the inserted entry
    * out gives the original shape back.
    */
  lemma RepeatShapeElements(shape: seq<Dim>, axis: int, repeatNum: int)
    requires RepeatShape(shape, axis, repeatNum).Ok?
    ensures var r := RepeatShape(shape, axis, repeatNum).value;
      && |r| == 3
      && Product(r) == Product([shape[0].n * repeatNum as nat, shape[1].n])
      && RemoveAt(r, SliceStart(axis, 2)) == [shape[0].n, shape[1].n]
  {
    var r := RepeatShape(shape, axis, repeatNum).value;
    var a, b, n := shape[0].n, shape[1].n, repeatNum as nat;
    RemoveInserted([a, b], axis, n);
    var p := SliceStart(axis, 2);
    ProductOfTwo(a * n, b);
    Rearranged(a, b, n);
    if p == 0 {
      assert r == [n, a, b];
      ProductOfThree(n, a, b);
    } else if p == 1 {
      assert r == [a, n, b];
      ProductOfThree(a, n, b);
    } else {
      assert r == [a, b, n];
      ProductOfThree(a, b, n);
    }
  }

  lemma ProductOfOne(x: nat)
    ensures Product([x]) == x
  {
    assert [x][1..] == [];
  }

  lemma ProductOfTwo(x: nat, y: nat)
    ensures Product([x, y]) == x * y
  {
    assert [x, y][1..] == [y];
    assert [y][1..] == [];
    assert Product([y]) == y * Product([]) == y;
    assert Product([x, y]) == x * Product([y]);
  }

  lemma ProductOfThree(x: nat, y: nat, z: nat)
    ensures Product([x, y, z]) == x * (y * z)
  {
    assert [x, y, z][1..] == [y, z];
    ProductOfTwo(y, z);
  }

  lemma Rearranged(a: nat, b: nat, n: nat)
    ensures n * (a * b) == (a * n) * b
    ensures a * (n * b) == (a * n) * b
    ensures a * (b * n) == (a * n) * b
  {
  }

  // ---------------------------------------------------------------------
  // The upsampling chain of my_model_fn and its variants

  /** One transposed-convolution layer of the chain, as far as its shapes go. */
  datatype Layer = Layer(inWidth: nat, inChannels: nat, stride: nat, outWidth: nat, outChannels: nat)

  datatype ChainError =
    | NoDenseLayers                                            // `fc_filters[-1]` of an empty list
    | ZeroFeatureWidth(layer: nat)                             // `up_size % 0`
    | NotDivisible(layer: nat, upSize: nat, featureDim: nat)   // the divisibility assertion

  /** The width a layer starts from: the last dense width, then each previous layer's size. */
  function WidthBefore(fcLast: nat, dims: seq<nat>, i: nat): nat
    requires i <= |dims|
  {
    if i == 0 then fcLast else dims[i - 1]
  }

  /** The channel count a layer starts from: 1, then each previous layer's filter count. */
  function ChannelsBefore(filters: seq<nat>, i: nat): nat
    requires i <= |filters|
  {
    if i == 0 then 1 else filters[i - 1]
  }

  /** Whether layer i passes `up_size % feature_dim == 0` (a zero width fails). */
  predicate Divides(fcLast: nat, dims: seq<nat>, i: nat)
    requires i < |dims|
  {
    WidthBefore(fcLast, dims, i) > 0 && dims[i] % WidthBefore(fcLast, dims, i) == 0
  }

  /** Every layer from i up to n passes its divisibility check. */
  predicate AllDivide(fcLast: nat, dims: seq<nat>, i: nat, n: nat)
    requires n <= |dims|
  {
    forall j :: i <= j < n ==> Divides(fcLast, dims, j)
  }

  /**
    * The layer loop from layer i on, `featureDim` and `lastFilter` being the
    * values the loop variables hold when it reaches layer i.
    */
  function ChainFrom(dims: seq<nat>, filters: seq<nat>, i: nat, featureDim: nat, lastFilter: nat)
    : (r: Result<seq<Layer>, ChainError>)
    requires i <= Min(|dims|, |filters|)
    ensures r.Ok? ==> |r.value| == Min(|dims|, |filters|) - i
    ensures r.Ok? ==> forall k :: 0 <= k < |r.value| ==>
      && r.value[k].outWidth == dims[i + k] && r.value[k].outChannels == filters[i + k]
      && r.value[k].inWidth * r.value[k].stride == r.value[k].outWidth
      && r.value[k].inWidth == (if k == 0 then featureDim else dims[i + k - 1])
      && r.value[k].inChannels == (if k == 0 then lastFilter else filters[i + k - 1])
    ensures r.Err? ==> match r.error
      case NoDenseLayers => false
      case ZeroFeatureWidth(j) => i <= j < Min(|dims|, |filters|) && (if j == i then featureDim else dims[j - 1]) == 0
      case NotDivisible(j, up, fd) =>
        (&& i <= j < Min(|dims|, |filters|) && up == dims[j] && fd > 0 && up % fd != 0
         && fd == (if j == i then featureDim else dims[j - 1]))
    decreases Min(|dims|, |filters|) - i
  {
    if i == Min(|dims|, |filters|) then Ok([])
    else
      var upSize, upFilter := dims[i], filters[i];
      if featureDim == 0 then Err(ZeroFeatureWidth(i))
      else if upSize % featureDim != 0 then Err(NotDivisible(i, upSize, featureDim))
      else
        var stride := upSize / featureDim;
        match ChainFrom(dims, filters, i + 1, upSize, upFilter)
        case Err(e) => Err(e)
        case Ok(rest) => Ok([Layer(featureDim, lastFilter, stride, upSize, upFilter)] + rest)
  }

  /** ChainFrom fails exactly when some remaining layer fails its divisibility check. */
  lemma {:induction false} ChainFromOk(fcLast: nat, dims: seq<nat>, filters: seq<nat>, i: nat)
    requires i <= Min(|dims|, |filters|)
    ensures ChainFrom(dims, filters, i, WidthBefore(fcLast, dims, i), ChannelsBefore(filters, i)).Ok?
      <==> AllDivide(fcLast, dims, i, Min(|dims|, |filters|))
    decreases Min(|dims|, |filters|) - i
  {
    var n := Min(|dims|, |filters|);
    if i < n {
      ChainFromOk(fcLast, dims, filters, i + 1);
      assert WidthBefore(fcLast, dims, i + 1) == dims[i];
      assert ChannelsBefore(filters, i + 1) == filters[i];
      assert AllDivide(fcLast, dims, i, n) <==> Divides(fcLast, dims, i) && AllDivide(fcLast, dims, i + 1, n);
    }
  }

  /**
    * The stride/filter chain: `feature_dim` starts at the last dense width
    * and `last_filter` at 1; `zip` stops at the shorter of the size and
    * filter lists; layer i needs its size divisible by the current width,
    * strides by the quotient, and leaves its size and filter count for the
    * next layer.
    */
  function UpsampleChain(fcFilters: seq<nat>, dims: seq<nat>, filters: seq<nat>): (r: Result<seq<Layer>, ChainError>)
    ensures r == Err(NoDenseLayers) <==> |fcFilters| == 0
    ensures |fcFilters| > 0 ==>
      (r.Ok? <==> AllDivide(fcFilters[|fcFilters| - 1], dims, 0, Min(|dims|, |filters|)))
    ensures r.Ok? ==> |r.value| == Min(|dims|, |filters|)
    ensures r.Ok? ==> forall k :: 0 <= k < |r.value| ==>
      && r.value[k].inWidth == WidthBefore(fcFilters[|fcFilters| - 1], dims, k)
      && r.value[k].inChannels == ChannelsBefore(filters, k)
      && r.value[k].outWidth == dims[k] && r.value[k].outChannels == filters[k]
      && r.value[k].inWidth * r.value[k].stride == dims[k]
  {
    if |fcFilters| == 0 then Err(NoDenseLayers)
    else
      var fcLast := fcFilters[|fcFilters| - 1];
      ChainFromOk(fcLast, dims, filters, 0);
      ChainFrom(dims, filters, 0, fcLast, 1)
  }

  function Strides(layers: seq<Layer>): (r: seq<nat>)
    ensures |r| == |layers| && forall k :: 0 <= k < |layers| ==> r[k] == layers[k].stride
  {
    seq(|layers|, k requires 0 <= k < |layers| => layers[k].stride)
  }

  /**
    * The last dense width times the product of all strides is the last
    * layer's size: the chain upsamples exactly to the final `tconv_dims`
    * entry it reaches.
    */
  lemma ChainReachesLastWidth(fcFilters: seq<nat>, dims: seq<nat>, filters: seq<nat>)
    requires UpsampleChain(fcFilters, dims, filters).Ok?
    requires Min(|dims|, |filters|) > 0
    ensures var layers := UpsampleChain(fcFilters, dims, filters).value;
      fcFilters[|fcFilters| - 1] * Product(Strides(layers)) == dims[|layers| - 1]
  {
    var layers := UpsampleChain(fcFilters, dims, filters).value;
    forall j | 0 < j < |layers|
      ensures layers[j].inWidth == layers[j - 1].outWidth
    {
      assert layers[j].inWidth == WidthBefore(fcFilters[|fcFilters| - 1], dims, j) == dims[j - 1];
    }
    LayersTelescope(layers, |layers|);
    assert Strides(layers)[..|layers|] == Strides(layers);
  }

  /**
    * In a stack where each layer starts from the previous layer's width and
    * multiplies its width by its stride, the first width times the first k
    * strides is the width after layer k.
    */
  lemma {:induction false} LayersTelescope(layers: seq<Layer>, k: nat)
    requires 0 < k <= |layers|
    requires forall j :: 0 <= j < |layers| ==> layers[j].inWidth * layers[j].stride == layers[j].outWidth
    requires forall j :: 0 < j < |layers| ==> layers[j].inWidth == layers[j - 1].outWidth
    ensures layers[0].inWidth * Product(Strides(layers)[..k]) == layers[k - 1].outWidth
    decreases k
  {
    var ms := Strides(layers);
    if k == 1 {
      assert ms[..1] == [layers[0].stride];
      ProductOfOne(layers[0].stride);
    } else {
      LayersTelescope(layers, k - 1);
      assert ms[..k] == ms[..k - 1] + [ms[k - 1]];
      ProductAppend(ms[..k - 1], ms[k - 1]);
      var prev, here := layers[k - 2], layers[k - 1];
      assert prev.outWidth * here.stride == here.outWidth;
      TelescopeStep(layers[0].inWidth, Product(ms[..k - 1]), ms[k - 1], prev.outWidth, here.outWidth);
    }
  }

  /** The static shape of the stack's activation before layer k: unknown batch, width, channels. */
  function ActivationShape(l: Layer): seq<Dim>
  {
    [Unknown, Known(l.inWidth), Known(l.inChannels)]
  }

  /**
    * Every layer's `conv1d_transpose_wrap` call passes validation, and its
    * result has the shape the next layer expects as its input.
    */
  lemma ChainCallsValid(fcFilters: seq<nat>, dims: seq<nat>, filters: seq<nat>, batchSize: nat, k: nat)
    requires UpsampleChain(fcFilters, dims, filters).Ok?
    requires k < |UpsampleChain(fcFilters, dims, filters).value|
    ensures var layers := UpsampleChain(fcFilters, dims, filters).value;
      var l := layers[k];
      var r := Conv1dTransposeWrap(ActivationShape(l), [Known(3), Known(l.outChannels), Known(l.inChannels)],
                                   [Known(batchSize), Known(l.outWidth), Known(l.outChannels)], l.stride,
                                   "SAME", Some("NWC"));
      && r.Ok?
      && RemoveAt(r.value.inputSizes, r.value.squeezeDim) == [Unknown, Known(l.outWidth), Known(l.outChannels)]
      && (k + 1 < |layers| ==> ActivationShape(layers[k + 1]) == [Unknown, Known(l.outWidth), Known(l.outChannels)])
  {
    var l := UpsampleChain(fcFilters, dims, filters).value[k];
    WrapSkipsOutputCheck(ActivationShape(l), [Known(3), Known(l.outChannels), Known(l.inChannels)],
                         [Known(batchSize), Known(l.outWidth), Known(l.outChannels)], l.stride);
  }

  /** A width of 7 does not divide 10: the first layer's assertion fails. */
  lemma ChainNotDivisibleExample()
    ensures UpsampleChain([20, 7], [10], [4]) == Err(NotDivisible(0, 10, 7))
  {
  }

  /** `zip` stops at the shorter list: two sizes but one filter count give one layer, of stride 3. */
  lemma ChainZipExample()
    ensures UpsampleChain([5], [15, 45], [8]) == Ok([Layer(5, 1, 3, 15, 8)])
  {
    assert Min(2, 1) == 1;
    assert ChainFrom([15, 45], [8], 1, 15, 8) == Ok([]);
    assert 15 % 5 == 0 && 15 / 5 == 3;
    assert ChainFrom([15, 45], [8], 0, 5, 1) == Ok([Layer(5, 1, 3, 15, 8)] + []);
    assert [Layer(5, 1, 3, 15, 8)] + [] == [Layer(5, 1, 3, 15, 8)];
  }
}
