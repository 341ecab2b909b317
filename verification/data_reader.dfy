/**
  * The training-data reader of data_reader.py: `importData` gathers feature
  * and label columns from the `.csv` files of a directory listing, and
  * `read_data` decimates the label curves and batches the validation set.
  * A file is a table of already-parsed cells; pandas' text parsing and
  * numpy's float32 conversion are not modelled.
  */
module DataReader {
  import opened Results
  import opened Seqs
  import opened Text

  /** A directory entry read as a table: `rows[0]` is the first line of the file. */
  datatype CsvFile = CsvFile(name: string, rows: seq<seq<real>>)

  /** Why a file could not be read. */
  datatype Problem =
    | NoLines                          // no line to take columns from
    | ColumnOutOfRange(column: int)    // a `usecols` index outside the table
    | RowWidth(row: nat, width: nat)   // a line whose width differs from the first
    | FeatureColumnCount(count: nat)   // `addColumns` names exactly ten feature columns

  datatype ReadError = ReadError(file: string, problem: Problem)

  /** The listing entries whose name ends in `.csv`, in listing order. */
  function CsvFiles(listing: seq<CsvFile>): seq<CsvFile>
  {
    Filter(listing, (f: CsvFile) => IsCsvName(f.name))
  }

  /** The listing filter keeps exactly the `.csv` entries and composes by concatenation. */
  lemma CsvFilesSpec(a: seq<CsvFile>, b: seq<CsvFile>, f: CsvFile)
    ensures CsvFiles(a + b) == CsvFiles(a) + CsvFiles(b)
    ensures CsvFiles([f]) == if IsCsvName(f.name) then [f] else []
  {
    FilterConcat(a, b, (f: CsvFile) => IsCsvName(f.name));
    assert [f][1..] == [];
  }

  /**
    * The positions `usecols` picks from a table `width` wide: every listed
    * position inside the table, once each, in file order whatever the order
    * of the list.
    */
  function Columns(cols: seq<int>, width: nat): (r: seq<nat>)
    ensures forall k :: 0 <= k < |r| ==> r[k] < width && r[k] in cols
    ensures forall p: nat :: p < width && p in cols ==> p in r
    ensures forall k, l :: 0 <= k < l < |r| ==> r[k] < r[l]
    decreases width
  {
    if width == 0 then []
    else Columns(cols, width - 1) + (if width - 1 in cols then [width - 1] else [])
  }

  predicate InRange(cols: seq<int>, width: nat)
  {
    forall k :: 0 <= k < |cols| ==> 0 <= cols[k] < width
  }

  /** Widening a table past every listed position picks the same columns. */
  lemma {:induction false} ColumnsWiden(cols: seq<int>, width: nat, wider: nat)
    requires InRange(cols, width) && width <= wider
    ensures Columns(cols, wider) == Columns(cols, width)
    decreases wider - width
  {
    if wider > width {
      ColumnsWiden(cols, width, wider - 1);
      assert wider - 1 !in cols;
    }
  }

  /** Two tables that both hold every listed position give selections of one width. */
  lemma ColumnsAgree(cols: seq<int>, w1: nat, w2: nat)
    requires InRange(cols, w1) && InRange(cols, w2)
    ensures Columns(cols, w1) == Columns(cols, w2)
  {
    if w1 <= w2 {
      ColumnsWiden(cols, w1, w2);
    } else {
      ColumnsWiden(cols, w2, w1);
    }
  }

  /** One line of the table restricted to the `usecols` columns. */
  function Select(row: seq<real>, cols: seq<int>): (r: seq<real>)
    ensures |r| == |Columns(cols, |row|)|
    ensures forall k :: 0 <= k < |r| ==> r[k] == row[Columns(cols, |row|)[k]]
  {
    var ps := Columns(cols, |row|);
    seq(|ps|, k requires 0 <= k < |ps| => row[ps[k]])
  }

  function SelectAll(rows: seq<seq<real>>, cols: seq<int>): (r: seq<seq<real>>)
    ensures |r| == |rows|
    ensures forall i :: 0 <= i < |rows| ==> r[i] == Select(rows[i], cols)
  {
    seq(|rows|, i requires 0 <= i < |rows| => Select(rows[i], cols))
  }

  lemma SelectAllAppend(a: seq<seq<real>>, b: seq<seq<real>>, cols: seq<int>)
    ensures SelectAll(a + b, cols) == SelectAll(a, cols) + SelectAll(b, cols)
  {
  }

  /** Whether every line of a non-empty file is as wide as its first line. */
  predicate Rectangular(f: CsvFile)
  {
    |f.rows| > 0 && forall j :: 0 <= j < |f.rows| ==> |f.rows[j]| == |f.rows[0]|
  }

  /** What `pd.read_csv(file, usecols=cols)` needs to succeed on this table. */
  predicate Readable(f: CsvFile, cols: seq<int>)
  {
    Rectangular(f) && InRange(cols, |f.rows[0]|)
  }

  /** The first listed column outside a table `width` wide, if any. */
  function FirstOutOfRange(cols: seq<int>, width: nat): (r: Option<int>)
    ensures r.None? <==> InRange(cols, width)
    ensures r.Some? ==> r.value in cols && !(0 <= r.value < width)
    decreases |cols|
  {
    if |cols| == 0 then None
    else if !(0 <= cols[0] < width) then Some(cols[0])
    else
      var r := FirstOutOfRange(cols[1..], width);
      assert forall k :: 1 <= k < |cols| ==> cols[k] == cols[1..][k - 1];
      r
  }

  /** The first line, from index `from` on, whose width differs from `width`, if any. */
  function FirstWideRow(rows: seq<seq<real>>, width: nat, from: nat): (r: Option<nat>)
    requires from <= |rows|
    ensures r.None? <==> forall j :: from <= j < |rows| ==> |rows[j]| == width
    ensures r.Some? ==> from <= r.value < |rows| && |rows[r.value]| != width
    decreases |rows| - from
  {
    if from == |rows| then None
    else if |rows[from]| != width then Some(from)
    else FirstWideRow(rows, width, from + 1)
  }

  /**
    * `pd.read_csv(file, delimiter=',', usecols=cols)`: with `header` the
    * first line is taken as the column names and the rest are the rows;
    * without it every line is a row.
    */
  function ReadColumns(f: CsvFile, cols: seq<int>, header: bool): (r: Result<seq<seq<real>>, ReadError>)
    ensures r.Ok? <==> Readable(f, cols)
    ensures r.Ok? ==> r.value == SelectAll(Body(f, header), cols)
    ensures r.Err? ==> r.error.file == f.name
  {
    if |f.rows| == 0 then Err(ReadError(f.name, NoLines))
    else
      var width := |f.rows[0]|;
      match FirstOutOfRange(cols, width)
      case Some(c) => Err(ReadError(f.name, ColumnOutOfRange(c)))
      case None =>
        match FirstWideRow(f.rows, width, 0)
        case Some(j) => Err(ReadError(f.name, RowWidth(j, |f.rows[j]|)))
        case None => Ok(SelectAll(Body(f, header), cols))
  }

  /** The lines of a file that become rows: all but the first when it is a header. */
  function Body(f: CsvFile, header: bool): seq<seq<real>>
  {
    if header && |f.rows| > 0 then f.rows[1..] else f.rows
  }

  /** The rows of all files, file after file, each with its header line consumed. */
  function DataRows(files: seq<CsvFile>): seq<seq<real>>
    decreases |files|
  {
    if |files| == 0 then [] else Body(files[0], true) + DataRows(files[1..])
  }

  /** Feature rows and label rows, index for index from the same line. */
  datatype Table = Table(features: seq<seq<real>>, labels: seq<seq<real>>)

  /** Whether both reads of a file succeed. */
  predicate Importable(f: CsvFile, xRange: seq<int>, yRange: seq<int>)
  {
    Readable(f, xRange) && Readable(f, yRange)
  }

  /**
    * The file loop of `importData`: each file is read for its feature
    * columns, then for its label columns, and the rows are appended pairwise.
    * The first file that cannot be read ends the import with its error.
    */
  function ImportFiles(files: seq<CsvFile>, xRange: seq<int>, yRange: seq<int>): (r: Result<Table, ReadError>)
    ensures r.Ok? <==> forall i :: 0 <= i < |files| ==> Importable(files[i], xRange, yRange)
    ensures r.Ok? ==> r.value == Table(SelectAll(DataRows(files), xRange), SelectAll(DataRows(files), yRange))
    ensures r.Err? ==> exists i :: (&& 0 <= i < |files| && !Importable(files[i], xRange, yRange)
                                    && r.error.file == files[i].name
                                    && forall j :: 0 <= j < i ==> Importable(files[j], xRange, yRange))
    decreases |files|
  {
    if |files| == 0 then Ok(Table([], []))
    else
      var f := files[0];
      match ReadColumns(f, xRange, true)
      case Err(e) => Err(e)
      case Ok(ftr) =>
        match ReadColumns(f, yRange, true)
        case Err(e) => Err(e)
        case Ok(lbl) =>
          var tail := ImportFiles(files[1..], xRange, yRange);
          ImportShift(files, xRange, yRange, tail.Ok?, if tail.Err? then tail.error.file else []);
          match tail
          case Err(e) => Err(e)
          case Ok(rest) =>
            SelectAllAppend(Body(f, true), DataRows(files[1..]), xRange);
            SelectAllAppend(Body(f, true), DataRows(files[1..]), yRange);
            Ok(Table(ftr + rest.features, lbl + rest.labels))
  }

  /** What the import of the files after the first says about the whole list, given that the first imports. */
  lemma ImportShift(files: seq<CsvFile>, xRange: seq<int>, yRange: seq<int>, ok: bool, failed: string)
    requires |files| > 0 && Importable(files[0], xRange, yRange)
    requires ok <==> forall i :: 0 <= i < |files[1..]| ==> Importable(files[1..][i], xRange, yRange)
    requires !ok ==> exists i :: (&& 0 <= i < |files[1..]| && !Importable(files[1..][i], xRange, yRange)
                                  && failed == files[1..][i].name
                                  && forall j :: 0 <= j < i ==> Importable(files[1..][j], xRange, yRange))
    ensures ok <==> forall i :: 0 <= i < |files| ==> Importable(files[i], xRange, yRange)
    ensures !ok ==> exists i :: (&& 0 <= i < |files| && !Importable(files[i], xRange, yRange)
                                 && failed == files[i].name
                                 && forall j :: 0 <= j < i ==> Importable(files[j], xRange, yRange))
  {
    assert forall j :: 1 <= j < |files| ==> files[j] == files[1..][j - 1];
    if !ok {
      var i :| 0 <= i < |files[1..]| && !Importable(files[1..][i], xRange, yRange)
        && failed == files[1..][i].name
        && forall j :: 0 <= j < i ==> Importable(files[1..][j], xRange, yRange);
      assert !Importable(files[i + 1], xRange, yRange);
    }
  }

  /** `importData(directory, x_range, y_range)` over a directory listing. */
  function ImportData(listing: seq<CsvFile>, xRange: seq<int>, yRange: seq<int>): (r: Result<Table, ReadError>)
    ensures var files := CsvFiles(listing);
      && (r.Ok? <==> forall i :: 0 <= i < |files| ==> Importable(files[i], xRange, yRange))
      && (r.Ok? ==> r.value == Table(SelectAll(DataRows(files), xRange), SelectAll(DataRows(files), yRange)))
      && (r.Err? ==> exists i :: (&& 0 <= i < |files| && !Importable(files[i], xRange, yRange)
                                  && r.error.file == files[i].name
                                  && forall j :: 0 <= j < i ==> Importable(files[j], xRange, yRange)))
    ensures forall i :: 0 <= i < |CsvFiles(listing)| ==> IsCsvName(CsvFiles(listing)[i].name)
  {
    ImportFiles(CsvFiles(listing), xRange, yRange)
  }

  /**
    * Features and labels come out in lockstep: both have one row per data
    * line of the `.csv` files, row i of each taken from the same line.
    */
  lemma ImportLockstep(listing: seq<CsvFile>, xRange: seq<int>, yRange: seq<int>)
    requires ImportData(listing, xRange, yRange).Ok?
    ensures var t := ImportData(listing, xRange, yRange).value;
      var rows := DataRows(CsvFiles(listing));
      && |t.features| == |t.labels| == |rows|
      && forall i :: 0 <= i < |rows| ==>
           t.features[i] == Select(rows[i], xRange) && t.labels[i] == Select(rows[i], yRange)
  {
  }

  /** Every data row of readable files is as wide as its file's first line. */
  lemma {:induction false} DataRowsWidth(files: seq<CsvFile>, cols: seq<int>, i: nat)
    requires forall j :: 0 <= j < |files| ==> Readable(files[j], cols)
    requires i < |DataRows(files)|
    ensures InRange(cols, |DataRows(files)[i]|)
    decreases |files|
  {
    var body := Body(files[0], true);
    if i < |body| {
      assert body[i] == files[0].rows[i + 1];
    } else {
      assert forall j :: 1 <= j < |files| ==> files[j] == files[1..][j - 1];
      DataRowsWidth(files[1..], cols, i - |body|);
    }
  }

  /**
    * Whatever the files' widths, every imported row selects the same columns,
    * so the feature rows are all of one length and so are the label rows:
    * the float32 arrays built from them are rectangular.
    */
  lemma ImportRectangular(listing: seq<CsvFile>, xRange: seq<int>, yRange: seq<int>, i: nat, j: nat)
    requires ImportData(listing, xRange, yRange).Ok?
    requires i < |ImportData(listing, xRange, yRange).value.features|
    requires j < |ImportData(listing, xRange, yRange).value.features|
    ensures var t := ImportData(listing, xRange, yRange).value;
      |t.features[i]| == |t.features[j]| && |t.labels[i]| == |t.labels[j]|
  {
    var files := CsvFiles(listing);
    var rows := DataRows(files);
    DataRowsWidth(files, xRange, i);
    DataRowsWidth(files, xRange, j);
    DataRowsWidth(files, yRange, i);
    DataRowsWidth(files, yRange, j);
    ColumnsAgree(xRange, |rows[i]|, |rows[j]|);
    ColumnsAgree(yRange, |rows[i]|, |rows[j]|);
  }

  /** Decimation keeps every sixth sample of the last 1800 of a curve of the reference length. */
  const KeptSpan: nat := 1800
  const DecimationStep: nat := 6
  const DecimatedLength: nat := 300

  /**
    * `c[L-1800::6]`: the slice start is computed from the reference length
    * `l` and then normalised against the curve's own length.
    */
  function Decimate(c: seq<real>, l: nat): (r: seq<real>)
    ensures var start := SliceStart(l - KeptSpan, |c|);
      && |r| == (|c| - start + DecimationStep - 1) / DecimationStep
      && forall k :: 0 <= k < |r| ==> r[k] == c[start + k * DecimationStep]
  {
    var start := SliceStart(l - KeptSpan, |c|);
    var r := StrideFrom(c, start, DecimationStep);
    StepCount(|c| - start, |r|);
    r
  }

  /**
    * Where `L-1800` lands: from index L-1800 when that is inside the curve,
    * counted back from the curve's end when it is negative, and past the
    * end (nothing kept) when it exceeds the curve's length.
    */
  lemma DecimateStart(c: seq<real>, l: nat)
    ensures var r := Decimate(c, l);
      && (KeptSpan <= l <= |c| + KeptSpan ==>
            forall k :: 0 <= k < |r| ==> r[k] == c[l - KeptSpan + k * DecimationStep])
      && (l < KeptSpan <= |c| + l ==>
            forall k :: 0 <= k < |r| ==> r[k] == c[|c| + l - KeptSpan + k * DecimationStep])
      && (l >= |c| + KeptSpan ==> r == [])
  {
    var start := SliceStart(l - KeptSpan, |c|);
    if l >= |c| + KeptSpan {
      assert start == |c|;
    }
  }

  /** The number of 6-sample steps that first covers n samples is n / 6 rounded up. */
  lemma StepCount(n: int, m: int)
    requires (m - 1) * DecimationStep < n <= m * DecimationStep
    ensures m == (n + DecimationStep - 1) / DecimationStep
  {
  }

  /** A curve of the reference length, at least 1800 long, decimates to 300 samples: c[L-1800+6k]. */
  lemma DecimateSamples(c: seq<real>)
    requires |c| >= KeptSpan
    ensures |Decimate(c, |c|)| == DecimatedLength
    ensures forall k :: 0 <= k < DecimatedLength ==>
      Decimate(c, |c|)[k] == c[|c| - KeptSpan + k * DecimationStep]
  {
    var r := Decimate(c, |c|);
    assert SliceStart(|c| - KeptSpan, |c|) == |c| - KeptSpan;
    DecimatedCount(|r|);
  }

  /** The only count of 6-sample steps that first covers 1800 samples is 300. */
  lemma DecimatedCount(n: int)
    requires (n - 1) * DecimationStep < KeptSpan <= n * DecimationStep
    ensures n == DecimatedLength
  {
  }

  /**
    * A curve shorter than 1800 has a negative slice start, which counts from
    * its end: a 1000-sample curve keeps samples 200, 206, ... and so 134 of them.
    */
  lemma DecimateShortCurve(c: seq<real>)
    requires |c| == 1000
    ensures |Decimate(c, |c|)| == 134
    ensures Decimate(c, |c|)[0] == c[200]
  {
    var r := Decimate(c, |c|);
    assert SliceStart(|c| - KeptSpan, |c|) == 200;
    assert |r| == 805 / 6;
  }

  /** `int(.8 * n)`: four fifths of n, rounded down. */
  function TrainLength(n: nat): (r: nat)
    ensures r <= n
    ensures 5 * r <= 4 * n < 5 * (r + 1)
  {
    (4 * n) / 5
  }

  /** `zip(xs, ys)` of two sequences of one length. */
  function Zip<A, B>(xs: seq<A>, ys: seq<B>): (r: seq<(A, B)>)
    requires |xs| == |ys|
    ensures |r| == |xs| && forall i :: 0 <= i < |r| ==> r[i] == (xs[i], ys[i])
    ensures seq(|r|, i requires 0 <= i < |r| => r[i].0) == xs
    ensures seq(|r|, i requires 0 <= i < |r| => r[i].1) == ys
  {
    seq(|xs|, i requires 0 <= i < |xs| => (xs[i], ys[i]))
  }

  datatype LoadError =
    | ImportFailed(cause: ReadError)   // a training or test file could not be read
    | EmptyTestSet                     // `lblTest[0]` of an empty test set
    | EmptyTrainSet                    // the 2-D slice of an empty training label array

  /**
    * What `read_data` sets up: the training rows with decimated labels (which
    * feed a shuffled, repeated stream), the four-fifths training length, and
    * the validation set in full batches.
    */
  datatype Loaded = Loaded(
    train: Table,
    test: Table,
    trainLength: nat,
    validBatches: seq<seq<(seq<real>, seq<real>)>>)

  /** Every label row decimated with the offset of the reference length `l`. */
  function DecimateAll(rows: seq<seq<real>>, l: nat): (r: seq<seq<real>>)
    ensures |r| == |rows| && forall i :: 0 <= i < |rows| ==> r[i] == Decimate(rows[i], l)
  {
    seq(|rows|, i requires 0 <= i < |rows| => Decimate(rows[i], l))
  }

  /**
    * The decimation and batching of `read_data` for non-empty sets: every
    * label row is decimated with the offset of the first test label row,
    * the features pass through, and the validation pairs are cut into full
    * batches.
    */
  function Decimated(train: Table, test: Table, batchSize: nat): (r: Loaded)
    requires batchSize > 0
    requires |train.features| == |train.labels| && |test.features| == |test.labels| > 0
    ensures r.train.features == train.features && r.test.features == test.features
    ensures |r.train.labels| == |train.labels| && |r.test.labels| == |test.labels|
    ensures forall i :: 0 <= i < |train.labels| ==>
      r.train.labels[i] == Decimate(train.labels[i], |test.labels[0]|)
    ensures forall i :: 0 <= i < |test.labels| ==>
      r.test.labels[i] == Decimate(test.labels[i], |test.labels[0]|)
    ensures r.trainLength == TrainLength(|train.features|)
    ensures Batched(r.validBatches, Zip(test.features, r.test.labels), batchSize)
  {
    var l := |test.labels[0]|;
    var trainLabels := DecimateAll(train.labels, l);
    var testLabels := DecimateAll(test.labels, l);
    Loaded(
      Table(train.features, trainLabels),
      Table(test.features, testLabels),
      TrainLength(|train.features|),
      Batch(Zip(test.features, testLabels), batchSize))
  }

  /**
    * The part of `read_data` after the imports, given tables whose feature
    * and label row counts agree (the two shape assertions): an empty test
    * set fails on `lblTest[0]`, then an empty training set fails on its 2-D
    * slice; otherwise the result is `Decimated`.
    */
  function Prepare(train: Table, test: Table, batchSize: nat): (r: Result<Loaded, LoadError>)
    requires batchSize > 0
    requires |train.features| == |train.labels| && |test.features| == |test.labels|
    ensures r == Err(EmptyTestSet) <==> |test.labels| == 0
    ensures r == Err(EmptyTrainSet) <==> |test.labels| > 0 && |train.labels| == 0
    ensures r.Ok? <==> |test.labels| > 0 && |train.labels| > 0
    ensures r.Ok? ==> r.value == Decimated(train, test, batchSize)
  {
    if |test.labels| == 0 then Err(EmptyTestSet)
    else if |train.labels| == 0 then Err(EmptyTrainSet)
    else Ok(Decimated(train, test, batchSize))
  }

  /**
    * `read_data`: import the training listing, then the test listing (an
    * import error of either is the result), then `Prepare`. The imports
    * always satisfy the two shape assertions.
    */
  function ReadData(trainListing: seq<CsvFile>, testListing: seq<CsvFile>, xRange: seq<int>, yRange: seq<int>,
                    batchSize: nat): (r: Result<Loaded, LoadError>)
    requires batchSize > 0
    ensures ImportData(trainListing, xRange, yRange).Err? ==>
              r == Err(ImportFailed(ImportData(trainListing, xRange, yRange).error))
    ensures ImportData(trainListing, xRange, yRange).Ok? && ImportData(testListing, xRange, yRange).Err? ==>
              r == Err(ImportFailed(ImportData(testListing, xRange, yRange).error))
    ensures ImportData(trainListing, xRange, yRange).Ok? && ImportData(testListing, xRange, yRange).Ok? ==>
              (&& |ImportData(trainListing, xRange, yRange).value.features|
                   == |ImportData(trainListing, xRange, yRange).value.labels|
               && |ImportData(testListing, xRange, yRange).value.features|
                   == |ImportData(testListing, xRange, yRange).value.labels|
               && r == Prepare(ImportData(trainListing, xRange, yRange).value,
                               ImportData(testListing, xRange, yRange).value, batchSize))
  {
    match ImportData(trainListing, xRange, yRange)
    case Err(e) => Err(ImportFailed(e))
    case Ok(train) =>
      match ImportData(testListing, xRange, yRange)
      case Err(e) => Err(ImportFailed(e))
      case Ok(test) =>
        ImportLockstep(trainListing, xRange, yRange);
        ImportLockstep(testListing, xRange, yRange);
        Prepare(train, test, batchSize)
  }

  /** The first label row of one import is as wide as every label row of another with the same columns. */
  lemma LabelWidthsAgree(a: seq<CsvFile>, b: seq<CsvFile>, xRange: seq<int>, yRange: seq<int>, i: nat, j: nat)
    requires ImportData(a, xRange, yRange).Ok? && ImportData(b, xRange, yRange).Ok?
    requires i < |ImportData(a, xRange, yRange).value.labels|
    requires j < |ImportData(b, xRange, yRange).value.labels|
    ensures |ImportData(a, xRange, yRange).value.labels[i]| == |ImportData(b, xRange, yRange).value.labels[j]|
  {
    ImportLockstep(a, xRange, yRange);
    ImportLockstep(b, xRange, yRange);
    var ra, rb := DataRows(CsvFiles(a)), DataRows(CsvFiles(b));
    DataRowsWidth(CsvFiles(a), yRange, i);
    DataRowsWidth(CsvFiles(b), yRange, j);
    ColumnsAgree(yRange, |ra[i]|, |rb[j]|);
  }

  /**
    * Although the training labels are cut with the test set's offset, every
    * imported label row has the width of the first test label row, so when
    * that width is at least 1800 every decimated label, training and test,
    * has exactly 300 samples.
    */
  lemma ReadDataSpectra(trainListing: seq<CsvFile>, testListing: seq<CsvFile>, xRange: seq<int>, yRange: seq<int>,
                        batchSize: nat)
    requires batchSize > 0
    requires ReadData(trainListing, testListing, xRange, yRange, batchSize).Ok?
    requires |ImportData(testListing, xRange, yRange).value.labels[0]| >= KeptSpan
    ensures var r := ReadData(trainListing, testListing, xRange, yRange, batchSize).value;
      && (forall i :: 0 <= i < |r.train.labels| ==> |r.train.labels[i]| == DecimatedLength)
      && (forall i :: 0 <= i < |r.test.labels| ==> |r.test.labels[i]| == DecimatedLength)
  {
    var r := ReadData(trainListing, testListing, xRange, yRange, batchSize).value;
    assert r == Decimated(ImportData(trainListing, xRange, yRange).value, ImportData(testListing, xRange, yRange).value, batchSize);
    var train := ImportData(trainListing, xRange, yRange).value;
    var test := ImportData(testListing, xRange, yRange).value;
    var l := |test.labels[0]|;
    forall i | 0 <= i < |r.train.labels|
      ensures |r.train.labels[i]| == DecimatedLength
    {
      LabelWidthsAgree(trainListing, testListing, xRange, yRange, i, 0);
      DecimateSamples(train.labels[i]);
    }
    forall i | 0 <= i < |r.test.labels|
      ensures |r.test.labels[i]| == DecimatedLength
    {
      LabelWidthsAgree(testListing, testListing, xRange, yRange, i, 0);
      DecimateSamples(test.labels[i]);
    }
  }

  /** The ten names `addColumns` gives the feature columns: two identifiers, then `ftr0`..`ftr7`. */
  function BaseNames(): (r: seq<string>)
    ensures |r| == 10
  {
    ["id0", "id1"] + seq(8, i requires 0 <= i < 8 => "ftr" + DigitString(i))
  }

  /** The column pairs (height i, radius j) in loop order: i over 2..5 outside, j over 6..9 inside. */
  function RatioPairs(): seq<(int, int)>
  {
    Concat(seq(4, a requires 0 <= a < 4 => seq(4, b requires 0 <= b < 4 => (2 + a, 6 + b))))
  }

  /** `newCol` ends at 16, and new column 4a+b divides radius column 6+b by height column 2+a. */
  lemma RatioPairsAt()
    ensures |RatioPairs()| == 16
    ensures forall k :: 0 <= k < 16 ==> RatioPairs()[k] == (2 + k / 4, 6 + k % 4)
  {
    var blocks := seq(4, a requires 0 <= a < 4 => seq(4, b requires 0 <= b < 4 => (2 + a, 6 + b)));
    ConcatUniformLength(blocks, 4);
    forall k | 0 <= k < 16
      ensures RatioPairs()[k] == (2 + k / 4, 6 + k % 4)
    {
      ConcatUniformAt(blocks, 4, k / 4, k % 4);
      assert k / 4 * 4 + k % 4 == k;
    }
  }

  /** `'ftr{}'.format(j-2) + '/' + 'ftr{}'.format(i-2)`. */
  function RatioName(i: int, j: int): (r: string)
    requires 2 <= i < 12 && 2 <= j < 12
    ensures |r| == 9 && r[3] as int - '0' as int == j - 2 && r[8] as int - '0' as int == i - 2
  {
    "ftr" + DigitString(j - 2) + "/" + "ftr" + DigitString(i - 2)
  }

  /** The names of the sixteen new columns, in the order they are added. */
  function RatioNames(): (r: seq<string>)
    ensures |r| == 16
    ensures forall k :: 0 <= k < 16 ==> r[k] == RatioName(2 + k / 4, 6 + k % 4)
  {
    RatioPairsAt();
    var ps := RatioPairs();
    seq(16, k requires 0 <= k < 16 => RatioName(ps[k].0, ps[k].1))
  }

  /** The new names are all different and none repeats an existing column name. */
  lemma RatioNamesFresh()
    ensures forall k, l :: 0 <= k < l < 16 ==> RatioNames()[k] != RatioNames()[l]
    ensures forall k, l :: 0 <= k < 16 && 0 <= l < 10 ==> RatioNames()[k] != BaseNames()[l]
  {
    var ns := RatioNames();
    forall k, l | 0 <= k < l < 16
      ensures ns[k] != ns[l]
    {
      assert k == 4 * (k / 4) + k % 4 && l == 4 * (l / 4) + l % 4;
      assert ns[k][3] != ns[l][3] || ns[k][8] != ns[l][8];
    }
    forall k, l | 0 <= k < 16 && 0 <= l < 10
      ensures ns[k] != BaseNames()[l]
    {
      assert |BaseNames()[l]| < 9;
    }
  }

  /** The sixteen new cells of one feature row: `row.iloc[j] / row.iloc[i]` in pair order. */
  function Ratios(row: seq<real>, divide: (real, real) -> real): (r: seq<real>)
    requires |row| >= 10
    ensures |r| == 16
    ensures forall k :: 0 <= k < 16 ==> r[k] == divide(row[6 + k % 4], row[2 + k / 4])
  {
    RatioPairsAt();
    var ps := RatioPairs();
    seq(16, k requires 0 <= k < 16 => divide(row[ps[k].1], row[ps[k].0]))
  }

  /** `file[:-4] + '_div01.csv'`: the name without its last four characters (all of them if shorter), then the suffix. */
  function OutputName(name: string): (r: string)
    ensures EndsWith(r, "_div01.csv") && r[..|r| - 10] == name[..SliceStart(-4, |name|)]
    ensures EndsWith(name, ".csv") ==> r[..|r| - 10] == name[..|name| - 4]
  {
    var r := name[..SliceStart(-4, |name|)] + "_div01.csv";
    assert r[|r| - 10..] == "_div01.csv";
    assert r[..|r| - 10] == name[..SliceStart(-4, |name|)];
    r
  }

  /** One written file: its name, the feature frame's column names, and its lines. */
  datatype OutputFile = OutputFile(name: string, columns: seq<string>, rows: seq<seq<real>>)

  /**
    * `addColumns` for one file: every line is a row (no header); the feature
    * frame takes the ten named columns, gains the sixteen ratio columns, and
    * is followed by the label columns.
    */
  function AddColumnsFile(f: CsvFile, xRange: seq<int>, yRange: seq<int>, divide: (real, real) -> real)
    : (r: Result<OutputFile, ReadError>)
    ensures r.Ok? <==> Importable(f, xRange, yRange) && |Columns(xRange, |f.rows[0]|)| == 10
    ensures r.Err? ==> r.error.file == f.name
    ensures r.Ok? ==> && r.value.name == OutputName(f.name)
                      && r.value.columns == BaseNames() + RatioNames()
                      && |r.value.rows| == |f.rows|
    ensures r.Ok? ==> forall n :: 0 <= n < |f.rows| ==>
      var ftr := Select(f.rows[n], xRange);
      r.value.rows[n] == ftr + Ratios(ftr, divide) + Select(f.rows[n], yRange)
  {
    match ReadColumns(f, xRange, false)
    case Err(e) => Err(e)
    case Ok(ftr) =>
      var width := |Columns(xRange, |f.rows[0]|)|;
      if width != 10 then Err(ReadError(f.name, FeatureColumnCount(width)))
      else
        match ReadColumns(f, yRange, false)
        case Err(e) => Err(e)
        case Ok(lbl) =>
          assert forall n :: 0 <= n < |ftr| ==> |ftr[n]| == 10 by {
            forall n | 0 <= n < |ftr|
              ensures |ftr[n]| == 10
            {
              assert |f.rows[n]| == |f.rows[0]|;
            }
          }
          var rows := seq(|ftr|, n requires 0 <= n < |ftr| => ftr[n] + Ratios(ftr[n], divide) + lbl[n]);
          Ok(OutputFile(OutputName(f.name), BaseNames() + RatioNames(), rows))
  }

  /** What `addColumns` leaves behind: the files written, and the error that stopped it, if any. */
  datatype AddRun = AddRun(written: seq<OutputFile>, failed: Option<ReadError>)

  /**
    * The file loop of `addColumns`: each file is converted and written
    * before the next is read, and the first that cannot be converted stops
    * the loop with the files before it already written.
    */
  function AddColumnsFiles(files: seq<CsvFile>, convert: CsvFile -> Result<OutputFile, ReadError>): (r: AddRun)
    ensures |r.written| <= |files|
    ensures forall i :: 0 <= i < |r.written| ==> convert(files[i]) == Ok(r.written[i])
    ensures r.failed.None? ==> |r.written| == |files|
    ensures r.failed.Some? ==> |r.written| < |files| && convert(files[|r.written|]) == Err(r.failed.value)
    decreases |files|
  {
    if |files| == 0 then AddRun([], None)
    else
      match convert(files[0])
      case Err(e) => AddRun([], Some(e))
      case Ok(out) =>
        var rest := AddColumnsFiles(files[1..], convert);
        AddRun([out] + rest.written, rest.failed)
  }

  /** `addColumns(input_directory, output_directory, x_range, y_range)` over a listing. */
  function AddColumns(listing: seq<CsvFile>, xRange: seq<int>, yRange: seq<int>, divide: (real, real) -> real)
    : (r: AddRun)
    ensures |r.written| <= |CsvFiles(listing)|
    ensures forall i :: 0 <= i < |r.written| ==>
      AddColumnsFile(CsvFiles(listing)[i], xRange, yRange, divide) == Ok(r.written[i])
    ensures r.failed.None? ==> |r.written| == |CsvFiles(listing)|
    ensures r.failed.Some? ==>
      && |r.written| < |CsvFiles(listing)|
      && AddColumnsFile(CsvFiles(listing)[|r.written|], xRange, yRange, divide) == Err(r.failed.value)
  {
    AddColumnsFiles(CsvFiles(listing), f => AddColumnsFile(f, xRange, yRange, divide))
  }
}
