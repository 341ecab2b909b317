/**
  * The geometry stream of `import_data` (lookup.py): the `.csv` files of a
  * directory listing, read line by line, each line cut down to fields 2..9,
  * converted to numbers, and batched with the remainder dropped.
  */
module Streamer {
  import opened Results
  import opened Seqs
  import opened Text
  import Grid

  /** A directory entry: its name and its lines, each as `for line in file` yields it, newline included. */
  datatype TextFile = TextFile(name: string, lines: seq<string>)

  /** First field of the geometry inside a line, and one past its last. */
  const GeomStart: nat := 2
  const GeomStop: nat := 10

  /** Why the stream ended at a line. */
  datatype Stop =
    | ShortLine(length: nat)     // `assert len(geom) == 8` failed; the length it saw
    | NotANumber(field: nat)     // the float32 conversion of the yielded fields rejected this one

  /** The line, counted over all streamed lines, at which the stream ended, and why. */
  datatype Failure = Failure(line: nat, cause: Stop)

  /**
    * What reached the dataset before the stream stopped: the converted
    * geometries and, if a line failed, where and why.
    */
  datatype GeomRun = GeomRun(geoms: seq<seq<real>>, failure: Option<Failure>)

  /** `line.split(",")[2:10]`. */
  function GeomFields(line: string): (r: seq<string>)
    ensures |r| == Grid.Dimensions <==> |Split(line, ',')| >= GeomStop
    ensures |Split(line, ',')| >= GeomStop ==> r == Split(line, ',')[GeomStart..GeomStop]
  {
    ClampedSlice(Split(line, ','), GeomStart, GeomStop)
  }

  /**
    * One line's contribution: the generator's assertion on the eight fields,
    * then the `tf.float32` conversion `from_generator` applies to what it
    * yields. `parse(field)` is the conversion of one field, None where it fails.
    */
  function LineGeometry(line: string, parse: string -> Option<real>): (r: Result<seq<real>, Stop>)
    ensures r == Err(ShortLine(|GeomFields(line)|)) <==> |Split(line, ',')| < GeomStop
    ensures r.Ok? <==> |GeomFields(line)| == Grid.Dimensions
                       && forall j :: 0 <= j < Grid.Dimensions ==> parse(GeomFields(line)[j]).Some?
    ensures r.Ok? ==> |r.value| == Grid.Dimensions
                      && forall j :: 0 <= j < Grid.Dimensions ==> parse(GeomFields(line)[j]) == Some(r.value[j])
    ensures r.Err? && r.error.NotANumber? ==>
      && |GeomFields(line)| == Grid.Dimensions && r.error.field < Grid.Dimensions
      && parse(GeomFields(line)[r.error.field]).None?
      && forall j :: 0 <= j < r.error.field ==> parse(GeomFields(line)[j]).Some?
  {
    var g := GeomFields(line);
    if |g| != Grid.Dimensions then Err(ShortLine(|g|))
    else
      match ParseFields(g, parse)
      case Err(j) => Err(NotANumber(j))
      case Ok(v) => Ok(v)
  }

  /** The files the listing contributes: those whose name ends in `.csv`, in listing order. */
  function CsvFiles(listing: seq<TextFile>): seq<TextFile>
  {
    Filter(listing, (f: TextFile) => IsCsvName(f.name))
  }

  /** All lines of the files, file after file, each file in line order. */
  function AllLines(files: seq<TextFile>): seq<string>
  {
    Concat(seq(|files|, i requires 0 <= i < |files| => files[i].lines))
  }

  lemma {:induction false} AllLinesConcat(a: seq<TextFile>, b: seq<TextFile>)
    ensures AllLines(a + b) == AllLines(a) + AllLines(b)
  {
    var la := seq(|a|, i requires 0 <= i < |a| => a[i].lines);
    var lb := seq(|b|, i requires 0 <= i < |b| => b[i].lines);
    assert seq(|a + b|, i requires 0 <= i < |a + b| => (a + b)[i].lines) == la + lb;
    ConcatSplit(la, lb);
  }

  /**
    * The streamed lines are those of the `.csv` entries only, entry after
    * entry in listing order: listings compose by concatenation, and a single
    * entry contributes all its lines exactly when its name ends in `.csv`.
    */
  lemma StreamedLines(a: seq<TextFile>, b: seq<TextFile>, f: TextFile)
    ensures AllLines(CsvFiles(a + b)) == AllLines(CsvFiles(a)) + AllLines(CsvFiles(b))
    ensures AllLines(CsvFiles([f])) == if IsCsvName(f.name) then f.lines else []
  {
    FilterConcat(a, b, (f: TextFile) => IsCsvName(f.name));
    AllLinesConcat(CsvFiles(a), CsvFiles(b));
    var one := CsvFiles([f]);
    if IsCsvName(f.name) {
      assert one == [f];
      assert seq(|one|, i requires 0 <= i < |one| => one[i].lines) == [f.lines];
      ConcatOne(f.lines, []);
      assert [f.lines] + [] == [f.lines];
      assert AllLines(one) == Concat([f.lines]) == f.lines + Concat<string>([]);
    } else {
      assert one == [];
    }
  }

  /**
    * The stream over the lines from position i on: each line contributes its
    * converted geometry until one fails the assertion or the conversion;
    * failure positions count from the first line.
    */
  function GetGeomFrom(lines: seq<string>, i: nat, parse: string -> Option<real>): (r: GeomRun)
    requires i <= |lines|
    ensures r.failure.None? ==> i + |r.geoms| == |lines|
    ensures r.failure.Some? ==> var f := r.failure.value;
      f.line == i + |r.geoms| && f.line < |lines| && LineGeometry(lines[f.line], parse) == Err(f.cause)
    ensures forall k :: i <= k < i + |r.geoms| ==>
      k < |lines| && LineGeometry(lines[k], parse) == Ok(r.geoms[k - i])
    decreases |lines| - i
  {
    if i == |lines| then GeomRun([], None)
    else
      match LineGeometry(lines[i], parse)
      case Err(cause) => GeomRun([], Some(Failure(i, cause)))
      case Ok(g) =>
        var rest := GetGeomFrom(lines, i + 1, parse);
        GeomRun([g] + rest.geoms, rest.failure)
  }

  /**
    * The stream over a sequence of lines: line k contributes its converted
    * fields 2..9 until the first line that fails, which ends it.
    */
  function GetGeom(lines: seq<string>, parse: string -> Option<real>): (r: GeomRun)
    ensures r.failure.None? ==> |r.geoms| == |lines|
    ensures r.failure.Some? ==> var f := r.failure.value;
      f.line == |r.geoms| && f.line < |lines| && LineGeometry(lines[f.line], parse) == Err(f.cause)
    ensures forall k :: 0 <= k < |r.geoms| ==> k < |lines| && LineGeometry(lines[k], parse) == Ok(r.geoms[k])
  {
    GetGeomFrom(lines, 0, parse)
  }

  /**
    * `get_geom(data_paths)` and its conversion over the listing: the lines of
    * the `.csv` files, file after file, each contributing its geometry until
    * the first that fails.
    */
  function Geometries(listing: seq<TextFile>, parse: string -> Option<real>): (r: GeomRun)
    ensures var lines := AllLines(CsvFiles(listing));
      && (r.failure.None? ==> |r.geoms| == |lines|)
      && (r.failure.Some? ==>
            r.failure.value.line == |r.geoms| < |lines|
            && LineGeometry(lines[r.failure.value.line], parse) == Err(r.failure.value.cause))
      && forall k :: 0 <= k < |r.geoms| ==> k < |lines| && LineGeometry(lines[k], parse) == Ok(r.geoms[k])
  {
    GetGeom(AllLines(CsvFiles(listing)), parse)
  }

  /** What the prediction consumer receives: the full batches, and where the stream broke, if it did. */
  datatype GeomStream = GeomStream(batches: seq<seq<seq<real>>>, failure: Option<Failure>)

  /**
    * `import_data(data_dir, batch_size)`: the geometries of the `.csv` files
    * in batches of `batchSize`. A failing line ends the stream; the batches
    * complete before it are still delivered, the partial one is not.
    */
  function ImportData(listing: seq<TextFile>, batchSize: nat, parse: string -> Option<real>): (r: GeomStream)
    requires batchSize > 0
    ensures r.failure == Geometries(listing, parse).failure
    ensures Batched(r.batches, Geometries(listing, parse).geoms, batchSize)
  {
    var run := Geometries(listing, parse);
    GeomStream(Batch(run.geoms, batchSize), run.failure)
  }

  /**
    * A grid-file line holds eight fields, so the slice [2:10] leaves six and
    * the stream fails on the first such line: the streamer reads files with
    * two leading identifier columns, not the file gen_data writes.
    */
  lemma GridLineRejected(rec: seq<real>, show: real -> string, rest: seq<string>, parse: string -> Option<real>)
    requires |rec| == Grid.Dimensions
    requires forall x :: ',' !in show(x)
    ensures GetGeom([Grid.RecordLine(rec, show)] + rest, parse) == GeomRun([], Some(Failure(0, ShortLine(6))))
  {
    Grid.GridLineFields(rec, show);
  }

  /** A line whose geometry fields all convert, to the values v, contributes v. */
  lemma ConvertsTo(line: string, parse: string -> Option<real>, v: seq<real>)
    requires |GeomFields(line)| == Grid.Dimensions == |v|
    requires forall j :: 0 <= j < Grid.Dimensions ==> parse(GeomFields(line)[j]) == Some(v[j])
    ensures LineGeometry(line, parse) == Ok(v)
  {
    var g := GeomFields(line);
    assert forall j :: 0 <= j < Grid.Dimensions ==> parse(g[j]).Some? by {
      forall j | 0 <= j < Grid.Dimensions
        ensures parse(g[j]).Some?
      {
        assert parse(g[j]) == Some(v[j]);
      }
    }
    var r := LineGeometry(line, parse);
    assert r.Ok?;
    forall j | 0 <= j < Grid.Dimensions
      ensures r.value[j] == v[j]
    {
      assert parse(g[j]) == Some(r.value[j]) && parse(g[j]) == Some(v[j]);
    }
    assert r.value == v;
  }

  /** The geometry fields of a grid line written after two identifier fields are its text forms. */
  lemma IdentifiedFields(id0: string, id1: string, rec: seq<real>, show: real -> string)
    requires |rec| == Grid.Dimensions
    requires forall x :: ',' !in show(x)
    requires ',' !in id0 && ',' !in id1
    ensures GeomFields(id0 + "," + id1 + "," + Grid.RecordLine(rec, show)) == Terminated(Grid.Shown(rec, show), "\n")
  {
    var vals := Grid.Shown(rec, show);
    var line := id0 + "," + id1 + "," + Grid.RecordLine(rec, show);
    var fs := [id0, id1] + vals;
    forall i | 0 <= i < |fs|
      ensures ',' !in fs[i]
    {
      if i >= 2 {
        var x := rec[i - 2];
        assert ',' !in show(x);
        assert fs[i] == show(x);
      }
    }
    assert Join(fs, ',') + "\n" == line by {
      assert fs[1..] == [id1] + vals;
      assert fs[1..][1..] == vals;
    }
    SplitTerminated(fs, "\n", ',');
    assert Terminated(fs, "\n")[GeomStart..GeomStop] == Terminated(vals, "\n");
  }

  /**
    * Round trip: a grid record written, newline included, after two
    * identifier fields is streamed back as exactly its eight values, when the
    * conversion reads each text form back as its value, with or without the
    * trailing newline (`float` ignores surrounding whitespace).
    */
  lemma GridRecordRoundTrip(id0: string, id1: string, rec: seq<real>, show: real -> string,
                            parse: string -> Option<real>)
    requires |rec| == Grid.Dimensions
    requires forall x :: ',' !in show(x)
    requires ',' !in id0 && ',' !in id1
    requires forall x :: parse(show(x)) == Some(x)
    requires forall x :: parse(show(x) + "\n") == Some(x)
    ensures GetGeom([id0 + "," + id1 + "," + Grid.RecordLine(rec, show)], parse) == GeomRun([rec], None)
  {
    var line := id0 + "," + id1 + "," + Grid.RecordLine(rec, show);
    IdentifiedFields(id0, id1, rec, show);
    var g := GeomFields(line);
    forall j | 0 <= j < Grid.Dimensions
      ensures parse(g[j]) == Some(rec[j])
    {
      var x := rec[j];
      if j < Grid.Dimensions - 1 {
        assert g[j] == show(x);
      } else {
        assert g[j] == show(x) + "\n";
      }
    }
    ConvertsTo(line, parse, rec);
  }
}
