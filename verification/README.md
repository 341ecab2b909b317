# Grid search, spectrum lookup and training-data plumbing, modelled in Dafny

The repository trains a network that maps eight geometry parameters of a
metamaterial cell (four heights h1..h4, four radii r1..r4) to a 300-point
spectrum, and then runs the inverse search. This project models the
deterministic bookkeeping around that network:

- **lookup.py**
  - `gen_data` writes the parameter lattice: eight nested `np.arange` loops, one comma-joined record per combination (`Grid`).
  - `import_data` / `get_geom` stream fields 2..9 of each line of the `.csv` files and batch them (`Streamer`).
  - `lookup` scores the first hundred library spectra against a partially known target spectrum, by mean squared error over the known points (`Scoring`). It keeps a bounded list of the best candidates (`TopK`, `Library`).
- **data_reader.py**
  - `importData` gathers feature and label columns from the `.csv` files.
  - `read_data` decimates the label curves to 300 samples and batches the validation pairs.
  - `addColumns` appends the sixteen radius/height ratio columns (`DataReader`).
- **utils.py**
  - `conv1d_transpose` validates its arguments and rewrites the shapes.
  - `conv1d_transpose_wrap` builds the output shape.
  - `repeat_2d` computes its result shape.
  - The `my_model_fn*` upsampling loops follow a stride/filter chain (`Shapes`).

Tensors are reduced to their static shapes: a dimension is `Known(n)` or `Unknown`.

Files are reduced to names and contents:

- A text file is a list of lines, each ending in the newline that `for line in file` keeps (the last line may lack one).
- A CSV file is a table of already-parsed cells.
- A directory is a listing in `os.listdir` order.

Number formatting and parsing are parameters of the model:

- `show` renders a value for the grid file.
- `parse` is `float`, returning `None` where `float` raises.
- `divide` is the division in the ratio columns.

Errors the code raises (`ValueError`, `AssertionError`, `IndexError`, `ZeroDivisionError`) are modelled as `Err` values or as the failure position of a generator. Each carries the reason.

Modules:

- `Results`: `Option` and `Result`.
- `Seqs`: concatenation, batching with the remainder dropped, Python slice normalisation, strided slices, sums and products.
- `Text`: `split`, `join`, `endswith`, filtering, and converting a list of fields to numbers.
- `Grid`, `Streamer`, `Scoring`, `TopK`, `TopKExamples`, `Library`: lookup.py.
- `DataReader`: data_reader.py.
- `Shapes`: utils.py.

## Model

| member | source | states |
|---|---|---|
| Grid.Arange | lookup.py:17 | `np.arange(lo, hi, step)` holds lo + k·step for k below the least count covering (hi-lo)/step; a zero step is an error |
| Grid.ArangeBounds | lookup.py:23-33 | with a positive spacing every value of an axis lies in [lower, upper), and one more step would reach the upper bound |
| Grid.Cartesian | lookup.py:23-36 | the nested loops emit one record per combination: as many records as the product of the axis sizes, each with one value per axis |
| Grid.CartesianAt | lookup.py:23-36 | every combination of axis values is emitted, at the position its mixed-radix rank gives (last axis fastest) |
| Grid.RankLexMonotone | lookup.py:23-33 | records come out in lexicographic order of their axis positions, h1 outermost and r4 innermost |
| Grid.GenData | lookup.py:15-38 | on success the records are exactly the product of the eight axes; the call fails exactly when some dimension whose loop is reached has spacing zero, and names such a dimension |
| Grid.LoopsFromSpec | lookup.py:23-36 | the loops from dimension d inward produce the product of axes d..7, and fail exactly when a reachable inner dimension has a zero spacing |
| Grid.GridLines | lookup.py:34-36 | the grid file holds one newline-terminated line per record, in record order; with comma-free text forms, an eight-value record's line splits on commas into its values' text forms, the newline staying on the last |
| Grid.GridLineFields | lookup.py:34-36 | a record's comma-joined text splits back into exactly its values' text forms; the written line, newline included, splits into eight fields, the last carrying the newline |
| Text.Split | lookup.py:58 | `str.split` with a one-character separator: at least one field, no field holds the separator, and joining the fields gives the text back |
| Text.SplitJoin | lookup.py:36 | splitting a join of separator-free fields gives the fields back |
| Text.SplitTerminated | lookup.py:36 | splitting a join of separator-free fields followed by a separator-free terminator gives the fields back with the terminator on the last |
| Text.Filter | lookup.py:49 | a list comprehension with a condition keeps only items of the list that satisfy it, and every item that does; never more items than the list had |
| Text.FilterConcat | data_reader.py:14-16 | the kept items of two listings are the kept items of each, one after the other |
| Streamer.GeomFields | lookup.py:58 | `line.split(",")[2:10]` has eight fields exactly when the line has at least ten, and is then fields 2..9 |
| Streamer.LineGeometry | lookup.py:58-63 | a line with fewer than ten fields fails the length assertion with the length it saw; otherwise it yields eight numbers exactly when all eight fields convert, value j being field j's conversion, and else fails at the first field that does not convert |
| Streamer.StreamedLines | lookup.py:49-57 | the streamed lines are those of the `.csv` entries only, entry after entry in listing order |
| Streamer.GetGeomFrom | lookup.py:55-63 | from position i on, each line yields its converted geometry until the first line that fails the assertion or the conversion, whose position and cause are reported; with no failure every line yields one |
| Streamer.GetGeom | lookup.py:54-63 | the dataset receives the converted fields 2..9 of every line before the first failing line and stops there with that line's index and cause, or receives one geometry per line |
| Streamer.Geometries | lookup.py:49-63 | over a listing, the lines streamed are those of the `.csv` entries, file after file; each yields its converted geometry until the first that fails |
| Streamer.ImportData | lookup.py:41-73 | the dataset is the converted geometries of the `.csv` lines cut into full batches of `batch_size`, the partial one dropped, and it ends where a line failed the assertion or the conversion |
| Seqs.Batch | lookup.py:67 | `batch(n, drop_remainder=True)`: ⌊len/n⌋ blocks of n elements which, laid end to end, are the front of the input |
| Seqs.BatchAt | data_reader.py:129-130 | batch i holds exactly elements i·n .. (i+1)·n of the input |
| Streamer.GridLineRejected | lookup.py:58-60 | a line of the grid file itself holds only eight fields, so the stream fails on it at once, on the length assertion with six |
| Streamer.IdentifiedFields | lookup.py:58 | a grid line written after two identifier fields has as its fields 2..9 the record's text forms, the newline on the last |
| Streamer.ConvertsTo | lookup.py:58-63 | a line whose eight geometry fields convert to given values yields exactly those values |
| Streamer.GridRecordRoundTrip | lookup.py:34-36 | a grid record written, newline included, after two identifier fields is streamed back as exactly its eight values, when the conversion reads every text form back, with or without the newline |
| Scoring.KnownIndices | lookup.py:117-118 | the indices whose target point is defined, ascending, each one and only those |
| Scoring.ErrorsUpToAt | lookup.py:116-119 | error k is the squared difference at the k-th known index |
| Scoring.Score | lookup.py:116-120 | the mean squared error is never negative, is zero exactly when every squared error is, and is zero when the spectrum meets every known target point |
| Scoring.ErrorsSign | lookup.py:116-120 | the squared errors are non-negative, their sum is zero exactly when each is, and a spectrum meeting every known point has no error |
| Scoring.KnownPointScorable | lookup.py:113-120 | a target with a known point among the first 300 can score every 300-value spectrum |
| Scoring.KeyPointsUpTo | lookup.py:132-135 | `sstar_keyPoints` lists `[index, value]` for exactly the defined points, in index order |
| Scoring.ErrorsAtKeyPoints | lookup.py:116-135 | for a spectrum at least as long as the target, error k compares the spectrum at key point k's index with key point k's value |
| Scoring.ScoreExample | lookup.py:116-120 | a target known only at index 1 scores the one squared difference there |
| TopK.InsertByScore | lookup.py:128 | insertion into a sorted list yields a sorted list with one more entry, a permutation of the old entries plus the new one |
| TopK.InsertByScoreStable | lookup.py:128 | the new entry goes after every entry of equal score, so each score class keeps its order |
| TopK.SortByScore | lookup.py:128 | `list.sort(key=score)` yields a sorted permutation |
| TopK.SortByScoreStable | lookup.py:128 | the sort is stable: entries of equal score keep their relative order |
| TopK.AnyWorse | lookup.py:125-126 | the inner loop finds a candidate exactly when some kept candidate has a strictly greater score |
| TopK.Admit | lookup.py:122-130 | one line's effect never takes the list past `candidate_num` entries |
| TopK.AdmitRejectsTies | lookup.py:124-130 | a full list is left unchanged by a newcomer that no kept candidate scores worse than, ties included |
| TopK.AdmitReplaces | lookup.py:124-130 | a full list that admits a newcomer keeps it, stays full and sorted, and loses one entry of maximal score among the old ones |
| TopK.AdmitKeepsSmallest | lookup.py:122-130 | each line keeps the list the smallest-scoring choice among all lines seen, equal to them while filling |
| TopK.AdmitOrder | lookup.py:122-130 | after each line the list is sorted by score or is still the first lines in arrival order |
| TopK.AdmitAll | lookup.py:102-130 | after all lines the list has min(candidate_num, lines) entries, holds the smallest-scoring lines, and is sorted or the first lines in order |
| TopK.AdmitAllPrefix | lookup.py:106-130 | offering line i to the list kept from the lines before it gives the list kept from the first i+1 |
| TopKExamples.SortFour | lookup.py:128 | scores 5, 3, 8, 1 sort to 1, 3, 5, 8 |
| TopKExamples.AdmitTieExample | lookup.py:126 | a full list of scores 3, 5 offered another 5 is left as it is |
| TopKExamples.AdmitAllTieExample | lookup.py:122-130 | of two equal scores with room for one, the first to arrive is kept |
| Text.ParseFields | lookup.py:112 | `[float(s) for s in fields]` yields one value per field, or fails at the first field that is not a number |
| Library.ParseSpectrum | lookup.py:111-113 | a line is a spectrum when every comma field parses and there are exactly 300 of them; otherwise the bad field or the wrong length is reported |
| Library.Rate | lookup.py:120-123 | a line's candidate carries its spectrum and a non-negative score, zero exactly when every squared error is zero, and zero when the spectrum meets every known target point |
| Library.FirstFailure | lookup.py:106-113 | finds the first line that is not a spectrum, and finds none exactly when all lines are spectra |
| Library.Offer | lookup.py:106-130 | the line loop offers each rated line in turn to a list that starts empty, ending with the AdmitAll list |
| Library.Lookup | lookup.py:101-130 | only the first hundred lines are read; the call fails exactly when one of them is not a spectrum, naming the first and its reason; otherwise the list is the AdmitAll list of the rated lines, holds min(candidate_num, lines) of the smallest-scoring ones, and is sorted or is the first lines in order |
| DataReader.CsvFilesSpec | data_reader.py:13-16 | the listing filter keeps exactly the `.csv` entries and composes by concatenation |
| DataReader.Columns | data_reader.py:23-24 | `usecols` picks each listed position inside the table once, in file order whatever the order of the list |
| DataReader.ColumnsWiden | data_reader.py:23-24 | a wider table picks the same columns when every listed position is inside the narrower one |
| DataReader.ColumnsAgree | data_reader.py:23-24 | two tables that both hold every listed column pick the same column positions |
| DataReader.SelectAllAppend | data_reader.py:21-28 | selecting from the rows of two files is selecting from each, one after the other |
| DataReader.FirstWideRow | data_reader.py:23-24 | finds a line whose width differs from the first line's, and none exactly when all have its width |
| DataReader.FirstOutOfRange | data_reader.py:23-24 | finds a listed column outside the table, and none exactly when all are inside |
| DataReader.ReadColumns | data_reader.py:23-24 | `read_csv` succeeds exactly on a non-empty rectangular table holding every listed column; it then yields the selected cells of the body lines, the header line consumed |
| DataReader.ImportFiles | data_reader.py:21-28 | the import succeeds exactly when every file is readable for both column lists; on success features and labels are the selections of all data lines, file after file; on failure the error names the first unreadable file |
| DataReader.ImportData | data_reader.py:11-28 | over a listing, the import reads only the `.csv` entries in listing order; it succeeds exactly when each is readable for both column lists, gives their selected data lines, and otherwise names the first unreadable one |
| DataReader.ImportLockstep | data_reader.py:26-28 | features and labels have one row per data line, and row i of each comes from the same line |
| DataReader.ImportRectangular | data_reader.py:29-30 | all imported feature rows have one length, and so do all label rows |
| DataReader.Decimate | data_reader.py:104-105 | `c[L-1800::6]` keeps every sixth sample from the normalised slice start: sample k is c[start+6k], and there are ⌈(len-start)/6⌉ of them |
| DataReader.DecimateStart | data_reader.py:104-105 | the slice starts at L-1800 when that index is inside the curve, counts back from the end when it is negative, and keeps nothing past the end |
| DataReader.DecimateSamples | data_reader.py:104-105 | a curve of the reference length, at least 1800 long, decimates to exactly 300 samples: sample k is c[L-1800+6k] |
| DataReader.DecimateShortCurve | data_reader.py:104-105 | a 1000-sample curve gets a negative slice start, which counts from the end: 134 samples from index 200 |
| DataReader.TrainLength | data_reader.py:116-117 | `int(.8 * n)` is the largest count r with 5r ≤ 4n |
| DataReader.Zip | data_reader.py:123-124 | zipping two equally long lists gives pairs whose first components are the first list and whose second components are the second |
| DataReader.Decimated | data_reader.py:104-130 | every label row, training and test, is decimated with the offset of the first test row; the features pass through; the validation pairs are cut into full batches |
| DataReader.Prepare | data_reader.py:92-130 | an empty test set fails on `lblTest[0]`, then an empty training set fails; otherwise the decimated, batched sets |
| DataReader.ReadData | data_reader.py:87-130 | an import failure of the training or then the test listing is the result; otherwise the two shape assertions hold and preparation follows |
| DataReader.LabelWidthsAgree | data_reader.py:104-105 | every imported label row, of the training or the test listing, has the same width, so the offset taken from the first test row fits every curve |
| DataReader.ReadDataSpectra | data_reader.py:104-113 | when the first test label row is at least 1800 wide, every decimated label, training and test, has exactly 300 samples |
| DataReader.RatioPairsAt | data_reader.py:46-50 | sixteen new columns; new column 4a+b divides radius column 6+b by height column 2+a |
| DataReader.RatioNames | data_reader.py:49 | new column k is named `ftr{j-2}/ftr{i-2}` for its pair (i, j) |
| DataReader.RatioNamesFresh | data_reader.py:41-49 | the sixteen new names are distinct and none repeats one of the ten original names |
| DataReader.Ratios | data_reader.py:47-49 | the sixteen new cells of a row are `row[j] / row[i]` in pair order |
| DataReader.OutputName | data_reader.py:55 | the output name is `file[:-4]` (the name minus its last four characters, empty if shorter) followed by `_div01.csv`, so a `.csv` name loses exactly its extension |
| DataReader.AddColumnsFile | data_reader.py:41-60 | a file converts exactly when both reads succeed with ten feature columns; each output row is the ten features, their sixteen ratios, then the labels |
| DataReader.AddColumnsFiles | data_reader.py:40-60 | files are converted in order; the ones before the first failure are written and the failure stops the loop |
| DataReader.AddColumns | data_reader.py:33-61 | the `.csv` entries of the listing are converted and written in order up to the first that cannot be |
| Shapes.PyInsert | utils.py:111 | `list.insert` puts the item at the normalised index, with the entries before and after unchanged |
| Shapes.RemoveInserted | utils.py:111 | removing the inserted entry gives the list back |
| Shapes.ChannelAxis | utils.py:51-58 | the channel axis is 2 for no format or "NWC", 1 for "NCW", and there is none for any other format |
| Shapes.Conv1dTranspose | utils.py:43-99 | each check fails exactly under its condition, the earlier checks having passed: output rank, data format, shape index, input channels, output channels (lists only), padding. The success case gives the layout, the inserted unit dimension, and the expanded value and filter shapes |
| Shapes.Conv1dTransposeShapes | utils.py:78-99 | the 4-D output shape is [o0, 1, o1, o2] (NHWC) or [o0, o1, 1, o2] (NCHW); squeezing the unit dimension restores the requested shape; the stride sits on the axis holding the width and 1 on every other |
| Shapes.PlanShapes | utils.py:78-87 | the 4-D sizes and strides for a unit dimension at position 1 or 2 of a 3-entry shape |
| Shapes.Conv1dTransposeWrap | utils.py:156-179 | a list with fewer than three entries fails on the index; otherwise the output-channel and output-rank checks never fire, the call succeeds exactly when the format is known, the value's channels match the filter's and the padding is valid, and the squeezed result shape is [batch unknown, output[1], output[2]] |
| Shapes.WrapSkipsOutputCheck | utils.py:156-179 | through the wrapper the output shape is a tensor of unknown batch and the given width and channels, so the output-channel check never applies: a "SAME", "NWC" call whose input channels match the filter succeeds, and its squeezed result has that shape |
| Shapes.RepeatShape | utils.py:108-112 | `repeat_2d` needs a rank-2 input, a non-negative count and known dimensions; the result shape is the input's with the count inserted at `axis` |
| Shapes.RepeatShapeElements | utils.py:108-112 | the reshape is legal: the new shape has as many elements as the tiled [d0·n, d1], and removing the inserted entry gives the input shape |
| Shapes.ChainFrom | utils.py:210-217 | from layer i on, each layer takes the previous layer's size and filter count, strides by size over width, and the first failing layer is named with the failing width |
| Shapes.ChainFromOk | utils.py:210-217 | the layer loop from layer i on succeeds exactly when every remaining layer passes its divisibility check |
| Shapes.UpsampleChain | utils.py:207-217 | an empty dense list fails; otherwise the chain succeeds exactly when every layer's size is divisible by the current width; it has one layer per zipped pair, and each layer starts from the previous size and filter count and strides by the quotient |
| Shapes.ChainReachesLastWidth | utils.py:237-246 | the last dense width times the product of all strides is the last layer's size |
| Shapes.LayersTelescope | utils.py:266-277 | in a stack where each layer starts from the previous width, the first width times the first k strides is the width after layer k |
| Shapes.ChainCallsValid | utils.py:297-307 | every layer's `conv1d_transpose_wrap` call passes validation, and its result has the shape the next layer takes as input |
| Shapes.ChainNotDivisibleExample | utils.py:211-212 | a width of 7 does not divide a size of 10, so the first layer's assertion fails |
| Shapes.ChainZipExample | utils.py:210 | `zip` stops at the shorter list: two sizes and one filter count give one layer, of stride 3 |

## Left out

- Rounding and float formatting are outside the model:
  - the `np.round(..., 1)` of each grid record;
  - numpy's floating-point `arange` count, which here uses exact reals;
  - the float32 conversion of `importData`;
  - the rounding to float32 in `import_data`'s dataset: `parse` yields exact reals, though its failure on a non-number is modelled;
  - the `'%f'` format of `addColumns`.

  The grid text form is the parameter `show`.
- File and directory I/O, the clock, `print` and the matplotlib plot of `lookup` are left out. So are the empty-candidates `IndexError` the plot's `sstar_keyPoints[:, 0]` and `candidates[:, 0]` raise, and the returned numpy array's shape.
- The TensorFlow graph is outside the model: the dense, tensor and convolution layers, variables, `conv2d_backprop_input`, `tile`, `reshape`, `squeeze`, and `tensor_layer` / `tensor_module`. Only static shapes and argument validation are modelled.
- Shapes.Conv1dTransposeWrap: the wrapper calls `tf.contrib.nn.conv1d_transpose`, not utils.py's own `conv1d_transpose`. That library function is not part of this model, and its validation is assumed to be the same.
- The shuffling and repetition of the training dataset, and the iterators of `read_data` and `import_data`, are left out. Only the batching of the validation pairs and of the streamed geometries is modelled.
- DataReader.TrainLength: `train_length` is computed by `read_data` but never used, so nothing depends on it.
- DataReader.ReadColumns: pandas' own parsing is left out:
  - quoting, type inference and NaN filling;
  - padding short rows;
  - `names=` handling beyond the column count.

  A row whose width differs from the first line's is modelled as an error.
- DataReader.AddColumnsFile requires exactly ten picked feature columns, because the ten column names must match. Other counts are modelled as an error; pandas' behaviour for them is not.
- DataReader.AddColumns writes each file in append mode. The previous content of an output file is left out.
- Library.Lookup requires a target with a known point among the first 300 indices. With none, `np.mean([])` yields NaN and the comparisons involving it are not modelled.
- Library.Lookup parses the whole window first, then offers the lines in order. This agrees with the line-by-line loop: both fail at the first bad line, and no candidate list is returned on failure.
- Library.Rated: its contract states only the candidates' spectra; each score is `Rate`'s.
- Scoring.Score: the converse of the last clause, that a zero score means every known point is met exactly, is not stated; only "every squared error is zero" is.
- Streamer.ImportData and Seqs.Batch take `batch_size > 0`; TensorFlow rejects a zero batch size before anything is read.
- Shapes.UpsampleChain: sizes are natural numbers, so negative layer sizes are out of scope. The shape-preserving `conv1d` layers of `my_model_fn_linear_conv1d` (utils.py:275-276) and the final 1×1 convolution keep the chain's widths and are not modelled.
