/**
  * `lookup` (lookup.py): score the first lines of a spectrum library against
  * a partially known target spectrum and keep the best-matching candidates.
  * Number parsing is a parameter: `parse(field)` is `float(field)`, or None
  * where `float` raises ValueError. Each line keeps the newline that ends it
  * in the file; `float` ignores it.
  */
module Library {
  import opened Results
  import opened Seqs
  import opened Text
  import opened Scoring
  import opened TopK

  /** `islice(lib, 100)`: only the first hundred library lines are read. */
  const Window: nat := 100

  /** Why one library line could not become a spectrum. */
  datatype LineError =
    | BadNumber(field: nat)       // `float` rejected this field
    | WrongLength(length: nat)    // the `assert len(spectrum) == 300`

  /** The failing line's position within the window, and why it failed. */
  datatype LookupError = LookupError(line: nat, cause: LineError)

  /** One library line as a spectrum of exactly 300 values. */
  function ParseSpectrum(line: string, parse: string -> Option<real>): (r: Result<seq<real>, LineError>)
    ensures r.Ok? ==> |r.value| == SpectrumLength && ParseFields(Split(line, ','), parse) == Ok(r.value)
    ensures r.Err? && r.error.WrongLength? ==>
              ParseFields(Split(line, ','), parse).Ok? && r.error.length == |Split(line, ',')| != SpectrumLength
    ensures r.Err? && r.error.BadNumber? ==> ParseFields(Split(line, ','), parse) == Err(r.error.field)
  {
    match ParseFields(Split(line, ','), parse)
    case Err(i) => Err(BadNumber(i))
    case Ok(vs) => if |vs| != SpectrumLength then Err(WrongLength(|vs|)) else Ok(vs)
  }

  /** The `[spectrum, mse]` pair for one full-length spectrum. */
  function Rate(sstar: Target, spectrum: seq<real>): (r: Candidate)
    requires HasKnownPoint(sstar) && |spectrum| == SpectrumLength
    ensures r.spectrum == spectrum && r.score >= 0.0
    ensures r.score == 0.0 <==> NoError(sstar, spectrum)
    ensures Matches(sstar, spectrum) ==> r.score == 0.0
  {
    KnownPointScorable(sstar, spectrum);
    Candidate(spectrum, Score(sstar, spectrum))
  }

  predicate AllParse(lines: seq<string>, parse: string -> Option<real>)
  {
    forall j :: 0 <= j < |lines| ==> ParseSpectrum(lines[j], parse).Ok?
  }

  /** The candidate each line would be offered as, in library order. */
  function Rated(sstar: Target, lines: seq<string>, parse: string -> Option<real>): (r: seq<Candidate>)
    requires HasKnownPoint(sstar) && AllParse(lines, parse)
    ensures |r| == |lines|
    ensures forall j :: 0 <= j < |lines| ==> r[j].spectrum == ParseSpectrum(lines[j], parse).value
  {
    seq(|lines|, j requires 0 <= j < |lines| => Rate(sstar, ParseSpectrum(lines[j], parse).value))
  }

  /** The first failed result at or after position i, if there is one. */
  function FirstErrFrom<T, E>(rs: seq<Result<T, E>>, i: nat): (r: Option<nat>)
    requires i <= |rs|
    ensures r.None? <==> forall j :: i <= j < |rs| ==> rs[j].Ok?
    ensures r.Some? ==> (&& i <= r.value < |rs| && rs[r.value].Err?
                         && forall j :: i <= j < r.value ==> rs[j].Ok?)
    decreases |rs| - i
  {
    if i == |rs| then None
    else if rs[i].Err? then Some(i)
    else FirstErrFrom(rs, i + 1)
  }

  /** The position of the first line that cannot be read as a spectrum, if there is one. */
  function FirstFailure(lines: seq<string>, parse: string -> Option<real>): (r: Option<nat>)
    ensures r.None? <==> AllParse(lines, parse)
    ensures r.Some? ==> (&& r.value < |lines| && ParseSpectrum(lines[r.value], parse).Err?
                         && forall j :: 0 <= j < r.value ==> ParseSpectrum(lines[j], parse).Ok?)
  {
    var rs := seq(|lines|, j requires 0 <= j < |lines| => ParseSpectrum(lines[j], parse));
    var r := FirstErrFrom(rs, 0);
    assert forall j :: 0 <= j < |lines| ==> rs[j] == ParseSpectrum(lines[j], parse);
    r
  }

  /**
    * The `for line in islice(lib, 100)` loop's bookkeeping: each rated line
    * in turn is offered to the candidate list, which starts empty.
    */
  method Offer(rated: seq<Candidate>, candidateNum: int) returns (candidates: seq<Candidate>)
    ensures candidates == AdmitAll(rated, candidateNum)
  {
    candidates := [];
    var i := 0;
    while i < |rated|
      invariant 0 <= i <= |rated|
      invariant candidates == AdmitAll(rated[..i], candidateNum)
    {
      AdmitAllPrefix(rated, i, candidateNum);
      candidates := Admit(candidates, rated[i], candidateNum);
      i := i + 1;
    }
    assert rated[..i] == rated;
  }

  /**
    * `lookup` over the first hundred library lines. The lines are read in
    * order and the first that is not a spectrum of 300 numbers ends the
    * call with its position and reason. Otherwise the list is what the
    * admission loop keeps of the rated lines: min(candidateNum, lines) of
    * the smallest-scoring ones, either sorted by score or, when nothing was
    * ever replaced, the first lines in library order.
    */
  method Lookup(sstar: Target, library: seq<string>, candidateNum: int, parse: string -> Option<real>)
    returns (r: Result<seq<Candidate>, LookupError>)
    requires HasKnownPoint(sstar)
    ensures var window := library[..Min(Window, |library|)];
      r.Err? <==> !AllParse(window, parse)
    ensures var window := library[..Min(Window, |library|)];
      r.Err? ==> (&& r.error.line < |window|
                  && ParseSpectrum(window[r.error.line], parse) == Err(r.error.cause)
                  && forall j :: 0 <= j < r.error.line ==> ParseSpectrum(window[j], parse).Ok?)
    ensures var window := library[..Min(Window, |library|)];
      r.Ok? && AllParse(window, parse) ==> r.value == AdmitAll(Rated(sstar, window, parse), candidateNum)
    ensures var window := library[..Min(Window, |library|)];
      r.Ok? && AllParse(window, parse) ==> KeepsSmallest(r.value, Rated(sstar, window, parse), candidateNum)
    ensures var window := library[..Min(Window, |library|)];
      r.Ok? && AllParse(window, parse) ==>
        |r.value| == Min(Capacity(candidateNum), |window|)
        && (SortedByScore(r.value) || r.value == Rated(sstar, window, parse)[..|r.value|])
  {
    var window := library[..Min(Window, |library|)];
    match FirstFailure(window, parse)
    case Some(i) =>
      r := Err(LookupError(i, ParseSpectrum(window[i], parse).error));
    case None =>
      var candidates := Offer(Rated(sstar, window, parse), candidateNum);
      r := Ok(candidates);
  }
}
