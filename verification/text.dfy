/** Python string behaviour the pipeline relies on: `split`, `join`, `endswith`, `float`. */
module Text {
  import opened Results

  /**
    * `s.split(sep)` for a one-character separator: the fields between
    * separators, empty fields included, so there is always at least one.
    */
  function Split(s: string, sep: char): (r: seq<string>)
    ensures |r| >= 1
    ensures forall i :: 0 <= i < |r| ==> sep !in r[i]
    ensures Join(r, sep) == s
    decreases |s|
  {
    if |s| == 0 then [""]
    else
      var rest := Split(s[1..], sep);
      if s[0] == sep then
        assert [sep] + s[1..] == s;
        [""] + rest
      else
        assert [s[0]] + s[1..] == s;
        [[s[0]] + rest[0]] + rest[1..]
  }

  /** `sep.join(fs)`. */
  function Join(fs: seq<string>, sep: char): string
  {
    if |fs| == 0 then ""
    else if |fs| == 1 then fs[0]
    else fs[0] + [sep] + Join(fs[1..], sep)
  }

  /** Splitting a text whose first part holds no separator yields that part as the head of the first field. */
  lemma {:induction false} SplitPrefix(f: string, t: string, sep: char)
    requires sep !in f
    ensures Split(f + t, sep) == [f + Split(t, sep)[0]] + Split(t, sep)[1..]
    decreases |f|
  {
    if |f| > 0 {
      assert (f + t)[1..] == f[1..] + t;
      SplitPrefix(f[1..], t, sep);
      assert [f[0]] + (f[1..] + Split(t, sep)[0]) == f + Split(t, sep)[0];
    } else {
      var st := Split(t, sep);
      assert f + t == t && f + st[0] == st[0];
      assert st == [st[0]] + st[1..];
    }
  }

  /** A field without separators, a separator, then the rest: the field comes out first. */
  lemma SplitField(f: string, tail: string, sep: char)
    requires sep !in f
    ensures Split(f + [sep] + tail, sep) == [f] + Split(tail, sep)
  {
    var u := [sep] + tail;
    assert f + [sep] + tail == f + u;
    SplitPrefix(f, u, sep);
    SplitSeparator(tail, sep);
    var su := Split(u, sep);
    assert su[0] == "" && su[1..] == Split(tail, sep);
    assert f + su[0] == f;
  }

  /** A leading separator ends an empty first field. */
  lemma SplitSeparator(tail: string, sep: char)
    ensures Split([sep] + tail, sep) == [""] + Split(tail, sep)
  {
    var u := [sep] + tail;
    assert u[0] == sep && u[1..] == tail;
  }

  /** Joining fields that hold no separator and splitting again gives the fields back. */
  lemma {:induction false} SplitJoin(fs: seq<string>, sep: char)
    requires |fs| >= 1
    requires forall i :: 0 <= i < |fs| ==> sep !in fs[i]
    ensures Split(Join(fs, sep), sep) == fs
    decreases |fs|
  {
    if |fs| == 1 {
      SplitPrefix(fs[0], "", sep);
      assert fs[0] + "" == fs[0];
    } else {
      SplitJoin(fs[1..], sep);
      SplitField(fs[0], Join(fs[1..], sep), sep);
      assert fs == [fs[0]] + fs[1..];
    }
  }

  /** The fields of a joined line after `t` is appended to it: the last field carries `t`. */
  function Terminated(fs: seq<string>, t: string): (r: seq<string>)
    requires |fs| >= 1
    ensures |r| == |fs| && r[|r| - 1] == fs[|fs| - 1] + t
    ensures forall i :: 0 <= i < |fs| - 1 ==> r[i] == fs[i]
  {
    fs[..|fs| - 1] + [fs[|fs| - 1] + t]
  }

  /** Text appended to a join lengthens its last field. */
  lemma {:induction false} JoinExtendLast(fs: seq<string>, t: string, sep: char)
    requires |fs| >= 1
    ensures Join(fs, sep) + t == Join(Terminated(fs, t), sep)
    decreases |fs|
  {
    if |fs| > 1 {
      JoinExtendLast(fs[1..], t, sep);
      var gs := Terminated(fs, t);
      assert gs[0] == fs[0];
      assert gs[1..] == Terminated(fs[1..], t);
    }
  }

  /**
    * A line that ends in a terminator without separators (the newline `for
    * line in file` keeps) splits into the fields it was joined from, the last
    * one carrying the terminator.
    */
  lemma SplitTerminated(fs: seq<string>, t: string, sep: char)
    requires |fs| >= 1 && sep !in t
    requires forall i :: 0 <= i < |fs| ==> sep !in fs[i]
    ensures Split(Join(fs, sep) + t, sep) == Terminated(fs, t)
  {
    var gs := Terminated(fs, t);
    JoinExtendLast(fs, t, sep);
    forall i | 0 <= i < |gs|
      ensures sep !in gs[i]
    {
      if i < |fs| - 1 {
        assert gs[i] == fs[i];
      } else {
        assert gs[i] == fs[i] + t;
      }
    }
    SplitJoin(gs, sep);
  }

  /** `s.endswith(suffix)`. */
  predicate EndsWith(s: string, suffix: string)
  {
    |suffix| <= |s| && s[|s| - |suffix|..] == suffix
  }

  /** `name.endswith(".csv")`: the directory entries both readers take. */
  predicate IsCsvName(name: string)
  {
    EndsWith(name, ".csv")
  }

  /** `[float(string) for string in fields]`: fails at the first field that is not a number. */
  function ParseFields(fields: seq<string>, parse: string -> Option<real>): (r: Result<seq<real>, nat>)
    ensures r.Ok? ==> |r.value| == |fields|
    ensures r.Ok? ==> forall i :: 0 <= i < |fields| ==> parse(fields[i]) == Some(r.value[i])
    ensures r.Err? ==> r.error < |fields| && parse(fields[r.error]).None?
    ensures r.Err? ==> forall i :: 0 <= i < r.error ==> parse(fields[i]).Some?
    decreases |fields|
  {
    if |fields| == 0 then Ok([])
    else
      match parse(fields[0])
      case None => Err(0)
      case Some(v) =>
        match ParseFields(fields[1..], parse)
        case Err(i) => Err(i + 1)
        case Ok(vs) => Ok([v] + vs)
  }

  /** The items of s that satisfy p, in their original order (a list comprehension with a filter). */
  function Filter<T>(s: seq<T>, p: T -> bool): (r: seq<T>)
    ensures |r| <= |s|
    ensures forall i :: 0 <= i < |r| ==> r[i] in s && p(r[i])
    ensures forall i :: 0 <= i < |s| && p(s[i]) ==> s[i] in r
    decreases |s|
  {
    if |s| == 0 then []
    else (if p(s[0]) then [s[0]] else []) + Filter(s[1..], p)
  }

  /** Filtering distributes over concatenation, so the kept items stay in listing order. */
  lemma {:induction false} FilterConcat<T>(a: seq<T>, b: seq<T>, p: T -> bool)
    ensures Filter(a + b, p) == Filter(a, p) + Filter(b, p)
    decreases |a|
  {
    if |a| > 0 {
      assert (a + b)[1..] == a[1..] + b;
      FilterConcat(a[1..], b, p);
    } else {
      assert a + b == b;
    }
  }

  /** The decimal spelling of a single digit. */
  function DigitString(d: nat): (r: string)
    requires d < 10
    ensures |r| == 1 && r[0] as int - '0' as int == d
  {
    [('0' as int + d) as char]
  }
}
