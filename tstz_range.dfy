/**
 * `TstzRange`: a pair of `Bound`s over timestamps and its textual codec for
 * PostgreSQL's `tstzrange` literal `<start>,<end>`.
 *
 * The timestamp type is a parameter `T`. Its RFC 3339 rendering and parsing
 * (chrono's `to_rfc3339` and `parse_from_rfc3339(..).with_timezone(&Utc)`)
 * are passed in as a `TimeFormat<T>`; the properties of the codec that depend
 * on them are stated for every format that is `Lawful`.
 */
module TstzRanges {
  import opened Text

  datatype Option<+T> = None | Some(value: T)

  /** `std::ops::Bound` */
  datatype Bound<+T> = Unbounded | Included(instant: T) | Excluded(instant: T)

  /** `TstzRange(PgRange { start, end })` */
  datatype TstzRange<+T> = TstzRange(start: Bound<T>, end: Bound<T>)

  /** How a timestamp is written and read back. */
  datatype TimeFormat<!T> = TimeFormat(render: T -> string, parse: string -> Option<T>)

  /**
   * What the codec needs of the timestamp format: reading back a rendering
   * gives the same instant, and a rendering is non-empty and has no comma.
   */
  ghost predicate Lawful<T(!new)>(f: TimeFormat<T>) {
    forall t ::
      f.parse(f.render(t)) == Some(t) && f.render(t) != [] && ',' !in f.render(t)
  }

  /**
   * What decoding can come to: a value, `Err` (the source's `ValueTypeErr`),
   * or `Panic`, a Rust panic from a byte-index slice that is out of range or
   * not on a character boundary (or from `len() - 1` on an empty string).
   */
  datatype Outcome<+R> = Ok(value: R) | Err | Panic

  /** `TstzRange::new`: never fails and does not compare the two instants. */
  function New<T>(start: Bound<T>, end: Bound<T>): (r: TstzRange<T>)
    ensures r.start == start && r.end == end
  {
    TstzRange(start, end)
  }

  // ---------------------------------------------------------------- encoder

  /**
   * `[t`, `(t` or `(`: the first character tells an inclusive start from the
   * others, and under a lawful format the token is comma-free, is `(` alone
   * exactly for an unbounded start, and decodes back to its bound.
   */
  function StartToken<T(!new)>(b: Bound<T>, f: TimeFormat<T>): (tok: string)
    ensures |tok| >= 1 && tok[0] == (if b.Included? then '[' else '(')
    ensures Lawful(f) ==> ',' !in tok && (tok == "(" <==> b.Unbounded?)
    ensures Lawful(f) ==> DecodeStart(tok, f) == Ok(b)
  {
    match b
    case Included(t) => "[" + f.render(t)
    case Excluded(t) => "(" + f.render(t)
    case Unbounded => "("
  }

  /**
   * `t]`, `t)` or `)`: the last character tells an inclusive end from the
   * others, and under a lawful format the token is comma-free, is `)` alone
   * exactly for an unbounded end, and decodes back to its bound.
   */
  function EndToken<T(!new)>(b: Bound<T>, f: TimeFormat<T>): (tok: string)
    ensures |tok| >= 1 && tok[|tok| - 1] == (if b.Included? then ']' else ')')
    ensures Lawful(f) ==> ',' !in tok && (tok == ")" <==> b.Unbounded?)
    ensures Lawful(f) ==> DecodeEnd(tok, f) == Ok(b)
  {
    match b
    case Included(t) => f.render(t) + "]"
    case Excluded(t) => f.render(t) + ")"
    case Unbounded => ")"
  }

  /**
   * `TstzRange::to_string`: under a lawful format the literal has exactly one
   * comma, which separates the start token from the end token.
   */
  function ToString<T(!new)>(r: TstzRange<T>, f: TimeFormat<T>): (s: string)
    ensures Lawful(f) ==> Count(s, ',') == 1
    ensures Lawful(f) ==> Split(s, ',') == [StartToken(r.start, f), EndToken(r.end, f)]
  {
    var start, end := StartToken(r.start, f), EndToken(r.end, f);
    SplitTwo(start, ',', end);
    start + "," + end
  }

  // ---------------------------------------------------------------- decoder

  /**
   * The start part: `(` alone is unbounded; otherwise the first character is
   * dropped (a panic when there is none or it is wider than one byte), the
   * rest is parsed, and the bound is inclusive exactly when that first
   * character was `[`: any other first character gives an exclusive bound.
   */
  function DecodeStart<T>(part: string, f: TimeFormat<T>): (r: Outcome<Bound<T>>)
    ensures r == Ok(Unbounded) <==> part == "("
    ensures r == Panic <==> |part| == 0 || !SingleByte(part[0])
    ensures r == Err <==> part != "(" && |part| >= 1 && SingleByte(part[0]) && f.parse(part[1..]).None?
    ensures r.Ok? && part != "(" ==>
      !r.value.Unbounded? && f.parse(part[1..]) == Some(r.value.instant) &&
      (r.value.Included? <==> part[0] == '[')
  {
    if part == "(" then Ok(Unbounded)
    else if |part| == 0 || !SingleByte(part[0]) then Panic
    else
      match f.parse(part[1..])
      case None => Err
      case Some(t) => Ok(if part[0] == '[' then Included(t) else Excluded(t))
  }

  /**
   * The end part: `)` alone is unbounded; otherwise the last character is
   * dropped (a panic when there is none or it is wider than one byte), the
   * rest is parsed, and the bound is inclusive exactly when that last
   * character was `]`: any other last character gives an exclusive bound.
   */
  function DecodeEnd<T>(part: string, f: TimeFormat<T>): (r: Outcome<Bound<T>>)
    ensures r == Ok(Unbounded) <==> part == ")"
    ensures r == Panic <==> |part| == 0 || !SingleByte(part[|part| - 1])
    ensures r == Err <==>
      part != ")" && |part| >= 1 && SingleByte(part[|part| - 1]) && f.parse(part[..|part| - 1]).None?
    ensures r.Ok? && part != ")" ==>
      !r.value.Unbounded? && f.parse(part[..|part| - 1]) == Some(r.value.instant) &&
      (r.value.Included? <==> part[|part| - 1] == ']')
  {
    if part == ")" then Ok(Unbounded)
    else if |part| == 0 || !SingleByte(part[|part| - 1]) then Panic
    else
      match f.parse(part[..|part| - 1])
      case None => Err
      case Some(t) => Ok(if part[|part| - 1] == ']' then Included(t) else Excluded(t))
  }

  /**
   * `TstzRange::from_string`. The start part is decoded, and may return early,
   * before the end part is looked at.
   */
  function FromString<T>(s: string, f: TimeFormat<T>): (r: Outcome<TstzRange<T>>)
    ensures Count(s, ',') != 1 ==> r == Err
    ensures r.Ok? ==> Count(s, ',') == 1
  {
    var parts := Split(s, ',');
    if |parts| != 2 then Err
    else
      match DecodeStart(parts[0], f)
      case Panic => Panic
      case Err => Err
      case Ok(start) =>
        match DecodeEnd(parts[1], f)
        case Panic => Panic
        case Err => Err
        case Ok(end) => Ok(TstzRange(start, end))
  }

  // ---------------------------------------------------------------- properties

  /** Decoding an encoding gives back the range, for all nine combinations of bound kinds. */
  lemma RoundTrip<T(!new)>(r: TstzRange<T>, f: TimeFormat<T>)
    requires Lawful(f)
    ensures FromString(ToString(r, f), f) == Ok(r)
  {
  }

  /** Consequently two ranges with the same encoding are the same range. */
  lemma EncodingInjective<T(!new)>(r1: TstzRange<T>, r2: TstzRange<T>, f: TimeFormat<T>)
    requires Lawful(f)
    ensures ToString(r1, f) == ToString(r2, f) <==> r1 == r2
  {
    RoundTrip(r1, f);
    RoundTrip(r2, f);
  }

  /**
   * For a literal with one comma: a timestamp that does not parse makes the
   * whole decode `Err`, never a range with one side filled in; a start part
   * that fails is reported before the end part is examined; a panic on
   * either side, reached in that order, is a panic and not an `Err`.
   */
  lemma DecodeSides<T>(a: string, b: string, f: TimeFormat<T>)
    requires ',' !in a && ',' !in b
    ensures DecodeStart(a, f) == Err ==> FromString(a + "," + b, f) == Err
    ensures DecodeStart(a, f) == Panic ==> FromString(a + "," + b, f) == Panic
    ensures DecodeStart(a, f).Ok? && DecodeEnd(b, f) == Err ==> FromString(a + "," + b, f) == Err
    ensures DecodeStart(a, f).Ok? && DecodeEnd(b, f) == Panic ==> FromString(a + "," + b, f) == Panic
    ensures FromString(a + "," + b, f).Ok? <==> DecodeStart(a, f).Ok? && DecodeEnd(b, f).Ok?
    ensures FromString(a + "," + b, f).Ok? ==>
      FromString(a + "," + b, f).value == TstzRange(DecodeStart(a, f).value, DecodeEnd(b, f).value)
  {
    SplitTwo(a, ',', b);
  }

  /**
   * The bracket characters are not checked: any one-byte character other than
   * a comma may open or close a bounded side, and only `[` and `]` make it
   * inclusive.
   */
  lemma DelimitersNotValidated<T(!new)>(open: char, close: char, t1: T, t2: T, f: TimeFormat<T>)
    requires Lawful(f)
    requires SingleByte(open) && SingleByte(close) && open != ',' && close != ','
    ensures FromString([open] + f.render(t1) + "," + f.render(t2) + [close], f)
         == Ok(TstzRange(if open == '[' then Included(t1) else Excluded(t1),
                         if close == ']' then Included(t2) else Excluded(t2)))
  {
    var a, b := [open] + f.render(t1), f.render(t2) + [close];
    assert a[1..] == f.render(t1);
    assert b[..|b| - 1] == f.render(t2);
    assert [open] + f.render(t1) + "," + f.render(t2) + [close] == a + "," + b;
    DecodeSides(a, b, f);
  }

  /**
   * `",)"` panics on the empty start part and `"(,"` on the empty end part,
   * whatever the timestamp format. `"[x,"` has an empty end part too, but it
   * panics only when `x` parses: otherwise the start part fails first and the
   * result is `Err`.
   */
  lemma PanicExamples<T>(f: TimeFormat<T>)
    ensures FromString(",)", f) == Panic
    ensures FromString("(,", f) == Panic
    ensures f.parse("x") == None ==> FromString("[x,", f) == Err
    ensures f.parse("x").Some? ==> FromString("[x,", f) == Panic
  {
    DecodeSides("", ")", f);
    assert "" + "," + ")" == ",)";
    DecodeSides("(", "", f);
    assert "(" + "," + "" == "(,";
    DecodeSides("[x", "", f);
    assert "[x" + "," + "" == "[x,";
  }
}
