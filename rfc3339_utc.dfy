/**
 * A concrete timestamp format that satisfies `Lawful`: whole-second UTC
 * instants with a four-digit year, written as chrono's `to_rfc3339` writes
 * them (`YYYY-MM-DDTHH:MM:SS+00:00`) and read back only from that form.
 * It shows that the hypotheses of the codec's lemmas can be met, and it
 * fixes the literal of a concrete range.
 */
module Rfc3339Utc {
  import opened TstzRanges

  datatype DateTime = DateTime(year: int, month: int, day: int, hour: int, minute: int, second: int)

  /** Field ranges only; the number of days in each month is not checked. */
  predicate InRange(d: DateTime) {
    0 <= d.year <= 9999 && 1 <= d.month <= 12 && 1 <= d.day <= 31 &&
    0 <= d.hour <= 23 && 0 <= d.minute <= 59 && 0 <= d.second <= 59
  }

  type Instant = d: DateTime | InRange(d) witness DateTime(1970, 1, 1, 0, 0, 0)

  function Pow10(w: nat): (p: nat)
    ensures p >= 1
  {
    if w == 0 then 1 else 10 * Pow10(w - 1)
  }

  predicate IsDigit(c: char) {
    '0' <= c <= '9'
  }

  /** `n` in decimal, left-padded with zeros to `width` digits (the low `width` digits of `n`). */
  function Digits(n: nat, width: nat): (s: string)
    ensures |s| == width
    ensures forall i :: 0 <= i < |s| ==> IsDigit(s[i])
  {
    if width == 0 then ""
    else Digits(n / 10, width - 1) + [('0' as int + n % 10) as char]
  }

  /** The number a string of decimal digits denotes. */
  function Number(s: string): nat
    requires forall i :: 0 <= i < |s| ==> IsDigit(s[i])
  {
    if |s| == 0 then 0
    else
      assert IsDigit(s[|s| - 1]);
      10 * Number(s[..|s| - 1]) + (s[|s| - 1] as int - '0' as int)
  }

  lemma {:induction false} NumberDigits(n: nat, width: nat)
    requires n < Pow10(width)
    ensures Number(Digits(n, width)) == n
  {
    if width > 0 {
      var s := Digits(n, width);
      assert s[..|s| - 1] == Digits(n / 10, width - 1);
      NumberDigits(n / 10, width - 1);
    }
  }

  function Render(t: Instant): (s: string)
    ensures |s| == 25
  {
    Digits(t.year, 4) + "-" + Digits(t.month, 2) + "-" + Digits(t.day, 2) + "T" +
    Digits(t.hour, 2) + ":" + Digits(t.minute, 2) + ":" + Digits(t.second, 2) + "+00:00"
  }

  predicate DigitsAt(s: string, lo: nat, hi: nat)
    requires lo <= hi <= |s|
  {
    forall i :: lo <= i < hi ==> IsDigit(s[i])
  }

  /** Accepts exactly the 25-character form `Render` writes, with fields in range. */
  function Parse(s: string): (r: Option<Instant>)
    ensures r.Some? ==> |s| == 25 && s[19..] == "+00:00"
  {
    if |s| == 25 && s[4] == '-' && s[7] == '-' && s[10] == 'T' && s[13] == ':' && s[16] == ':' &&
       s[19..] == "+00:00" &&
       DigitsAt(s, 0, 4) && DigitsAt(s, 5, 7) && DigitsAt(s, 8, 10) &&
       DigitsAt(s, 11, 13) && DigitsAt(s, 14, 16) && DigitsAt(s, 17, 19)
    then
      var d := DateTime(Number(s[0..4]), Number(s[5..7]), Number(s[8..10]),
                        Number(s[11..13]), Number(s[14..16]), Number(s[17..19]));
      if InRange(d) then Some(d) else None
    else None
  }

  function Format(): TimeFormat<Instant> {
    TimeFormat(Render, Parse)
  }

  /** Reading back a rendering gives the same instant. */
  lemma ParseRender(t: Instant)
    ensures Parse(Render(t)) == Some(t)
  {
    var s := Render(t);
    assert s[0..4] == Digits(t.year, 4);
    assert s[5..7] == Digits(t.month, 2);
    assert s[8..10] == Digits(t.day, 2);
    assert s[11..13] == Digits(t.hour, 2);
    assert s[14..16] == Digits(t.minute, 2);
    assert s[17..19] == Digits(t.second, 2);
    assert s[19..] == "+00:00";
    NumberDigits(t.year, 4);
    NumberDigits(t.month, 2);
    NumberDigits(t.day, 2);
    NumberDigits(t.hour, 2);
    NumberDigits(t.minute, 2);
    NumberDigits(t.second, 2);
  }

  /** This format meets every hypothesis the codec's lemmas make. */
  lemma FormatLawful()
    ensures Lawful(Format())
  {
    forall t: Instant ensures Parse(Render(t)) == Some(t) && ',' !in Render(t) {
      ParseRender(t);
      var s := Render(t);
      assert forall i :: 0 <= i < 25 ==> s[i] != ',' by {
        assert forall i :: 0 <= i < 19 && i !in {4, 7, 10, 13, 16} ==> IsDigit(s[i]);
      }
    }
  }

  lemma DigitsOf2024()
    ensures Digits(2024, 4) == "2024"
  {
    assert Digits(2, 1) == "2";
    assert Digits(20, 2) == "20";
    assert Digits(202, 3) == "202";
  }

  lemma RenderNewYear2024()
    ensures Render(DateTime(2024, 1, 1, 0, 0, 0)) == "2024-01-01T00:00:00+00:00"
    ensures Render(DateTime(2024, 1, 2, 0, 0, 0)) == "2024-01-02T00:00:00+00:00"
  {
    DigitsOf2024();
    var zero, one, two := Digits(0, 2), Digits(1, 2), Digits(2, 2);
    assert zero == "00" && one == "01" && two == "02";
    assert Render(DateTime(2024, 1, 1, 0, 0, 0)) == "2024" + "-" + one + "-" + one + "T" + zero + ":" + zero + ":" + zero + "+00:00";
    assert Render(DateTime(2024, 1, 2, 0, 0, 0)) == "2024" + "-" + one + "-" + two + "T" + zero + ":" + zero + ":" + zero + "+00:00";
  }

  /** A whole day, `[2024-01-01 00:00, 2024-01-02 00:00)`, is written as this literal and read back from it. */
  lemma DayLiteral()
    ensures ToString(TstzRange(Included(DateTime(2024, 1, 1, 0, 0, 0)), Excluded(DateTime(2024, 1, 2, 0, 0, 0))), Format())
         == "[" + "2024-01-01T00:00:00+00:00" + "," + "2024-01-02T00:00:00+00:00" + ")"
    ensures FromString("[" + "2024-01-01T00:00:00+00:00" + "," + "2024-01-02T00:00:00+00:00" + ")", Format())
         == Ok(TstzRange(Included(DateTime(2024, 1, 1, 0, 0, 0)), Excluded(DateTime(2024, 1, 2, 0, 0, 0))))
  {
    var t0: Instant, t1: Instant := DateTime(2024, 1, 1, 0, 0, 0), DateTime(2024, 1, 2, 0, 0, 0);
    var r: TstzRange<Instant> := TstzRange(Included(t0), Excluded(t1));
    RenderNewYear2024();
    var s0, s1 := Render(t0), Render(t1);
    assert ToString(r, Format()) == "[" + s0 + "," + s1 + ")";
    FormatLawful();
    RoundTrip(r, Format());
  }

  lemma RenderMidYear2024()
    ensures Render(DateTime(2024, 6, 1, 12, 0, 0)) == "2024-06-01T12:00:00+00:00"
  {
    DigitsOf2024();
    assert Digits(6, 2) == "06" && Digits(1, 2) == "01" && Digits(12, 2) == "12" && Digits(0, 2) == "00";
  }

  /** The literal `(,2024-06-01T12:00:00+00:00]` is unbounded at the start and includes its end instant. */
  lemma OpenStartLiteral()
    ensures FromString("(" + "," + "2024-06-01T12:00:00+00:00" + "]", Format())
         == Ok(TstzRange(Unbounded, Included(DateTime(2024, 6, 1, 12, 0, 0))))
  {
    var t: Instant := DateTime(2024, 6, 1, 12, 0, 0);
    var r: TstzRange<Instant> := TstzRange(Unbounded, Included(t));
    FormatLawful();
    RoundTrip(r, Format());
    RenderMidYear2024();
    assert ToString(r, Format()) == "(" + "," + "2024-06-01T12:00:00+00:00" + "]";
  }
}
