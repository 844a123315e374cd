/**
 * The pieces of Rust's `str` behaviour that the tstzrange codec relies on:
 * `split(sep)` with `collect()`, and the UTF-8 width of a character (which
 * decides whether a byte-index slice lands on a character boundary). Also
 * ASCII upper-casing, used only to relate the two metadata constants of the
 * column. Strings are sequences of Unicode scalar values.
 */
module Text {

  /** Number of occurrences of `c` in `s`. */
  function Count(s: string, c: char): (n: nat)
    ensures n <= |s|
    ensures n == 0 <==> c !in s
  {
    if |s| == 0 then 0
    else (if s[0] == c then 1 else 0) + Count(s[1..], c)
  }

  /**
   * `s.split(sep).collect::<Vec<&str>>()`: the maximal separator-free pieces
   * of `s`, in order, including the empty pieces before a leading, after a
   * trailing and between two adjacent separators. The empty string yields one
   * empty piece.
   */
  function Split(s: string, sep: char): (parts: seq<string>)
    ensures |parts| == Count(s, sep) + 1
    ensures forall i :: 0 <= i < |parts| ==> sep !in parts[i]
  {
    if |s| == 0 then [""]
    else
      var rest := Split(s[1..], sep);
      if s[0] == sep then [""] + rest
      else [[s[0]] + rest[0]] + rest[1..]
  }

  /** The pieces glued back together with one separator between neighbours. */
  function Join(parts: seq<string>, sep: char): (s: string)
    requires |parts| >= 1
  {
    if |parts| == 1 then parts[0]
    else parts[0] + [sep] + Join(parts[1..], sep)
  }

  /** Joining what `Split` cut apart gives back the original string. */
  lemma {:induction false} JoinSplit(s: string, sep: char)
    ensures Join(Split(s, sep), sep) == s
  {
    if |s| > 0 {
      var rest := Split(s[1..], sep);
      JoinSplit(s[1..], sep);
      if s[0] == sep {
        assert Split(s, sep) == [""] + rest;
        assert ([""] + rest)[1..] == rest;
      } else {
        var parts := [[s[0]] + rest[0]] + rest[1..];
        assert Split(s, sep) == parts;
        if |rest| > 1 {
          assert parts[1..] == rest[1..];
          assert Join(rest, sep) == rest[0] + [sep] + Join(rest[1..], sep);
        }
      }
    }
  }

  /** A separator-free string is one piece. */
  lemma {:induction false} SplitNoSeparator(s: string, sep: char)
    requires sep !in s
    ensures Split(s, sep) == [s]
  {
    if |s| > 0 {
      SplitNoSeparator(s[1..], sep);
      assert [s[0]] + s[1..] == s;
    }
  }

  /** A separator-free prefix followed by a separator is the first piece. */
  lemma {:induction false} SplitPrefix(x: string, sep: char, y: string)
    requires sep !in x
    ensures Split(x + [sep] + y, sep) == [x] + Split(y, sep)
  {
    var s := x + [sep] + y;
    if |x| == 0 {
      assert s[1..] == y;
    } else {
      assert s[1..] == x[1..] + [sep] + y;
      SplitPrefix(x[1..], sep, y);
      assert [x[0]] + x[1..] == x;
    }
  }

  /** `Split` inverts `Join` on separator-free pieces. */
  lemma {:induction false} SplitJoin(parts: seq<string>, sep: char)
    requires |parts| >= 1
    requires forall i :: 0 <= i < |parts| ==> sep !in parts[i]
    ensures Split(Join(parts, sep), sep) == parts
  {
    if |parts| == 1 {
      SplitNoSeparator(parts[0], sep);
    } else {
      SplitJoin(parts[1..], sep);
      SplitPrefix(parts[0], sep, Join(parts[1..], sep));
      assert [parts[0]] + parts[1..] == parts;
    }
  }

  /** Two separator-free strings around one separator split into exactly those two. */
  lemma SplitTwo(a: string, sep: char, b: string)
    ensures sep !in a && sep !in b ==> Split(a + [sep] + b, sep) == [a, b]
    ensures sep !in a && sep !in b ==> Count(a + [sep] + b, sep) == 1
  {
    if sep !in a && sep !in b {
      SplitJoin([a, b], sep);
      assert Join([a, b], sep) == a + [sep] + Join([b], sep);
    }
  }

  /** Number of bytes UTF-8 uses to encode `c`. */
  function Utf8Width(c: char): (w: nat)
    ensures 1 <= w <= 4
  {
    if c as int < 0x80 then 1
    else if c as int < 0x800 then 2
    else if c as int < 0x1_0000 then 3
    else 4
  }

  /**
   * True when `c` is encoded in one UTF-8 byte, so that the byte index just
   * after it (when it comes first) or just before it (when it comes last) is
   * a character boundary, where Rust's `str` slicing does not panic.
   */
  function SingleByte(c: char): (b: bool)
    ensures b <==> Utf8Width(c) == 1
  {
    c as int < 0x80
  }

  function AsciiUpperChar(c: char): char {
    if 'a' <= c <= 'z' then (c as int - 'a' as int + 'A' as int) as char else c
  }

  /** Upper-casing of ASCII text: lower-case Latin letters become upper-case, every other character stays. */
  function AsciiUpper(s: string): (u: string)
    ensures |u| == |s|
  {
    if |s| == 0 then "" else [AsciiUpperChar(s[0])] + AsciiUpper(s[1..])
  }
}
