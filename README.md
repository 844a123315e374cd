# tstzrange codec for sea_orm, in Dafny

This project models `TstzRange`, a wrapper around a pair of
`std::ops::Bound<DateTime<Utc>>` values (start and end). It covers the textual
codec between that pair and PostgreSQL's `tstzrange` literal `<start>,<end>`,
and the sea_orm scalar adapter around the codec.

- `text.dfy`: module `Text`. These are the `str` operations the codec uses:
  `split(',')` collected into a vector, and the one-byte test that decides
  whether a byte-index slice is on a character boundary. It also has ASCII
  upper-casing, which only states how the two metadata constants relate: the
  source itself upper-cases nothing.
- `tstz_range.dfy`: module `TstzRanges`. It holds `Bound`, `TstzRange`,
  `TstzRange::new`, the encoder `to_string` and the decoder `from_string`.
- `scalar_adapter.dfy`: module `ScalarAdapter`. It holds `From<TstzRange> for Value`,
  `Nullable::null`, `ValueType::try_from`, `type_name` and `column_type`.
- `rfc3339_utc.dfy`: module `Rfc3339Utc`. It is a concrete timestamp format
  for whole-second UTC instants with a four-digit year, written as
  `YYYY-MM-DDTHH:MM:SS+00:00`. It shows that the codec's hypotheses can be met,
  and it pins down the literal for concrete ranges.

The timestamp type is a type parameter `T`. chrono's `to_rfc3339` and
`parse_from_rfc3339(..).with_timezone(&Utc)` become the two fields of a
`TimeFormat<T>` value, `render` and `parse`. The codec works for any format.
Properties that need more state it as a hypothesis, `Lawful(f)`:

- `parse(render(t)) == Some(t)`;
- `render(t)` is non-empty;
- `render(t)` contains no comma.

Decoding has three outcomes, `Ok(range)`, `Err` and `Panic`:

- `Err` is the source's `ValueTypeErr`.
- `Panic` is the case where the Rust code panics instead of returning.
  `&start_str[1..]` panics on an empty start part, or one whose first
  character is wider than one byte. `end_str.len()-1` and the slice after it
  panic on an empty end part, or one whose last character is wider than one
  byte.

The start part is decoded before the end part is looked at. So a start
timestamp that fails to parse gives `Err` even when the end part would panic.

The decoder accepts more than the encoder writes:

- Any first character other than `[` gives an exclusive start, and any last
  character other than `]` gives an exclusive end (`DelimitersNotValidated`).
- The timestamp text goes to the parser as it is: nothing is stripped or
  rewritten first.
- A malformed part can panic instead of returning `Err`.

The range type has no membership test and no accessors for its instants.

## Model

| member | source | states |
|---|---|---|
| `Text.Split` | src/lib.rs:35 | `split(',')` yields one more part than there are commas, and no part contains a comma |
| `Text.SplitJoin` | src/lib.rs:35 | splitting the comma-join of comma-free parts gives back exactly those parts (the partner `Text.JoinSplit` gives the other direction) |
| `Text.JoinSplit` | src/lib.rs:35 | joining the parts of a split with commas gives back the input |
| `Text.SingleByte` | src/lib.rs:47 | a character is single-byte iff its UTF-8 encoding takes one byte, which is when the byte-index slices at lines 47 and 62 land on a character boundary |
| `TstzRanges.New` | src/lib.rs:11-16 | the range holds exactly the two given bounds; no ordering between the instants is required |
| `TstzRanges.StartToken` | src/lib.rs:19-23 | the token starts with `[` for an inclusive bound and `(` otherwise; under a lawful format it has no comma, is `(` alone iff the start is unbounded, and decodes back to its bound |
| `TstzRanges.EndToken` | src/lib.rs:25-29 | the token ends with `]` for an inclusive bound and `)` otherwise; under a lawful format it has no comma, is `)` alone iff the end is unbounded, and decodes back to its bound |
| `TstzRanges.ToString` | src/lib.rs:18-32 | under a lawful format the literal has exactly one comma and splits into the start token and the end token |
| `TstzRanges.RoundTrip` | src/lib.rs:18-74 | `from_string(to_string(r)) == Ok(r)` for every range and all nine combinations of bound kinds |
| `TstzRanges.EncodingInjective` | src/lib.rs:18-32 | two ranges have the same literal iff they are equal |
| `TstzRanges.DecodeStart` | src/lib.rs:43-56 | `Unbounded` iff the part is exactly `(`, with no timestamp parsed; a panic iff the part is empty or starts with a multi-byte character; `Err` iff the rest after the first character fails to parse; otherwise the parsed instant, `Included` iff the first character is `[` and `Excluded` for any other |
| `TstzRanges.DecodeEnd` | src/lib.rs:58-71 | `Unbounded` iff the part is exactly `)`, with no timestamp parsed; a panic iff the part is empty or ends with a multi-byte character; `Err` iff the part minus its last character fails to parse; otherwise the parsed instant, `Included` iff the last character is `]` and `Excluded` for any other |
| `TstzRanges.FromString` | src/lib.rs:34-38 | a literal whose comma count is not one is `Err`, and a decoded range always came from a literal with exactly one comma |
| `TstzRanges.DecodeSides` | src/lib.rs:40-73 | with one comma: a timestamp that fails to parse makes the whole decode `Err`; the start is judged first; a panic on either side is a panic, not `Err`; the decode succeeds iff both sides do, and the range is the two decoded bounds |
| `TstzRanges.DelimitersNotValidated` | src/lib.rs:46-70 | any one-byte non-comma character may open or close a bounded side; only `[` and `]` mean inclusive |
| `TstzRanges.PanicExamples` | src/lib.rs:40-62 | `",)"` and `"(,"` panic and are not `Err`; `"[x,"` is `Err` when `x` does not parse, because the start is judged before the empty end part, and a panic when it does |
| `ScalarAdapter.FromRange` | src/lib.rs:78-82 | a range converts to a non-null `String` value |
| `ScalarAdapter.Null` | src/lib.rs:84-88 | the null of the column is the `String` variant with no payload |
| `ScalarAdapter.TryFrom` | src/lib.rs:91-96 | every value other than a non-null `String` is `Err`, and so is a string without exactly one comma |
| `ScalarAdapter.TryFromDelegates` | src/lib.rs:93 | a non-null `String` is decoded exactly as `from_string` decodes its contents |
| `ScalarAdapter.ValueRoundTrip` | src/lib.rs:207-219 | `try_from(from(r)) == Ok(r)`, and `from(r)` is never the null value |
| `ScalarAdapter.NullRejected` | src/lib.rs:84-96 | `try_from(null())` is `Err` |
| `ScalarAdapter.TypeName` | src/lib.rs:98-100 | the type name `tstzrange`; its relation to the column type is stated by `ScalarAdapter.TypeColumn` |
| `ScalarAdapter.TypeColumn` | src/lib.rs:106-108 | the column type is `Custom` with the name `TSTZRANGE`, the ASCII upper-casing of the type name `tstzrange` |
| `Rfc3339Utc.FormatLawful` | src/lib.rs:48-50 | the whole-second UTC format meets every hypothesis the codec's lemmas make of chrono's rendering and parsing |
| `Rfc3339Utc.DayLiteral` | src/lib.rs:166-178 | `[2024-01-01 00:00, 2024-01-02 00:00)` is written `[2024-01-01T00:00:00+00:00,2024-01-02T00:00:00+00:00)` and decoded back from it |
| `Rfc3339Utc.OpenStartLiteral` | src/lib.rs:58-71 | `(,2024-06-01T12:00:00+00:00]` decodes to an unbounded start and an inclusive end at that instant |

## Left out

- chrono's RFC 3339 rendering and parsing is not part of this model. It is a
  parameter, constrained only by `Lawful`. `Rfc3339Utc` is one lawful
  instance. It does not cover fractional seconds, offsets other than
  `+00:00`, `Z` or month lengths.
- `Lawful` is assumed of chrono, not proved. It is expected to hold only for
  years 0..9999. Outside that range `to_rfc3339` writes a sign and five or
  more year digits, and the RFC 3339 parser reads exactly four. So the
  round trip (`TstzRanges.RoundTrip`, `ScalarAdapter.ValueRoundTrip`) is not
  promised for such instants.
- `TryGetable::try_get_by` (src/lib.rs:113-118) is left out. It is row access
  delegated to sea_orm's `QueryResult` and has no logic of its own.
- `RangeOps` for `Expr` (src/lib.rs:120-155) is left out. Each method only
  builds a sea_query binary node with an opaque operator token (`@>`, `<@`,
  `&&`).
- `array_type` (src/lib.rs:102-104) is left out. It returns a library enum
  constant and has no behaviour.
- `Value` keeps four representative variants of sea_query's `Value`. Only the
  `String` variant is distinguished by the code.
- `ColumnType` keeps only its `Custom` variant.
- The `Box` around the string payload is not modelled.
- The tests' `Utc::now()` and `chrono::Duration` read the wall clock. The
  lemmas quantify over every instant instead.
- `PgRange` is modelled as a plain pair of bounds. None of its own methods are
  used.
