/**
 * How `TstzRange` plugs into sea_orm: conversion to and from sea_query's
 * `Value`, the null value of the column, and the column metadata.
 */
module ScalarAdapter {
  import opened Text
  import opened TstzRanges

  /**
   * sea_query's `Value`, every variant of which carries an optional payload.
   * Only the `String` variant matters to the range; `Bool`, `BigInt` and
   * `Bytes` stand for the rest.
   */
  datatype Value =
    | Bool(b: Option<bool>)
    | BigInt(i: Option<int>)
    | String(s: Option<string>)
    | Bytes(bytes: Option<seq<bv8>>)

  /** sea_query's `ColumnType`, of which the range uses only `Custom`. */
  datatype ColumnType = Custom(name: string)

  /** `impl From<TstzRange> for Value`: the range's literal, as a non-null string value. */
  function FromRange<T(!new)>(r: TstzRange<T>, f: TimeFormat<T>): (v: Value)
    ensures v.String? && v.s.Some?
  {
    String(Some(ToString(r, f)))
  }

  /** `Nullable::null`: the null string value. */
  function Null(): (v: Value)
    ensures v.String? && v.s.None?
  {
    String(None)
  }

  /** `ValueType::try_from`: only a non-null string is decoded; any other value is `Err`. */
  function TryFrom<T>(v: Value, f: TimeFormat<T>): (r: Outcome<TstzRange<T>>)
    ensures !(v.String? && v.s.Some?) ==> r == Err
    ensures v.String? && v.s.Some? && Count(v.s.value, ',') != 1 ==> r == Err
  {
    match v
    case String(Some(s)) => FromString(s, f)
    case _ => Err
  }

  /** `ValueType::type_name` */
  function TypeName(): string {
    "tstzrange"
  }

  /** `ValueType::column_type`: a custom column whose name is the upper-cased type name. */
  function TypeColumn(): (c: ColumnType)
    ensures c == Custom(AsciiUpper(TypeName()))
  {
    Custom("TSTZRANGE")
  }

  /** A range converted to a value converts back to the same range. */
  lemma ValueRoundTrip<T(!new)>(r: TstzRange<T>, f: TimeFormat<T>)
    requires Lawful(f)
    ensures TryFrom(FromRange(r, f), f) == Ok(r)
    ensures FromRange(r, f) != Null()
  {
    RoundTrip(r, f);
  }

  /** The null value is not a range: converting it is `Err`, never a panic or a range. */
  lemma NullRejected<T>(f: TimeFormat<T>)
    ensures TryFrom(Null(), f) == Err
  {
  }

  /** `try_from` of a non-null string is exactly `from_string` of its contents. */
  lemma TryFromDelegates<T>(s: string, f: TimeFormat<T>)
    ensures TryFrom(String(Some(s)), f) == FromString(s, f)
  {
  }
}
