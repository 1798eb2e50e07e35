/**
  Raw Binance kline records and their projection to the six columns the
  application keeps (data_loader.py, `load_klines_from_binance`, the
  DataFrame construction and column selection at the end of the try block).
 */
module Klines {
  import opened Wrappers

  /** Every raw kline has exactly this many fields: the twelve column names
      the DataFrame is built with. */
  const KlineArity := 12

  /** The number of leading fields that survive projection:
      Timestamp, Open, High, Low, Close, Volume. */
  const KeptFields := 6

  /** The largest open time, in milliseconds, that `pd.to_datetime(...,
      unit="ms")` accepts: the result is stored as signed 64-bit
      nanoseconds, so the time times 10^6 must stay within
      2^63 - 1 = 9223372036854775807 (years 1677 to 2262). */
  const MaxOpenTimeMs := 9223372036854

  /** Whether an open time converts to a pandas timestamp, in either
      direction from the epoch. */
  predicate InTimestampRange(t: int)
  {
    -MaxOpenTimeMs <= t <= MaxOpenTimeMs
  }

  /** One JSON value inside a raw kline. Binance sends the open time as a
      number and the prices as strings; nothing here parses prices. */
  datatype Field = Int(i: int) | Str(s: string)

  /** One raw kline as the provider returns it: an ordered tuple of fields. */
  datatype RawRecord = RawRecord(fields: seq<Field>)

  /** One projected row: open time in epoch milliseconds and five opaque
      values. */
  datatype Candle = Candle(time: int, open: Field, high: Field, low: Field, close: Field, volume: Field)

  /** The open time of a raw record, as `record[0]` reads it: missing when
      the record is empty or its first field is not a number. */
  function OpenTime(r: RawRecord): Option<int>
  {
    if |r.fields| > 0 && r.fields[0].Int? then Some(r.fields[0].i) else None
  }

  /** Builds the raw record that carries candle `c` followed by the six
      provider-specific trailing fields `trailing`. */
  function ToRaw(c: Candle, trailing: seq<Field>): (r: RawRecord)
    requires |trailing| == KlineArity - KeptFields
    ensures |r.fields| == KlineArity
    ensures OpenTime(r) == Some(c.time)
  {
    RawRecord([Int(c.time), c.open, c.high, c.low, c.close, c.volume] + trailing)
  }

  /** Projects one raw record to a candle, or fails when the record does
      not have the twelve fields the DataFrame needs, its timestamp is not
      a number, or the timestamp lies outside the range pandas converts. */
  function Normalize(r: RawRecord): Option<Candle>
  {
    if |r.fields| == KlineArity && r.fields[0].Int? && InTimestampRange(r.fields[0].i) then
      Some(Candle(r.fields[0].i, r.fields[1], r.fields[2], r.fields[3], r.fields[4], r.fields[5]))
    else
      None
  }

  /** Projection keeps the candle and drops only the trailing fields, as
      long as the open time converts; otherwise `to_datetime` raises. */
  lemma NormalizeToRaw(c: Candle, trailing: seq<Field>)
    requires |trailing| == KlineArity - KeptFields
    ensures InTimestampRange(c.time) ==> Normalize(ToRaw(c, trailing)) == Some(c)
    ensures !InTimestampRange(c.time) ==> Normalize(ToRaw(c, trailing)) == None
  {
  }

  /** Conversely, a record that projects to `c` is exactly `c` followed by
      the six fields the projection dropped. */
  lemma NormalizeInverse(r: RawRecord, c: Candle)
    requires Normalize(r) == Some(c)
    ensures r == ToRaw(c, r.fields[KeptFields..])
    ensures OpenTime(r) == Some(c.time)
    ensures InTimestampRange(c.time)
  {
    assert r.fields == r.fields[..KeptFields] + r.fields[KeptFields..];
  }

  /** Projects a whole dataset. One bad record fails the whole projection:
      pandas raises and the caller's exception handler returns `None`. */
  function Project(raw: seq<RawRecord>): (r: Option<seq<Candle>>)
    ensures r.Some? <==> forall i :: 0 <= i < |raw| ==> Normalize(raw[i]).Some?
    ensures r.Some? ==> |r.value| == |raw|
    ensures r.Some? ==> forall i :: 0 <= i < |raw| ==> Normalize(raw[i]) == Some(r.value[i])
  {
    if |raw| == 0 then Some([])
    else
      match Normalize(raw[0])
      case None => None
      case Some(c) =>
        match Project(raw[1..])
        case None => None
        case Some(rest) =>
          assert forall i :: 1 <= i < |raw| ==> raw[i] == raw[1..][i - 1];
          Some([c] + rest)
  }
}
