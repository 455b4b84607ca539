/** Price bars as the provider returns them and as they are written. A cell of the bar frame is
    missing (pandas NaN), holds a value, or holds something `float()`/`int()` rejects. Prices are
    modelled as reals and volumes as integers; timestamps are nanoseconds. */
module Kbars {
  import opened Outcomes

  datatype Cell<T> = Missing | Present(value: T) | Unconvertible

  /** One bar from `api.kbars`: the raw timestamp `ts` and the price and volume columns. */
  datatype RawBar = RawBar(ts: int, open: Cell<real>, high: Cell<real>, low: Cell<real>,
                           close: Cell<real>, volume: Cell<int>)

  /** One row of the normalised frame: `ts` replaced by the corrected `time`. */
  datatype Bar = Bar(time: int, open: Cell<real>, high: Cell<real>, low: Cell<real>,
                     close: Cell<real>, volume: Cell<int>)

  /** The values bound to the INSERT's price and volume parameters; `None` is SQL NULL. */
  datatype Fields = Fields(open: Option<real>, high: Option<real>, low: Option<real>,
                           close: Option<real>, volume: Option<int>)

  const NanosPerHour: int := 3_600_000_000_000
  /** Taiwan local time is UTC+8; the provider's timestamps read as UTC are that far ahead. */
  const TaiwanOffsetHours: int := 8

  /** `pd.to_datetime(ts) - pd.Timedelta(hours=8)`. */
  function LocalTime(ts: int): (t: int)
    ensures t < ts && ts - t == 8 * 60 * 60 * 1_000_000_000
  {
    ts - TaiwanOffsetHours * NanosPerHour
  }

  /** The correction moves every timestamp back by exactly eight hours, so it is undone by adding
      them again, keeps the order of bars and never merges two distinct timestamps. */
  lemma LocalTimeShift(ts: int, ts': int)
    ensures LocalTime(ts) + 28_800_000_000_000 == ts
    ensures ts < ts' <==> LocalTime(ts) < LocalTime(ts')
    ensures LocalTime(ts) == LocalTime(ts') <==> ts == ts'
  {
  }

  /** The frame after `df['time'] = ...` and `df.drop(columns=['ts'])`. */
  function Normalize(raw: seq<RawBar>): (bars: seq<Bar>)
    ensures |bars| == |raw|
    ensures forall i :: 0 <= i < |raw| ==>
      && bars[i].time + TaiwanOffsetHours * NanosPerHour == raw[i].ts
      && bars[i].open == raw[i].open && bars[i].high == raw[i].high && bars[i].low == raw[i].low
      && bars[i].close == raw[i].close && bars[i].volume == raw[i].volume
  {
    seq(|raw|, i requires 0 <= i < |raw| =>
      Bar(LocalTime(raw[i].ts), raw[i].open, raw[i].high, raw[i].low, raw[i].close, raw[i].volume))
  }

  /** `float(x) if pd.notna(x) else None`: `None` (the outer one) when the conversion raises. */
  function ConvertCell<T>(c: Cell<T>): Option<Option<T>>
  {
    match c
    case Missing => Some(None)
    case Present(v) => Some(Some(v))
    case Unconvertible => None
  }

  /** The parameter bound for a cell: NULL for a missing cell, the converted value otherwise. */
  ghost predicate StoredAs<T>(c: Cell<T>, v: Option<T>)
  {
    (c.Missing? && v == None) || (c.Present? && v == Some(c.value))
  }

  /** Building the INSERT's parameter tuple for one row; `None` when one of its conversions raises,
      in which case nothing is sent to the database. */
  function Convert(b: Bar): (r: Option<Fields>)
    ensures r.Some? <==>
      !b.open.Unconvertible? && !b.high.Unconvertible? && !b.low.Unconvertible? &&
      !b.close.Unconvertible? && !b.volume.Unconvertible?
    ensures r.Some? ==>
      && StoredAs(b.open, r.value.open) && StoredAs(b.high, r.value.high)
      && StoredAs(b.low, r.value.low) && StoredAs(b.close, r.value.close)
      && StoredAs(b.volume, r.value.volume)
  {
    match (ConvertCell(b.open), ConvertCell(b.high), ConvertCell(b.low), ConvertCell(b.close),
           ConvertCell(b.volume))
    case (Some(o), Some(h), Some(l), Some(c), Some(v)) => Some(Fields(o, h, l, c, v))
    case _ => None
  }

  predicate Convertible(b: Bar)
  {
    Convert(b).Some?
  }

}
