/** Shared market vocabulary: exact decimals as reals, instants as whole seconds. */
module Market {

  datatype Option<+T> = None | Some(value: T)

  /** The side of a pivot. */
  datatype SwingKind = High | Low

  /** One closed candle; `time` is the open time. Volume plays no part in the modelled code. */
  datatype Candle = Candle(time: int, open: real, high: real, low: real, close: real)

  function Max(a: real, b: real): real {
    if a >= b then a else b
  }

  function Min(a: real, b: real): real {
    if a <= b then a else b
  }

  function Abs(a: real): real {
    if a < 0.0 then -a else a
  }

  /** A product under a name, so that inductions can treat it as an atom. */
  function Mul(x: real, y: real): real {
    x * y
  }

  /** The largest of a window, as a left-to-right scan finds it. */
  function MaxOf(s: seq<real>): real
    requires |s| > 0
  {
    if |s| == 1 then s[0] else Max(MaxOf(s[..|s|-1]), s[|s|-1])
  }

  /** What a candle satisfies once constructed: prices not negative and open and close within the range. */
  predicate ValidCandle(c: Candle) {
    0.0 <= c.low && c.low <= c.open <= c.high && c.low <= c.close <= c.high
  }

  // ------------------------------------------------------------ upside down

  /** The image of a price in a mirror lying at the level `axis`. */
  function Reflect(axis: real, price: real): real {
    2.0 * axis - price
  }

  /** The candle seen upside down, so high and low trade places. */
  function ReflectCandle(axis: real, c: Candle): Candle {
    Candle(c.time, Reflect(axis, c.open), Reflect(axis, c.low), Reflect(axis, c.high), Reflect(axis, c.close))
  }

  function ReflectCandles(axis: real, cs: seq<Candle>): (r: seq<Candle>)
    ensures |r| == |cs|
    ensures forall i :: 0 <= i < |cs| ==> r[i] == ReflectCandle(axis, cs[i])
  {
    seq(|cs|, i requires 0 <= i < |cs| => ReflectCandle(axis, cs[i]))
  }
}
