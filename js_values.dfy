/**
  The JavaScript values the viewer's code works with, as far as the model needs
  them: numbers that may be NaN, `null`/`undefined` as `None`, thrown errors as
  `Failure`, and the rows read from a CSV file.
 */
module JsValues {

  datatype Option<+T> = None | Some(value: T)

  /** A computation that either produces a value or throws. */
  datatype Result<+T, +E> = Success(value: T) | Failure(error: E)

  /** A computation with no value that may throw. */
  datatype Outcome<+E> = Pass | Fail(error: E)

  /** The error classes the modelled code throws. */
  datatype JsError = TypeError

  /** A JavaScript number: a finite value or NaN (infinities are not modelled). */
  datatype Num = Num(value: real) | NaN

  /** `Math.abs` */
  function Abs(x: real): (r: real)
    ensures r >= 0.0 && (r == x || r == -x)
  {
    if x < 0.0 then -x else x
  }

  /** `a - b`: NaN as soon as one operand is NaN. */
  function Sub(a: Num, b: Num): (r: Num)
    ensures r.NaN? <==> a.NaN? || b.NaN?
    ensures r.Num? ==> r.value + b.value == a.value
  {
    if a.NaN? || b.NaN? then NaN else Num(a.value - b.value)
  }

  /** `a <= b`: every relational comparison involving NaN is false. */
  predicate NumLe(a: Num, b: Num)
  {
    a.Num? && b.Num? && a.value <= b.value
  }

  /** `a < b`, with the same NaN rule. */
  predicate NumLt(a: Num, b: Num)
  {
    a.Num? && b.Num? && a.value < b.value
  }

  /** A row of observed data after parsing: `{chr, pos, BAF, DR}`. */
  datatype DataRow = DataRow(chr: string, pos: real, baf: Num, dr: Num)
}
