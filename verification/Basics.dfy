/** Value types shared by the models. */
module Basics {

  datatype Option<+T> = None | Some(value: T)

  /** A C++ `double` without rounding: a real number or NaN.
      Every comparison with NaN is false, as in IEEE 754. */
  datatype Double = NaN | Num(val: real) {
    predicate Less(o: Double) { Num? && o.Num? && val < o.val }
    predicate AtMost(o: Double) { Num? && o.Num? && val <= o.val }

    function Plus(o: Double): Double { if Num? && o.Num? then Num(val + o.val) else NaN }
    function Minus(o: Double): Double { if Num? && o.Num? then Num(val - o.val) else NaN }
  }

  function Abs(x: real): real { if x < 0.0 then -x else x }

  function Max(a: int, b: int): int { if a < b then b else a }
}
