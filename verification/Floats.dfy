/** IEEE values as this model sees them: exact reals, the infinities and NaN. */
module Floats {
  datatype Float = NaN | NegInf | PosInf | Fin(r: real)

  /** The order on values other than NaN. */
  predicate Leq(a: Float, b: Float)
    requires !a.NaN? && !b.NaN?
  {
    a.NegInf? || b.PosInf? || (a.Fin? && b.Fin? && a.r <= b.r)
  }

  /** Go's conversion of a float to an integer: toward zero. */
  function Truncate(r: real): int {
    if r >= 0.0 then r.Floor else -((-r).Floor)
  }

  /** `math.Round`: to the nearest integer, halves away from zero. */
  function Round(r: real): int {
    if r >= 0.0 then (r + 0.5).Floor else -((-r + 0.5).Floor)
  }

  function RoundFloat(f: Float): Float {
    if f.Fin? then Fin(Round(f.r) as real) else f
  }

  function Abs(r: real): real {
    if r < 0.0 then -r else r
  }

  /** Both roundings keep order, keep sign and stay close; halves move away from zero. */
  lemma RoundingSpec(a: real, b: real)
    requires a <= b
    ensures Truncate(a) <= Truncate(b) && Round(a) <= Round(b)
    ensures a >= 0.0 ==> 0.0 <= Truncate(a) as real <= a && Round(a) >= 0
    ensures a <= 0.0 ==> a <= Truncate(a) as real <= 0.0 && Round(a) <= 0
    ensures Abs(Truncate(a) as real - a) < 1.0
    ensures Abs(Round(a) as real - a) <= 0.5
    ensures Abs(Round(a) as real - a) == 0.5 ==> Abs(Round(a) as real) > Abs(a)
  {
  }

  lemma RoundInteger(n: int)
    ensures Truncate(n as real) == n
  {
  }
}
