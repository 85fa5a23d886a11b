/** Quota conversions with saturation (common/quota_math.go). */
module QuotaMath {
  import opened Basics
  import opened Floats

  const MAX_QUOTA := 0x7FFF_FFFF
  const MIN_QUOTA := -0x8000_0000

  datatype ClampKind = Overflow | Underflow | NotANumber
  datatype Clamp = Clamp(op: string, kind: ClampKind, original: Float, clamped: int)
  datatype Result<+T, +E> = Ok(value: T) | Err(error: E)

  datatype Checked = Checked(quota: int, clamp: Option<Clamp>)

  /** `saturateQuota`, without its log line. */
  function Saturate(value: Float, op: string): Checked {
    if value.NaN? then Clamped(Clamp(op, NotANumber, value, 0))
    else if Leq(Fin(MAX_QUOTA as real), value) then Clamped(Clamp(op, Overflow, value, MAX_QUOTA))
    else if Leq(value, Fin(MIN_QUOTA as real)) then Clamped(Clamp(op, Underflow, value, MIN_QUOTA))
    else Checked(Truncate(value.r), None)
  }

  function Clamped(c: Clamp): Checked {
    Checked(c.clamped, Some(c))
  }

  function Strict(c: Checked): Result<int, Clamp> {
    match c.clamp
    case Some(clamp) => Err(clamp)
    case None => Ok(c.quota)
  }

  /** The three conversions: truncation of a float, rounding of a float, rounding of a decimal. */
  datatype Conversion = FromFloat | RoundOff | FromDecimal

  function Convert(conversion: Conversion, value: Float): Checked {
    match conversion
    case FromFloat => Saturate(value, "QuotaFromFloat")
    case RoundOff => Saturate(RoundFloat(value), "QuotaRound")
    case FromDecimal => Saturate(RoundFloat(value), "QuotaFromDecimal")
  }

  /** The reference: convert over unbounded integers first, limit to the 32-bit range afterwards. */
  function Exact(conversion: Conversion, r: real): int {
    if conversion.FromFloat? then Truncate(r) else Round(r)
  }

  /** Saturating before the conversion loses nothing against converting over unbounded integers and limiting
      the result to 32 bits afterwards. */
  lemma ConvertIsLimitedExact(conversion: Conversion, value: Float)
    ensures -2_147_483_648 <= Convert(conversion, value).quota <= 2_147_483_647
    ensures var q := Convert(conversion, value).quota;
            match value
            case NaN => q == 0
            case PosInf => q == 2_147_483_647
            case NegInf => q == -2_147_483_648
            case Fin(r) =>
              var exact := Exact(conversion, r);
              q == if exact > 2_147_483_647 then 2_147_483_647
                   else if exact < -2_147_483_648 then -2_147_483_648 else exact
  {
    if value.Fin? {
      RoundingSpec(value.r, value.r);
      RoundInteger(Round(value.r));
    }
  }

  /** Every conversion is monotone and never turns a charge into a credit. */
  lemma ConvertMonotone(conversion: Conversion, a: Float, b: Float)
    requires !a.NaN? && !b.NaN? && Leq(a, b)
    ensures Convert(conversion, a).quota <= Convert(conversion, b).quota
    ensures Leq(Fin(0.0), a) ==> Convert(conversion, a).quota >= 0
    ensures Leq(a, Fin(0.0)) ==> Convert(conversion, a).quota <= 0
  {
    ConvertIsLimitedExact(conversion, a);
    ConvertIsLimitedExact(conversion, b);
    if a.Fin? {
      RoundingSpec(a.r, if b.Fin? then b.r else a.r);
    }
  }

  /** What a clamp says: which conversion, why, of what, and what came out. */
  ghost predicate Reports(c: Clamp, conversion: Conversion, value: Float, quota: int) {
    && c.op == (match conversion
                case FromFloat => "QuotaFromFloat"
                case RoundOff => "QuotaRound"
                case FromDecimal => "QuotaFromDecimal")
    && c.clamped == quota
    && quota == (match c.kind case NotANumber => 0 case Overflow => 2_147_483_647 case Underflow => -2_147_483_648)
    && (c.kind.NotANumber? <==> value.NaN?)
    && c.original == if value.Fin? && !conversion.FromFloat? then Fin(Round(value.r) as real) else value
  }

  /** The strict form succeeds exactly when the checked form reports no clamp, which is exactly when
      the converted value lies strictly inside the range; it is then as close as its rounding allows.
      Otherwise its error is that clamp. */
  lemma StrictExactlyWhen(conversion: Conversion, value: Float)
    ensures var c, s := Convert(conversion, value), Strict(Convert(conversion, value));
            && (s.Ok? <==> value.Fin? && var edge := if conversion.FromFloat? then value.r else Round(value.r) as real;
                                         -2_147_483_648.0 < edge < 2_147_483_647.0)
            && (s.Ok? ==> c.clamp.None? && s.value == c.quota)
            && (s.Err? ==> c.clamp == Some(s.error) && Reports(s.error, conversion, value, c.quota))
            && (s.Ok? && conversion.FromFloat? ==>
                  Abs(s.value as real - value.r) < 1.0 && Abs(s.value as real) <= Abs(value.r))
            && (s.Ok? && !conversion.FromFloat? ==>
                  && Abs(s.value as real - value.r) <= 0.5
                  && (Abs(s.value as real - value.r) == 0.5 ==> Abs(s.value as real) > Abs(value.r)))
  {
    if value.Fin? {
      RoundingSpec(value.r, value.r);
      RoundInteger(Round(value.r));
    }
  }
}
