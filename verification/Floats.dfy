/**
  binary64 data as 64-bit patterns. Comparison follows IEEE 754-2019 section 5.11 on the real value a
  pattern denotes; rounded arithmetic (section 4.3.1) is not defined here but is a parameter of the
  machine (see `Values.World`).
 */
module Floats {

  type F64 = b: int | 0 <= b < 0x1_0000_0000_0000_0000

  const SIGN_BIT := 0x8000_0000_0000_0000
  const HIDDEN_BIT := 0x10_0000_0000_0000
  const EXPONENT_ALL_ONES := 0x7FF

  function ExponentField(f: F64): (e: int)
    ensures 0 <= e <= EXPONENT_ALL_ONES
  {
    (f / HIDDEN_BIT) % 0x800
  }

  function Fraction(f: F64): int {
    f % HIDDEN_BIT
  }

  predicate IsFinite(f: F64) {
    ExponentField(f) != EXPONENT_ALL_ONES
  }

  type Finite = f: F64 | IsFinite(f)

  const POSITIVE_ZERO: Finite := 0

  function Pow2(e: int): real
    decreases if e < 0 then -e else e
  {
    if e == 0 then 1.0 else if e > 0 then 2.0 * Pow2(e - 1) else Pow2(e + 1) / 2.0
  }

  /** The magnitude of a finite datum: subnormal when the exponent field is zero. */
  function Magnitude(f: F64): real {
    if ExponentField(f) == 0
    then Fraction(f) as real * Pow2(ExponentField(f) - 1074)
    else (Fraction(f) + HIDDEN_BIT) as real * Pow2(ExponentField(f) - 1075)
  }

  datatype Extended = NaN | MinusInfinity | Number(r: real) | PlusInfinity

  function Denotes(f: F64): Extended {
    if IsFinite(f) then Number(if f < SIGN_BIT then Magnitude(f) else -Magnitude(f))
    else if Fraction(f) != 0 then NaN
    else if f < SIGN_BIT then PlusInfinity else MinusInfinity
  }

  predicate ExtendedLess(a: Extended, b: Extended) {
    match (a, b)
    case (NaN, _) => false
    case (_, NaN) => false
    case (MinusInfinity, MinusInfinity) => false
    case (MinusInfinity, _) => true
    case (PlusInfinity, _) => false
    case (Number(_), MinusInfinity) => false
    case (Number(x), Number(y)) => x < y
    case (Number(_), PlusInfinity) => true
  }

  predicate Less(a: F64, b: F64) {
    ExtendedLess(Denotes(a), Denotes(b))
  }

  /** Both zeros are equal and a NaN equals nothing. */
  predicate Equal(a: F64, b: F64) {
    !Denotes(a).NaN? && Denotes(a) == Denotes(b)
  }

  predicate LessOrEqual(a: F64, b: F64) {
    Less(a, b) || Equal(a, b)
  }

  /** The negation of a datum flips its sign bit, whatever it denotes. */
  function Negate(f: F64): F64 {
    if f < SIGN_BIT then f + SIGN_BIT else f - SIGN_BIT
  }

  lemma NegateFinite(f: F64)
    ensures IsFinite(Negate(f)) == IsFinite(f)
    ensures Negate(Negate(f)) == f
    ensures Fraction(Negate(f)) == Fraction(f)
  {
    assert SIGN_BIT == 0x800 * HIDDEN_BIT;
    var g := Negate(f);
    assert g / HIDDEN_BIT == f / HIDDEN_BIT + 0x800 || g / HIDDEN_BIT == f / HIDDEN_BIT - 0x800;
  }

  lemma ZeroMagnitude(f: F64)
    requires Fraction(f) == 0 && ExponentField(f) == 0
    ensures Magnitude(f) == 0.0
  {
  }

  /** The two zeros are equal, and neither is below the other. */
  lemma ZerosAreEqual(z: F64)
    requires z == POSITIVE_ZERO
    ensures Equal(z, Negate(z)) && !Less(z, Negate(z)) && !Less(Negate(z), z)
  {
    ZeroMagnitude(z);
    ZeroMagnitude(Negate(z));
  }

  /** On finite data `a <= b` is the negation of `b < a`; on a NaN it is not. */
  lemma NegatedComparison(a: F64, b: F64)
    ensures LessOrEqual(a, b) == !Less(b, a) <==> !Denotes(a).NaN? && !Denotes(b).NaN?
    ensures IsFinite(a) && IsFinite(b) ==> (LessOrEqual(a, b) <==> !Less(b, a))
  {
  }
}
