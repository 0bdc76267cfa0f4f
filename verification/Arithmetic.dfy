/** What the operators compute, in terms of integers, of bit patterns and of nothing the semantics is made of. */
module Arithmetic {
  import opened Prelude
  import opened Bytes
  import F = Floats
  import opened Values
  import opened Syntax
  import opened Semantics

  predicate InRange(n: int) {
    -9223372036854775808 <= n <= 9223372036854775807
  }

  // ---- Int ----

  /** `q` times `b` misses `a` by less than `b`, and not beyond it: the quotient rounded toward zero. */
  predicate IsQuotient(a: int, b: int, q: int) {
    var r := a - q * b;
    -Size(b) < r < Size(b) && (r == 0 || (r < 0) == (a < 0))
  }

  function Size(n: int): int {
    if n < 0 then -n else n
  }

  lemma DistinctRemainders(p: int, q: int, b: int)
    requires p != q && b != 0
    ensures p * b - q * b >= Size(b) || q * b - p * b >= Size(b)
  {
    var d := p - q;
    assert p * b - q * b == d * b;
    if b > 0 {
      assert d >= 1 ==> d * b >= b;
      assert d <= -1 ==> (-d) * b >= b;
    } else {
      assert d >= 1 ==> d * (-b) >= -b;
      assert d <= -1 ==> (-d) * (-b) >= -b;
    }
  }

  /** There is one such quotient. */
  lemma OneQuotient(a: int, b: int, p: int, q: int)
    requires b != 0 && IsQuotient(a, b, p) && IsQuotient(a, b, q)
    ensures p == q
  {
    if p != q {
      DistinctRemainders(p, q, b);
    }
  }

  /** Division: an error for zero and for the one quotient that is out of range, and the quotient otherwise. */
  lemma IntDivision(a: I64, b: I64, tr: Trace)
    ensures b == 0 ==> ApplyInt(DIV, a, b, tr) == Fail(DivisionByZero, tr)
    ensures a == -9223372036854775808 && b == -1 ==> ApplyInt(DIV, a, b, tr) == Fail(IntegerOverflow, tr)
    ensures b != 0 && !(a == -9223372036854775808 && b == -1) ==>
              forall q: I64 :: ApplyInt(DIV, a, b, tr) == Ok(VInt(q), tr) <==> IsQuotient(a, b, q)
    ensures b != 0 && !(a == -9223372036854775808 && b == -1) ==> ApplyInt(DIV, a, b, tr).Ok? && ApplyInt(DIV, a, b, tr).value.VInt?
  {
    if b != 0 && !(a == -9223372036854775808 && b == -1) {
      QuotientInRange(a, b);
      var n := TruncatedQuotient(a, b);
      TruncatesTowardZero(a, b, a - n * b);
      assert ApplyInt(DIV, a, b, tr) == Ok(VInt(n), tr);
      forall q: I64 ensures n == q <==> IsQuotient(a, b, q) {
        assert IsQuotient(a, b, n);
        if IsQuotient(a, b, q) {
          OneQuotient(a, b, n, q);
        }
      }
    }
  }

  /** Addition, subtraction and multiplication are exact, or an overflow exactly when the result does not fit. */
  lemma IntArithmetic(a: I64, b: I64, tr: Trace)
    ensures ApplyInt(ADD, a, b, tr) == if InRange(a + b) then Ok(VInt(a + b), tr) else Fail(IntegerOverflow, tr)
    ensures ApplyInt(SUB, a, b, tr) == if InRange(a - b) then Ok(VInt(a - b), tr) else Fail(IntegerOverflow, tr)
    ensures ApplyInt(MUL, a, b, tr) == if InRange(a * b) then Ok(VInt(a * b), tr) else Fail(IntegerOverflow, tr)
    ensures ApplyUnary(NEG, VInt(a), tr) == if a == -9223372036854775808 then Fail(IntegerOverflow, tr) else Ok(VInt(-a), tr)
  {
  }

  /** The six comparisons of two Ints, by which of the three orders holds. */
  lemma IntComparison(op: BinaryOp, a: I64, b: I64, tr: Trace)
    requires op.EQ? || op.NE? || op.LT? || op.LE? || op.GT? || op.GE?
    ensures ApplyInt(op, a, b, tr) == Ok(VBool(Accepts(op, a, b)), tr)
  {
  }

  /** Which of `a < b`, `a = b` and `a > b` make the comparison true. */
  predicate Accepts(op: BinaryOp, a: int, b: int) {
    || (a - b < 0 && (op.LT? || op.LE? || op.NE?))
    || (a - b == 0 && (op.EQ? || op.LE? || op.GE?))
    || (a - b > 0 && (op.GT? || op.GE? || op.NE?))
  }

  // ---- Float ----

  const SIGN := 9223372036854775808
  const STEP := 4503599627370496 // 2^52

  /** The place of a finite datum among all of them: patterns count up from zero in both directions. */
  function Rank(f: F.F64): int {
    if f < SIGN then f else SIGN - f
  }

  predicate FiniteBits(f: F.F64) {
    f / STEP % 2048 != 2047
  }

  lemma Pow2Positive(e: int)
    ensures F.Pow2(e) > 0.0
    decreases if e < 0 then -e else e
  {
    if e > 0 {
      Pow2Positive(e - 1);
    } else if e < 0 {
      Pow2Positive(e + 1);
    }
  }

  lemma Pow2Doubles(e: int)
    ensures F.Pow2(e + 1) == 2.0 * F.Pow2(e)
  {
  }

  lemma {:induction false} Pow2Grows(d: int, e: int)
    requires d <= e
    ensures F.Pow2(d) <= F.Pow2(e)
    decreases e - d
  {
    if d < e {
      Pow2Grows(d, e - 1);
      Pow2Positive(e - 1);
      Pow2Doubles(e - 1);
    }
  }

  /** The exponent and fraction of a pattern without its sign. */
  lemma Fields(f: F.F64)
    ensures var m := if f < SIGN then f else f - SIGN;
            F.ExponentField(f) == m / STEP && F.Fraction(f) == m % STEP && 0 <= m / STEP <= 2047
  {
    if f >= SIGN {
      assert SIGN == 2048 * STEP;
      assert f / STEP == (f - SIGN) / STEP + 2048;
    }
  }

  /** The value of exponent field `e` and fraction `r`. */
  function Scaled(e: int, r: int): real {
    if e == 0 then r as real * F.Pow2(-1074) else (r + STEP) as real * F.Pow2(e - 1075)
  }

  lemma ScaledIs(f: F.F64)
    ensures F.Magnitude(f) == Scaled(F.ExponentField(f), F.Fraction(f))
  {
  }

  lemma SmallerFactor(a: real, b: real, p: real)
    requires a < b && p > 0.0
    ensures a * p < b * p
  {
    assert (b - a) * p > 0.0;
  }

  lemma LargerPower(a: real, p: real, q: real)
    requires a > 0.0 && p <= q
    ensures a * p <= a * q
  {
    assert a * (q - p) >= 0.0;
  }

  /** All values of one exponent lie below those of the next. */
  lemma ScaledCap(e: int, r: int)
    requires 0 <= e && 0 <= r < STEP
    ensures Scaled(e, r) < STEP as real * F.Pow2(e - 1074)
  {
    Pow2Positive(-1074);
    Pow2Positive(e - 1075);
    Pow2Doubles(e - 1075);
    if e == 0 {
      SmallerFactor(r as real, STEP as real, F.Pow2(-1074));
    } else {
      SmallerFactor((r + STEP) as real, (2 * STEP) as real, F.Pow2(e - 1075));
      Halved(STEP as real, F.Pow2(e - 1075));
    }
  }

  lemma Halved(a: real, p: real)
    ensures (2.0 * a) * p == a * (2.0 * p)
  {
  }

  lemma ScaledFloor(e: int, r: int)
    requires 0 < e && 0 <= r
    ensures Scaled(e, r) >= STEP as real * F.Pow2(e - 1075)
  {
    Pow2Positive(e - 1075);
    if r > 0 {
      SmallerFactor(STEP as real, (r + STEP) as real, F.Pow2(e - 1075));
    }
  }

  lemma ScaledOrdered(d: int, q: int, e: int, r: int)
    requires 0 <= d && 0 <= q < STEP && 0 <= e && 0 <= r < STEP && (d < e || (d == e && q < r))
    ensures Scaled(d, q) < Scaled(e, r)
  {
    if d < e {
      ScaledCap(d, q);
      ScaledFloor(e, r);
      Pow2Grows(d - 1074, e - 1075);
      LargerPower(STEP as real, F.Pow2(d - 1074), F.Pow2(e - 1075));
    } else {
      Pow2Positive(-1074);
      Pow2Positive(e - 1075);
      if e == 0 {
        SmallerFactor(q as real, r as real, F.Pow2(-1074));
      } else {
        SmallerFactor((q + STEP) as real, (r + STEP) as real, F.Pow2(e - 1075));
      }
    }
  }

  lemma DigitsOrdered(m: int, n: int)
    requires 0 <= m < n
    ensures m / STEP < n / STEP || (m / STEP == n / STEP && m % STEP < n % STEP)
  {
  }

  /** Without their signs, larger patterns denote larger values. */
  lemma MagnitudeOrdered(a: F.F64, b: F.F64)
    requires (if a < SIGN then a else a - SIGN) < (if b < SIGN then b else b - SIGN)
    ensures F.Magnitude(a) < F.Magnitude(b)
  {
    hide F.Magnitude, F.ExponentField, F.Fraction, Scaled;
    var m, n := if a < SIGN then a else a - SIGN, if b < SIGN then b else b - SIGN;
    Fields(a);
    Fields(b);
    DigitsOrdered(m, n);
    ScaledOrdered(m / STEP, m % STEP, n / STEP, n % STEP);
    ScaledIs(a);
    ScaledIs(b);
  }

  lemma SameMagnitude(a: F.F64, b: F.F64)
    requires (if a < SIGN then a else a - SIGN) == (if b < SIGN then b else b - SIGN)
    ensures F.Magnitude(a) == F.Magnitude(b)
  {
    hide F.Magnitude, F.ExponentField, F.Fraction, Scaled;
    Fields(a);
    Fields(b);
    ScaledIs(a);
    ScaledIs(b);
  }

  lemma MagnitudeSign(f: F.F64)
    ensures F.Magnitude(f) >= 0.0 && (F.Magnitude(f) == 0.0 <==> Rank(f) == 0)
  {
    hide F.Magnitude;
    F.ZeroMagnitude(0);
    if Rank(f) != 0 {
      MagnitudeOrdered(0, f);
    } else {
      SameMagnitude(0, f);
    }
  }

  lemma FiniteIs(f: F.F64)
    ensures F.IsFinite(f) <==> FiniteBits(f)
  {
  }

  lemma Denoted(f: F.F64)
    requires FiniteBits(f)
    ensures F.Denotes(f) == F.Number(if f < SIGN then F.Magnitude(f) else -F.Magnitude(f))
  {
    hide F.Magnitude;
  }

  /** Finite data compare as their patterns do: the order of the values is the order of the ranks, and both zeros have rank 0. */
  lemma ComparedByBits(a: F.F64, b: F.F64)
    requires FiniteBits(a) && FiniteBits(b)
    ensures F.Less(a, b) <==> Rank(a) < Rank(b)
    ensures F.Equal(a, b) <==> Rank(a) == Rank(b)
  {
    hide F.Magnitude, F.Denotes;
    Denoted(a);
    Denoted(b);
    MagnitudeSign(a);
    MagnitudeSign(b);
    var m, n := if a < SIGN then a else a - SIGN, if b < SIGN then b else b - SIGN;
    if m < n {
      MagnitudeOrdered(a, b);
    } else if n < m {
      MagnitudeOrdered(b, a);
    } else {
      SameMagnitude(a, b);
    }
  }

  /** The six comparisons of two finite Floats are those of their ranks. */
  lemma FloatComparison(w: World, op: BinaryOp, a: F.F64, b: F.F64, tr: Trace)
    requires FiniteBits(a) && FiniteBits(b)
    requires op.EQ? || op.NE? || op.LT? || op.LE? || op.GT? || op.GE?
    ensures ApplyFloat(w, op, a, b, tr) == Ok(VBool(Accepts(op, Rank(a), Rank(b))), tr)
  {
    hide F.Less, F.Equal;
    ComparedByBits(a, b);
    ComparedByBits(b, a);
  }

  predicate ZeroBits(f: F.F64) {
    f == 0 || f == SIGN
  }

  /** Float arithmetic rounds as the world does; a result that is not finite, and a zero divisor, are errors. */
  lemma FloatArithmetic(w: World, a: F.F64, b: F.F64, tr: Trace)
    ensures ApplyFloat(w, ADD, a, b, tr) == if FiniteBits(w.fadd(a, b)) then Ok(VFloat(w.fadd(a, b)), tr) else Fail(NonFiniteResult, tr)
    ensures ApplyFloat(w, SUB, a, b, tr) == if FiniteBits(w.fsub(a, b)) then Ok(VFloat(w.fsub(a, b)), tr) else Fail(NonFiniteResult, tr)
    ensures ApplyFloat(w, MUL, a, b, tr) == if FiniteBits(w.fmul(a, b)) then Ok(VFloat(w.fmul(a, b)), tr) else Fail(NonFiniteResult, tr)
    ensures FiniteBits(b) ==>
              ApplyFloat(w, DIV, a, b, tr) ==
              if ZeroBits(b) then Fail(FloatDivisionByZero, tr)
              else if FiniteBits(w.fdiv(a, b)) then Ok(VFloat(w.fdiv(a, b)), tr) else Fail(NonFiniteResult, tr)
  {
    hide F.Equal;
    if FiniteBits(b) {
      ComparedByBits(b, 0);
    }
  }

  /** Unary minus turns the rank around, and the value with it. */
  lemma FloatNegation(f: F.F64, tr: Trace)
    requires FiniteBits(f)
    ensures exists g: F.F64 :: ApplyUnary(NEG, VFloat(f), tr) == Ok(VFloat(g), tr) && g != f && FiniteBits(g) && Rank(g) == -Rank(f)
  {
    F.NegateFinite(f);
    FiniteIs(f);
    FiniteIs(F.Negate(f));
    assert ApplyUnary(NEG, VFloat(f), tr) == Ok(VFloat(F.Negate(f)), tr);
  }

  // ---- Programs of one division ----

  /** `fun main(): Int { return a / b; }` */
  function DivisionProgram(a: I64, b: I64): seq<FunctionDecl> {
    [FunctionDecl(MAIN, [], Some(TInt), [Return(Some(Binary(DIV, IntLit(a), IntLit(b), None)))], 0)]
  }

  /** It ends with the quotient, or with the error. */
  lemma DivisionRuns(w: World, a: I64, b: I64, fuel: nat)
    ensures b == 0 ==> RunProgram(DivisionProgram(a, b), w, fuel) == Fail(DivisionByZero, [])
    ensures a == -9223372036854775808 && b == -1 ==> RunProgram(DivisionProgram(a, b), w, fuel) == Fail(IntegerOverflow, [])
    ensures b != 0 && !(a == -9223372036854775808 && b == -1) ==>
              forall q: I64 :: RunProgram(DivisionProgram(a, b), w, fuel) == Ok(VInt(q), []) <==> IsQuotient(a, b, q)
  {
    hide ApplyInt, IsQuotient;
    var fs := DivisionProgram(a, b);
    var body := fs[0].body;
    IntDivision(a, b, []);
    assert IndexOf(fs, MAIN) == Some(0);
    var e := Binary(DIV, IntLit(a), IntLit(b), None);
    var env: Env := [BindParams(map[], fs[0].params, [])];
    assert body[0] == Return(Some(e)) && body[1..] == [];
    assert EvalExpr(fs, w, e, env, [], fuel) == ApplyInt(DIV, a, b, []);
    assert ExecStmts(fs, w, body, env, [], fuel) == Returned(ApplyInt(DIV, a, b, [])) by {
      assert ExecStmt(fs, w, body[0], env, [], fuel) == Returned(ApplyInt(DIV, a, b, []));
      DivisionYields(a, b);
    }
    assert CallFunction(fs, w, fs[0], [], [], fuel) == ApplyInt(DIV, a, b, []) by {
      DivisionYields(a, b);
    }
  }

  function Returned(r: Res<Val>): Res<Flow> {
    if r.Ok? then Ok(Returns(r.value), r.tr) else r.PropagateFailure()
  }

  lemma DivisionYields(a: I64, b: I64)
    ensures ApplyInt(DIV, a, b, []).Ok? || ApplyInt(DIV, a, b, []).Fail?
  {
  }
}
