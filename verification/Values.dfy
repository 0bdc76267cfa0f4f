/** Machine values, the errors a run can end with, and the outside world a run talks to. */
module Values {
  import opened Bytes
  import opened Floats

  /** A value on the operand stack, in a local or in the constant pool. */
  datatype Value = IntV(n: I64) | StringV(t: Text) | FloatV(f: F64)

  datatype Error =
    // arithmetic
    | IntegerOverflow
    | DivisionByZero
    | FloatDivisionByZero
    | NonFiniteResult
    // thrown by the Runtime
    | RuntimeFailure
    // resource limits of the machine
    | CallStackOverflow
    | OperandStackOverflow
    // internal checks of the machine
    | ExpectedInt
    | ExpectedFloat
    | ExpectedBool
    | MismatchedEquality
    | FloatEquality
    | StackUnderflow
    | UninitializedLocal
    | RuntimeFloatArgument
    | EndedWithoutRet
    | InvalidOpcode
    // an access outside a vector, which the machine does not check
    | OutOfBounds
  {
    predicate Arithmetic() {
      IntegerOverflow? || DivisionByZero? || FloatDivisionByZero? || NonFiniteResult?
    }

    predicate Limit() {
      CallStackOverflow? || OperandStackOverflow?
    }
  }

  datatype RuntimeValue = RuntimeInt(n: I64) | RuntimeString(t: Text)

  /** One call across the Runtime boundary. */
  datatype Event = Event(name: Text, args: seq<RuntimeValue>)

  type Trace = seq<Event>

  datatype Reply = Returned(value: RuntimeValue) | Threw

  /**
    What a run cannot compute for itself: correctly rounded binary64 arithmetic, and the Runtime, whose
    reply may depend on every call made before.
   */
  datatype World = World(
    fadd: (F64, F64) -> F64,
    fsub: (F64, F64) -> F64,
    fmul: (F64, F64) -> F64,
    fdiv: (F64, F64) -> F64,
    runtime: (Trace, Event) -> Reply)

  datatype Computed<+T> = Computed(value: T) | Failed(e: Error)

  function CheckedInt(n: int): Computed<I64> {
    if -0x8000_0000_0000_0000 <= n < 0x8000_0000_0000_0000 then Computed(n) else Failed(IntegerOverflow)
  }

  function CheckedFloat(f: F64): Computed<F64> {
    if IsFinite(f) then Computed(f) else Failed(NonFiniteResult)
  }

  function Abs(n: int): nat {
    if n < 0 then -n else n
  }

  /** Division that truncates toward zero. */
  function TruncatedQuotient(a: int, b: int): int
    requires b != 0
  {
    if (a < 0) == (b < 0) then Abs(a) / Abs(b) else -(Abs(a) / Abs(b))
  }

  lemma DivisionIdentity(x: nat, y: nat)
    requires y > 0
    ensures x == (x / y) * y + x % y && 0 <= x % y < y
  {
  }

  lemma QuotientBound(x: nat, y: nat, q: nat, m: nat)
    requires y > 0 && x == q * y + m
    ensures q <= x && (y > 1 ==> 2 * q <= x)
  {
    if y > 1 {
      assert q * y == 2 * q + q * (y - 2);
      assert 0 <= q * (y - 2);
    } else {
      assert q * y == q;
    }
  }

  /** The quotient leaves a remainder smaller than the divisor and with the sign of the dividend. */
  lemma TruncatesTowardZero(a: int, b: int, r: int)
    requires b != 0 && r == a - TruncatedQuotient(a, b) * b
    ensures Abs(r) < Abs(b) && (r == 0 || (r < 0) == (a < 0))
  {
    var q, m := Abs(a) / Abs(b), Abs(a) % Abs(b);
    DivisionIdentity(Abs(a), Abs(b));
    assert q * Abs(b) == if b < 0 then -(q * b) else q * b;
    assert (-q) * b == -(q * b);
  }

  function DivideInt(a: I64, b: I64): Computed<I64> {
    if b == 0 then Failed(DivisionByZero)
    else if a == -0x8000_0000_0000_0000 && b == -1 then Failed(IntegerOverflow)
    else QuotientInRange(a, b); Computed(TruncatedQuotient(a, b))
  }

  /** Only MIN / -1 leaves the 64-bit range. */
  lemma QuotientInRange(a: I64, b: I64)
    requires b != 0
    requires !(a == -0x8000_0000_0000_0000 && b == -1)
    ensures -0x8000_0000_0000_0000 <= TruncatedQuotient(a, b) < 0x8000_0000_0000_0000
  {
    hide TruncatedQuotient;
    var q := Magnitude(a, b);
  }

  /** The quotient without its sign: at most half of the dividend unless the divisor is 1 or -1. */
  lemma Magnitude(a: int, b: int) returns (q: nat)
    requires b != 0
    ensures TruncatedQuotient(a, b) == if (a < 0) == (b < 0) then q else 0 - q
    ensures q <= Abs(a) && (Abs(b) > 1 ==> 2 * q <= Abs(a))
  {
    var x, y := Abs(a), Abs(b);
    q := x / y;
    DivisionIdentity(x, y);
    QuotientBound(x, y, q, x % y);
  }

  function DivideFloat(w: World, a: F64, b: F64): Computed<F64> {
    if Equal(b, POSITIVE_ZERO) then Failed(FloatDivisionByZero) else CheckedFloat(w.fdiv(a, b))
  }
}
