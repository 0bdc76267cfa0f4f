/**
  Semantic preservation. Running the generated code from a state that stores the source environment in the
  checker's slots does what the source semantics says, or stops at a resource limit on the way there.
 */
module Simulation {
  import opened Prelude
  import opened Bytes
  import opened Floats
  import opened Values
  import opened Syntax
  import opened RuntimeApi
  import opened Semantics
  import opened CheckerSpec
  import opened TypeSoundness
  import opened Slots
  import opened CodeGenSpec
  import B = Bytecode
  import M = MachineSpec
  import opened StepLemmas

  /** A program, the world it runs in, its machine program, and the constant pool before each function. */
  datatype Context = Context(fs: seq<FunctionDecl>, w: World, p: B.Program, pools: seq<seq<Value>>)

  ghost predicate FunctionLinked(c: Context, i: nat)
    requires i < |c.fs| && i < |c.p.functions| && i < |c.pools|
    requires CheckFunction(c.fs, c.fs[i]).Success?
  {
    var r := GenFunction(CheckFunction(c.fs, c.fs[i]).value, c.pools[i]);
    r.Success? && r.value.0 == c.p.functions[i] && r.value.1 <= c.p.constants
  }

  /** The machine program holds the code of every function of the checked program. */
  ghost predicate Linked(c: Context) {
    && GoodProgram(c.fs) && KeepsSignatures(c.w)
    && |c.fs| == |c.p.functions| == |c.pools| <= MAX_U16 + 1
    && forall i :: 0 <= i < |c.fs| ==> FunctionLinked(c, i)
  }

  function Enc(v: Val): Value {
    match v
    case VInt(n) => IntV(n)
    case VFloat(f) => FloatV(f)
    case VBool(b) => M.BoolV(b)
    case VString(t) => StringV(t)
    case VUnit => IntV(0)
  }

  function EncAll(vs: seq<Val>): seq<Value> {
    seq(|vs|, i requires 0 <= i < |vs| => Enc(vs[i]))
  }

  ghost predicate InSlot(f: M.Frame, slot: nat, v: Val) {
    slot < |f.locals| == |f.init| && f.init[slot] && f.locals[slot] == Enc(v)
  }

  /** Each visible variable is in its slot, and the slot has been stored to. */
  ghost predicate EnvStored(sc: Scopes, env: Env, f: M.Frame) {
    && |sc| == |env|
    && forall k, x :: 0 <= k < |sc| && x in sc[k] ==> x in env[k] && InSlot(f, sc[k][x].slot, env[k][x])
  }

  /** The active frame can run code that needs `maxTemp` temporaries from slot `base` up. */
  ghost predicate Ready(c: Context, st: State, env: Env, base: nat, maxTemp: nat, s: M.State) {
    && |s.top.locals| == |s.top.init|
    && st.next <= base && base + maxTemp <= |s.top.locals|
    && |CodeOf(c.p, s)| <= MAX_CODE
    && SlotsOk(st) && EnvTyped(st.scopes, env) && EnvStored(st.scopes, env, s.top)
    && s.top.base <= |s.stack| <= M.MAX_STACK
  }

  ghost predicate ExprReady(c: Context, st: State, e: Expr, env: Env, g: Gen, base: nat, depth: nat, s: M.State) {
    && CheckExpr(c.fs, st.scopes, e).Success?
    && var r := GenExpr(CheckExpr(c.fs, st.scopes, e).value, g, base, depth);
       && r.Success?
       && r.value.g.pool <= c.p.constants
       && depth <= g.maxTemp
       && Ready(c, st, env, base, r.value.g.maxTemp, s)
       && At(CodeOf(c.p, s), s.top.ip, r.value.code)
  }

  /** The code of an expression, if it checks and code can be generated for it. */
  function ExprCode(c: Context, st: State, e: Expr, g: Gen, base: nat, depth: nat): Emitted {
    var a := CheckExpr(c.fs, st.scopes, e);
    if a.Failure? then Emitted([], g) else
    var r := GenExpr(a.value, g, base, depth);
    if r.Failure? then Emitted([], g) else r.value
  }

  // ---- Goals ----

  /** A resource limit was hit before the machine made more Runtime calls than the source. */
  ghost predicate LimitHit(o: M.Outcome, tr: Trace) {
    o.Fault? && o.e.Limit() && o.tr <= tr
  }

  /** How `k` steps end when they do not complete the fragment normally. */
  ghost predicate Stopped<T>(o: M.Outcome, k: nat, fuel: nat, r: Res<T>) {
    match r
    case Ok(_, tr) => LimitHit(o, tr)
    case Fail(e, tr) => o == M.Fault(e, tr) || LimitHit(o, tr)
    case OutOfFuel(tr) => (o.Running? && k >= fuel && o.s.trace == tr) || LimitHit(o, tr)
    case Wrong => false
  }

  /** The frame is the same, and so are its locals below `keep`. */
  ghost predicate SameBelow(f: M.Frame, f': M.Frame, keep: nat) {
    && f'.fn == f.fn && f'.base == f.base
    && |f'.locals| == |f.locals| && |f'.init| == |f.init|
    && (forall i :: 0 <= i < keep && i < |f.locals| ==> f'.locals[i] == f.locals[i])
    && (forall i :: 0 <= i < keep && i < |f.init| ==> f'.init[i] == f.init[i])
  }

  /** From `s`, only the operands `vs` were added, and the machine stands at `ip`. */
  ghost predicate Pushed(s: M.State, o: M.Outcome, vs: seq<Value>, tr: Trace, ip: nat, keep: nat) {
    && o.Running?
    && o.s.callers == s.callers && o.s.stack == s.stack + vs && o.s.trace == tr
    && o.s.top.ip == ip && SameBelow(s.top, o.s.top, keep)
    && |o.s.stack| <= M.MAX_STACK
  }

  ghost predicate ExprGoal(s: M.State, o: M.Outcome, k: nat, r: Res<Val>, ip: nat, keep: nat, fuel: nat) {
    (r.Ok? && Pushed(s, o, [Enc(r.value)], r.tr, ip, keep)) || Stopped(o, k, fuel, r)
  }

  ghost predicate ArgsGoal(s: M.State, o: M.Outcome, k: nat, r: Res<seq<Val>>, ip: nat, keep: nat, fuel: nat) {
    (r.Ok? && Pushed(s, o, EncAll(r.value), r.tr, ip, keep)) || Stopped(o, k, fuel, r)
  }

  /** An early stop of a part is an early stop of the whole. */
  lemma StopsWhole<T, U>(o: M.Outcome, k: nat, fuel: nat, part: Res<T>, whole: Res<U>)
    requires Stopped(o, k, fuel, part)
    requires part.Ok? ==> whole.Extends(part.tr) && !whole.Wrong?
    requires !part.Ok? ==> whole == part.PropagateFailure()
    ensures Stopped(o, k, fuel, whole)
  {
  }

  lemma StopsLater<T>(o: M.Outcome, k: nat, fuel: nat, j: nat, more: nat, r: Res<T>)
    requires Stopped(o, k, fuel, r) && k <= j && more <= fuel + (j - k)
    ensures Stopped(o, j, more, r)
  {
  }

  /** Pushing either succeeds or is the operand limit. */
  lemma PushGoal(s: M.State, t: M.State, v: Val, k: nat, fuel: nat, ip: nat, keep: nat)
    requires t.callers == s.callers && t.stack == s.stack && SameBelow(s.top, t.top, keep) && t.top.ip == ip
    ensures ExprGoal(s, M.Push(t, Enc(v)), k, Ok(v, t.trace), ip, keep, fuel)
  {
  }

  /** Changing slots at or above `next` does not disturb a variable. */
  lemma StoredKept(st: State, env: Env, f: M.Frame, f': M.Frame, keep: nat)
    requires SlotsOk(st) && EnvStored(st.scopes, env, f) && st.next <= keep && SameBelow(f, f', keep)
    requires |f.locals| == |f.init|
    ensures EnvStored(st.scopes, env, f')
  {
    forall k, x | 0 <= k < |st.scopes| && x in st.scopes[k]
      ensures x in env[k] && InSlot(f', st.scopes[k][x].slot, env[k][x])
    {
      assert InSlot(f, st.scopes[k][x].slot, env[k][x]);
      assert st.scopes[k][x].slot < st.next;
    }
  }

  lemma ReadyKept(c: Context, st: State, env: Env, base: nat, maxTemp: nat, s: M.State, s1: M.State, keep: nat)
    requires Ready(c, st, env, base, maxTemp, s) && base <= keep && SameBelow(s.top, s1.top, keep)
    requires s1.top.base <= |s1.stack| <= M.MAX_STACK
    ensures Ready(c, st, env, base, maxTemp, s1)
  {
    StoredKept(st, env, s.top, s1.top, keep);
  }

  // ---- Operators ----

  /** The operands as the operator instruction finds them. */
  function Operands(op: BinaryOp, a: Val, b: Val): seq<Value> {
    if Swapped(op) then [Enc(b), Enc(a)] else [Enc(a), Enc(b)]
  }

  ghost predicate Comparable(op: BinaryOp, a: Val, b: Val, t: Type) {
    HasType(a, t) && HasType(b, t) && BinaryType(op, t, t).Some?
  }

  /** The instruction an operator starts with. */
  function FirstInstr(op: BinaryOp, float: bool): B.Instr {
    match op
    case ADD => if float then B.FAdd else B.Add
    case SUB => if float then B.FSub else B.Sub
    case MUL => if float then B.FMul else B.Mul
    case DIV => if float then B.FDiv else B.Div
    case EQ => if float then B.FCmpEq else B.CmpEq
    case NE => if float then B.FCmpEq else B.CmpEq
    case _ => if float then B.FCmpLt else B.CmpLt
  }

  predicate Negated(op: BinaryOp) {
    op.NE? || op.LE? || op.GE?
  }

  lemma OperatorShape(op: BinaryOp, float: bool)
    ensures |B.Encode(FirstInstr(op, float))| == 1 && |B.Encode(B.Not)| == 1
    ensures OperatorCode(op, float) ==
            if Negated(op) then B.Encode(FirstInstr(op, float)) + B.Encode(B.Not) else B.Encode(FirstInstr(op, float))
  {
  }

  /** The truth value the first instruction of a negated operator leaves. */
  function Positive(op: BinaryOp, a: Val, b: Val): bool
    requires Negated(op)
  {
    match (a, b)
    case (VInt(x), VInt(y)) => if op.NE? then x == y else if op.LE? then y < x else x < y
    case (VFloat(x), VFloat(y)) => if op.NE? then Equal(x, y) else if op.LE? then Less(y, x) else Less(x, y)
    case (VBool(x), VBool(y)) => x == y
    case (VString(x), VString(y)) => x == y
    case _ => false
  }

  /** Finite operands: negating the opposite comparison is the comparison. */
  lemma NegatedOperator(w: World, op: BinaryOp, a: Val, b: Val, t: Type, tr: Trace)
    requires Negated(op) && Comparable(op, a, b, t)
    ensures ApplyBinary(w, op, a, b, tr) == Ok(VBool(!Positive(op, a, b)), tr)
  {
    if t.TFloat? {
      NegatedComparison(a.f, b.f);
      NegatedComparison(b.f, a.f);
    }
  }

  /** What the first instruction of an operator does to a machine that stands at it with both operands. */
  ghost predicate FirstGoal(c: Context, s: M.State, o: M.Outcome, op: BinaryOp, a: Val, b: Val, below: seq<Value>) {
    var next := Moved(s, s.top.ip + 1, below);
    if Negated(op) then o == M.Push(next, M.BoolV(Positive(op, a, b)))
    else match ApplyBinary(c.w, op, a, b, s.trace)
      case Ok(v, tr) => tr == s.trace && o == M.Push(next, Enc(v))
      case Fail(e, tr) => tr == s.trace && o == M.Fault(e, s.trace)
      case _ => false
  }

  lemma FirstInt(c: Context, s: M.State, op: BinaryOp, a: Val, b: Val, below: seq<Value>)
    requires a.VInt? && b.VInt? && !op.EQ? && !op.NE?
    requires s.stack == below + Operands(op, a, b) && s.top.base <= |below|
    requires At(CodeOf(c.p, s), s.top.ip, B.Encode(FirstInstr(op, false)))
    ensures FirstGoal(c, s, M.Steps(c.p, c.w, M.Running(s), 1), op, a, b, below)
  {
    hide M.Steps, At, CodeOf, B.Encode, FirstGoal, IntOutcome, ApplyBinary;
    IntGoal(c, s, op, a, b, below);
    if Swapped(op) {
      StepIntOp(c.p, c.w, s, FirstInstr(op, false), below, b.n, a.n);
    } else {
      StepIntOp(c.p, c.w, s, FirstInstr(op, false), below, a.n, b.n);
    }
  }

  lemma IntGoal(c: Context, s: M.State, op: BinaryOp, a: Val, b: Val, below: seq<Value>)
    requires a.VInt? && b.VInt? && !op.EQ? && !op.NE?
    ensures var (x, y) := if Swapped(op) then (b.n, a.n) else (a.n, b.n);
            FirstGoal(c, s, IntOutcome(Moved(s, s.top.ip + 1, below), FirstInstr(op, false), x, y), op, a, b, below)
  {
    hide CheckedInt, DivideInt, M.Push;
  }

  lemma FirstFloat(c: Context, s: M.State, op: BinaryOp, a: Val, b: Val, below: seq<Value>)
    requires a.VFloat? && b.VFloat?
    requires s.stack == below + Operands(op, a, b) && s.top.base <= |below|
    requires At(CodeOf(c.p, s), s.top.ip, B.Encode(FirstInstr(op, true)))
    ensures FirstGoal(c, s, M.Steps(c.p, c.w, M.Running(s), 1), op, a, b, below)
  {
    hide M.Steps, At, CodeOf, B.Encode, FirstGoal, FloatOutcome, ApplyBinary;
    FloatGoal(c, s, op, a, b, below);
    if Swapped(op) {
      StepFloatOp(c.p, c.w, s, FirstInstr(op, true), below, b.f, a.f);
    } else {
      StepFloatOp(c.p, c.w, s, FirstInstr(op, true), below, a.f, b.f);
    }
  }

  lemma FloatGoal(c: Context, s: M.State, op: BinaryOp, a: Val, b: Val, below: seq<Value>)
    requires a.VFloat? && b.VFloat?
    ensures var (x, y) := if Swapped(op) then (b.f, a.f) else (a.f, b.f);
            FirstGoal(c, s, FloatOutcome(c.w, Moved(s, s.top.ip + 1, below), FirstInstr(op, true), x, y), op, a, b, below)
  {
    hide CheckedFloat, DivideFloat, Less, Equal, M.Push;
  }

  lemma FirstEqual(c: Context, s: M.State, op: BinaryOp, a: Val, b: Val, t: Type, below: seq<Value>)
    requires Comparable(op, a, b, t) && !t.TFloat? && (op.EQ? || op.NE?)
    requires s.stack == below + Operands(op, a, b) && s.top.base <= |below|
    requires At(CodeOf(c.p, s), s.top.ip, B.Encode(B.CmpEq))
    ensures FirstGoal(c, s, M.Steps(c.p, c.w, M.Running(s), 1), op, a, b, below)
  {
    hide M.Steps, At, CodeOf, B.Encode, FirstGoal, ApplyBinary;
    EqualGoal(c, s, op, a, b, t, below);
    StepEqual(c.p, c.w, s, below, Enc(a), Enc(b));
  }

  lemma EqualGoal(c: Context, s: M.State, op: BinaryOp, a: Val, b: Val, t: Type, below: seq<Value>)
    requires Comparable(op, a, b, t) && !t.TFloat? && (op.EQ? || op.NE?)
    ensures FirstGoal(c, s, M.Push(Moved(s, s.top.ip + 1, below), M.BoolV(Enc(a) == Enc(b))), op, a, b, below)
  {
    hide M.Push;
  }

  lemma FirstStep(c: Context, s: M.State, op: BinaryOp, a: Val, b: Val, t: Type, below: seq<Value>)
    requires Comparable(op, a, b, t)
    requires s.stack == below + Operands(op, a, b) && s.top.base <= |below|
    requires At(CodeOf(c.p, s), s.top.ip, B.Encode(FirstInstr(op, t.TFloat?)))
    ensures FirstGoal(c, s, M.Steps(c.p, c.w, M.Running(s), 1), op, a, b, below)
  {
    hide M.Steps, FirstGoal, At, CodeOf, B.Encode, Operands;
    if t.TFloat? {
      FirstFloat(c, s, op, a, b, below);
    } else if op.EQ? || op.NE? {
      FirstEqual(c, s, op, a, b, t, below);
    } else {
      FirstInt(c, s, op, a, b, below);
    }
  }

  /** Running the code of an operator on its two operands. `s0` is the state before the operands. */
  lemma SimOperator(c: Context, s0: M.State, s: M.State, op: BinaryOp, a: Val, b: Val, t: Type, keep: nat, fuel: nat)
      returns (k: nat)
    requires Comparable(op, a, b, t)
    requires s.stack == s0.stack + Operands(op, a, b) && s.top.base <= |s0.stack|
    requires s.callers == s0.callers && SameBelow(s0.top, s.top, keep)
    requires At(CodeOf(c.p, s), s.top.ip, OperatorCode(op, t.TFloat?))
    ensures ExprGoal(s0, M.Steps(c.p, c.w, M.Running(s), k), k, ApplyBinary(c.w, op, a, b, s.trace),
                     s.top.ip + |OperatorCode(op, t.TFloat?)|, keep, fuel)
  {
    hide M.Steps, ApplyBinary, OperatorCode, B.Encode, ExprGoal, Comparable, At, CodeOf;
    if Negated(op) {
      k := SimNegatedOperator(c, s0, s, op, a, b, t, keep, fuel);
    } else {
      k := 1;
      SimPlainOperator(c, s0, s, op, a, b, t, keep, fuel);
    }
  }

  lemma SimPlainOperator(c: Context, s0: M.State, s: M.State, op: BinaryOp, a: Val, b: Val, t: Type, keep: nat, fuel: nat)
    requires Comparable(op, a, b, t) && !Negated(op)
    requires s.stack == s0.stack + Operands(op, a, b) && s.top.base <= |s0.stack|
    requires s.callers == s0.callers && SameBelow(s0.top, s.top, keep)
    requires At(CodeOf(c.p, s), s.top.ip, OperatorCode(op, t.TFloat?))
    ensures ExprGoal(s0, M.Steps(c.p, c.w, M.Running(s), 1), 1, ApplyBinary(c.w, op, a, b, s.trace),
                     s.top.ip + |OperatorCode(op, t.TFloat?)|, keep, fuel)
  {
    hide M.Steps, ApplyBinary, OperatorCode, B.Encode, FirstInstr, Positive, Comparable, At, CodeOf;
    OperatorShape(op, t.TFloat?);
    FirstStep(c, s, op, a, b, t, s0.stack);
  }

  lemma SimNegatedOperator(c: Context, s0: M.State, s: M.State, op: BinaryOp, a: Val, b: Val, t: Type, keep: nat, fuel: nat)
      returns (k: nat)
    requires Comparable(op, a, b, t) && Negated(op)
    requires s.stack == s0.stack + Operands(op, a, b) && s.top.base <= |s0.stack|
    requires s.callers == s0.callers && SameBelow(s0.top, s.top, keep)
    requires At(CodeOf(c.p, s), s.top.ip, OperatorCode(op, t.TFloat?))
    ensures ExprGoal(s0, M.Steps(c.p, c.w, M.Running(s), k), k, ApplyBinary(c.w, op, a, b, s.trace),
                     s.top.ip + |OperatorCode(op, t.TFloat?)|, keep, fuel)
  {
    hide M.Steps, ApplyBinary, OperatorCode, B.Encode, FirstInstr, Positive, Comparable;
    OperatorShape(op, t.TFloat?);
    var first := B.Encode(FirstInstr(op, t.TFloat?));
    NegatedOperator(c.w, op, a, b, t, s.trace);
    AtSplit(CodeOf(c.p, s), s.top.ip, first, B.Encode(B.Not));
    FirstStep(c, s, op, a, b, t, s0.stack);
    var o := M.Steps(c.p, c.w, M.Running(s), 1);
    if o.Running? {
      StepNot(c.p, c.w, o.s, s0.stack, Positive(op, a, b));
      Continue(c.p, c.w, s, 1, o.s, 1);
      PushGoal(s0, Moved(s, s.top.ip + 2, s0.stack), VBool(!Positive(op, a, b)), 2, fuel, s.top.ip + 2, keep);
      return 2;
    }
    return 1;
  }

  /** Two results in a row. */
  lemma PushedTwice(s: M.State, o: M.Outcome, q: M.Outcome, vs: seq<Value>, tr: Trace, ip: nat, us: seq<Value>, tr': Trace, ip': nat, keep: nat, keep': nat)
    requires Pushed(s, o, vs, tr, ip, keep) && Pushed(o.s, q, us, tr', ip', keep') && keep <= keep'
    ensures Pushed(s, q, vs + us, tr', ip', keep)
  {
    assert s.stack + vs + us == s.stack + (vs + us);
  }

  /** After some operands the machine is ready for the next piece of code. */
  lemma AfterOperand(c: Context, st: State, env: Env, base: nat, maxTemp: nat, s: M.State, o: M.Outcome, vs: seq<Value>, tr: Trace, ip: nat, keep: nat)
    requires Ready(c, st, env, base, maxTemp, s) && base <= keep && Pushed(s, o, vs, tr, ip, keep)
    ensures Ready(c, st, env, base, maxTemp, o.s) && CodeOf(c.p, o.s) == CodeOf(c.p, s)
    ensures o.s.top.base == s.top.base <= |s.stack|
  {
    ReadyKept(c, st, env, base, maxTemp, s, o.s, keep);
  }

  /** Type soundness, restated for a ready expression. */
  lemma Sound(c: Context, st: State, e: Expr, env: Env, base: nat, maxTemp: nat, s: M.State, tr: Trace, fuel: nat)
    requires Linked(c) && CheckExpr(c.fs, st.scopes, e).Success? && Ready(c, st, env, base, maxTemp, s)
    ensures ExprOutcome(EvalExpr(c.fs, c.w, e, env, tr, fuel), TypeOf(CheckExpr(c.fs, st.scopes, e).value))
  {
    ExprSound(c.fs, c.w, st.scopes, e, env, tr, fuel);
  }

  // ---- Layout of expression code ----

  ghost predicate HasCode(c: Context, st: State, e: Expr, g: Gen, base: nat, depth: nat) {
    && CheckExpr(c.fs, st.scopes, e).Success?
    && GenExpr(CheckExpr(c.fs, st.scopes, e).value, g, base, depth).Success?
  }

  function TypeIn(c: Context, st: State, e: Expr): Option<Type> {
    var a := CheckExpr(c.fs, st.scopes, e);
    if a.Failure? then None else TypeOf(a.value)
  }

  lemma MakeReady(c: Context, st: State, e: Expr, env: Env, g: Gen, base: nat, depth: nat, maxTemp: nat, s: M.State)
    requires HasCode(c, st, e, g, base, depth) && depth <= g.maxTemp
    requires ExprCode(c, st, e, g, base, depth).g.pool <= c.p.constants
    requires ExprCode(c, st, e, g, base, depth).g.maxTemp <= maxTemp && Ready(c, st, env, base, maxTemp, s)
    requires At(CodeOf(c.p, s), s.top.ip, ExprCode(c, st, e, g, base, depth).code)
    ensures ExprReady(c, st, e, env, g, base, depth, s)
  {
  }

  /** What a ready expression grants, without looking inside it. */
  lemma UseReady(c: Context, st: State, e: Expr, env: Env, g: Gen, base: nat, depth: nat, s: M.State)
    requires ExprReady(c, st, e, env, g, base, depth, s)
    ensures HasCode(c, st, e, g, base, depth) && depth <= g.maxTemp
    ensures ExprCode(c, st, e, g, base, depth).g.pool <= c.p.constants
    ensures Ready(c, st, env, base, ExprCode(c, st, e, g, base, depth).g.maxTemp, s)
    ensures At(CodeOf(c.p, s), s.top.ip, ExprCode(c, st, e, g, base, depth).code)
    ensures g.GrowsTo(ExprCode(c, st, e, g, base, depth).g)
  {
  }

  lemma OperandLayout(c: Context, st: State, e: Expr, g: Gen, base: nat, depth: nat)
    requires e.Unary? && HasCode(c, st, e, g, base, depth)
    requires !(e.uop.NEG? && TypeIn(c, st, e) == Some(TInt))
    ensures HasCode(c, st, e.operand, g, base, depth)
    ensures TypeIn(c, st, e.operand) == Some(if e.uop.NOT? then TBool else TFloat)
    ensures var x := ExprCode(c, st, e.operand, g, base, depth);
            ExprCode(c, st, e, g, base, depth) == Emitted(x.code + B.Encode(if e.uop.NOT? then B.Not else B.FNeg), x.g)
  {
  }

  lemma UnaryTypes(c: Context, st: State, e: Expr)
    requires e.Unary? && CheckExpr(c.fs, st.scopes, e).Success?
    ensures TypeIn(c, st, e).Some?
    ensures e.uop.NEG? ==> TypeIn(c, st, e) == Some(TInt) || TypeIn(c, st, e) == Some(TFloat)
    ensures CheckExpr(c.fs, st.scopes, e.operand).Success? && TypeIn(c, st, e.operand) == TypeIn(c, st, e)
  {
  }

  lemma NegateLayout(c: Context, st: State, e: Expr, g: Gen, base: nat, depth: nat)
    requires e.Unary? && e.uop.NEG? && HasCode(c, st, e, g, base, depth) && TypeIn(c, st, e) == Some(TInt)
    ensures GenConst(g, IntV(0)).Success?
    ensures var zero := GenConst(g, IntV(0)).value;
            && HasCode(c, st, e.operand, zero.g, base, depth) && TypeIn(c, st, e.operand) == Some(TInt)
            && g.GrowsTo(zero.g)
            && var x := ExprCode(c, st, e.operand, zero.g, base, depth);
               ExprCode(c, st, e, g, base, depth) == Emitted(zero.code + x.code + B.Encode(B.Sub), x.g) && zero.g.GrowsTo(x.g)
  {
  }

  lemma BinaryLayout(c: Context, st: State, e: Expr, g: Gen, base: nat, depth: nat)
    requires e.Binary? && !Swapped(e.op) && HasCode(c, st, e, g, base, depth)
    ensures HasCode(c, st, e.left, g, base, depth) && TypeIn(c, st, e.left).Some?
    ensures var l := ExprCode(c, st, e.left, g, base, depth);
            && g.GrowsTo(l.g) && HasCode(c, st, e.right, l.g, base, depth)
            && var t := TypeIn(c, st, e.left).value;
               var r := ExprCode(c, st, e.right, l.g, base, depth);
               && TypeIn(c, st, e.right) == Some(t) && BinaryType(e.op, t, t).Some? && l.g.GrowsTo(r.g)
               && ExprCode(c, st, e, g, base, depth) == Emitted(l.code + r.code + OperatorCode(e.op, t.TFloat?), r.g)
  {
    hide OperatorCode;
  }

  lemma SwappedLayout(c: Context, st: State, e: Expr, g: Gen, base: nat, depth: nat)
    requires e.Binary? && Swapped(e.op) && HasCode(c, st, e, g, base, depth)
    ensures base + depth <= 255
    ensures var g1 := g.(maxTemp := Max(g.maxTemp, depth + 1));
            && HasCode(c, st, e.left, g1, base, depth + 1) && TypeIn(c, st, e.left).Some?
            && var l := ExprCode(c, st, e.left, g1, base, depth + 1);
               && g1.GrowsTo(l.g) && HasCode(c, st, e.right, l.g, base, depth + 1)
               && var t := TypeIn(c, st, e.left).value;
                  var r := ExprCode(c, st, e.right, l.g, base, depth + 1);
                  && TypeIn(c, st, e.right) == Some(t) && BinaryType(e.op, t, t).Some? && l.g.GrowsTo(r.g)
                  && ExprCode(c, st, e, g, base, depth)
                     == Emitted(l.code + B.Encode(B.Store(base + depth)) + r.code + B.Encode(B.Load(base + depth))
                                + OperatorCode(e.op, t.TFloat?), r.g)
  {
    hide OperatorCode, B.Encode;
  }

  /** The meaning of a binary expression in terms of its operands. */
  lemma BinaryMeaning(c: Context, e: Expr, env: Env, tr: Trace, fuel: nat)
    requires e.Binary?
    ensures var whole, a := EvalExpr(c.fs, c.w, e, env, tr, fuel), EvalExpr(c.fs, c.w, e.left, env, tr, fuel);
            if !a.Ok? then whole == a
            else
              var b := EvalExpr(c.fs, c.w, e.right, env, a.tr, fuel);
              if !b.Ok? then whole == b
              else whole == ApplyBinary(c.w, e.op, a.value, b.value, b.tr)
  {
    hide ApplyBinary;
  }

  lemma UnaryMeaning(c: Context, e: Expr, env: Env, tr: Trace, fuel: nat)
    requires e.Unary?
    ensures var whole, a := EvalExpr(c.fs, c.w, e, env, tr, fuel), EvalExpr(c.fs, c.w, e.operand, env, tr, fuel);
            whole == if !a.Ok? then a else ApplyUnary(e.uop, a.value, a.tr)
  {
    hide ApplyUnary;
  }

  // ---- Expressions ----

  /** `k` steps from `s` do what the expression means. */
  ghost predicate ExprSim(c: Context, st: State, e: Expr, env: Env, g: Gen, base: nat, depth: nat, s: M.State, fuel: nat, k: nat) {
    ExprGoal(s, M.Steps(c.p, c.w, M.Running(s), k), k, EvalExpr(c.fs, c.w, e, env, s.trace, fuel),
             s.top.ip + |ExprCode(c, st, e, g, base, depth).code|, base + depth, fuel)
  }

  lemma {:induction false} SimExpr(c: Context, st: State, e: Expr, env: Env, g: Gen, base: nat, depth: nat, s: M.State, fuel: nat)
      returns (k: nat)
    requires Linked(c) && ExprReady(c, st, e, env, g, base, depth, s)
    ensures ExprSim(c, st, e, env, g, base, depth, s, fuel, k)
    decreases fuel, e, 2
  {
    hide *;
    match e
    case IntLit(_) =>
      k := SimLiteral(c, st, e, env, g, base, depth, s, fuel);
    case FloatLit(_) =>
      k := SimLiteral(c, st, e, env, g, base, depth, s, fuel);
    case BoolLit(_) =>
      k := SimLiteral(c, st, e, env, g, base, depth, s, fuel);
    case StringLit(_) =>
      k := SimLiteral(c, st, e, env, g, base, depth, s, fuel);
    case VarRef(x, _, _) =>
      k := SimVar(c, st, e, env, g, base, depth, s, fuel);
    case Unary(op, _, _) =>
      k := SimUnary(c, st, e, env, g, base, depth, s, fuel);
    case Binary(op, _, _, _) =>
      if Swapped(op) {
        k := SimSwapped(c, st, e, env, g, base, depth, s, fuel);
      } else {
        k := SimBinary(c, st, e, env, g, base, depth, s, fuel);
      }
    case Call(_, _, _, _, _) =>
      k := SimCall(c, st, e, env, g, base, depth, s, fuel);
  }

  lemma SimLiteral(c: Context, st: State, e: Expr, env: Env, g: Gen, base: nat, depth: nat, s: M.State, fuel: nat)
      returns (k: nat)
    requires e.IntLit? || e.FloatLit? || e.BoolLit? || e.StringLit?
    requires ExprReady(c, st, e, env, g, base, depth, s)
    ensures ExprSim(c, st, e, env, g, base, depth, s, fuel, k)
  {
    hide M.Steps, ExprGoal, Ready, CodeOf, At, GenConst;
    var v := EvalExpr(c.fs, c.w, e, env, s.trace, fuel).value;
    assert GenExpr(e, g, base, depth) == GenConst(g, Enc(v));
    k := SimConst(c, g, v, s, base + depth, fuel);
  }

  lemma SimConst(c: Context, g: Gen, v: Val, s: M.State, keep: nat, fuel: nat) returns (k: nat)
    requires GenConst(g, Enc(v)).Success? && GenConst(g, Enc(v)).value.g.pool <= c.p.constants
    requires At(CodeOf(c.p, s), s.top.ip, GenConst(g, Enc(v)).value.code)
    ensures k == 1
    ensures ExprGoal(s, M.Steps(c.p, c.w, M.Running(s), k), k, Ok(v, s.trace),
                     s.top.ip + |GenConst(g, Enc(v)).value.code|, keep, fuel)
  {
    hide M.Steps;
    var index := Intern(g, Enc(v)).value.0;
    assert c.p.constants[index] == Enc(v);
    StepPushConst(c.p, c.w, s, index);
    PushGoal(s, Moved(s, s.top.ip + 3, s.stack), v, 1, fuel, s.top.ip + 3, keep);
    k := 1;
  }

  lemma VarLayout(c: Context, st: State, e: Expr, g: Gen, base: nat, depth: nat) returns (level: nat)
    requires e.VarRef? && HasCode(c, st, e, g, base, depth)
    ensures FindLevel(st.scopes, e.name) == Some(level) && level < |st.scopes| && e.name in st.scopes[level]
    ensures ExprCode(c, st, e, g, base, depth) == Emitted(B.Encode(B.Load(st.scopes[level][e.name].slot)), g)
  {
    hide B.Encode;
    level := FindLevel(st.scopes, e.name).value;
  }

  lemma VarMeaning(c: Context, e: Expr, env: Env, tr: Trace, fuel: nat, level: nat)
    requires e.VarRef? && FindLevel(env, e.name) == Some(level)
    ensures EvalExpr(c.fs, c.w, e, env, tr, fuel) == Ok(env[level][e.name], tr)
  {
  }

  lemma SlotSmall(st: State, level: nat, x: Text)
    requires SlotsOk(st) && level < |st.scopes| && x in st.scopes[level]
    ensures st.scopes[level][x].slot < st.next && st.scopes[level][x].slot <= 255
  {
  }

  lemma SimVar(c: Context, st: State, e: Expr, env: Env, g: Gen, base: nat, depth: nat, s: M.State, fuel: nat)
      returns (k: nat)
    requires e.VarRef? && ExprReady(c, st, e, env, g, base, depth, s)
    ensures ExprSim(c, st, e, env, g, base, depth, s, fuel, k)
  {
    hide M.Steps, EvalExpr, ExprReady, HasCode, CheckExpr, GenExpr, ExprCode, CodeOf, At, B.Encode, SlotsOk, FindLevel;
    UseReady(c, st, e, env, g, base, depth, s);
    var level := VarLayout(c, st, e, g, base, depth);
    SameLevel(st.scopes, env, e.name);
    VarMeaning(c, e, env, s.trace, fuel, level);
    var slot := st.scopes[level][e.name].slot;
    SlotInstrSize(slot);
    assert InSlot(s.top, slot, env[level][e.name]);
    SlotSmall(st, level, e.name);
    StepLoad(c.p, c.w, s, slot);
    PushGoal(s, Moved(s, s.top.ip + 2, s.stack), env[level][e.name], 1, fuel, s.top.ip + 2, base + depth);
    k := 1;
  }

  lemma {:induction false} SimUnary(c: Context, st: State, e: Expr, env: Env, g: Gen, base: nat, depth: nat, s: M.State, fuel: nat)
      returns (k: nat)
    requires Linked(c) && e.Unary? && ExprReady(c, st, e, env, g, base, depth, s)
    ensures ExprSim(c, st, e, env, g, base, depth, s, fuel, k)
    decreases fuel, e, 1
  {
    hide M.Steps, EvalExpr, CheckExpr, GenExpr, ExprReady, Ready, Linked, CodeOf, At, ExprCode, TypeIn, B.Encode;
    UseReady(c, st, e, env, g, base, depth, s);
    EndSize();
    UnaryTypes(c, st, e);
    if e.uop.NEG? && TypeIn(c, st, e) == Some(TInt) {
      k := SimNegateInt(c, st, e, env, g, base, depth, s, fuel);
      return;
    }
    OperandLayout(c, st, e, g, base, depth);
    UnaryMeaning(c, e, env, s.trace, fuel);
    var x := ExprCode(c, st, e.operand, g, base, depth);
    var keep, end := base + depth, s.top.ip + |x.code|;
    AtSplit(CodeOf(c.p, s), s.top.ip, x.code, B.Encode(if e.uop.NOT? then B.Not else B.FNeg));
    MakeReady(c, st, e.operand, env, g, base, depth, x.g.maxTemp, s);
    Operand(c, st, e.operand, env, base, x.g.maxTemp, s, fuel);
    var a := EvalExpr(c.fs, c.w, e.operand, env, s.trace, fuel);
    k := SimExpr(c, st, e.operand, env, g, base, depth, s, fuel);
    var o := M.Steps(c.p, c.w, M.Running(s), k);
    if Stopped(o, k, fuel, a) {
      StopsWhole(o, k, fuel, a, EvalExpr(c.fs, c.w, e, env, s.trace, fuel));
      return;
    }
    AfterOperand(c, st, env, base, x.g.maxTemp, s, o, [Enc(a.value)], a.tr, end, keep);
    if e.uop.NOT? {
      StepNot(c.p, c.w, o.s, s.stack, a.value.b);
    } else {
      StepFNeg(c.p, c.w, o.s, s.stack, a.value.f);
    }
    PushGoal(s, Moved(o.s, end + 1, s.stack), ApplyUnary(e.uop, a.value, a.tr).value, k + 1, fuel, end + 1, keep);
    Continue(c.p, c.w, s, k, o.s, 1);
    k := k + 1;
  }

  /** What type soundness says about an operand of a known type. */
  lemma Operand(c: Context, st: State, e: Expr, env: Env, base: nat, maxTemp: nat, s: M.State, fuel: nat)
    requires Linked(c) && CheckExpr(c.fs, st.scopes, e).Success? && Ready(c, st, env, base, maxTemp, s)
    ensures !EvalExpr(c.fs, c.w, e, env, s.trace, fuel).Wrong?
    ensures EvalExpr(c.fs, c.w, e, env, s.trace, fuel).Ok? ==>
              Yields(EvalExpr(c.fs, c.w, e, env, s.trace, fuel).value, TypeIn(c, st, e))
  {
    hide Ready, EvalExpr, CheckExpr, Linked;
    Sound(c, st, e, env, base, maxTemp, s, s.trace, fuel);
  }

  /** `-x` on Int is `0 - x`, with the same overflow. */
  lemma {:induction false} SimNegateInt(c: Context, st: State, e: Expr, env: Env, g: Gen, base: nat, depth: nat, s: M.State, fuel: nat)
      returns (k: nat)
    requires Linked(c) && e.Unary? && e.uop.NEG? && ExprReady(c, st, e, env, g, base, depth, s)
    requires TypeIn(c, st, e) == Some(TInt)
    ensures ExprSim(c, st, e, env, g, base, depth, s, fuel, k)
    decreases fuel, e, 0
  {
    hide M.Steps, EvalExpr, CheckExpr, GenExpr, GenConst, ExprReady, Ready, Linked, CodeOf, At, ExprCode, TypeIn;
    UseReady(c, st, e, env, g, base, depth, s);
    NegateLayout(c, st, e, g, base, depth);
    UnaryMeaning(c, e, env, s.trace, fuel);
    Operand(c, st, e, env, base, ExprCode(c, st, e, g, base, depth).g.maxTemp, s, fuel);
    var whole := EvalExpr(c.fs, c.w, e, env, s.trace, fuel);
    var zero := GenConst(g, IntV(0)).value;
    var x := ExprCode(c, st, e.operand, zero.g, base, depth);
    var code, keep, mid := CodeOf(c.p, s), base + depth, s.top.ip + |zero.code|;
    assert zero.code + x.code + B.Encode(B.Sub) == zero.code + (x.code + B.Encode(B.Sub));
    AtSplit(code, s.top.ip, zero.code, x.code + B.Encode(B.Sub));
    AtSplit(code, mid, x.code, B.Encode(B.Sub));
    k := SimConst(c, g, VInt(0), s, keep, fuel);
    var o := M.Steps(c.p, c.w, M.Running(s), k);
    if Stopped(o, k, fuel, Ok(VInt(0), s.trace)) {
      StopsWhole(o, k, fuel, Ok(VInt(0), s.trace), whole);
      return;
    }
    AfterOperand(c, st, env, base, x.g.maxTemp, s, o, [IntV(0)], s.trace, mid, keep);
    MakeReady(c, st, e.operand, env, zero.g, base, depth, x.g.maxTemp, o.s);
    Operand(c, st, e.operand, env, base, x.g.maxTemp, o.s, fuel);
    var r := EvalExpr(c.fs, c.w, e.operand, env, s.trace, fuel);
    var j := SimExpr(c, st, e.operand, env, zero.g, base, depth, o.s, fuel);
    Continue(c.p, c.w, s, k, o.s, j);
    var q := M.Steps(c.p, c.w, M.Running(o.s), j);
    k := k + j;
    if Stopped(q, j, fuel, r) {
      StopsLater(q, j, fuel, k, fuel, r);
      StopsWhole(q, k, fuel, r, whole);
      return;
    }
    AfterOperand(c, st, env, base, x.g.maxTemp, o.s, q, [Enc(r.value)], r.tr, mid + |x.code|, keep);
    PushedTwice(s, o, q, [IntV(0)], s.trace, mid, [Enc(r.value)], r.tr, mid + |x.code|, keep, keep);
    StepIntOp(c.p, c.w, q.s, B.Sub, s.stack, 0, r.value.n);
    Continue(c.p, c.w, s, k, q.s, 1);
    k := k + 1;
    if whole.Ok? {
      PushGoal(s, Moved(q.s, q.s.top.ip + 1, s.stack), whole.value, k, fuel, q.s.top.ip + 1, keep);
    }
  }

  lemma {:induction false} SimBinary(c: Context, st: State, e: Expr, env: Env, g: Gen, base: nat, depth: nat, s: M.State, fuel: nat)
      returns (k: nat)
    requires Linked(c) && e.Binary? && !Swapped(e.op) && ExprReady(c, st, e, env, g, base, depth, s)
    ensures ExprSim(c, st, e, env, g, base, depth, s, fuel, k)
    decreases fuel, e, 0
  {
    hide M.Steps, EvalExpr, CheckExpr, GenExpr, ExprReady, Ready, Linked, CodeOf, At, ExprCode, TypeIn, ApplyBinary, OperatorCode, SameBelow;
    UseReady(c, st, e, env, g, base, depth, s);
    BinaryLayout(c, st, e, g, base, depth);
    BinaryMeaning(c, e, env, s.trace, fuel);
    Operand(c, st, e, env, base, ExprCode(c, st, e, g, base, depth).g.maxTemp, s, fuel);
    var whole := EvalExpr(c.fs, c.w, e, env, s.trace, fuel);
    var t := TypeIn(c, st, e.left).value;
    var l := ExprCode(c, st, e.left, g, base, depth);
    var r := ExprCode(c, st, e.right, l.g, base, depth);
    var op := OperatorCode(e.op, t.TFloat?);
    var code, keep, mid := CodeOf(c.p, s), base + depth, s.top.ip + |l.code|;
    assert l.code + r.code + op == l.code + (r.code + op);
    AtSplit(code, s.top.ip, l.code, r.code + op);
    AtSplit(code, mid, r.code, op);
    MakeReady(c, st, e.left, env, g, base, depth, r.g.maxTemp, s);
    Operand(c, st, e.left, env, base, r.g.maxTemp, s, fuel);
    var a := EvalExpr(c.fs, c.w, e.left, env, s.trace, fuel);
    k := SimExpr(c, st, e.left, env, g, base, depth, s, fuel);
    var o := M.Steps(c.p, c.w, M.Running(s), k);
    if Stopped(o, k, fuel, a) {
      StopsWhole(o, k, fuel, a, whole);
      return;
    }
    AfterOperand(c, st, env, base, r.g.maxTemp, s, o, [Enc(a.value)], a.tr, mid, keep);
    MakeReady(c, st, e.right, env, l.g, base, depth, r.g.maxTemp, o.s);
    Operand(c, st, e.right, env, base, r.g.maxTemp, o.s, fuel);
    var b := EvalExpr(c.fs, c.w, e.right, env, a.tr, fuel);
    var j := SimExpr(c, st, e.right, env, l.g, base, depth, o.s, fuel);
    Continue(c.p, c.w, s, k, o.s, j);
    var q := M.Steps(c.p, c.w, M.Running(o.s), j);
    k := k + j;
    if Stopped(q, j, fuel, b) {
      StopsLater(q, j, fuel, k, fuel, b);
      StopsWhole(q, k, fuel, b, whole);
      return;
    }
    AfterOperand(c, st, env, base, r.g.maxTemp, o.s, q, [Enc(b.value)], b.tr, mid + |r.code|, keep);
    PushedTwice(s, o, q, [Enc(a.value)], a.tr, mid, [Enc(b.value)], b.tr, mid + |r.code|, keep, keep);
    assert [Enc(a.value)] + [Enc(b.value)] == Operands(e.op, a.value, b.value);
    var i := SimOperator(c, s, q.s, e.op, a.value, b.value, t, keep, fuel);
    Continue(c.p, c.w, s, k, q.s, i);
    GoalLater(s, M.Steps(c.p, c.w, M.Running(q.s), i), i, whole, mid + |r.code| + |op|, keep, fuel, k + i);
    k := k + i;
  }

  lemma GoalLater(s: M.State, o: M.Outcome, k: nat, r: Res<Val>, ip: nat, keep: nat, fuel: nat, j: nat)
    requires ExprGoal(s, o, k, r, ip, keep, fuel) && k <= j
    ensures ExprGoal(s, o, j, r, ip, keep, fuel)
  {
  }
  /** `x` is the code of `e`, which has type `t`. */
  ghost predicate Codes(c: Context, st: State, e: Expr, t: Option<Type>, g: Gen, base: nat, depth: nat, x: Emitted) {
    && CheckExpr(c.fs, st.scopes, e).Success? && TypeOf(CheckExpr(c.fs, st.scopes, e).value) == t
    && GenExpr(CheckExpr(c.fs, st.scopes, e).value, g, base, depth) == Success(x)
  }

  /** Where the pieces of a swapped comparison lie in the code. */
  ghost predicate SwappedShape(c: Context, st: State, e: Expr, env: Env, g: Gen, base: nat, depth: nat, s: M.State, l: Emitted, r: Emitted, t: Type)
    requires e.Binary?
  {
    var code, ip, slot := CodeOf(c.p, s), s.top.ip, base + depth;
    && slot <= 255
    && Codes(c, st, e.left, Some(t), g.(maxTemp := Max(g.maxTemp, depth + 1)), base, depth + 1, l)
    && Codes(c, st, e.right, Some(t), l.g, base, depth + 1, r)
    && BinaryType(e.op, t, t).Some?
    && depth < l.g.maxTemp <= r.g.maxTemp && l.g.pool <= r.g.pool <= c.p.constants
    && Ready(c, st, env, base, r.g.maxTemp, s)
    && At(code, ip, l.code)
    && At(code, ip + |l.code|, B.Encode(B.Store(slot)))
    && At(code, ip + |l.code| + 2, r.code)
    && At(code, ip + |l.code| + 2 + |r.code|, B.Encode(B.Load(slot)))
    && At(code, ip + |l.code| + 4 + |r.code|, OperatorCode(e.op, t.TFloat?))
  }

  lemma UseCodes(c: Context, st: State, e: Expr, t: Option<Type>, g: Gen, base: nat, depth: nat, x: Emitted)
    requires Codes(c, st, e, t, g, base, depth, x)
    ensures HasCode(c, st, e, g, base, depth) && x == ExprCode(c, st, e, g, base, depth) && TypeIn(c, st, e) == t
  {
  }

  ghost function SwappedSize(e: Expr, l: Emitted, r: Emitted, t: Type): nat
    requires e.Binary?
  {
    |l.code| + 4 + |r.code| + |OperatorCode(e.op, t.TFloat?)|
  }

  lemma SlotInstrSize(slot: int)
    ensures |B.Encode(B.Store(slot))| == 2 == |B.Encode(B.Load(slot))|
  {
  }

  lemma SwappedPieces(c: Context, st: State, e: Expr, env: Env, g: Gen, base: nat, depth: nat, s: M.State)
      returns (l: Emitted, r: Emitted, t: Type)
    requires e.Binary? && Swapped(e.op) && ExprReady(c, st, e, env, g, base, depth, s)
    ensures HasCode(c, st, e, g, base, depth)
    ensures SwappedShape(c, st, e, env, g, base, depth, s, l, r, t)
    ensures |ExprCode(c, st, e, g, base, depth).code| == SwappedSize(e, l, r, t)
  {
    hide EvalExpr, CheckExpr, GenExpr, ExprReady, Ready, CodeOf, At, OperatorCode, B.Encode, BinaryType;
    UseReady(c, st, e, env, g, base, depth, s);
    SwappedLayout(c, st, e, g, base, depth);
    t := TypeIn(c, st, e.left).value;
    l := ExprCode(c, st, e.left, g.(maxTemp := Max(g.maxTemp, depth + 1)), base, depth + 1);
    r := ExprCode(c, st, e.right, l.g, base, depth + 1);
    var op := OperatorCode(e.op, t.TFloat?);
    var store, load := B.Encode(B.Store(base + depth)), B.Encode(B.Load(base + depth));
    SlotInstrSize(base + depth);
    SwappedSplit(CodeOf(c.p, s), s.top.ip, l.code, store, r.code, load, op);
  }

  lemma SwappedSplit(code: seq<Byte>, ip: nat, l: seq<Byte>, store: seq<Byte>, r: seq<Byte>, load: seq<Byte>, op: seq<Byte>)
    requires At(code, ip, l + store + r + load + op)
    ensures At(code, ip, l) && At(code, ip + |l|, store) && At(code, ip + |l| + |store|, r)
    ensures At(code, ip + |l| + |store| + |r|, load) && At(code, ip + |l| + |store| + |r| + |load|, op)
  {
    hide At;
    AtSplit(code, ip, l + store + r + load, op);
    AtSplit(code, ip, l + store + r, load);
    AtSplit(code, ip, l + store, r);
    AtSplit(code, ip, l, store);
  }

  lemma ReadyFacts(c: Context, st: State, env: Env, base: nat, maxTemp: nat, s: M.State)
    requires Ready(c, st, env, base, maxTemp, s)
    ensures base + maxTemp <= |s.top.locals| == |s.top.init|
    ensures s.top.base <= |s.stack| <= M.MAX_STACK
    ensures |CodeOf(c.p, s)| <= MAX_CODE
  {
  }

  /**
    `>` and `<=` keep the left value in a temporary while the right operand runs. Whatever the right operand
    does, including calls and comparisons nested in it, the temporary still holds the value when reloaded.
   */
  lemma {:induction false} SimSwapped(c: Context, st: State, e: Expr, env: Env, g: Gen, base: nat, depth: nat, s: M.State, fuel: nat)
      returns (k: nat)
    requires Linked(c) && e.Binary? && Swapped(e.op) && ExprReady(c, st, e, env, g, base, depth, s)
    ensures ExprSim(c, st, e, env, g, base, depth, s, fuel, k)
    decreases fuel, e, 0
  {
    hide M.Steps, EvalExpr, CheckExpr, GenExpr, ExprReady, Ready, Linked, CodeOf, At, ExprCode, TypeIn, ApplyBinary, OperatorCode, B.Encode, Codes;
    var l, r, t := SwappedPieces(c, st, e, env, g, base, depth, s);
    UseCodes(c, st, e.left, Some(t), g.(maxTemp := Max(g.maxTemp, depth + 1)), base, depth + 1, l);
    BinaryMeaning(c, e, env, s.trace, fuel);
    var whole := EvalExpr(c.fs, c.w, e, env, s.trace, fuel);
    var g1, slot := g.(maxTemp := Max(g.maxTemp, depth + 1)), base + depth;
    var mid := s.top.ip + |l.code|;
    MakeReady(c, st, e.left, env, g1, base, depth + 1, r.g.maxTemp, s);
    Operand(c, st, e, env, base, r.g.maxTemp, s, fuel);
    Operand(c, st, e.left, env, base, r.g.maxTemp, s, fuel);
    var a := EvalExpr(c.fs, c.w, e.left, env, s.trace, fuel);
    k := SimExpr(c, st, e.left, env, g1, base, depth + 1, s, fuel);
    var o := M.Steps(c.p, c.w, M.Running(s), k);
    if Stopped(o, k, fuel, a) {
      StopsWhole(o, k, fuel, a, whole);
      return;
    }
    AfterOperand(c, st, env, base, r.g.maxTemp, s, o, [Enc(a.value)], a.tr, mid, slot + 1);
    ReadyFacts(c, st, env, base, r.g.maxTemp, o.s);
    StepStore(c.p, c.w, o.s, slot, s.stack, Enc(a.value));
    Continue(c.p, c.w, s, k, o.s, 1);
    k := SimSwappedRight(c, st, e, env, g, base, depth, s, Stored(o.s, mid + 2, s.stack, slot, Enc(a.value)), k + 1, a, l, r, t, fuel);
  }

  /** The second half of a swapped comparison: `s1` is reached from `s` with the left value in its temporary. */
  lemma {:induction false} SimSwappedRight(c: Context, st: State, e: Expr, env: Env, g: Gen, base: nat, depth: nat,
                                           s: M.State, s1: M.State, k0: nat, a: Res<Val>, l: Emitted, r: Emitted, t: Type, fuel: nat)
      returns (k: nat)
    requires Linked(c) && e.Binary? && Swapped(e.op) && ExprReady(c, st, e, env, g, base, depth, s)
    requires a == EvalExpr(c.fs, c.w, e.left, env, s.trace, fuel) && a.Ok?
    requires M.Steps(c.p, c.w, M.Running(s), k0) == M.Running(s1)
    requires s1.callers == s.callers && s1.stack == s.stack && s1.trace == a.tr && SameBelow(s.top, s1.top, base + depth)
    requires base + depth < |s1.top.locals| == |s1.top.init| && s1.top.init[base + depth] && s1.top.locals[base + depth] == Enc(a.value)
    requires SwappedShape(c, st, e, env, g, base, depth, s, l, r, t) && s1.top.ip == s.top.ip + |l.code| + 2
    requires |ExprCode(c, st, e, g, base, depth).code| == SwappedSize(e, l, r, t)
    ensures ExprSim(c, st, e, env, g, base, depth, s, fuel, k)
    decreases fuel, e.right, 3
  {
    hide M.Steps, EvalExpr, CheckExpr, GenExpr, ExprReady, Ready, Linked, CodeOf, At, ExprCode, TypeIn, ApplyBinary, OperatorCode, B.Encode, Codes;
    UseCodes(c, st, e.left, Some(t), g.(maxTemp := Max(g.maxTemp, depth + 1)), base, depth + 1, l);
    UseCodes(c, st, e.right, Some(t), l.g, base, depth + 1, r);
    UseReady(c, st, e, env, g, base, depth, s);
    BinaryMeaning(c, e, env, s.trace, fuel);
    var whole := EvalExpr(c.fs, c.w, e, env, s.trace, fuel);
    var slot := base + depth;
    var op := OperatorCode(e.op, t.TFloat?);
    var end := s1.top.ip + |r.code|;
    ReadyFacts(c, st, env, base, r.g.maxTemp, s);
    SameCode(c, s, s1);
    ReadyKept(c, st, env, base, r.g.maxTemp, s, s1, slot);
    MakeReady(c, st, e.right, env, l.g, base, depth + 1, r.g.maxTemp, s1);
    Operand(c, st, e, env, base, r.g.maxTemp, s, fuel);
    Operand(c, st, e.left, env, base, r.g.maxTemp, s, fuel);
    Operand(c, st, e.right, env, base, r.g.maxTemp, s1, fuel);
    var b := EvalExpr(c.fs, c.w, e.right, env, a.tr, fuel);
    var j := SimExpr(c, st, e.right, env, l.g, base, depth + 1, s1, fuel);
    Continue(c.p, c.w, s, k0, s1, j);
    var q := M.Steps(c.p, c.w, M.Running(s1), j);
    k := k0 + j;
    if Stopped(q, j, fuel, b) {
      StopsLater(q, j, fuel, k, fuel, b);
      StopsWhole(q, k, fuel, b, whole);
      return;
    }
    SameCode(c, s1, q.s);
    assert SameBelow(s.top, q.s.top, slot);
    var i := SimReload(c, s, q.s, e.op, a.value, b.value, t, slot, fuel);
    Continue(c.p, c.w, s, k, q.s, i);
    GoalLater(s, M.Steps(c.p, c.w, M.Running(q.s), i), i, whole, end + 2 + |op|, slot, fuel, k + i);
    k := k + i;
  }

  /** The left value comes back from its temporary and the operator runs on the swapped operands. */
  lemma SimReload(c: Context, s0: M.State, s: M.State, op: BinaryOp, a: Val, b: Val, t: Type, slot: nat, fuel: nat)
      returns (k: nat)
    requires Comparable(op, a, b, t) && Swapped(op)
    requires s.stack == s0.stack + [Enc(b)] && s.top.base <= |s0.stack|
    requires s.callers == s0.callers && SameBelow(s0.top, s.top, slot)
    requires slot <= 255 && slot < |s.top.locals| == |s.top.init| && s.top.init[slot] && s.top.locals[slot] == Enc(a)
    requires At(CodeOf(c.p, s), s.top.ip, B.Encode(B.Load(slot)))
    requires At(CodeOf(c.p, s), s.top.ip + 2, OperatorCode(op, t.TFloat?))
    ensures ExprGoal(s0, M.Steps(c.p, c.w, M.Running(s), k), k, ApplyBinary(c.w, op, a, b, s.trace),
                     s.top.ip + 2 + |OperatorCode(op, t.TFloat?)|, slot, fuel)
  {
    hide M.Steps, ApplyBinary, OperatorCode, CodeOf, At, HasType;
    BinarySound(c.w, op, a, b, t, t, s.trace);
    StepLoad(c.p, c.w, s, slot);
    var z := M.Steps(c.p, c.w, M.Running(s), 1);
    k := 1;
    if z.Fault? {
      return;
    }
    SameCode(c, s, z.s);
    assert z.s.stack == s0.stack + Operands(op, a, b);
    var i := SimOperator(c, s0, z.s, op, a, b, t, slot, fuel);
    Continue(c.p, c.w, s, 1, z.s, i);
    GoalLater(s0, M.Steps(c.p, c.w, M.Running(z.s), i), i, ApplyBinary(c.w, op, a, b, s.trace),
              s.top.ip + 2 + |OperatorCode(op, t.TFloat?)|, slot, fuel, 1 + i);
    k := 1 + i;
  }

  lemma SameCode(c: Context, s: M.State, s1: M.State)
    requires s1.top.fn == s.top.fn
    ensures CodeOf(c.p, s1) == CodeOf(c.p, s)
  {
  }

  // ---- Calls ----

  ghost predicate ArgsCodes(c: Context, st: State, es: seq<Expr>, ts: seq<Type>, g: Gen, base: nat, depth: nat, x: Emitted) {
    && |es| == |ts| && CheckArgs(c.fs, st.scopes, es, ts).Success?
    && GenArgs(CheckArgs(c.fs, st.scopes, es, ts).value, g, base, depth) == Success(x)
  }

  ghost predicate ArgsReady(c: Context, st: State, env: Env, g: Gen, base: nat, depth: nat, s: M.State, x: Emitted) {
    && x.g.pool <= c.p.constants && depth <= g.maxTemp
    && Ready(c, st, env, base, x.g.maxTemp, s)
    && At(CodeOf(c.p, s), s.top.ip, x.code)
  }

  lemma ArgsLayout(c: Context, st: State, es: seq<Expr>, ts: seq<Type>, g: Gen, base: nat, depth: nat, x: Emitted)
      returns (head: Emitted, rest: Emitted)
    requires ArgsCodes(c, st, es, ts, g, base, depth, x) && es != []
    ensures Codes(c, st, es[0], Some(ts[0]), g, base, depth, head)
    ensures ArgsCodes(c, st, es[1..], ts[1..], head.g, base, depth, rest)
    ensures g.GrowsTo(head.g) && head.g.GrowsTo(rest.g) && x == Emitted(head.code + rest.code, rest.g)
  {
    var as' := CheckArgs(c.fs, st.scopes, es, ts).value;
    assert as'[1..] == CheckArgs(c.fs, st.scopes, es[1..], ts[1..]).value;
    head := GenExpr(as'[0], g, base, depth).value;
    rest := GenArgs(as'[1..], head.g, base, depth).value;
  }

  lemma ArgsMeaning(c: Context, es: seq<Expr>, env: Env, tr: Trace, fuel: nat)
    requires es != []
    ensures var whole, a := EvalArgs(c.fs, c.w, es, env, tr, fuel), EvalExpr(c.fs, c.w, es[0], env, tr, fuel);
            if !a.Ok? then whole == a.PropagateFailure()
            else
              var b := EvalArgs(c.fs, c.w, es[1..], env, a.tr, fuel);
              if !b.Ok? then whole == b
              else whole == Ok([a.value] + b.value, b.tr)
  {
  }

  lemma SoundArgs(c: Context, st: State, es: seq<Expr>, ts: seq<Type>, env: Env, base: nat, maxTemp: nat, s: M.State, fuel: nat)
    requires Linked(c) && |es| == |ts| && CheckArgs(c.fs, st.scopes, es, ts).Success? && Ready(c, st, env, base, maxTemp, s)
    ensures ArgsOutcome(EvalArgs(c.fs, c.w, es, env, s.trace, fuel), ts)
  {
    ArgsSound(c.fs, c.w, st.scopes, es, ts, env, s.trace, fuel);
  }

  /** Arguments are evaluated left to right and end up on the stack in that order. */
  lemma {:induction false} SimArgs(c: Context, st: State, es: seq<Expr>, ts: seq<Type>, env: Env, g: Gen, base: nat, depth: nat, s: M.State, x: Emitted, fuel: nat)
      returns (k: nat)
    requires Linked(c) && ArgsCodes(c, st, es, ts, g, base, depth, x) && ArgsReady(c, st, env, g, base, depth, s, x)
    ensures ArgsGoal(s, M.Steps(c.p, c.w, M.Running(s), k), k, EvalArgs(c.fs, c.w, es, env, s.trace, fuel),
                     s.top.ip + |x.code|, base + depth, fuel)
    decreases fuel, es
  {
    hide M.Steps, EvalExpr, EvalArgs, CheckExpr, CheckArgs, GenExpr, GenArgs, ExprReady, Ready, Linked, CodeOf, At, ExprCode, TypeIn,
         Codes, ArgsCodes, SameBelow, Yields;
    if es == [] {
      k := 0;
      SimNoArgs(c, st, ts, env, g, base, depth, s, x, fuel);
      return;
    }
    UseArgsCodes(c, st, es, ts, g, base, depth, x);
    var head, rest := ArgsLayout(c, st, es, ts, g, base, depth, x);
    UseCodes(c, st, es[0], Some(ts[0]), g, base, depth, head);
    ArgsMeaning(c, es, env, s.trace, fuel);
    SoundArgs(c, st, es, ts, env, base, rest.g.maxTemp, s, fuel);
    var whole := EvalArgs(c.fs, c.w, es, env, s.trace, fuel);
    var keep, mid := base + depth, s.top.ip + |head.code|;
    AtSplit(CodeOf(c.p, s), s.top.ip, head.code, rest.code);
    MakeReady(c, st, es[0], env, g, base, depth, rest.g.maxTemp, s);
    Operand(c, st, es[0], env, base, rest.g.maxTemp, s, fuel);
    var a := EvalExpr(c.fs, c.w, es[0], env, s.trace, fuel);
    k := SimExpr(c, st, es[0], env, g, base, depth, s, fuel);
    var o := M.Steps(c.p, c.w, M.Running(s), k);
    if Stopped(o, k, fuel, a) {
      StopsWhole(o, k, fuel, a, whole);
      return;
    }
    AfterOperand(c, st, env, base, rest.g.maxTemp, s, o, [Enc(a.value)], a.tr, mid, keep);
    var b := EvalArgs(c.fs, c.w, es[1..], env, a.tr, fuel);
    var j := SimArgs(c, st, es[1..], ts[1..], env, head.g, base, depth, o.s, rest, fuel);
    Continue(c.p, c.w, s, k, o.s, j);
    var q := M.Steps(c.p, c.w, M.Running(o.s), j);
    k := k + j;
    if Stopped(q, j, fuel, b) {
      StopsLater(q, j, fuel, k, fuel, b);
      StopsWhole(q, k, fuel, b, whole);
      return;
    }
    PushedTwice(s, o, q, [Enc(a.value)], a.tr, mid, EncAll(b.value), b.tr, mid + |rest.code|, keep, keep);
    assert [Enc(a.value)] + EncAll(b.value) == EncAll([a.value] + b.value);
  }

  lemma SimNoArgs(c: Context, st: State, ts: seq<Type>, env: Env, g: Gen, base: nat, depth: nat, s: M.State, x: Emitted, fuel: nat)
    requires ArgsCodes(c, st, [], ts, g, base, depth, x) && ArgsReady(c, st, env, g, base, depth, s, x)
    ensures ArgsGoal(s, M.Steps(c.p, c.w, M.Running(s), 0), 0, EvalArgs(c.fs, c.w, [], env, s.trace, fuel),
                     s.top.ip + |x.code|, base + depth, fuel)
  {
    assert s.stack + EncAll([]) == s.stack;
  }

  lemma UseArgsCodes(c: Context, st: State, es: seq<Expr>, ts: seq<Type>, g: Gen, base: nat, depth: nat, x: Emitted)
    requires ArgsCodes(c, st, es, ts, g, base, depth, x)
    ensures |es| == |ts| && CheckArgs(c.fs, st.scopes, es, ts).Success?
  {
  }

  lemma {:induction false} EncRuntime(vs: seq<Val>)
    requires AllToRuntime(vs).Some?
    ensures M.ValuesToRuntime(EncAll(vs)) == AllToRuntime(vs)
  {
    if vs != [] {
      EncRuntime(vs[1..]);
      assert EncAll(vs)[1..] == EncAll(vs[1..]);
    }
  }

  /** The instruction that ends a call, and the pool after it. */
  ghost predicate CallShape(c: Context, e: Expr, x: Emitted, all: Emitted)
    requires e.Call?
  {
    if e.namespace.Some? then
      && SignatureOf(QualifiedName(e.namespace.value, e.name)).Some?
      && |e.args| <= 255
      && var key := Intern(x.g, StringV(QualifiedName(e.namespace.value, e.name)));
         key.Success? && all == Emitted(x.code + B.Encode(B.CallRuntime(key.value.0, |e.args|)), key.value.1)
    else
      && IndexOf(c.fs, e.name).Some?
      && all == Emitted(x.code + B.Encode(B.Call(IndexOf(c.fs, e.name).value, |e.args|)), x.g)
  }

  lemma CallLayout(c: Context, st: State, e: Expr, g: Gen, base: nat, depth: nat) returns (ts: seq<Type>, x: Emitted)
    requires e.Call? && HasCode(c, st, e, g, base, depth)
    ensures ArgsCodes(c, st, e.args, ts, g, base, depth, x) && g.GrowsTo(x.g) && x.g.GrowsTo(ExprCode(c, st, e, g, base, depth).g)
    ensures CallShape(c, e, x, ExprCode(c, st, e, g, base, depth))
    ensures ts == CallParamTypes(c.fs, e)
  {
    hide B.Encode;
    ts := CallParamTypes(c.fs, e);
    if e.namespace.Some? {
      CompilerTableIsImplemented(QualifiedName(e.namespace.value, e.name));
    }
    x := GenArgs(CheckArgs(c.fs, st.scopes, e.args, ts).value, g, base, depth).value;
  }

  lemma CallMeaning(c: Context, e: Expr, env: Env, tr: Trace, fuel: nat)
    requires e.Call? && (e.namespace.None? ==> IndexOf(c.fs, e.name).Some?)
    ensures var whole, a := EvalExpr(c.fs, c.w, e, env, tr, fuel), EvalArgs(c.fs, c.w, e.args, env, tr, fuel);
            if !a.Ok? then whole == a.PropagateFailure()
            else if e.namespace.Some? then whole == CallRuntime(c.w, QualifiedName(e.namespace.value, e.name), a.value, a.tr)
            else if fuel == 0 then whole == OutOfFuel(a.tr)
            else whole == CallFunction(c.fs, c.w, c.fs[IndexOf(c.fs, e.name).value], a.value, a.tr, fuel - 1)
  {
    hide CallRuntime;
  }

  lemma {:induction false} SimCall(c: Context, st: State, e: Expr, env: Env, g: Gen, base: nat, depth: nat, s: M.State, fuel: nat)
      returns (k: nat)
    requires Linked(c) && e.Call? && ExprReady(c, st, e, env, g, base, depth, s)
    ensures ExprSim(c, st, e, env, g, base, depth, s, fuel, k)
    decreases fuel, e, 1
  {
    hide M.Steps, EvalExpr, EvalArgs, CheckExpr, CheckArgs, GenExpr, GenArgs, ExprReady, Ready, Linked, CodeOf, At, ExprCode, TypeIn,
         CallRuntime, CallFunction, SignatureOf, B.Encode, Intern;
    UseReady(c, st, e, env, g, base, depth, s);
    var ts, x := CallLayout(c, st, e, g, base, depth);
    CallMeaning(c, e, env, s.trace, fuel);
    var all := ExprCode(c, st, e, g, base, depth);
    Operand(c, st, e, env, base, all.g.maxTemp, s, fuel);
    SoundArgs(c, st, e.args, ts, env, base, all.g.maxTemp, s, fuel);
    CallAt(c, e, s, x, all);
    var whole := EvalExpr(c.fs, c.w, e, env, s.trace, fuel);
    var keep, mid := base + depth, s.top.ip + |x.code|;
    var a := EvalArgs(c.fs, c.w, e.args, env, s.trace, fuel);
    LessTemp(c, st, env, base, all.g.maxTemp, x.g.maxTemp, s);
    k := SimArgs(c, st, e.args, ts, env, g, base, depth, s, x, fuel);
    var o := M.Steps(c.p, c.w, M.Running(s), k);
    if Stopped(o, k, fuel, a) {
      StopsWhole(o, k, fuel, a, whole);
      return;
    }
    AfterOperand(c, st, env, base, all.g.maxTemp, s, o, EncAll(a.value), a.tr, mid, keep);
    if e.namespace.Some? {
      SimRuntimeCall(c, s, o.s, QualifiedName(e.namespace.value, e.name), RuntimeKey(e, x), a.value, keep, k, fuel);
      Continue(c.p, c.w, s, k, o.s, 1);
      k := k + 1;
    } else if fuel > 0 {
      var j := SimUserCall(c, s, o.s, IndexOf(c.fs, e.name).value, a.value, keep, k, fuel);
      Continue(c.p, c.w, s, k, o.s, j);
      k := k + j;
    }
  }

  lemma LessTemp(c: Context, st: State, env: Env, base: nat, maxTemp: nat, less: nat, s: M.State)
    requires Ready(c, st, env, base, maxTemp, s) && less <= maxTemp
    ensures Ready(c, st, env, base, less, s)
  {
  }

  /** The pool index of the name of a Runtime function. */
  ghost function RuntimeKey(e: Expr, x: Emitted): nat
    requires e.Call? && e.namespace.Some?
  {
    var r := Intern(x.g, StringV(QualifiedName(e.namespace.value, e.name)));
    if r.Success? then r.value.0 else 0
  }

  lemma CallAt(c: Context, e: Expr, s: M.State, x: Emitted, all: Emitted)
    requires e.Call? && CallShape(c, e, x, all)
    requires all.g.pool <= c.p.constants && At(CodeOf(c.p, s), s.top.ip, all.code)
    ensures At(CodeOf(c.p, s), s.top.ip, x.code) && |all.code| == |x.code| + 4
    ensures e.namespace.Some? ==>
              && SignatureOf(QualifiedName(e.namespace.value, e.name)).Some? && RuntimeKey(e, x) <= MAX_U16
              && RuntimeKey(e, x) < |c.p.constants|
              && c.p.constants[RuntimeKey(e, x)] == StringV(QualifiedName(e.namespace.value, e.name))
              && At(CodeOf(c.p, s), s.top.ip + |x.code|, B.Encode(B.CallRuntime(RuntimeKey(e, x), |e.args|)))
    ensures e.namespace.None? ==>
              && IndexOf(c.fs, e.name).Some?
              && At(CodeOf(c.p, s), s.top.ip + |x.code|, B.Encode(B.Call(IndexOf(c.fs, e.name).value, |e.args|)))
  {
    hide At, CodeOf, SignatureOf;
    if e.namespace.Some? {
      AtSplit(CodeOf(c.p, s), s.top.ip, x.code, B.Encode(B.CallRuntime(RuntimeKey(e, x), |e.args|)));
    } else {
      AtSplit(CodeOf(c.p, s), s.top.ip, x.code, B.Encode(B.Call(IndexOf(c.fs, e.name).value, |e.args|)));
    }
  }

  lemma SimRuntimeCall(c: Context, s: M.State, s1: M.State, name: Text, index: nat, vs: seq<Val>, keep: nat, k: nat, fuel: nat)
    requires Linked(c) && SignatureOf(name).Some? && AllTyped(vs, SignatureOf(name).value.params)
    requires index <= MAX_U16 && index < |c.p.constants| && c.p.constants[index] == StringV(name)
    requires s1.callers == s.callers && s1.stack == s.stack + EncAll(vs) && SameBelow(s.top, s1.top, keep)
    requires s.top.base <= |s.stack|
    requires At(CodeOf(c.p, s1), s1.top.ip, B.Encode(B.CallRuntime(index, |vs|)))
    ensures ExprGoal(s, M.Steps(c.p, c.w, M.Running(s1), 1), k + 1, CallRuntime(c.w, name, vs, s1.trace), s1.top.ip + 4, keep, fuel)
  {
    hide M.Steps, Linked, CodeOf, At, B.Encode;
    CompilerTableIsImplemented(name);
    RuntimeArgs(vs, SignatureOf(name).value.params);
    EncRuntime(vs);
    var rargs := AllToRuntime(vs).value;
    StepCallRuntime(c.p, c.w, s1, index, s.stack, EncAll(vs), rargs, name);
    var ev := Event(name, rargs);
    match c.w.runtime(s1.trace, ev)
    case Returned(v) =>
      var next := Moved(s1, s1.top.ip + 4, s.stack).(trace := s1.trace + [ev]);
      PushGoal(s, next, FromRuntime(v), k + 1, fuel, s1.top.ip + 4, keep);
    case Threw =>
  }

  lemma LinkedFacts(c: Context, i: nat)
    requires Linked(c) && i < |c.fs|
    ensures |c.p.functions| == |c.fs| <= MAX_U16 + 1
    ensures c.p.functions[i].paramCount == |c.fs[i].params| <= 255 && 0 <= c.p.functions[i].localCount
  {
    assert FunctionLinked(c, i);
    FunctionSlots(c.fs, c.fs[i]);
  }

  lemma SoundCall(c: Context, i: nat, vs: seq<Val>, tr: Trace, fuel: nat)
    requires Linked(c) && i < |c.fs| && AllTyped(vs, ParamTypes(c.fs[i].params))
    ensures ExprOutcome(CallFunction(c.fs, c.w, c.fs[i], vs, tr, fuel), c.fs[i].returnType)
  {
    FunctionSound(c.fs, c.w, c.fs[i], vs, tr, fuel);
  }

  /** A completed call leaves the caller as it was, with the arguments replaced by one result. */
  lemma {:induction false} SimUserCall(c: Context, s: M.State, s1: M.State, i: nat, vs: seq<Val>, keep: nat, k: nat, fuel: nat)
      returns (j: nat)
    requires Linked(c) && i < |c.fs| && AllTyped(vs, ParamTypes(c.fs[i].params))
    requires s1.callers == s.callers && s1.stack == s.stack + EncAll(vs) && SameBelow(s.top, s1.top, keep)
    requires s.top.base <= |s.stack| && |s1.stack| <= M.MAX_STACK
    requires At(CodeOf(c.p, s1), s1.top.ip, B.Encode(B.Call(i, |vs|))) && fuel > 0
    ensures ExprGoal(s, M.Steps(c.p, c.w, M.Running(s1), j), k + j, CallFunction(c.fs, c.w, c.fs[i], vs, s1.trace, fuel - 1),
                     s1.top.ip + 4, keep, fuel)
    decreases fuel - 1
  {
    hide M.Steps, Linked, CodeOf, At, B.Encode, CallFunction, M.MakeFrame;
    LinkedFacts(c, i);
    SoundCall(c, i, vs, s1.trace, fuel - 1);
    var r := CallFunction(c.fs, c.w, c.fs[i], vs, s1.trace, fuel - 1);
    StepCall(c.p, c.w, s1, i, s.stack, EncAll(vs));
    var o := M.Steps(c.p, c.w, M.Running(s1), 1);
    if o.Fault? {
      j := 1;
      return;
    }
    var n := SimFunction(c, i, vs, o.s, fuel - 1);
    Continue(c.p, c.w, s1, 1, o.s, n);
    j := 1 + n;
    var q := M.Steps(c.p, c.w, M.Running(o.s), n);
    if Stopped(q, n, fuel - 1, r) {
      StopsLater(q, n, fuel - 1, k + j, fuel, r);
    } else {
      FrameBase(c.p, i, EncAll(vs), |s.stack|);
      BackFromCall(s, s1, o.s, q, r, keep);
    }
  }

  lemma NoSteps(c: Context, s: M.State)
    ensures M.Steps(c.p, c.w, M.Running(s), 0) == M.Running(s)
  {
  }

  lemma BackFromCall(s: M.State, s1: M.State, callee: M.State, o: M.Outcome, r: Res<Val>, keep: nat)
    requires s1.callers == s.callers && SameBelow(s.top, s1.top, keep)
    requires callee.callers == s.callers + [s1.top.(ip := s1.top.ip + 4)] && callee.stack == s.stack
    requires callee.top.base == |s.stack| && |s.stack| < M.MAX_STACK
    requires r.Ok? && o == ReturnedTo(callee, Enc(r.value), r.tr)
    ensures Pushed(s, o, [Enc(r.value)], r.tr, s1.top.ip + 4, keep)
  {
  }

  lemma FrameBase(p: B.Program, i: nat, args: seq<Value>, base: nat)
    requires i < |p.functions| && |args| <= p.functions[i].paramCount + p.functions[i].localCount
    ensures M.MakeFrame(p, i, args, base).base == base
  {
  }

  /** The frame of `s` has returned `v`; there was room for it. */
  ghost predicate Left(s: M.State, o: M.Outcome, v: Val, tr: Trace) {
    s.top.base <= |s.stack| && s.top.base < M.MAX_STACK && o == ReturnedTo(s, Enc(v), tr)
  }

  ghost predicate CallGoal(s: M.State, o: M.Outcome, k: nat, r: Res<Val>, fuel: nat) {
    (r.Ok? && Left(s, o, r.value, r.tr)) || Stopped(o, k, fuel, r)
  }

  /** The frame of a fresh call. */
  ghost predicate Entered(c: Context, i: nat, vs: seq<Val>, s: M.State) {
    && i < |c.p.functions|
    && |vs| <= c.p.functions[i].paramCount + c.p.functions[i].localCount
    && s.top == M.MakeFrame(c.p, i, EncAll(vs), |s.stack|)
    && |s.stack| <= M.MAX_STACK
  }

  // ---- Statements ----

  ghost predicate StmtCodes(c: Context, fn: FunctionDecl, st: State, t: Stmt, st': State, g: Gen, base: nat, at: nat, x: Emitted) {
    && st.scopes != [] && WellShaped(t) && CheckStmt(c.fs, fn, st, t).Success?
    && CheckStmt(c.fs, fn, st, t).value.1 == st'
    && GenStmt(CheckStmt(c.fs, fn, st, t).value.0, g, base, at) == Success(x)
  }

  ghost predicate StmtsCodes(c: Context, fn: FunctionDecl, st: State, ts: seq<Stmt>, st': State, g: Gen, base: nat, at: nat, x: Emitted) {
    && st.scopes != [] && AllShaped(ts) && CheckStmts(c.fs, fn, st, ts).Success?
    && CheckStmts(c.fs, fn, st, ts).value.1 == st'
    && GenStmts(CheckStmts(c.fs, fn, st, ts).value.0, g, base, at) == Success(x)
  }

  /** The code of a block; `next` is the first free slot after it. */
  ghost predicate BlockCodes(c: Context, fn: FunctionDecl, st: State, ts: seq<Stmt>, next: nat, g: Gen, base: nat, at: nat, x: Emitted) {
    && st.scopes != [] && AllShaped(ts) && CheckStmts(c.fs, fn, OpenScope(st), ts).Success?
    && CheckStmts(c.fs, fn, OpenScope(st), ts).value.1.next == next
    && GenStmts(CheckStmts(c.fs, fn, OpenScope(st), ts).value.0, g, base, at) == Success(x)
  }

  /** A piece of code ends before slot `next` and finds what it needs in the frame. */
  ghost predicate CodeReady(c: Context, st: State, next: nat, env: Env, base: nat, s: M.State, x: Emitted) {
    && x.g.pool <= c.p.constants && next <= base
    && Ready(c, st, env, base, x.g.maxTemp, s)
    && At(CodeOf(c.p, s), s.top.ip, x.code)
  }

  /** Execution goes on behind the statement, with the environment in its slots. */
  ghost predicate Continues(s: M.State, o: M.Outcome, sc: Scopes, env: Env, tr: Trace, ip: nat) {
    && o.Running?
    && o.s.callers == s.callers && o.s.stack == s.stack && o.s.trace == tr
    && o.s.top.ip == ip && SameBelow(s.top, o.s.top, 0)
    && EnvStored(sc, env, o.s.top)
  }

  ghost predicate FlowGoal(s: M.State, o: M.Outcome, k: nat, r: Res<Flow>, sc: Scopes, ip: nat, fuel: nat) {
    || (r.Ok? && r.value.Normal? && Continues(s, o, sc, r.value.env, r.tr, ip))
    || (r.Ok? && r.value.Returns? && Left(s, o, r.value.v, r.tr))
    || Stopped(o, k, fuel, r)
  }

  /** `k` steps from `s` do what the statement means. */
  ghost predicate StmtSim(c: Context, t: Stmt, st': State, env: Env, s: M.State, x: Emitted, fuel: nat, k: nat) {
    FlowGoal(s, M.Steps(c.p, c.w, M.Running(s), k), k, ExecStmt(c.fs, c.w, t, env, s.trace, fuel), st'.scopes, s.top.ip + |x.code|, fuel)
  }

  lemma FlowFrom(s: M.State, s1: M.State, o: M.Outcome, k: nat, j: nat, r: Res<Flow>, sc: Scopes, ip: nat, fuel: nat, more: nat)
    requires s1.callers == s.callers && s1.stack == s.stack && SameBelow(s.top, s1.top, 0)
    requires FlowGoal(s1, o, k, r, sc, ip, fuel) && k <= j && more <= fuel + (j - k)
    ensures FlowGoal(s, o, j, r, sc, ip, more)
  {
  }

  /** The checker never changes whether a statement returns. */
  lemma {:induction false} CheckedReturns(fs: seq<FunctionDecl>, fn: FunctionDecl, st: State, t: Stmt)
    requires st.scopes != [] && CheckStmt(fs, fn, st, t).Success?
    ensures AlwaysReturns(CheckStmt(fs, fn, st, t).value.0) == AlwaysReturns(t)
    decreases t
  {
    match t
    case Block(ss) =>
      CheckedReturnsAll(fs, fn, OpenScope(st), ss);
    case If(_, thn, els) =>
      CheckedReturnsAll(fs, fn, OpenScope(st), thn);
      if els.Some? {
        CheckedReturns(fs, fn, CloseScope(CheckStmts(fs, fn, OpenScope(st), thn).value.1), els.value);
      }
    case _ =>
  }

  lemma {:induction false} CheckedReturnsAll(fs: seq<FunctionDecl>, fn: FunctionDecl, st: State, ts: seq<Stmt>)
    requires st.scopes != [] && CheckStmts(fs, fn, st, ts).Success?
    ensures AnyReturns(CheckStmts(fs, fn, st, ts).value.0) == AnyReturns(ts)
    decreases ts
  {
    if ts != [] {
      CheckedReturns(fs, fn, st, ts[0]);
      var st1 := CheckStmt(fs, fn, st, ts[0]).value.1;
      CheckedReturnsAll(fs, fn, st1, ts[1..]);
      assert CheckStmts(fs, fn, st, ts).value.0[1..] == CheckStmts(fs, fn, st1, ts[1..]).value.0;
    }
  }

  // ---- Stores ----

  /** A fresh slot takes the value of a new variable. */
  lemma StoreDeclared(n: nat, st: State, env: Env, f: M.Frame, x: Text, v: Val, ty: Type, kind: VarKind)
    requires SlotsOk(st) && st.scopes != [] && EnvStored(st.scopes, env, f)
    requires Declare(n, st, x, ty, kind).Success? && st.next < |f.locals| == |f.init|
    ensures var top := |env| - 1;
            EnvStored(Declare(n, st, x, ty, kind).value.scopes, env[top := env[top][x := v]],
                      f.(locals := f.locals[st.next := Enc(v)], init := f.init[st.next := true]))
  {
    var f' := f.(locals := f.locals[st.next := Enc(v)], init := f.init[st.next := true]);
    StoredKept(st, env, f, f', st.next);
  }

  /** Assigning through a slot changes exactly the variable the name denotes. */
  lemma StoreAssigned(st: State, env: Env, f: M.Frame, x: Text, v: Val, level: nat)
    requires SlotsOk(st) && EnvStored(st.scopes, env, f)
    requires level < |st.scopes| && x in st.scopes[level]
    ensures var slot := st.scopes[level][x].slot;
            && slot < |f.locals| == |f.init|
            && EnvStored(st.scopes, env[level := env[level][x := v]],
                         f.(locals := f.locals[slot := Enc(v)], init := f.init[slot := true]))
  {
    var slot := st.scopes[level][x].slot;
    assert InSlot(f, slot, env[level][x]);
    var f' := f.(locals := f.locals[slot := Enc(v)], init := f.init[slot := true]);
    var env' := env[level := env[level][x := v]];
    forall k, y | 0 <= k < |st.scopes| && y in st.scopes[k]
      ensures y in env'[k] && InSlot(f', st.scopes[k][y].slot, env'[k][y])
    {
      assert InSlot(f, st.scopes[k][y].slot, env[k][y]);
      if !(k == level && y == x) {
        assert st.scopes[k][y].slot != slot;
      }
    }
  }

  // ---- Layout and meaning of statements ----

  lemma DeclLayout(c: Context, fn: FunctionDecl, st: State, t: Stmt, st': State, g: Gen, base: nat, at: nat, x: Emitted)
      returns (y: Emitted, ty: Type)
    requires t.VarDecl? && StmtCodes(c, fn, st, t, st', g, base, at, x)
    ensures Codes(c, st, t.init, Some(ty), g, base, 0, y)
    ensures Declare(|fn.params|, st, t.name, ty, if t.isConst then CONST else LET) == Success(st')
    ensures st'.next == st.next + 1 <= 256 && x == Emitted(y.code + B.Encode(B.Store(st.next)), y.g)
  {
    hide B.Encode;
    var a := CheckExpr(c.fs, st.scopes, t.init).value;
    ty := TypeOf(a).value;
    y := GenExpr(a, g, base, 0).value;
  }

  lemma AssignLayout(c: Context, fn: FunctionDecl, st: State, t: Stmt, st': State, g: Gen, base: nat, at: nat, x: Emitted)
      returns (y: Emitted, level: nat)
    requires t.Assign? && StmtCodes(c, fn, st, t, st', g, base, at, x)
    ensures FindLevel(st.scopes, t.name) == Some(level)
    ensures Codes(c, st, t.value, Some(st.scopes[level][t.name].ty), g, base, 0, y)
    ensures st' == st && x == Emitted(y.code + B.Encode(B.Store(st.scopes[level][t.name].slot)), y.g)
  {
    hide B.Encode;
    level := FindLevel(st.scopes, t.name).value;
    y := GenExpr(CheckExpr(c.fs, st.scopes, t.value).value, g, base, 0).value;
  }

  /** Evaluate, then store: the common shape of a declaration and an assignment. */
  lemma {:induction false} SimStore(c: Context, st: State, e: Expr, ty: Type, env: Env, g: Gen, base: nat, s: M.State, y: Emitted, slot: nat, fuel: nat)
      returns (k: nat)
    requires Linked(c) && Codes(c, st, e, Some(ty), g, base, 0, y)
    requires y.g.pool <= c.p.constants && Ready(c, st, env, base, y.g.maxTemp, s)
    requires At(CodeOf(c.p, s), s.top.ip, y.code + B.Encode(B.Store(slot))) && slot < base && slot <= 255
    ensures var r := EvalExpr(c.fs, c.w, e, env, s.trace, fuel);
            var o := M.Steps(c.p, c.w, M.Running(s), k);
            && !r.Wrong?
            && (|| Stopped(o, k, fuel, r)
                || (&& r.Ok? && o.Running? && o.s.callers == s.callers && o.s.stack == s.stack && o.s.trace == r.tr
                    && o.s.top.ip == s.top.ip + |y.code| + 2 && SameBelow(s.top, o.s.top, 0)
                    && exists f: M.Frame :: SameBelow(s.top, f, base) && slot < |f.locals| == |f.init|
                         && o.s.top == f.(ip := o.s.top.ip, locals := f.locals[slot := Enc(r.value)], init := f.init[slot := true])))
    decreases fuel, e, 3
  {
    hide M.Steps, EvalExpr, CheckExpr, GenExpr, ExprReady, Ready, Linked, CodeOf, At, ExprCode, TypeIn, Codes, B.Encode;
    UseCodes(c, st, e, Some(ty), g, base, 0, y);
    SlotInstrSize(slot);
    AtSplit(CodeOf(c.p, s), s.top.ip, y.code, B.Encode(B.Store(slot)));
    MakeReady(c, st, e, env, g, base, 0, y.g.maxTemp, s);
    Operand(c, st, e, env, base, y.g.maxTemp, s, fuel);
    var r := EvalExpr(c.fs, c.w, e, env, s.trace, fuel);
    k := SimExpr(c, st, e, env, g, base, 0, s, fuel);
    var o := M.Steps(c.p, c.w, M.Running(s), k);
    if Stopped(o, k, fuel, r) {
      return;
    }
    AfterOperand(c, st, env, base, y.g.maxTemp, s, o, [Enc(r.value)], r.tr, s.top.ip + |y.code|, base);
    ReadyFacts(c, st, env, base, y.g.maxTemp, o.s);
    StepStore(c.p, c.w, o.s, slot, s.stack, Enc(r.value));
    Continue(c.p, c.w, s, k, o.s, 1);
    k := k + 1;
    assert SameBelow(s.top, o.s.top, base);
  }

  lemma DeclMeaning(c: Context, t: Stmt, env: Env, tr: Trace, fuel: nat)
    requires t.VarDecl? && env != []
    ensures var whole, a := ExecStmt(c.fs, c.w, t, env, tr, fuel), EvalExpr(c.fs, c.w, t.init, env, tr, fuel);
            if !a.Ok? then whole == a.PropagateFailure()
            else whole == Ok(Normal(env[|env| - 1 := env[|env| - 1][t.name := a.value]]), a.tr)
  {
  }

  lemma {:induction false} SimDecl(c: Context, fn: FunctionDecl, st: State, t: Stmt, st': State, env: Env, g: Gen, base: nat, s: M.State, x: Emitted, fuel: nat)
      returns (k: nat)
    requires Linked(c) && t.VarDecl? && StmtCodes(c, fn, st, t, st', g, base, s.top.ip, x) && CodeReady(c, st, st'.next, env, base, s, x)
    ensures StmtSim(c, t, st', env, s, x, fuel, k)
    decreases fuel, t, 0
  {
    hide M.Steps, EvalExpr, ExecStmt, CheckExpr, CheckStmt, GenExpr, GenStmt, ExprReady, Linked, CodeOf, At, ExprCode, TypeIn, Codes, B.Encode, Declare;
    var y, ty := DeclLayout(c, fn, st, t, st', g, base, s.top.ip, x);
    SlotInstrSize(st.next);
    DeclMeaning(c, t, env, s.trace, fuel);
    k := SimStore(c, st, t.init, ty, env, g, base, s, y, st.next, fuel);
    var r := EvalExpr(c.fs, c.w, t.init, env, s.trace, fuel);
    var o := M.Steps(c.p, c.w, M.Running(s), k);
    if Stopped(o, k, fuel, r) {
      StopsWhole(o, k, fuel, r, ExecStmt(c.fs, c.w, t, env, s.trace, fuel));
      return;
    }
    var f: M.Frame :| SameBelow(s.top, f, base) && st.next < |f.locals| == |f.init|
      && o.s.top == f.(ip := o.s.top.ip, locals := f.locals[st.next := Enc(r.value)], init := f.init[st.next := true]);
    StoredKept(st, env, s.top, f, base);
    StoreDeclared(|fn.params|, st, env, f, t.name, r.value, ty, if t.isConst then CONST else LET);
    StoredSameLocals(st'.scopes, env[|env| - 1 := env[|env| - 1][t.name := r.value]],
                     f.(locals := f.locals[st.next := Enc(r.value)], init := f.init[st.next := true]), o.s.top);
  }

  lemma StoredSameLocals(sc: Scopes, env: Env, f: M.Frame, f': M.Frame)
    requires EnvStored(sc, env, f) && f'.locals == f.locals && f'.init == f.init
    ensures EnvStored(sc, env, f')
  {
    assert forall slot: nat, v: Val :: InSlot(f, slot, v) ==> InSlot(f', slot, v);
  }

  lemma AssignMeaning(c: Context, t: Stmt, env: Env, tr: Trace, fuel: nat, level: nat)
    requires t.Assign? && FindLevel(env, t.name) == Some(level)
    ensures var whole, a := ExecStmt(c.fs, c.w, t, env, tr, fuel), EvalExpr(c.fs, c.w, t.value, env, tr, fuel);
            if !a.Ok? then whole == a.PropagateFailure()
            else whole == Ok(Normal(env[level := env[level][t.name := a.value]]), a.tr)
  {
  }

  lemma {:induction false} SimAssign(c: Context, fn: FunctionDecl, st: State, t: Stmt, st': State, env: Env, g: Gen, base: nat, s: M.State, x: Emitted, fuel: nat)
      returns (k: nat)
    requires Linked(c) && t.Assign? && StmtCodes(c, fn, st, t, st', g, base, s.top.ip, x) && CodeReady(c, st, st'.next, env, base, s, x)
    ensures StmtSim(c, t, st', env, s, x, fuel, k)
    decreases fuel, t, 0
  {
    hide M.Steps, EvalExpr, ExecStmt, CheckExpr, CheckStmt, GenExpr, GenStmt, ExprReady, Linked, CodeOf, At, ExprCode, TypeIn, Codes, B.Encode, FindLevel,
         SlotsOk, Stopped, SameBelow, EnvStored;
    var y, level := AssignLayout(c, fn, st, t, st', g, base, s.top.ip, x);
    SameLevel(st.scopes, env, t.name);
    var slot := st.scopes[level][t.name].slot;
    SlotInstrSize(slot);
    SlotSmall(st, level, t.name);
    AssignMeaning(c, t, env, s.trace, fuel, level);
    k := SimStore(c, st, t.value, st.scopes[level][t.name].ty, env, g, base, s, y, slot, fuel);
    var r := EvalExpr(c.fs, c.w, t.value, env, s.trace, fuel);
    var o := M.Steps(c.p, c.w, M.Running(s), k);
    if Stopped(o, k, fuel, r) {
      StopsWhole(o, k, fuel, r, ExecStmt(c.fs, c.w, t, env, s.trace, fuel));
      return;
    }
    var f: M.Frame :| SameBelow(s.top, f, base) && slot < |f.locals| == |f.init|
      && o.s.top == f.(ip := o.s.top.ip, locals := f.locals[slot := Enc(r.value)], init := f.init[slot := true]);
    AssignedStored(st, env, s.top, f, o.s.top, base, t.name, r.value, level);
  }

  lemma AssignedStored(st: State, env: Env, f0: M.Frame, f: M.Frame, f': M.Frame, base: nat, x: Text, v: Val, level: nat)
    requires SlotsOk(st) && EnvStored(st.scopes, env, f0) && st.next <= base && SameBelow(f0, f, base) && |f0.locals| == |f0.init|
    requires level < |st.scopes| && x in st.scopes[level]
    requires var slot := st.scopes[level][x].slot;
             slot < |f.locals| == |f.init| && f'.locals == f.locals[slot := Enc(v)] && f'.init == f.init[slot := true]
    ensures EnvStored(st.scopes, env[level := env[level][x := v]], f')
  {
    hide SlotsOk, SameBelow;
    StoredKept(st, env, f0, f, base);
    StoreAssigned(st, env, f, x, v, level);
    var slot := st.scopes[level][x].slot;
    StoredSameLocals(st.scopes, env[level := env[level][x := v]], f.(locals := f.locals[slot := Enc(v)], init := f.init[slot := true]), f');
  }

  lemma EndLayout(c: Context, fn: FunctionDecl, st: State, t: Stmt, st': State, g: Gen, base: nat, at: nat, x: Emitted)
      returns (e: Expr, y: Emitted, ty: Option<Type>)
    requires t.CallStmt? || (t.Return? && t.result.Some?)
    requires StmtCodes(c, fn, st, t, st', g, base, at, x)
    ensures e == if t.CallStmt? then t.call else t.result.value
    ensures Codes(c, st, e, ty, g, base, 0, y)
    ensures st' == st && x == Emitted(y.code + B.Encode(if t.CallStmt? then B.Pop else B.Ret), y.g)
    ensures |B.Encode(if t.CallStmt? then B.Pop else B.Ret)| == 1
  {
    hide B.Encode;
    EndSize();
    e := if t.CallStmt? then t.call else t.result.value;
    var a := CheckExpr(c.fs, st.scopes, e).value;
    ty := TypeOf(a);
    y := GenExpr(a, g, base, 0).value;
  }

  lemma EndSize()
    ensures |B.Encode(B.Pop)| == 1 == |B.Encode(B.Ret)|
    ensures |B.Encode(B.Not)| == 1 == |B.Encode(B.FNeg)|
  {
  }

  lemma EndMeaning(c: Context, t: Stmt, e: Expr, env: Env, tr: Trace, fuel: nat)
    requires t.CallStmt? || (t.Return? && t.result.Some?)
    requires e == if t.CallStmt? then t.call else t.result.value
    ensures var whole, a := ExecStmt(c.fs, c.w, t, env, tr, fuel), EvalExpr(c.fs, c.w, e, env, tr, fuel);
            if !a.Ok? then whole == a.PropagateFailure()
            else whole == Ok(if t.CallStmt? then Normal(env) else Returns(a.value), a.tr)
  {
  }

  /** `return e;` and a call statement: evaluate, then RET or POP. */
  lemma {:induction false} SimEnd(c: Context, fn: FunctionDecl, st: State, t: Stmt, st': State, env: Env, g: Gen, base: nat, s: M.State, x: Emitted, fuel: nat)
      returns (k: nat)
    requires t.CallStmt? || (t.Return? && t.result.Some?)
    requires Linked(c) && StmtCodes(c, fn, st, t, st', g, base, s.top.ip, x) && CodeReady(c, st, st'.next, env, base, s, x)
    ensures StmtSim(c, t, st', env, s, x, fuel, k)
    decreases fuel, t, 0
  {
    hide M.Steps, EvalExpr, ExecStmt, CheckExpr, CheckStmt, GenExpr, GenStmt, ExprReady, Linked, CodeOf, At, ExprCode, TypeIn, Codes, B.Encode;
    var e, y, ty := EndLayout(c, fn, st, t, st', g, base, s.top.ip, x);
    UseCodes(c, st, e, ty, g, base, 0, y);
    EndMeaning(c, t, e, env, s.trace, fuel);
    AtSplit(CodeOf(c.p, s), s.top.ip, y.code, B.Encode(if t.CallStmt? then B.Pop else B.Ret));
    MakeReady(c, st, e, env, g, base, 0, y.g.maxTemp, s);
    Operand(c, st, e, env, base, y.g.maxTemp, s, fuel);
    var r := EvalExpr(c.fs, c.w, e, env, s.trace, fuel);
    k := SimExpr(c, st, e, env, g, base, 0, s, fuel);
    var o := M.Steps(c.p, c.w, M.Running(s), k);
    if Stopped(o, k, fuel, r) {
      StopsWhole(o, k, fuel, r, ExecStmt(c.fs, c.w, t, env, s.trace, fuel));
      return;
    }
    AfterOperand(c, st, env, base, y.g.maxTemp, s, o, [Enc(r.value)], r.tr, s.top.ip + |y.code|, base);
    Continue(c.p, c.w, s, k, o.s, 1);
    k := k + 1;
    if t.CallStmt? {
      StepPop(c.p, c.w, o.s, s.stack, Enc(r.value));
      StoredSameLocals(st.scopes, env, o.s.top, o.s.top.(ip := o.s.top.ip + 1));
    } else {
      StepReturn(c.p, c.w, o.s, s.stack, Enc(r.value));
      SameReturn(s, o.s, Enc(r.value), r.tr);
    }
  }

  lemma SameReturn(s: M.State, s1: M.State, v: Value, tr: Trace)
    requires s1.callers == s.callers && s1.top.base == s.top.base <= |s.stack| && s1.stack == s.stack + [v]
    ensures ReturnedTo(s1, v, tr) == ReturnedTo(s, v, tr)
  {
    assert s1.stack[..s.top.base] == s.stack[..s.top.base];
  }

  /** `return;` and the end of a function without a return type: PUSH_CONST 0, RET. */
  lemma SimReturnZero(c: Context, g: Gen, s: M.State, x: Emitted, fuel: nat) returns (k: nat)
    requires ReturnZero(g) == Success(x) && x.g.pool <= c.p.constants
    requires At(CodeOf(c.p, s), s.top.ip, x.code) && s.top.base <= |s.stack| <= M.MAX_STACK
    ensures CallGoal(s, M.Steps(c.p, c.w, M.Running(s), k), k, Ok(VUnit, s.trace), fuel)
  {
    hide M.Steps, GenConst, At, CodeOf, B.Encode;
    var zero := GenConst(g, IntV(0)).value;
    AtSplit(CodeOf(c.p, s), s.top.ip, zero.code, B.Encode(B.Ret));
    k := SimConst(c, g, VUnit, s, 0, fuel);
    var o := M.Steps(c.p, c.w, M.Running(s), k);
    if Stopped(o, k, fuel, Ok(VUnit, s.trace)) {
      return;
    }
    SameCode(c, s, o.s);
    StepReturn(c.p, c.w, o.s, s.stack, IntV(0));
    SameReturn(s, o.s, IntV(0), s.trace);
    Continue(c.p, c.w, s, k, o.s, 1);
    k := k + 1;
  }

  lemma SimReturnNothing(c: Context, fn: FunctionDecl, st: State, t: Stmt, st': State, env: Env, g: Gen, base: nat, s: M.State, x: Emitted, fuel: nat)
      returns (k: nat)
    requires t.Return? && t.result.None?
    requires StmtCodes(c, fn, st, t, st', g, base, s.top.ip, x) && CodeReady(c, st, st'.next, env, base, s, x)
    ensures StmtSim(c, t, st', env, s, x, fuel, k)
  {
    hide M.Steps, At, CodeOf, ReturnZero, EnvTyped, SlotsOk, EnvStored;
    assert CheckStmt(c.fs, fn, st, t).value.0 == Return(None);
    assert GenStmt(Return(None), g, base, s.top.ip) == ReturnZero(g);
    k := SimReturnZero(c, g, s, x, fuel);
  }

  // ---- Control flow ----

  /** The condition and its branch: on to the next instruction, or to `target`. */
  ghost predicate BranchGoal(s: M.State, o: M.Outcome, k: nat, r: Res<Val>, ip: nat, target: nat, base: nat, fuel: nat) {
    || (r.Ok? && r.value.VBool? && k > 0 && Pushed(s, o, [], r.tr, if r.value.b then ip else target, base))
    || Stopped(o, k, fuel, r)
  }

  lemma {:induction false} SimBranch(c: Context, st: State, e: Expr, env: Env, g: Gen, base: nat, maxTemp: nat, s: M.State, y: Emitted, target: nat, fuel: nat)
      returns (k: nat)
    requires Linked(c) && Codes(c, st, e, Some(TBool), g, base, 0, y) && target <= MAX_CODE
    requires y.g.pool <= c.p.constants && y.g.maxTemp <= maxTemp && Ready(c, st, env, base, maxTemp, s)
    requires At(CodeOf(c.p, s), s.top.ip, y.code + B.Encode(B.JmpIfFalse(target)))
    ensures !EvalExpr(c.fs, c.w, e, env, s.trace, fuel).Wrong?
    ensures EvalExpr(c.fs, c.w, e, env, s.trace, fuel).Ok? ==> EvalExpr(c.fs, c.w, e, env, s.trace, fuel).value.VBool?
    ensures BranchGoal(s, M.Steps(c.p, c.w, M.Running(s), k), k, EvalExpr(c.fs, c.w, e, env, s.trace, fuel),
                       s.top.ip + |y.code| + 5, target, base, fuel)
    decreases fuel, e, 3
  {
    hide M.Steps, EvalExpr, CheckExpr, GenExpr, ExprReady, Ready, Linked, CodeOf, At, ExprCode, TypeIn, Codes, B.Encode;
    UseCodes(c, st, e, Some(TBool), g, base, 0, y);
    AtSplit(CodeOf(c.p, s), s.top.ip, y.code, B.Encode(B.JmpIfFalse(target)));
    MakeReady(c, st, e, env, g, base, 0, maxTemp, s);
    Operand(c, st, e, env, base, maxTemp, s, fuel);
    var r := EvalExpr(c.fs, c.w, e, env, s.trace, fuel);
    k := SimExpr(c, st, e, env, g, base, 0, s, fuel);
    var o := M.Steps(c.p, c.w, M.Running(s), k);
    if Stopped(o, k, fuel, r) {
      return;
    }
    AfterOperand(c, st, env, base, maxTemp, s, o, [Enc(r.value)], r.tr, s.top.ip + |y.code|, base);
    StepBranch(c.p, c.w, o.s, target, s.stack, r.value.b);
    Continue(c.p, c.w, s, k, o.s, 1);
    k := k + 1;
    assert s.stack + [] == s.stack;
  }

  /** Type soundness and slot allocation for a statement that has run to its end. */
  lemma AfterStmt(c: Context, fn: FunctionDecl, st: State, t: Stmt, st': State, g: Gen, at: nat, x: Emitted, env: Env, base: nat, maxTemp: nat, s: M.State, fuel: nat)
    requires Linked(c) && StmtCodes(c, fn, st, t, st', g, base, at, x) && Ready(c, st, env, base, maxTemp, s)
    ensures FlowOutcome(ExecStmt(c.fs, c.w, t, env, s.trace, fuel), st'.scopes, fn.returnType, AlwaysReturns(t))
    ensures SlotsOk(st') && Nested(st, st')
  {
    StmtSound(c.fs, c.w, fn, st, t, env, s.trace, fuel);
    StmtSlots(c.fs, fn, st, t);
  }

  lemma AfterStmts(c: Context, fn: FunctionDecl, st: State, ts: seq<Stmt>, st': State, g: Gen, at: nat, x: Emitted, env: Env, base: nat, maxTemp: nat, s: M.State, fuel: nat)
    requires Linked(c) && StmtsCodes(c, fn, st, ts, st', g, base, at, x) && Ready(c, st, env, base, maxTemp, s)
    ensures FlowOutcome(ExecStmts(c.fs, c.w, ts, env, s.trace, fuel), st'.scopes, fn.returnType, AnyReturns(ts))
    ensures SlotsOk(st') && Nested(st, st')
  {
    StmtsSound(c.fs, c.w, fn, st, ts, env, s.trace, fuel);
    StmtsSlots(c.fs, fn, st, ts);
  }

  lemma AfterBlock(c: Context, fn: FunctionDecl, st: State, ts: seq<Stmt>, next: nat, g: Gen, at: nat, x: Emitted, env: Env, base: nat, maxTemp: nat, s: M.State, fuel: nat)
    requires Linked(c) && BlockCodes(c, fn, st, ts, next, g, base, at, x) && Ready(c, st, env, base, maxTemp, s)
    ensures FlowOutcome(LeaveScope(ExecStmts(c.fs, c.w, ts, env + [map[]], s.trace, fuel)), st.scopes, fn.returnType, AnyReturns(ts))
    ensures SlotsOk(State(st.scopes, next)) && st.next <= next
  {
    BlockSound(c.fs, c.w, fn, st, ts, env, s.trace, fuel);
    BlockSlots(c.fs, fn, st, ts);
    assert CloseScope(CheckStmts(c.fs, fn, OpenScope(st), ts).value.1).scopes == st.scopes;
  }

  /** The machine is ready again after a statement that completed. */
  lemma ReadyAgain(c: Context, st: State, st': State, env: Env, env': Env, base: nat, maxTemp: nat, s: M.State, o: M.Outcome, tr: Trace, ip: nat)
    requires Ready(c, st, env, base, maxTemp, s) && Continues(s, o, st'.scopes, env', tr, ip)
    requires SlotsOk(st') && EnvTyped(st'.scopes, env') && st'.next <= base
    ensures Ready(c, st', env', base, maxTemp, o.s) && CodeOf(c.p, o.s) == CodeOf(c.p, s)
  {
  }

  lemma StmtsLayout(c: Context, fn: FunctionDecl, st: State, ts: seq<Stmt>, st': State, g: Gen, base: nat, at: nat, x: Emitted)
      returns (st1: State, head: Emitted, rest: Emitted)
    requires ts != [] && StmtsCodes(c, fn, st, ts, st', g, base, at, x)
    ensures StmtCodes(c, fn, st, ts[0], st1, g, base, at, head)
    ensures StmtsCodes(c, fn, st1, ts[1..], st', head.g, base, at + |head.code|, rest)
    ensures head.g.GrowsTo(rest.g) && x == Emitted(head.code + rest.code, rest.g)
  {
    hide CheckStmt, GenStmt;
    var r := CheckStmt(c.fs, fn, st, ts[0]).value;
    st1 := r.1;
    var as' := CheckStmts(c.fs, fn, st, ts).value.0;
    assert as'[1..] == CheckStmts(c.fs, fn, st1, ts[1..]).value.0;
    head := GenStmt(r.0, g, base, at).value;
    rest := GenStmts(as'[1..], head.g, base, at + |head.code|).value;
  }

  lemma StmtsMeaning(c: Context, ts: seq<Stmt>, env: Env, tr: Trace, fuel: nat)
    requires ts != []
    ensures var whole, a := ExecStmts(c.fs, c.w, ts, env, tr, fuel), ExecStmt(c.fs, c.w, ts[0], env, tr, fuel);
            if !a.Ok? || a.value.Returns? then whole == a
            else whole == ExecStmts(c.fs, c.w, ts[1..], a.value.env, a.tr, fuel)
  {
  }

  lemma {:induction false} SimStmts(c: Context, fn: FunctionDecl, st: State, ts: seq<Stmt>, st': State, env: Env, g: Gen, base: nat, s: M.State, x: Emitted, fuel: nat)
      returns (k: nat)
    requires Linked(c) && StmtsCodes(c, fn, st, ts, st', g, base, s.top.ip, x) && CodeReady(c, st, st'.next, env, base, s, x)
    ensures FlowGoal(s, M.Steps(c.p, c.w, M.Running(s), k), k, ExecStmts(c.fs, c.w, ts, env, s.trace, fuel), st'.scopes, s.top.ip + |x.code|, fuel)
    decreases fuel, ts, 0
  {
    hide M.Steps, ExecStmt, ExecStmts, CheckStmt, CheckStmts, GenStmt, GenStmts, Ready, Linked, CodeOf, At, StmtCodes, StmtsCodes,
         EnvTyped, SlotsOk, EnvStored, SameBelow, Yields;
    if ts == [] {
      k := 0;
      SimNoStmts(c, fn, st, st', env, g, base, s, x, fuel);
      return;
    }
    var st1, head, rest := StmtsLayout(c, fn, st, ts, st', g, base, s.top.ip, x);
    StmtsMeaning(c, ts, env, s.trace, fuel);
    AfterStmt(c, fn, st, ts[0], st1, g, s.top.ip, head, env, base, rest.g.maxTemp, s, fuel);
    AfterStmts(c, fn, st, ts, st', g, s.top.ip, x, env, base, rest.g.maxTemp, s, fuel);
    NextGrows(c, fn, st1, ts[1..], st', head.g, base, s.top.ip + |head.code|, rest);
    AtSplit(CodeOf(c.p, s), s.top.ip, head.code, rest.code);
    LessTemp(c, st, env, base, rest.g.maxTemp, head.g.maxTemp, s);
    var whole := ExecStmts(c.fs, c.w, ts, env, s.trace, fuel);
    var a := ExecStmt(c.fs, c.w, ts[0], env, s.trace, fuel);
    k := SimStmt(c, fn, st, ts[0], st1, env, g, base, s, head, fuel);
    var o := M.Steps(c.p, c.w, M.Running(s), k);
    if Stopped(o, k, fuel, a) {
      StopsWhole(o, k, fuel, a, whole);
      return;
    }
    if a.value.Returns? {
      return;
    }
    ReadyAgain(c, st, st1, env, a.value.env, base, rest.g.maxTemp, s, o, a.tr, s.top.ip + |head.code|);
    var j := SimStmts(c, fn, st1, ts[1..], st', a.value.env, head.g, base, o.s, rest, fuel);
    Continue(c.p, c.w, s, k, o.s, j);
    FlowFrom(s, o.s, M.Steps(c.p, c.w, M.Running(o.s), j), j, k + j, whole, st'.scopes, s.top.ip + |x.code|, fuel, fuel);
    k := k + j;
  }

  lemma NextGrows(c: Context, fn: FunctionDecl, st: State, ts: seq<Stmt>, st': State, g: Gen, base: nat, at: nat, x: Emitted)
    requires StmtsCodes(c, fn, st, ts, st', g, base, at, x)
    ensures st.next <= st'.next
  {
  }

  lemma SimNoStmts(c: Context, fn: FunctionDecl, st: State, st': State, env: Env, g: Gen, base: nat, s: M.State, x: Emitted, fuel: nat)
    requires StmtsCodes(c, fn, st, [], st', g, base, s.top.ip, x) && CodeReady(c, st, st'.next, env, base, s, x)
    ensures FlowGoal(s, M.Steps(c.p, c.w, M.Running(s), 0), 0, ExecStmts(c.fs, c.w, [], env, s.trace, fuel), st'.scopes, s.top.ip + |x.code|, fuel)
  {
  }

  lemma OpenReady(c: Context, st: State, env: Env, base: nat, maxTemp: nat, s: M.State)
    requires Ready(c, st, env, base, maxTemp, s)
    ensures Ready(c, OpenScope(st), env + [map[]], base, maxTemp, s)
  {
    var open, env' := OpenScope(st), env + [map[]];
    OpenSlots(st);
    assert forall k :: 0 <= k < |env| ==> open.scopes[k] == st.scopes[k] && env'[k] == env[k];
    forall k | 0 <= k < |open.scopes| ensures ScopeTyped(open.scopes[k], env'[k]) {
      assert k < |env| ==> ScopeTyped(st.scopes[k], env[k]);
    }
    forall k, x | 0 <= k < |open.scopes| && x in open.scopes[k] ensures x in env'[k] && InSlot(s.top, open.scopes[k][x].slot, env'[k][x]) {
      assert x in st.scopes[k];
    }
  }

  /** Leaving a block: the outer variables are where they were. */
  lemma CloseStored(outer: Scopes, inner: Scopes, env: Env, f: M.Frame)
    requires EnvStored(inner, env, f) && |inner| == |outer| + 1 && inner[..|outer|] == outer
    ensures EnvStored(outer, env[..|env| - 1], f)
  {
    forall k, x | 0 <= k < |outer| && x in outer[k] ensures x in env[..|env| - 1][k] && InSlot(f, outer[k][x].slot, env[..|env| - 1][k][x]) {
      assert inner[..|outer|][k] == inner[k];
    }
  }

  lemma {:induction false} SimBlock(c: Context, fn: FunctionDecl, st: State, ts: seq<Stmt>, next: nat, env: Env, g: Gen, base: nat, s: M.State, x: Emitted, fuel: nat)
      returns (k: nat)
    requires Linked(c) && BlockCodes(c, fn, st, ts, next, g, base, s.top.ip, x) && CodeReady(c, st, next, env, base, s, x)
    ensures FlowGoal(s, M.Steps(c.p, c.w, M.Running(s), k), k, LeaveScope(ExecStmts(c.fs, c.w, ts, env + [map[]], s.trace, fuel)),
                     st.scopes, s.top.ip + |x.code|, fuel)
    decreases fuel, ts, 1
  {
    hide M.Steps, ExecStmts, CheckStmts, GenStmts, Ready, Linked, CodeOf, At, StmtsCodes, EnvTyped, SlotsOk, EnvStored, SameBelow;
    var st' := BlockEnd(c, fn, st, ts, next, g, base, s.top.ip, x);
    OpenReady(c, st, env, base, x.g.maxTemp, s);
    k := SimStmts(c, fn, OpenScope(st), ts, st', env + [map[]], g, base, s, x, fuel);
    var r := ExecStmts(c.fs, c.w, ts, env + [map[]], s.trace, fuel);
    var o := M.Steps(c.p, c.w, M.Running(s), k);
    if r.Ok? && r.value.Normal? && Continues(s, o, st'.scopes, r.value.env, r.tr, s.top.ip + |x.code|) {
      StoredLength(st'.scopes, r.value.env, o.s.top);
      CloseStored(st.scopes, st'.scopes, r.value.env, o.s.top);
    }
  }

  lemma StoredLength(sc: Scopes, env: Env, f: M.Frame)
    requires EnvStored(sc, env, f)
    ensures |sc| == |env|
  {
  }

  lemma BlockEnd(c: Context, fn: FunctionDecl, st: State, ts: seq<Stmt>, next: nat, g: Gen, base: nat, at: nat, x: Emitted) returns (st': State)
    requires BlockCodes(c, fn, st, ts, next, g, base, at, x)
    ensures StmtsCodes(c, fn, OpenScope(st), ts, st', g, base, at, x) && st'.next == next
    ensures |st'.scopes| == |st.scopes| + 1 && st'.scopes[..|st.scopes|] == st.scopes
  {
    st' := CheckStmts(c.fs, fn, OpenScope(st), ts).value.1;
  }

  lemma {:induction false} SimStmt(c: Context, fn: FunctionDecl, st: State, t: Stmt, st': State, env: Env, g: Gen, base: nat, s: M.State, x: Emitted, fuel: nat)
      returns (k: nat)
    requires Linked(c) && StmtCodes(c, fn, st, t, st', g, base, s.top.ip, x) && CodeReady(c, st, st'.next, env, base, s, x)
    ensures StmtSim(c, t, st', env, s, x, fuel, k)
    decreases fuel, t, 1
  {
    hide *;
    match t
    case Block(ts) =>
      k := SimBlockStmt(c, fn, st, t, st', env, g, base, s, x, fuel);
    case VarDecl(_, _, _, _, _) =>
      k := SimDecl(c, fn, st, t, st', env, g, base, s, x, fuel);
    case Assign(_, _, _) =>
      k := SimAssign(c, fn, st, t, st', env, g, base, s, x, fuel);
    case If(_, _, _) =>
      k := SimIf(c, fn, st, t, st', env, g, base, s, x, fuel);
    case While(_, _) =>
      k := SimWhile(c, fn, st, t, st', env, g, base, s, x, fuel);
    case Return(result) =>
      if result.None? {
        k := SimReturnNothing(c, fn, st, t, st', env, g, base, s, x, fuel);
      } else {
        k := SimEnd(c, fn, st, t, st', env, g, base, s, x, fuel);
      }
    case CallStmt(_) =>
      k := SimEnd(c, fn, st, t, st', env, g, base, s, x, fuel);
  }

  lemma {:induction false} SimBlockStmt(c: Context, fn: FunctionDecl, st: State, t: Stmt, st': State, env: Env, g: Gen, base: nat, s: M.State, x: Emitted, fuel: nat)
      returns (k: nat)
    requires Linked(c) && t.Block? && StmtCodes(c, fn, st, t, st', g, base, s.top.ip, x) && CodeReady(c, st, st'.next, env, base, s, x)
    ensures StmtSim(c, t, st', env, s, x, fuel, k)
    decreases fuel, t, 0
  {
    hide M.Steps, ExecStmt, ExecStmts, LeaveScope, StmtCodes, BlockCodes, CodeReady, FlowGoal, Linked;
    BlockStmt(c, fn, st, t, st', env, g, base, s, x, fuel);
    k := SimBlock(c, fn, st, t.body, st'.next, env, g, base, s, x, fuel);
  }

  lemma BlockStmt(c: Context, fn: FunctionDecl, st: State, t: Stmt, st': State, env: Env, g: Gen, base: nat, s: M.State, x: Emitted, fuel: nat)
    requires t.Block? && StmtCodes(c, fn, st, t, st', g, base, s.top.ip, x) && CodeReady(c, st, st'.next, env, base, s, x)
    ensures BlockCodes(c, fn, st, t.body, st'.next, g, base, s.top.ip, x) && st'.scopes == st.scopes
    ensures ExecStmt(c.fs, c.w, t, env, s.trace, fuel) == LeaveScope(ExecStmts(c.fs, c.w, t.body, env + [map[]], s.trace, fuel))
  {
    hide Ready, At, CodeOf;
  }

  // ---- If ----

  ghost predicate IfShape(c: Context, fn: FunctionDecl, st: State, t: Stmt, st': State, g: Gen, base: nat, at: nat, x: Emitted,
                          b: Emitted, th: Emitted, st1: State, el: Emitted)
    requires t.If?
  {
    var thenAt := at + |b.code| + 5;
    var thenEnd := thenAt + |th.code|;
    && Codes(c, st, t.cond, Some(TBool), g, base, 0, b) && b.g.GrowsTo(th.g)
    && BlockCodes(c, fn, st, t.thn, st1.next, b.g, base, thenAt, th) && st1.scopes == st.scopes
    && if t.els.None? then
         && st' == st1 && x == Emitted(b.code + B.Encode(B.JmpIfFalse(thenEnd)) + th.code, th.g)
       else
         && th.g.GrowsTo(el.g) && st1.next <= st'.next
         && if AnyReturns(t.thn) then
              && StmtCodes(c, fn, st1, t.els.value, st', th.g, base, thenEnd, el)
              && x == Emitted(b.code + B.Encode(B.JmpIfFalse(thenEnd)) + th.code + el.code, el.g)
            else
              && StmtCodes(c, fn, st1, t.els.value, st', th.g, base, thenEnd + 5, el)
              && x == Emitted(b.code + B.Encode(B.JmpIfFalse(thenEnd + 5)) + th.code
                              + B.Encode(B.Jmp(thenEnd + 5 + |el.code|)) + el.code, el.g)
  }

  lemma IfLayout(c: Context, fn: FunctionDecl, st: State, t: Stmt, st': State, g: Gen, base: nat, at: nat, x: Emitted)
      returns (b: Emitted, th: Emitted, st1: State, el: Emitted)
    requires t.If? && StmtCodes(c, fn, st, t, st', g, base, at, x)
    ensures IfShape(c, fn, st, t, st', g, base, at, x, b, th, st1, el)
    ensures st'.scopes == st.scopes
  {
    hide B.Encode, CheckExpr, GenExpr, CheckStmts, GenStmts, AnyReturns;
    var a := CheckExpr(c.fs, st.scopes, t.cond).value;
    b := GenExpr(a, g, base, 0).value;
    var inner := CheckStmts(c.fs, fn, OpenScope(st), t.thn).value;
    CheckedReturnsAll(c.fs, fn, OpenScope(st), t.thn);
    th := GenStmts(inner.0, b.g, base, at + |b.code| + 5).value;
    st1 := CloseScope(inner.1);
    assert st1.scopes == st.scopes;
    el := th;
    if t.els.Some? {
      var e := CheckStmt(c.fs, fn, st1, t.els.value).value;
      var from := at + |b.code| + 5 + |th.code| + (if AnyReturns(t.thn) then 0 else 5);
      el := GenStmt(e.0, th.g, base, from).value;
    }
  }

  lemma IfMeaning(c: Context, t: Stmt, env: Env, tr: Trace, fuel: nat)
    requires t.If?
    ensures var whole, a := ExecStmt(c.fs, c.w, t, env, tr, fuel), EvalExpr(c.fs, c.w, t.cond, env, tr, fuel);
            if !a.Ok? then whole == a.PropagateFailure()
            else
              && whole.Extends(a.tr)
              && (a.value.VBool? && a.value.b ==> whole == LeaveScope(ExecStmts(c.fs, c.w, t.thn, env + [map[]], a.tr, fuel)))
              && (a.value.VBool? && !a.value.b && t.els.None? ==> whole == Ok(Normal(env), a.tr))
              && (a.value.VBool? && !a.value.b && t.els.Some? ==> whole == ExecStmt(c.fs, c.w, t.els.value, env, a.tr, fuel))
  {
  }

  lemma JumpSize(target: int)
    ensures |B.Encode(B.JmpIfFalse(target))| == 5 == |B.Encode(B.Jmp(target))|
  {
  }

  /** Where the pieces of an `if` lie, whichever way it was compiled. */
  lemma IfPieces(c: Context, fn: FunctionDecl, st: State, t: Stmt, st': State, env: Env, g: Gen, base: nat, s: M.State, x: Emitted,
                 b: Emitted, th: Emitted, st1: State, el: Emitted) returns (target: nat)
    requires t.If? && IfShape(c, fn, st, t, st', g, base, s.top.ip, x, b, th, st1, el) && CodeReady(c, st, st'.next, env, base, s, x)
    ensures target <= s.top.ip + |x.code| <= |CodeOf(c.p, s)| <= MAX_CODE
    ensures b.g.pool <= th.g.pool <= x.g.pool && b.g.maxTemp <= th.g.maxTemp <= x.g.maxTemp && st1.next <= base
    ensures var code, thenAt := CodeOf(c.p, s), s.top.ip + |b.code| + 5;
            && At(code, s.top.ip, b.code + B.Encode(B.JmpIfFalse(target))) && At(code, thenAt, th.code)
            && (t.els.None? ==> target == thenAt + |th.code| == s.top.ip + |x.code|)
            && (t.els.Some? ==> At(code, target, el.code) && target + |el.code| == s.top.ip + |x.code| && el.g == x.g)
            && (t.els.Some? ==> StmtCodes(c, fn, st1, t.els.value, st', th.g, base, target, el))
            && (t.els.Some? && !AnyReturns(t.thn) ==> At(code, thenAt + |th.code|, B.Encode(B.Jmp(s.top.ip + |x.code|))))
  {
    hide At, CodeOf, B.Encode, Codes, BlockCodes, StmtCodes, EnvTyped, SlotsOk, EnvStored, AnyReturns;
    var code, ip := CodeOf(c.p, s), s.top.ip;
    var thenEnd := ip + |b.code| + 5 + |th.code|;
    target := if t.els.Some? && !AnyReturns(t.thn) then thenEnd + 5 else thenEnd;
    var branch := B.Encode(B.JmpIfFalse(target));
    JumpSize(target);
    if t.els.None? {
      AtSplit(code, ip, b.code + branch, th.code);
    } else if AnyReturns(t.thn) {
      AtSplit(code, ip, b.code + branch + th.code, el.code);
      AtSplit(code, ip, b.code + branch, th.code);
    } else {
      var jump := B.Encode(B.Jmp(thenEnd + 5 + |el.code|));
      JumpSize(thenEnd + 5 + |el.code|);
      AtSplit(code, ip, b.code + branch + th.code + jump, el.code);
      AtSplit(code, ip, b.code + branch + th.code, jump);
      AtSplit(code, ip, b.code + branch, th.code);
    }
    AtBound(code, ip, x.code);
  }

  lemma AtBound(code: seq<Byte>, ip: nat, bs: seq<Byte>)
    requires At(code, ip, bs)
    ensures ip + |bs| <= |code|
  {
  }

  lemma NotWrong(c: Context, fn: FunctionDecl, st: State, t: Stmt, st': State, g: Gen, at: nat, x: Emitted, env: Env, base: nat, maxTemp: nat, s: M.State, fuel: nat)
    requires Linked(c) && StmtCodes(c, fn, st, t, st', g, base, at, x) && Ready(c, st, env, base, maxTemp, s)
    ensures !ExecStmt(c.fs, c.w, t, env, s.trace, fuel).Wrong?
  {
    hide ExecStmt, StmtCodes, Linked, Ready;
    AfterStmt(c, fn, st, t, st', g, at, x, env, base, maxTemp, s, fuel);
  }

  lemma StoppedFlow(s: M.State, o: M.Outcome, k: nat, r: Res<Flow>, sc: Scopes, ip: nat, fuel: nat)
    requires Stopped(o, k, fuel, r)
    ensures FlowGoal(s, o, k, r, sc, ip, fuel)
  {
  }

  lemma FrameKept(s: M.State, o: M.Outcome, tr: Trace, ip: nat, keep: nat)
    requires Pushed(s, o, [], tr, ip, keep)
    ensures o.s.callers == s.callers && o.s.stack == s.stack && o.s.trace == tr && SameBelow(s.top, o.s.top, 0)
  {
    assert s.stack + [] == s.stack;
  }

  /** Nothing left to run. */
  lemma FlowHere(c: Context, st: State, env: Env, base: nat, maxTemp: nat, s: M.State, fuel: nat)
    requires Ready(c, st, env, base, maxTemp, s)
    ensures FlowGoal(s, M.Running(s), 0, Ok(Normal(env), s.trace), st.scopes, s.top.ip, fuel)
  {
  }

  lemma ElseReady(c: Context, fn: FunctionDecl, st: State, ts: seq<Stmt>, st1: State, g: Gen, at: nat, x: Emitted, env: Env, base: nat, maxTemp: nat, s: M.State)
    requires Linked(c) && BlockCodes(c, fn, st, ts, st1.next, g, base, at, x) && Ready(c, st, env, base, maxTemp, s)
    requires st1.scopes == st.scopes && st1.next <= base
    ensures Ready(c, st1, env, base, maxTemp, s)
  {
    hide BlockCodes, Linked, EnvTyped, EnvStored;
    AfterBlock(c, fn, st, ts, st1.next, g, at, x, env, base, maxTemp, s, 0);
    assert st1 == State(st.scopes, st1.next);
  }

  /** The `then` block, and the jump over the `else` branch where there is one. */
  lemma {:induction false} SimThen(c: Context, fn: FunctionDecl, st: State, t: Stmt, next: nat, env: Env, g: Gen, base: nat, s: M.State, th: Emitted, end: nat, fuel: nat)
      returns (k: nat)
    requires Linked(c) && t.If? && BlockCodes(c, fn, st, t.thn, next, g, base, s.top.ip, th) && CodeReady(c, st, next, env, base, s, th)
    requires t.els.None? ==> s.top.ip + |th.code| == end
    requires t.els.Some? && !AnyReturns(t.thn) ==> At(CodeOf(c.p, s), s.top.ip + |th.code|, B.Encode(B.Jmp(end))) && end <= MAX_CODE
    ensures FlowGoal(s, M.Steps(c.p, c.w, M.Running(s), k), k, LeaveScope(ExecStmts(c.fs, c.w, t.thn, env + [map[]], s.trace, fuel)), st.scopes, end, fuel)
    decreases fuel, t.thn, 2
  {
    hide M.Steps, ExecStmts, LeaveScope, Ready, Linked, CodeOf, At, BlockCodes, EnvTyped, SlotsOk, EnvStored, SameBelow, B.Encode, AnyReturns, Yields;
    var r := LeaveScope(ExecStmts(c.fs, c.w, t.thn, env + [map[]], s.trace, fuel));
    AfterBlock(c, fn, st, t.thn, next, g, s.top.ip, th, env, base, th.g.maxTemp, s, fuel);
    k := SimBlock(c, fn, st, t.thn, next, env, g, base, s, th, fuel);
    var o := M.Steps(c.p, c.w, M.Running(s), k);
    if Stopped(o, k, fuel, r) || r.value.Returns? || t.els.None? {
      return;
    }
    SameFn(s.top, o.s.top);
    SameCode(c, s, o.s);
    StepJump(c.p, c.w, o.s, end);
    Continue(c.p, c.w, s, k, o.s, 1);
    StoredSameLocals(st.scopes, r.value.env, o.s.top, o.s.top.(ip := end));
    SameMoved(s.top, o.s.top, end);
    k := k + 1;
  }

  lemma SameFn(f: M.Frame, f': M.Frame)
    requires SameBelow(f, f', 0)
    ensures f'.fn == f.fn && f'.base == f.base
  {
  }

  lemma SameMoved(f: M.Frame, f': M.Frame, ip: nat)
    requires SameBelow(f, f', 0)
    ensures SameBelow(f, f'.(ip := ip), 0)
  {
  }

  lemma {:induction false} SimIf(c: Context, fn: FunctionDecl, st: State, t: Stmt, st': State, env: Env, g: Gen, base: nat, s: M.State, x: Emitted, fuel: nat)
      returns (k: nat)
    requires Linked(c) && t.If? && StmtCodes(c, fn, st, t, st', g, base, s.top.ip, x) && CodeReady(c, st, st'.next, env, base, s, x)
    ensures StmtSim(c, t, st', env, s, x, fuel, k)
    decreases fuel, t, 0
  {
    hide M.Steps, EvalExpr, ExecStmt, ExecStmts, CheckStmt, CheckStmts, GenStmt, GenStmts, Ready, Linked, CodeOf, At, StmtCodes, BlockCodes, Codes,
         EnvTyped, SlotsOk, EnvStored, SameBelow, B.Encode, AnyReturns, AlwaysReturns, LeaveScope, FlowGoal, WellShaped;
    var b, th, st1, el := IfLayout(c, fn, st, t, st', g, base, s.top.ip, x);
    var target := IfPieces(c, fn, st, t, st', env, g, base, s, x, b, th, st1, el);
    IfMeaning(c, t, env, s.trace, fuel);
    NotWrong(c, fn, st, t, st', g, s.top.ip, x, env, base, x.g.maxTemp, s, fuel);
    var whole := ExecStmt(c.fs, c.w, t, env, s.trace, fuel);
    var a := EvalExpr(c.fs, c.w, t.cond, env, s.trace, fuel);
    k := SimBranch(c, st, t.cond, env, g, base, x.g.maxTemp, s, b, target, fuel);
    var o := M.Steps(c.p, c.w, M.Running(s), k);
    if Stopped(o, k, fuel, a) {
      StopsWhole(o, k, fuel, a, whole);
      StoppedFlow(s, o, k, whole, st'.scopes, s.top.ip + |x.code|, fuel);
      return;
    }
    AfterOperand(c, st, env, base, x.g.maxTemp, s, o, [], a.tr, o.s.top.ip, base);
    FrameKept(s, o, a.tr, o.s.top.ip, base);
    var j;
    if a.value.b {
      LessTemp(c, st, env, base, x.g.maxTemp, th.g.maxTemp, o.s);
      j := SimThen(c, fn, st, t, st1.next, env, b.g, base, o.s, th, s.top.ip + |x.code|, fuel);
    } else if t.els.None? {
      NoSteps(c, o.s);
      j := 0;
      FlowHere(c, st, env, base, x.g.maxTemp, o.s, fuel);
    } else {
      ElseReady(c, fn, st, t.thn, st1, b.g, s.top.ip + |b.code| + 5, th, env, base, x.g.maxTemp, o.s);
      j := SimStmt(c, fn, st1, t.els.value, st', env, th.g, base, o.s, el, fuel);
    }
    Continue(c.p, c.w, s, k, o.s, j);
    FlowFrom(s, o.s, M.Steps(c.p, c.w, M.Running(o.s), j), j, k + j, whole, st'.scopes, s.top.ip + |x.code|, fuel, fuel);
    k := k + j;
  }

  // ---- While ----

  ghost predicate WhileShape(c: Context, fn: FunctionDecl, st: State, t: Stmt, st': State, g: Gen, base: nat, at: nat, x: Emitted, b: Emitted, bd: Emitted)
    requires t.While?
  {
    && Codes(c, st, t.cond, Some(TBool), g, base, 0, b) && b.g.GrowsTo(bd.g)
    && BlockCodes(c, fn, st, t.body, st'.next, b.g, base, at + |b.code| + 5, bd) && st'.scopes == st.scopes
    && x == Emitted(b.code + B.Encode(B.JmpIfFalse(at + |b.code| + |bd.code| + 10)) + bd.code + B.Encode(B.Jmp(at)), bd.g)
  }

  lemma WhileLayout(c: Context, fn: FunctionDecl, st: State, t: Stmt, st': State, g: Gen, base: nat, at: nat, x: Emitted)
      returns (b: Emitted, bd: Emitted)
    requires t.While? && StmtCodes(c, fn, st, t, st', g, base, at, x)
    ensures WhileShape(c, fn, st, t, st', g, base, at, x, b, bd)
  {
    hide B.Encode;
    b := GenExpr(CheckExpr(c.fs, st.scopes, t.cond).value, g, base, 0).value;
    var inner := CheckStmts(c.fs, fn, OpenScope(st), t.body).value;
    bd := GenStmts(inner.0, b.g, base, at + |b.code| + 5).value;
    assert CloseScope(inner.1).scopes == st.scopes;
  }

  lemma WhilePieces(c: Context, fn: FunctionDecl, st: State, t: Stmt, st': State, env: Env, g: Gen, base: nat, s: M.State, x: Emitted, b: Emitted, bd: Emitted)
    requires t.While? && WhileShape(c, fn, st, t, st', g, base, s.top.ip, x, b, bd) && CodeReady(c, st, st'.next, env, base, s, x)
    ensures s.top.ip + |x.code| <= |CodeOf(c.p, s)| <= MAX_CODE && |x.code| == |b.code| + |bd.code| + 10
    ensures var code, end := CodeOf(c.p, s), s.top.ip + |x.code|;
            && At(code, s.top.ip, b.code + B.Encode(B.JmpIfFalse(end)))
            && At(code, s.top.ip + |b.code| + 5, bd.code)
            && At(code, s.top.ip + |b.code| + 5 + |bd.code|, B.Encode(B.Jmp(s.top.ip)))
  {
    hide At, CodeOf, B.Encode, Codes, BlockCodes, EnvTyped, SlotsOk, EnvStored;
    var code, ip := CodeOf(c.p, s), s.top.ip;
    var branch, jump := B.Encode(B.JmpIfFalse(ip + |b.code| + |bd.code| + 10)), B.Encode(B.Jmp(ip));
    JumpSize(ip + |b.code| + |bd.code| + 10);
    JumpSize(ip);
    AtSplit(code, ip, b.code + branch + bd.code, jump);
    AtSplit(code, ip, b.code + branch, bd.code);
    AtBound(code, ip, x.code);
  }

  lemma WhileMeaning(c: Context, t: Stmt, env: Env, tr: Trace, fuel: nat)
    requires t.While? && fuel > 0
    ensures var whole, a := ExecStmt(c.fs, c.w, t, env, tr, fuel), EvalExpr(c.fs, c.w, t.cond, env, tr, fuel);
            if !a.Ok? then whole == a.PropagateFailure()
            else if !a.value.VBool? then whole == Wrong
            else if !a.value.b then whole == Ok(Normal(env), a.tr)
            else
              var b := LeaveScope(ExecStmts(c.fs, c.w, t.body, env + [map[]], a.tr, fuel));
              && whole.Extends(a.tr)
              && if !b.Ok? || b.value.Returns? then whole == b
                 else whole == ExecStmt(c.fs, c.w, t, b.value.env, b.tr, fuel - 1)
  {
  }

  /** A loop without fuel: nothing has been run yet. */
  lemma WhileStarved(c: Context, t: Stmt, env: Env, s: M.State, sc: Scopes, ip: nat)
    requires t.While?
    ensures FlowGoal(s, M.Steps(c.p, c.w, M.Running(s), 0), 0, ExecStmt(c.fs, c.w, t, env, s.trace, 0), sc, ip, 0)
  {
  }

  /** Every iteration starts from the same code with the same outer variables in the same slots. */
  lemma {:induction false} SimWhile(c: Context, fn: FunctionDecl, st: State, t: Stmt, st': State, env: Env, g: Gen, base: nat, s: M.State, x: Emitted, fuel: nat)
      returns (k: nat)
    requires Linked(c) && t.While? && StmtCodes(c, fn, st, t, st', g, base, s.top.ip, x) && CodeReady(c, st, st'.next, env, base, s, x)
    ensures StmtSim(c, t, st', env, s, x, fuel, k)
    decreases fuel, t, 0
  {
    hide M.Steps, EvalExpr, ExecStmt, ExecStmts, CheckStmt, CheckStmts, GenStmt, GenStmts, Ready, Linked, CodeOf, At, StmtCodes, BlockCodes, Codes,
         EnvTyped, SlotsOk, EnvStored, SameBelow, B.Encode, LeaveScope, FlowGoal, WellShaped;
    if fuel == 0 {
      k := 0;
      WhileStarved(c, t, env, s, st'.scopes, s.top.ip + |x.code|);
      return;
    }
    var b, bd := WhileLayout(c, fn, st, t, st', g, base, s.top.ip, x);
    WhilePieces(c, fn, st, t, st', env, g, base, s, x, b, bd);
    WhileMeaning(c, t, env, s.trace, fuel);
    NotWrong(c, fn, st, t, st', g, s.top.ip, x, env, base, x.g.maxTemp, s, fuel);
    var whole := ExecStmt(c.fs, c.w, t, env, s.trace, fuel);
    var end := s.top.ip + |x.code|;
    var a := EvalExpr(c.fs, c.w, t.cond, env, s.trace, fuel);
    k := SimBranch(c, st, t.cond, env, g, base, x.g.maxTemp, s, b, end, fuel);
    var o := M.Steps(c.p, c.w, M.Running(s), k);
    if Stopped(o, k, fuel, a) {
      StopsWhole(o, k, fuel, a, whole);
      StoppedFlow(s, o, k, whole, st'.scopes, end, fuel);
      return;
    }
    AfterOperand(c, st, env, base, x.g.maxTemp, s, o, [], a.tr, o.s.top.ip, base);
    FrameKept(s, o, a.tr, o.s.top.ip, base);
    var j;
    if a.value.b {
      j := SimIteration(c, fn, st, t, st', env, g, base, o.s, x, b, bd, s.top.ip, fuel);
      FlowFrom(s, o.s, M.Steps(c.p, c.w, M.Running(o.s), j), j, k + j, whole, st'.scopes, end, fuel, fuel);
    } else {
      j := 0;
      NoSteps(c, o.s);
      FlowHere(c, st, env, base, x.g.maxTemp, o.s, fuel);
      FlowFrom(s, o.s, o, 0, k, whole, st'.scopes, end, fuel, fuel);
    }
    Continue(c.p, c.w, s, k, o.s, j);
    k := k + j;
  }

  /** The body, the jump back and the rest of the loop. `s` stands at the body. */
  lemma {:induction false} SimIteration(c: Context, fn: FunctionDecl, st: State, t: Stmt, st': State, env: Env, g: Gen, base: nat, s: M.State, x: Emitted,
                                        b: Emitted, bd: Emitted, start: nat, fuel: nat) returns (k: nat)
    requires Linked(c) && t.While? && fuel > 0 && StmtCodes(c, fn, st, t, st', g, base, start, x) && WhileShape(c, fn, st, t, st', g, base, start, x, b, bd)
    requires s.top.ip == start + |b.code| + 5 && st'.next <= base && x.g.pool <= c.p.constants
    requires Ready(c, st, env, base, x.g.maxTemp, s) && start <= MAX_CODE
    requires At(CodeOf(c.p, s), s.top.ip, bd.code) && At(CodeOf(c.p, s), s.top.ip + |bd.code|, B.Encode(B.Jmp(start)))
    requires At(CodeOf(c.p, s), start, x.code)
    ensures var r := LeaveScope(ExecStmts(c.fs, c.w, t.body, env + [map[]], s.trace, fuel));
            FlowGoal(s, M.Steps(c.p, c.w, M.Running(s), k), k,
                     if !r.Ok? || r.value.Returns? then r else ExecStmt(c.fs, c.w, t, r.value.env, r.tr, fuel - 1), st'.scopes, start + |x.code|, fuel)
    decreases fuel, t.body, 2
  {
    hide M.Steps, ExecStmt, ExecStmts, CheckStmt, GenStmt, LeaveScope, Ready, Linked, CodeOf, At, StmtCodes, BlockCodes, Codes, EnvTyped, SlotsOk, EnvStored,
         SameBelow, B.Encode, Yields, WellShaped;
    var r := LeaveScope(ExecStmts(c.fs, c.w, t.body, env + [map[]], s.trace, fuel));
    AfterBlock(c, fn, st, t.body, st'.next, b.g, s.top.ip, bd, env, base, x.g.maxTemp, s, fuel);
    k := SimBlock(c, fn, st, t.body, st'.next, env, b.g, base, s, bd, fuel);
    var o := M.Steps(c.p, c.w, M.Running(s), k);
    if Stopped(o, k, fuel, r) {
      if r.Ok? && r.value.Normal? {
        ReadySlots(c, st, env, base, x.g.maxTemp, s);
        LoopNotWrong(c, fn, st, t, st', g, start, x, r.value.env, base, r.tr, fuel - 1);
        StopsWhole(o, k, fuel, r, ExecStmt(c.fs, c.w, t, r.value.env, r.tr, fuel - 1));
      }
      return;
    }
    if r.value.Returns? {
      return;
    }
    ReadySlots(c, st, env, base, x.g.maxTemp, s);
    ReadyAgain(c, st, st, env, r.value.env, base, x.g.maxTemp, s, o, r.tr, s.top.ip + |bd.code|);
    StepJump(c.p, c.w, o.s, start);
    Continue(c.p, c.w, s, k, o.s, 1);
    var s1 := Moved(o.s, start, o.s.stack);
    MovedReady(c, st, r.value.env, base, x.g.maxTemp, o.s, start);
    SameMoved(s.top, o.s.top, start);
    var j := SimWhile(c, fn, st, t, st', r.value.env, g, base, s1, x, fuel - 1);
    Continue(c.p, c.w, s, k + 1, s1, j);
    FlowFrom(s, s1, M.Steps(c.p, c.w, M.Running(s1), j), j, k + 1 + j, ExecStmt(c.fs, c.w, t, r.value.env, r.tr, fuel - 1),
             st'.scopes, start + |x.code|, fuel - 1, fuel);
    k := k + 1 + j;
  }

  lemma ReadySlots(c: Context, st: State, env: Env, base: nat, maxTemp: nat, s: M.State)
    requires Ready(c, st, env, base, maxTemp, s)
    ensures SlotsOk(st) && st.next <= base
  {
  }

  lemma MovedReady(c: Context, st: State, env: Env, base: nat, maxTemp: nat, s: M.State, ip: nat)
    requires Ready(c, st, env, base, maxTemp, s)
    ensures Ready(c, st, env, base, maxTemp, Moved(s, ip, s.stack)) && CodeOf(c.p, Moved(s, ip, s.stack)) == CodeOf(c.p, s)
  {
    hide EnvTyped, SlotsOk, EnvStored;
    StoredSameLocals(st.scopes, env, s.top, s.top.(ip := ip));
  }

  lemma LoopNotWrong(c: Context, fn: FunctionDecl, st: State, t: Stmt, st': State, g: Gen, at: nat, x: Emitted, env: Env, base: nat, tr: Trace, fuel: nat)
    requires Linked(c) && StmtCodes(c, fn, st, t, st', g, base, at, x) && EnvTyped(st.scopes, env)
    ensures !ExecStmt(c.fs, c.w, t, env, tr, fuel).Wrong?
  {
    hide ExecStmt, CheckStmt, GenStmt;
    StmtSound(c.fs, c.w, fn, st, t, env, tr, fuel);
  }

  // ---- Functions ----

  /** Arguments arrive in the slots of the parameters. */
  lemma {:induction false} ParamsStored(n: nat, st: State, scope: map<Text, Val>, ps: seq<Param>, args: seq<Val>, f: M.Frame)
    requires SlotsOk(st) && |st.scopes| == 1 && DeclareParams(n, st, ps).Success? && |args| == |ps|
    requires EnvStored(st.scopes, [scope], f)
    requires forall i :: 0 <= i < |ps| ==> InSlot(f, st.next + i, args[i])
    ensures EnvStored(DeclareParams(n, st, ps).value.scopes, [BindParams(scope, ps, args)], f)
    decreases ps
  {
    if ps != [] {
      var st1 := Declare(n, st, ps[0].name, ps[0].ty, PARAM).value;
      DeclareSlots(n, st, ps[0].name, ps[0].ty, PARAM);
      assert InSlot(f, st.next + 0, args[0]);
      StoreDeclared(n, st, [scope], f, ps[0].name, args[0], ps[0].ty, PARAM);
      assert f.locals[st.next := Enc(args[0])] == f.locals && f.init[st.next := true] == f.init;
      forall i | 0 <= i < |ps| - 1 ensures InSlot(f, st1.next + i, args[1..][i]) {
        assert InSlot(f, st.next + (i + 1), args[i + 1]);
      }
      assert [scope][0 := scope[ps[0].name := args[0]]] == [scope[ps[0].name := args[0]]];
      ParamsStored(n, st1, scope[ps[0].name := args[0]], ps[1..], args[1..], f);
    }
  }

  /** What a linked function is made of. */
  lemma FunctionLayout(c: Context, i: nat) returns (st: State, st': State, g: Gen, base: nat, body: Emitted, all: Emitted)
    requires Linked(c) && i < |c.fs|
    ensures var fn := c.fs[i];
            && DeclareParams(|fn.params|, State([map[]], 0), fn.params) == Success(st) && SlotsOk(st)
            && StmtsCodes(c, fn, st, fn.body, st', g, base, 0, body) && st'.next == base && g == Gen(c.pools[i], 0)
            && c.p.functions[i].code == all.code && |all.code| <= MAX_CODE && all.g.pool <= c.p.constants && body.g.GrowsTo(all.g)
            && c.p.functions[i].paramCount == |fn.params| == st.next
            && c.p.functions[i].paramCount + c.p.functions[i].localCount == base + all.g.maxTemp
            && (fn.returnType.Some? ==> AnyReturns(fn.body) && all == body)
            && (fn.returnType.None? ==> ReturnZero(body.g).Success? && all == Emitted(body.code + ReturnZero(body.g).value.code, ReturnZero(body.g).value.g))
  {
    hide Intern, B.Encode;
    assert FunctionLinked(c, i);
    var fn := c.fs[i];
    var a := CheckFunction(c.fs, fn).value;
    st := DeclareParams(|fn.params|, State([map[]], 0), fn.params).value;
    ParamSlots(|fn.params|, State([map[]], 0), fn.params);
    st' := CheckStmts(c.fs, fn, st, fn.body).value.1;
    g := Gen(c.pools[i], 0);
    base := st'.next;
    body := GenStmts(a.body, g, base, 0).value;
    all := GenBody(a, g).value;
  }

  lemma FunctionMeaning(c: Context, i: nat, vs: seq<Val>, tr: Trace, fuel: nat)
    requires i < |c.fs| && |vs| == |c.fs[i].params|
    ensures var fn := c.fs[i];
            var whole, a := CallFunction(c.fs, c.w, fn, vs, tr, fuel), ExecStmts(c.fs, c.w, fn.body, [BindParams(map[], fn.params, vs)], tr, fuel);
            if !a.Ok? then whole == a.PropagateFailure()
            else if a.value.Returns? then whole == Ok(a.value.v, a.tr)
            else whole == if fn.returnType.None? then Ok(VUnit, a.tr) else Wrong
  {
  }

  /** A fresh frame holds the parameters. */
  lemma FrameReady(c: Context, i: nat, vs: seq<Val>, s: M.State, st: State, base: nat, maxTemp: nat)
    requires Linked(c) && i < |c.fs| && AllTyped(vs, ParamTypes(c.fs[i].params)) && Entered(c, i, vs, s)
    requires DeclareParams(|c.fs[i].params|, State([map[]], 0), c.fs[i].params) == Success(st) && SlotsOk(st)
    requires c.p.functions[i].paramCount == |c.fs[i].params| == st.next <= base
    requires c.p.functions[i].paramCount + c.p.functions[i].localCount == base + maxTemp && |c.p.functions[i].code| <= MAX_CODE
    ensures Ready(c, st, [BindParams(map[], c.fs[i].params, vs)], base, maxTemp, s) && CodeOf(c.p, s) == c.p.functions[i].code
    ensures s.top.ip == 0 && s.top.base == |s.stack|
  {
    hide Linked, CheckFunction, GenFunction;
    var st0 := State([map[]], 0);
    ParamsTyped(|c.fs[i].params|, st0, map[], c.fs[i].params, vs);
    forall j | 0 <= j < |vs| ensures InSlot(s.top, st0.next + j, vs[j]) {
      assert EncAll(vs)[j] == Enc(vs[j]);
    }
    ParamsStored(|c.fs[i].params|, st0, map[], c.fs[i].params, vs, s.top);
  }

  lemma {:induction false} SimFunction(c: Context, i: nat, vs: seq<Val>, s: M.State, fuel: nat) returns (k: nat)
    requires Linked(c) && i < |c.fs| && AllTyped(vs, ParamTypes(c.fs[i].params)) && Entered(c, i, vs, s)
    ensures CallGoal(s, M.Steps(c.p, c.w, M.Running(s), k), k, CallFunction(c.fs, c.w, c.fs[i], vs, s.trace, fuel), fuel)
    decreases fuel, c.fs[i]
  {
    hide M.Steps, CallFunction, ExecStmts, Ready, Linked, CodeOf, At, StmtsCodes, EnvTyped, SlotsOk, EnvStored, SameBelow, Entered, ReturnZero,
         DeclareParams, BindParams, AnyReturns, Yields;
    var fn := c.fs[i];
    var st, st', g, base, body, all := FunctionLayout(c, i);
    NextGrows(c, fn, st, fn.body, st', g, base, 0, body);
    FrameReady(c, i, vs, s, st, base, all.g.maxTemp);
    FunctionMeaning(c, i, vs, s.trace, fuel);
    var env := [BindParams(map[], fn.params, vs)];
    AfterStmts(c, fn, st, fn.body, st', g, 0, body, env, base, all.g.maxTemp, s, fuel);
    SoundCall(c, i, vs, s.trace, fuel);
    WholeCode(all.code);
    if fn.returnType.None? {
      AtSplit(CodeOf(c.p, s), 0, body.code, ReturnZero(body.g).value.code);
    }
    LessTemp(c, st, env, base, all.g.maxTemp, body.g.maxTemp, s);
    var a := ExecStmts(c.fs, c.w, fn.body, env, s.trace, fuel);
    var whole := CallFunction(c.fs, c.w, fn, vs, s.trace, fuel);
    k := SimStmts(c, fn, st, fn.body, st', env, g, base, s, body, fuel);
    var o := M.Steps(c.p, c.w, M.Running(s), k);
    if Stopped(o, k, fuel, a) {
      StopsWhole(o, k, fuel, a, whole);
      return;
    }
    if a.value.Returns? {
      return;
    }
    SameFn(s.top, o.s.top);
    SameCode(c, s, o.s);
    ReadyFacts(c, st, env, base, all.g.maxTemp, s);
    var j := SimReturnZero(c, body.g, o.s, ReturnZero(body.g).value, fuel);
    Continue(c.p, c.w, s, k, o.s, j);
    var q := M.Steps(c.p, c.w, M.Running(o.s), j);
    if Stopped(q, j, fuel, whole) {
      StopsLater(q, j, fuel, k + j, fuel, whole);
    }
    k := k + j;
  }

  lemma WholeCode(code: seq<Byte>)
    ensures At(code, 0, code)
  {
    assert code[0..0 + |code|] == code;
  }
}
