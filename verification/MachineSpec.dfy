/** One step of the virtual machine, byte by byte, with every error the machine can raise. */
module MachineSpec {
  import opened Prelude
  import opened Bytes
  import opened Floats
  import opened Values
  import opened Bytecode

  const MAX_FRAMES := 1024
  const MAX_STACK := 65536

  datatype Frame = Frame(fn: nat, ip: nat, base: nat, locals: seq<Value>, init: seq<bool>)

  /** A running machine has at least one frame: the active one and those waiting for it, outermost first. */
  datatype State = State(callers: seq<Frame>, top: Frame, stack: seq<Value>, trace: Trace)

  datatype Outcome = Running(s: State) | Done(v: Value, tr: Trace) | Fault(e: Error, tr: Trace)

  /** A value taken from the operand stack, or the error raised instead. */
  datatype Taken<+T> = Took(v: T, s: State) | Refused(e: Error, tr: Trace) {
    predicate IsFailure() {
      Refused?
    }

    function PropagateFailure(): Outcome
      requires Refused?
    {
      Fault(e, tr)
    }

    function Extract(): (T, State)
      requires Took?
    {
      (v, s)
    }
  }

  function TakeValue(s: State): Taken<Value> {
    if |s.stack| <= s.top.base then Refused(StackUnderflow, s.trace)
    else Took(s.stack[|s.stack| - 1], s.(stack := s.stack[..|s.stack| - 1]))
  }

  function TakeInt(s: State): Taken<I64> {
    match TakeValue(s)
    case Took(IntV(n), s1) => Took(n, s1)
    case Took(_, s1) => Refused(ExpectedInt, s.trace)
    case Refused(e, tr) => Refused(e, tr)
  }

  function TakeFloat(s: State): Taken<F64> {
    match TakeValue(s)
    case Took(FloatV(f), s1) => Took(f, s1)
    case Took(_, s1) => Refused(ExpectedFloat, s.trace)
    case Refused(e, tr) => Refused(e, tr)
  }

  function TakeBool(s: State): Taken<bool> {
    match TakeInt(s)
    case Took(n, s1) => if n == 0 || n == 1 then Took(n == 1, s1) else Refused(ExpectedBool, s.trace)
    case Refused(e, tr) => Refused(e, tr)
  }

  /** The top `count` values, in the order they were pushed. */
  function TakeArguments(s: State, count: nat): Taken<seq<Value>> {
    var size := |s.stack|;
    if size < s.top.base || count > size - s.top.base then Refused(StackUnderflow, s.trace)
    else Took(s.stack[size - count..], s.(stack := s.stack[..size - count]))
  }

  function Push(s: State, v: Value): Outcome {
    if |s.stack| >= MAX_STACK then Fault(OperandStackOverflow, s.trace)
    else Running(s.(stack := s.stack + [v]))
  }

  function BoolV(b: bool): Value {
    IntV(if b then 1 else 0)
  }

  function PushInt(s: State, c: Computed<I64>): Outcome {
    match c
    case Computed(n) => Push(s, IntV(n))
    case Failed(e) => Fault(e, s.trace)
  }

  function PushFloat(s: State, c: Computed<F64>): Outcome {
    match c
    case Computed(f) => Push(s, FloatV(f))
    case Failed(e) => Fault(e, s.trace)
  }

  function ExecInt(s: State, i: Instr): Outcome {
    var (b, s1) :- TakeInt(s);
    var (a, s2) :- TakeInt(s1);
    match i
    case Add => PushInt(s2, CheckedInt(a + b))
    case Sub => PushInt(s2, CheckedInt(a - b))
    case Mul => PushInt(s2, CheckedInt(a * b))
    case Div => PushInt(s2, DivideInt(a, b))
    case _ => Push(s2, BoolV(a < b))
  }

  function ExecFloat(w: World, s: State, i: Instr): Outcome {
    var (b, s1) :- TakeFloat(s);
    var (a, s2) :- TakeFloat(s1);
    match i
    case FAdd => PushFloat(s2, CheckedFloat(w.fadd(a, b)))
    case FSub => PushFloat(s2, CheckedFloat(w.fsub(a, b)))
    case FMul => PushFloat(s2, CheckedFloat(w.fmul(a, b)))
    case FDiv => PushFloat(s2, DivideFloat(w, a, b))
    case FCmpEq => Push(s2, BoolV(Equal(a, b)))
    case _ => Push(s2, BoolV(Less(a, b)))
  }

  function ExecEqual(s: State): Outcome {
    var (b, s1) :- TakeValue(s);
    var (a, s2) :- TakeValue(s1);
    match (a, b)
    case (IntV(x), IntV(y)) => Push(s2, BoolV(x == y))
    case (StringV(x), StringV(y)) => Push(s2, BoolV(x == y))
    case (FloatV(_), FloatV(_)) => Fault(FloatEquality, s.trace)
    case _ => Fault(MismatchedEquality, s.trace)
  }

  /** A fresh frame: arguments in the first locals, every other local uninitialised. */
  function MakeFrame(p: Program, index: nat, args: seq<Value>, base: nat): Frame
    requires index < |p.functions|
    requires |args| <= p.functions[index].paramCount + p.functions[index].localCount
  {
    var count := p.functions[index].paramCount + p.functions[index].localCount;
    Frame(index, 0, base,
          args + seq(count - |args|, _ => IntV(0)),
          seq(count, i => i < |args|))
  }

  function ExecCall(p: Program, s: State, index: int, argc: int): Outcome {
    if argc < 0 then Fault(OutOfBounds, s.trace) else
    var (args, s1) :- TakeArguments(s, argc);
    if 1 + |s.callers| >= MAX_FRAMES then Fault(CallStackOverflow, s.trace)
    else if !(0 <= index < |p.functions|) || argc > p.functions[index].paramCount + p.functions[index].localCount
      then Fault(OutOfBounds, s.trace)
    else Running(State(s.callers + [s1.top], MakeFrame(p, index, args, |s1.stack|), s1.stack, s.trace))
  }

  function ValuesToRuntime(vs: seq<Value>): (r: Option<seq<RuntimeValue>>)
    ensures r.Some? ==> |r.value| == |vs|
  {
    if vs == [] then Some([])
    else
      var tail := ValuesToRuntime(vs[1..]);
      if tail.None? then None else
      match vs[0]
      case IntV(n) => Some([RuntimeInt(n)] + tail.value)
      case StringV(t) => Some([RuntimeString(t)] + tail.value)
      case FloatV(_) => None
  }

  function ValueFromRuntime(v: RuntimeValue): Value {
    match v
    case RuntimeInt(n) => IntV(n)
    case RuntimeString(t) => StringV(t)
  }

  function ExecRuntime(p: Program, w: World, s: State, index: int, argc: int): Outcome {
    if argc < 0 then Fault(OutOfBounds, s.trace) else
    var (args, s1) :- TakeArguments(s, argc);
    var rargs := ValuesToRuntime(args);
    if rargs.None? then Fault(RuntimeFloatArgument, s.trace)
    else if !(0 <= index < |p.constants|) then Fault(OutOfBounds, s.trace) else
    var ev := Event(if p.constants[index].StringV? then p.constants[index].t else [], rargs.value);
    match w.runtime(s.trace, ev)
    case Returned(v) => Push(s1.(trace := s.trace + [ev]), ValueFromRuntime(v))
    case Threw => Fault(RuntimeFailure, s.trace + [ev])
  }

  function ExecRet(s: State): Outcome {
    var (v, s1) :- TakeValue(s);
    if s.callers == [] then Done(v, s.trace) else
    var n := |s.callers| - 1;
    Push(State(s.callers[..n], s.callers[n], s1.stack[..s.top.base], s.trace), v)
  }

  /** `s` already points behind the instruction. */
  function Exec(p: Program, w: World, s: State, i: Instr): Outcome {
    match i
    case PushConst(index) =>
      if 0 <= index < |p.constants| then Push(s, p.constants[index]) else Fault(OutOfBounds, s.trace)
    case Load(slot) =>
      if !(0 <= slot < |s.top.init| && slot < |s.top.locals|) then Fault(OutOfBounds, s.trace)
      else if !s.top.init[slot] then Fault(UninitializedLocal, s.trace)
      else Push(s, s.top.locals[slot])
    case Store(slot) =>
      var (v, s1) :- TakeValue(s);
      if !(0 <= slot < |s.top.init| && slot < |s.top.locals|) then Fault(OutOfBounds, s.trace)
      else Running(s1.(top := s1.top.(locals := s1.top.locals[slot := v], init := s1.top.init[slot := true])))
    case Add => ExecInt(s, i)
    case Sub => ExecInt(s, i)
    case Mul => ExecInt(s, i)
    case Div => ExecInt(s, i)
    case CmpLt => ExecInt(s, i)
    case CmpEq => ExecEqual(s)
    case Jmp(target) =>
      if target < 0 then Fault(OutOfBounds, s.trace) else Running(s.(top := s.top.(ip := target)))
    case JmpIfFalse(target) =>
      if target < 0 then Fault(OutOfBounds, s.trace) else
      var (b, s1) :- TakeBool(s);
      Running(if b then s1 else s1.(top := s1.top.(ip := target)))
    case Call(index, argc) => ExecCall(p, s, index, argc)
    case CallRuntime(index, argc) => ExecRuntime(p, w, s, index, argc)
    case Ret => ExecRet(s)
    case Pop =>
      var (_, s1) :- TakeValue(s);
      Running(s1)
    case Not =>
      var (b, s1) :- TakeBool(s);
      Push(s1, BoolV(!b))
    case FNeg =>
      var (f, s1) :- TakeFloat(s);
      Push(s1, FloatV(Negate(f)))
    case FAdd => ExecFloat(w, s, i)
    case FSub => ExecFloat(w, s, i)
    case FMul => ExecFloat(w, s, i)
    case FDiv => ExecFloat(w, s, i)
    case FCmpEq => ExecFloat(w, s, i)
    case FCmpLt => ExecFloat(w, s, i)
  }

  function Step(p: Program, w: World, s: State): Outcome {
    if s.top.fn >= |p.functions| then Fault(OutOfBounds, s.trace) else
    var code := p.functions[s.top.fn].code;
    if s.top.ip >= |code| then Fault(EndedWithoutRet, s.trace) else
    match Decode(code, s.top.ip)
    case Decoded(i, next) => Exec(p, w, s.(top := s.top.(ip := next)), i)
    case UnknownOpcode => Fault(InvalidOpcode, s.trace)
    case Truncated => Fault(OutOfBounds, s.trace)
  }

  /** The outcome after at most `k` steps. */
  function Steps(p: Program, w: World, o: Outcome, k: nat): Outcome
    decreases k
  {
    if k == 0 || !o.Running? then o else Steps(p, w, Step(p, w, o.s), k - 1)
  }

  function Start(p: Program): Outcome {
    if p.entry >= |p.functions| || p.functions[p.entry].paramCount + p.functions[p.entry].localCount < 0
    then Fault(OutOfBounds, [])
    else Running(State([], MakeFrame(p, p.entry, [], 0), [], []))
  }

  lemma {:induction false} StepsAdd(p: Program, w: World, o: Outcome, j: nat, k: nat)
    ensures Steps(p, w, Steps(p, w, o, j), k) == Steps(p, w, o, j + k)
    decreases j
  {
    hide Step;
    if j > 0 && o.Running? {
      StepsAdd(p, w, Step(p, w, o.s), j - 1, k);
    }
  }
}
