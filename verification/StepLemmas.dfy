/** The effect of single instructions found in the code at the instruction pointer. */
module StepLemmas {
  import opened Prelude
  import opened Bytes
  import opened Floats
  import opened Values
  import opened Bytecode
  import opened MachineSpec

  ghost predicate At(code: seq<Byte>, ip: nat, bs: seq<Byte>) {
    ip + |bs| <= |code| && code[ip..ip + |bs|] == bs
  }

  lemma AtSplit(code: seq<Byte>, ip: nat, a: seq<Byte>, b: seq<Byte>)
    requires At(code, ip, a + b)
    ensures At(code, ip, a) && At(code, ip + |a|, b)
  {
    var ab := a + b;
    assert code[ip..ip + |a|] == ab[..|a|] == a;
    assert code[ip + |a|..ip + |a| + |b|] == ab[|a|..] == b;
  }

  /** The code the active frame runs. */
  ghost function CodeOf(p: Program, s: State): seq<Byte> {
    if s.top.fn < |p.functions| then p.functions[s.top.fn].code else []
  }

  function Moved(s: State, ip: nat, stack: seq<Value>): State {
    s.(top := s.top.(ip := ip), stack := stack)
  }

  lemma OneStep(p: Program, w: World, s: State)
    ensures Steps(p, w, Running(s), 1) == Step(p, w, s)
  {
    hide Step;
    assert Steps(p, w, Step(p, w, s), 0) == Step(p, w, s);
  }

  lemma StepAt(p: Program, w: World, s: State, i: Instr)
    requires OperandsFit(i) && At(CodeOf(p, s), s.top.ip, Encode(i))
    ensures Steps(p, w, Running(s), 1) == Exec(p, w, Moved(s, s.top.ip + |Encode(i)|, s.stack), i)
  {
    hide Exec, Encode, Decode, OperandsFit;
    DecodeEncode(CodeOf(p, s), s.top.ip, i);
    assert Step(p, w, s) == Exec(p, w, Moved(s, s.top.ip + |Encode(i)|, s.stack), i);
    OneStep(p, w, s);
  }

  /** First `j` steps to a running state, then `k` more. */
  lemma Continue(p: Program, w: World, s: State, j: nat, s1: State, k: nat)
    requires Steps(p, w, Running(s), j) == Running(s1)
    ensures Steps(p, w, Running(s), j + k) == Steps(p, w, Running(s1), k)
  {
    hide Steps;
    StepsAdd(p, w, Running(s), j, k);
  }

  lemma StepPushConst(p: Program, w: World, s: State, index: nat)
    requires index <= MAX_U16 && index < |p.constants|
    requires At(CodeOf(p, s), s.top.ip, Encode(PushConst(index)))
    ensures Steps(p, w, Running(s), 1) == Push(Moved(s, s.top.ip + 3, s.stack), p.constants[index])
  {
    hide Steps, Step;
    StepAt(p, w, s, PushConst(index));
  }

  lemma StepLoad(p: Program, w: World, s: State, slot: int)
    requires 0 <= slot <= 255 && slot < |s.top.locals| == |s.top.init| && s.top.init[slot]
    requires At(CodeOf(p, s), s.top.ip, Encode(Load(slot)))
    ensures Steps(p, w, Running(s), 1) == Push(Moved(s, s.top.ip + 2, s.stack), s.top.locals[slot])
  {
    hide Steps, Step;
    StepAt(p, w, s, Load(slot));
  }

  function Stored(s: State, ip: nat, stack: seq<Value>, slot: int, v: Value): State
    requires 0 <= slot < |s.top.locals| == |s.top.init|
  {
    Moved(s, ip, stack).(top := s.top.(ip := ip, locals := s.top.locals[slot := v], init := s.top.init[slot := true]))
  }

  lemma StepStore(p: Program, w: World, s: State, slot: int, below: seq<Value>, v: Value)
    requires 0 <= slot <= 255 && slot < |s.top.locals| == |s.top.init|
    requires s.stack == below + [v] && s.top.base <= |below|
    requires At(CodeOf(p, s), s.top.ip, Encode(Store(slot)))
    ensures Steps(p, w, Running(s), 1) == Running(Stored(s, s.top.ip + 2, below, slot, v))
  {
    hide Steps, Step;
    StepAt(p, w, s, Store(slot));
    assert s.stack[..|s.stack| - 1] == below;
  }

  lemma StepJump(p: Program, w: World, s: State, target: nat)
    requires target <= 0xFFFF_FFFF
    requires At(CodeOf(p, s), s.top.ip, Encode(Jmp(target)))
    ensures Steps(p, w, Running(s), 1) == Running(Moved(s, target, s.stack))
  {
    hide Steps, Step;
    StepAt(p, w, s, Jmp(target));
  }

  lemma StepBranch(p: Program, w: World, s: State, target: nat, below: seq<Value>, b: bool)
    requires target <= 0xFFFF_FFFF
    requires s.stack == below + [BoolV(b)] && s.top.base <= |below|
    requires At(CodeOf(p, s), s.top.ip, Encode(JmpIfFalse(target)))
    ensures Steps(p, w, Running(s), 1) == Running(Moved(s, if b then s.top.ip + 5 else target, below))
  {
    hide Steps, Step;
    StepAt(p, w, s, JmpIfFalse(target));
    assert s.stack[..|s.stack| - 1] == below;
  }

  lemma StepPop(p: Program, w: World, s: State, below: seq<Value>, v: Value)
    requires s.stack == below + [v] && s.top.base <= |below|
    requires At(CodeOf(p, s), s.top.ip, Encode(Bytecode.Pop))
    ensures Steps(p, w, Running(s), 1) == Running(Moved(s, s.top.ip + 1, below))
  {
    hide Steps, Step;
    StepAt(p, w, s, Bytecode.Pop);
    assert s.stack[..|s.stack| - 1] == below;
  }

  /** Where a return lands: the whole frame is gone and the caller has one more operand. */
  function ReturnedTo(s: State, v: Value, tr: Trace): Outcome
    requires s.top.base <= |s.stack|
  {
    if s.callers == [] then Done(v, tr)
    else
      var n := |s.callers| - 1;
      Running(State(s.callers[..n], s.callers[n], s.stack[..s.top.base] + [v], tr))
  }

  /** The push in RET never overflows: the returned value was on the stack before. */
  lemma StepReturn(p: Program, w: World, s: State, below: seq<Value>, v: Value)
    requires s.stack == below + [v] && s.top.base <= |below| && |s.stack| <= MAX_STACK
    requires At(CodeOf(p, s), s.top.ip, Encode(Ret))
    ensures Steps(p, w, Running(s), 1) == ReturnedTo(s, v, s.trace)
  {
    hide Steps, Step;
    StepAt(p, w, s, Ret);
    assert s.stack[..|s.stack| - 1][..s.top.base] == s.stack[..s.top.base];
  }

  lemma StepCall(p: Program, w: World, s: State, index: nat, below: seq<Value>, args: seq<Value>)
    requires index <= 0xFFFF && index < |p.functions| && |args| <= 255
    requires |args| == p.functions[index].paramCount && 0 <= p.functions[index].localCount
    requires s.stack == below + args && s.top.base <= |below|
    requires At(CodeOf(p, s), s.top.ip, Encode(Call(index, |args|)))
    ensures Steps(p, w, Running(s), 1) ==
            if 1 + |s.callers| >= MAX_FRAMES then Fault(CallStackOverflow, s.trace)
            else Running(State(s.callers + [s.top.(ip := s.top.ip + 4)], MakeFrame(p, index, args, |below|), below, s.trace))
  {
    hide Steps, Step;
    StepAt(p, w, s, Call(index, |args|));
    assert s.stack[|below|..] == args && s.stack[..|below|] == below;
  }

  lemma TwoOperands(stack: seq<Value>, below: seq<Value>, a: Value)
    requires |stack| == |below| + 2 && stack[..|below|] == below && stack[|below|] == a
    ensures stack[..|stack| - 1] == below + [a] && (below + [a])[..|below|] == below
  {
  }

  lemma CallSize(i: Instr)
    requires i.Call? || i.CallRuntime?
    ensures |Encode(i)| == 4
  {
  }

  lemma StepCallRuntime(p: Program, w: World, s: State, index: nat, below: seq<Value>, args: seq<Value>, rargs: seq<RuntimeValue>, name: Text)
    requires index <= 0xFFFF && index < |p.constants| && |args| <= 255
    requires p.constants[index] == StringV(name) && ValuesToRuntime(args) == Some(rargs)
    requires s.stack == below + args && s.top.base <= |below|
    requires At(CodeOf(p, s), s.top.ip, Encode(CallRuntime(index, |args|)))
    ensures var ev := Event(name, rargs);
            Steps(p, w, Running(s), 1) ==
            match w.runtime(s.trace, ev)
            case Returned(v) => Push(Moved(s, s.top.ip + 4, below).(trace := s.trace + [ev]), ValueFromRuntime(v))
            case Threw => Fault(RuntimeFailure, s.trace + [ev])
  {
    hide Steps, Step, ValuesToRuntime, ExecInt, ExecFloat, ExecEqual, ExecRet, ExecCall, Encode, CodeOf, At;
    StepAt(p, w, s, CallRuntime(index, |args|));
    CallSize(CallRuntime(index, |args|));
    assert s.stack[|below|..] == args && s.stack[..|below|] == below;
  }

  lemma PlainSize(i: Instr)
    requires i.Add? || i.Sub? || i.Mul? || i.Div? || i.CmpLt? || i.FAdd? || i.FSub? || i.FMul? || i.FDiv? || i.FCmpEq? || i.FCmpLt?
    ensures |Encode(i)| == 1
  {
  }

  /** What an Int operation makes of two operands that have been taken. */
  function IntOutcome(t: State, i: Instr, a: I64, b: I64): Outcome {
    match i
    case Add => PushInt(t, CheckedInt(a + b))
    case Sub => PushInt(t, CheckedInt(a - b))
    case Mul => PushInt(t, CheckedInt(a * b))
    case Div => PushInt(t, DivideInt(a, b))
    case _ => Push(t, BoolV(a < b))
  }

  function FloatOutcome(w: World, t: State, i: Instr, a: F64, b: F64): Outcome {
    match i
    case FAdd => PushFloat(t, CheckedFloat(w.fadd(a, b)))
    case FSub => PushFloat(t, CheckedFloat(w.fsub(a, b)))
    case FMul => PushFloat(t, CheckedFloat(w.fmul(a, b)))
    case FDiv => PushFloat(t, DivideFloat(w, a, b))
    case FCmpEq => Push(t, BoolV(Equal(a, b)))
    case _ => Push(t, BoolV(Less(a, b)))
  }

  lemma IntTaken(s: State, i: Instr, below: seq<Value>, a: I64, b: I64)
    requires s.stack == below + [IntV(a), IntV(b)] && s.top.base <= |below|
    ensures ExecInt(s, i) == IntOutcome(s.(stack := below), i, a, b)
  {
    hide PushInt, Push, CheckedInt, DivideInt;
    TwoOperands(s.stack, below, IntV(a));
  }

  lemma FloatTaken(w: World, s: State, i: Instr, below: seq<Value>, a: F64, b: F64)
    requires s.stack == below + [FloatV(a), FloatV(b)] && s.top.base <= |below|
    ensures ExecFloat(w, s, i) == FloatOutcome(w, s.(stack := below), i, a, b)
  {
    hide PushFloat, Push, CheckedFloat, DivideFloat, Equal, Less;
    TwoOperands(s.stack, below, FloatV(a));
  }

  lemma StepIntOp(p: Program, w: World, s: State, i: Instr, below: seq<Value>, a: I64, b: I64)
    requires i.Add? || i.Sub? || i.Mul? || i.Div? || i.CmpLt?
    requires s.stack == below + [IntV(a), IntV(b)] && s.top.base <= |below|
    requires At(CodeOf(p, s), s.top.ip, Encode(i))
    ensures Steps(p, w, Running(s), 1) == IntOutcome(Moved(s, s.top.ip + 1, below), i, a, b)
  {
    hide Steps, Step, IntOutcome, ExecInt, ExecFloat, ExecEqual, ExecRet, ExecCall, ExecRuntime, Encode, CodeOf, At;
    StepAt(p, w, s, i);
    PlainSize(i);
    IntTaken(s.(top := s.top.(ip := s.top.ip + 1)), i, below, a, b);
  }

  lemma StepFloatOp(p: Program, w: World, s: State, i: Instr, below: seq<Value>, a: F64, b: F64)
    requires i.FAdd? || i.FSub? || i.FMul? || i.FDiv? || i.FCmpEq? || i.FCmpLt?
    requires s.stack == below + [FloatV(a), FloatV(b)] && s.top.base <= |below|
    requires At(CodeOf(p, s), s.top.ip, Encode(i))
    ensures Steps(p, w, Running(s), 1) == FloatOutcome(w, Moved(s, s.top.ip + 1, below), i, a, b)
  {
    hide Steps, Step, FloatOutcome, ExecInt, ExecFloat, ExecEqual, ExecRet, ExecCall, ExecRuntime, Encode, CodeOf, At;
    StepAt(p, w, s, i);
    PlainSize(i);
    FloatTaken(w, s.(top := s.top.(ip := s.top.ip + 1)), i, below, a, b);
  }

  lemma StepEqual(p: Program, w: World, s: State, below: seq<Value>, a: Value, b: Value)
    requires (a.IntV? && b.IntV?) || (a.StringV? && b.StringV?)
    requires s.stack == below + [a, b] && s.top.base <= |below|
    requires At(CodeOf(p, s), s.top.ip, Encode(CmpEq))
    ensures Steps(p, w, Running(s), 1) == Push(Moved(s, s.top.ip + 1, below), BoolV(a == b))
  {
    hide Steps, Step;
    StepAt(p, w, s, CmpEq);
    TwoOperands(s.stack, below, a);
  }

  lemma StepNot(p: Program, w: World, s: State, below: seq<Value>, b: bool)
    requires s.stack == below + [BoolV(b)] && s.top.base <= |below|
    requires At(CodeOf(p, s), s.top.ip, Encode(Not))
    ensures Steps(p, w, Running(s), 1) == Push(Moved(s, s.top.ip + 1, below), BoolV(!b))
  {
    hide Steps, Step;
    StepAt(p, w, s, Not);
    assert s.stack[..|s.stack| - 1] == below;
  }

  lemma StepFNeg(p: Program, w: World, s: State, below: seq<Value>, f: F64)
    requires s.stack == below + [FloatV(f)] && s.top.base <= |below|
    requires At(CodeOf(p, s), s.top.ip, Encode(FNeg))
    ensures Steps(p, w, Running(s), 1) == Push(Moved(s, s.top.ip + 1, below), FloatV(Negate(f)))
  {
    hide Steps, Step;
    StepAt(p, w, s, FNeg);
    assert s.stack[..|s.stack| - 1] == below;
  }

  // ---- Resource limits ----

  /** The operand stack holds 65536 values, or there are 1024 frames. */
  predicate Full(s: State) {
    |s.stack| >= 65536 || |s.callers| + 1 >= 1024
  }

  /** At most 65536 operands and 1024 frames. */
  predicate Within(s: State) {
    |s.stack| <= 65536 && |s.callers| + 1 <= 1024
  }

  lemma TakenWithin(s: State)
    ensures TakeValue(s).Took? ==> TakeValue(s).s.callers == s.callers
    ensures TakeInt(s).Took? ==> TakeInt(s).s.callers == s.callers
    ensures TakeFloat(s).Took? ==> TakeFloat(s).s.callers == s.callers
    ensures TakeBool(s).Took? ==> TakeBool(s).s.callers == s.callers
  {
  }

  lemma TakenLess(s: State)
    ensures TakeValue(s).Took? ==> |TakeValue(s).s.stack| < |s.stack|
    ensures TakeInt(s).Took? ==> |TakeInt(s).s.stack| < |s.stack|
    ensures TakeFloat(s).Took? ==> |TakeFloat(s).s.stack| < |s.stack|
    ensures TakeBool(s).Took? ==> |TakeBool(s).s.stack| < |s.stack|
  {
  }

  lemma RefusedWithoutLimit(s: State)
    ensures TakeValue(s).Refused? ==> !TakeValue(s).e.Limit()
    ensures TakeInt(s).Refused? ==> !TakeInt(s).e.Limit()
    ensures TakeFloat(s).Refused? ==> !TakeFloat(s).e.Limit()
    ensures TakeBool(s).Refused? ==> !TakeBool(s).e.Limit()
  {
  }

  lemma IntLimit(s: State, i: Instr)
    requires i.Add? || i.Sub? || i.Mul? || i.Div? || i.CmpLt?
    ensures ExecInt(s, i).Fault? && ExecInt(s, i).e.Limit() ==> Full(s)
  {
    hide TakeInt;
    RefusedWithoutLimit(s);
    TakenLess(s);
    if TakeInt(s).Took? {
      RefusedWithoutLimit(TakeInt(s).s);
      TakenLess(TakeInt(s).s);
    }
  }

  lemma FloatLimit(w: World, s: State, i: Instr)
    requires i.FAdd? || i.FSub? || i.FMul? || i.FDiv? || i.FCmpEq? || i.FCmpLt?
    ensures ExecFloat(w, s, i).Fault? && ExecFloat(w, s, i).e.Limit() ==> Full(s)
  {
    hide TakeFloat, Equal, Less;
    RefusedWithoutLimit(s);
    TakenLess(s);
    if TakeFloat(s).Took? {
      RefusedWithoutLimit(TakeFloat(s).s);
      TakenLess(TakeFloat(s).s);
    }
  }

  lemma EqualLimit(s: State)
    ensures ExecEqual(s).Fault? && ExecEqual(s).e.Limit() ==> Full(s)
    ensures Within(s) && ExecEqual(s).Running? ==> Within(ExecEqual(s).s)
  {
    hide TakeValue;
    TakenLess(s);
    TakenWithin(s);
    RefusedWithoutLimit(s);
    if TakeValue(s).Took? {
      TakenLess(TakeValue(s).s);
      TakenWithin(TakeValue(s).s);
      RefusedWithoutLimit(TakeValue(s).s);
    }
  }

  lemma CallLimit(p: Program, w: World, s: State, index: int, argc: int)
    ensures ExecCall(p, s, index, argc).Fault? && ExecCall(p, s, index, argc).e.Limit() ==> Full(s)
    ensures Within(s) && ExecCall(p, s, index, argc).Running? ==> Within(ExecCall(p, s, index, argc).s)
    ensures ExecRuntime(p, w, s, index, argc).Fault? && ExecRuntime(p, w, s, index, argc).e.Limit() ==> Full(s)
    ensures Within(s) && ExecRuntime(p, w, s, index, argc).Running? ==> Within(ExecRuntime(p, w, s, index, argc).s)
  {
    hide ValuesToRuntime, MakeFrame;
  }

  lemma RetLimit(s: State)
    ensures ExecRet(s).Fault? && ExecRet(s).e.Limit() ==> Full(s)
    ensures Within(s) && ExecRet(s).Running? ==> Within(ExecRet(s).s)
  {
  }

  lemma ExecLimit(p: Program, w: World, s: State, i: Instr)
    ensures Exec(p, w, s, i).Fault? && Exec(p, w, s, i).e.Limit() ==> Full(s)
  {
    hide ExecInt, ExecFloat, ExecEqual, ExecCall, ExecRuntime, ExecRet, TakeValue, TakeBool, TakeFloat;
    TakenLess(s);
    RefusedWithoutLimit(s);
    if i.Add? || i.Sub? || i.Mul? || i.Div? || i.CmpLt? {
      IntLimit(s, i);
    } else if i.FAdd? || i.FSub? || i.FMul? || i.FDiv? || i.FCmpEq? || i.FCmpLt? {
      FloatLimit(w, s, i);
    } else if i.Call? || i.CallRuntime? {
      CallLimit(p, w, s, i.index, i.argc);
    } else {
      EqualLimit(s);
      RetLimit(s);
    }
  }

  lemma StepLimit(p: Program, w: World, s: State)
    ensures Step(p, w, s).Fault? && Step(p, w, s).e.Limit() ==> Full(s)
  {
    hide Exec, Decode;
    if s.top.fn < |p.functions| && s.top.ip < |p.functions[s.top.fn].code| {
      var d := Decode(p.functions[s.top.fn].code, s.top.ip);
      if d.Decoded? {
        ExecLimit(p, w, s.(top := s.top.(ip := d.next)), d.i);
      }
    }
  }

  /** A run ends with a resource limit only if it has come to a state where the stack or the frames are full. */
  lemma {:induction false} LimitsAreReal(p: Program, w: World, s: State, k: nat)
    requires Steps(p, w, Running(s), k).Fault? && Steps(p, w, Running(s), k).e.Limit()
    ensures exists j :: 0 <= j < k && Steps(p, w, Running(s), j).Running? && Full(Steps(p, w, Running(s), j).s)
    decreases k
  {
    hide Step, Full;
    StepLimit(p, w, s);
    assert Steps(p, w, Running(s), 0) == Running(s);
    var o := Step(p, w, s);
    if o.Running? {
      LimitsAreReal(p, w, o.s, k - 1);
      var j :| 0 <= j < k - 1 && Steps(p, w, Running(o.s), j).Running? && Full(Steps(p, w, Running(o.s), j).s);
      assert Steps(p, w, Running(s), j + 1) == Steps(p, w, o, j);
    }
  }

  lemma IntWithin(s: State, i: Instr)
    requires Within(s)
    ensures ExecInt(s, i).Running? ==> Within(ExecInt(s, i).s)
  {
    hide TakeInt;
    TakenWithin(s);
    TakenLess(s);
    if TakeInt(s).Took? {
      TakenWithin(TakeInt(s).s);
      TakenLess(TakeInt(s).s);
    }
  }

  lemma FloatWithin(w: World, s: State, i: Instr)
    requires Within(s)
    ensures ExecFloat(w, s, i).Running? ==> Within(ExecFloat(w, s, i).s)
  {
    hide TakeFloat, Equal, Less;
    TakenWithin(s);
    TakenLess(s);
    if TakeFloat(s).Took? {
      TakenWithin(TakeFloat(s).s);
      TakenLess(TakeFloat(s).s);
    }
  }

  lemma ExecWithin(p: Program, w: World, s: State, i: Instr)
    requires Within(s)
    ensures Exec(p, w, s, i).Running? ==> Within(Exec(p, w, s, i).s)
  {
    hide ExecInt, ExecFloat, ExecEqual, ExecCall, ExecRuntime, ExecRet, TakeValue, TakeBool, TakeFloat;
    TakenWithin(s);
    TakenLess(s);
    if i.Add? || i.Sub? || i.Mul? || i.Div? || i.CmpLt? {
      IntWithin(s, i);
    } else if i.FAdd? || i.FSub? || i.FMul? || i.FDiv? || i.FCmpEq? || i.FCmpLt? {
      FloatWithin(w, s, i);
    } else if i.Call? || i.CallRuntime? {
      CallLimit(p, w, s, i.index, i.argc);
    } else {
      EqualLimit(s);
      RetLimit(s);
    }
  }

  /** No run of any program has more operands or frames than that. */
  lemma {:induction false} LimitsAreKept(p: Program, w: World, s: State, k: nat)
    requires Within(s)
    ensures Steps(p, w, Running(s), k).Running? ==> Within(Steps(p, w, Running(s), k).s)
    decreases k
  {
    hide Exec, Decode;
    if k > 0 {
      if s.top.fn < |p.functions| && s.top.ip < |p.functions[s.top.fn].code| {
        var d := Decode(p.functions[s.top.fn].code, s.top.ip);
        if d.Decoded? {
          ExecWithin(p, w, s.(top := s.top.(ip := d.next)), d.i);
        }
      }
      if Step(p, w, s).Running? {
        LimitsAreKept(p, w, Step(p, w, s).s, k - 1);
      }
    }
  }
}
