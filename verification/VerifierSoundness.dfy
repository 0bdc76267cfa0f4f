/**
  The loader's linear sweep is enough. For any accepted file, compiled or not, no reachable state of the
  machine leaves the code, the constants, the locals or the functions, and no Float is ever not finite.
 */
module VerifierSoundness {
  import opened Prelude
  import opened Bytes
  import opened Floats
  import opened Values
  import opened RuntimeApi
  import opened Bytecode
  import opened FileFormat
  import opened MachineSpec

  /** What acceptance establishes about a program. */
  ghost predicate Checked(p: Program, version: int) {
    && p.entry < |p.functions| && p.functions[p.entry].paramCount == 0
    && (forall f :: f in p.functions ==> FunctionChecked(p, f, version))
    && (forall v :: v in p.constants ==> FiniteValue(v))
  }

  ghost predicate FunctionChecked(p: Program, f: Function, version: int) {
    0 <= f.paramCount && 0 <= f.localCount && VerifyFunction(p, f, version).None?
  }

  predicate FiniteValue(v: Value) {
    v.FloatV? ==> IsFinite(v.f)
  }

  // ---- Acceptance ----

  lemma {:induction false} ConstantsFinite(bs: seq<Byte>, at: nat, count: nat, version: int)
    requires at <= |bs| && ReadConstants(bs, at, count, version).Success?
    ensures forall v :: v in ReadConstants(bs, at, count, version).value.value ==> FiniteValue(v)
    decreases count
  {
    hide ReadNumber, ReadText, Signed64;
    if count > 0 {
      ConstantsFinite(bs, ReadConstant(bs, at, version).value.next, count - 1, version);
    }
  }

  lemma {:induction false} FunctionsCounted(bs: seq<Byte>, at: nat, count: nat)
    requires at <= |bs| && ReadFunctions(bs, at, count).Success?
    ensures forall f :: f in ReadFunctions(bs, at, count).value.value ==> 0 <= f.paramCount && 0 <= f.localCount
    decreases count
  {
    hide ReadFunction;
    if count > 0 {
      FunctionsCounted(bs, ReadFunction(bs, at).value.next, count - 1);
    }
  }

  lemma {:induction false} EachVerified(p: Program, fns: seq<Function>, version: int, f: Function)
    requires VerifyFunctions(p, fns, version).None? && f in fns
    ensures VerifyFunction(p, f, version).None?
  {
    hide VerifyFunction;
    if f != fns[0] {
      assert f in fns[1..];
      EachVerified(p, fns[1..], version, f);
    }
  }

  lemma AcceptedIsChecked(bs: seq<Byte>) returns (version: int)
    requires LoadProgram(bs).Success?
    ensures Checked(LoadProgram(bs).value, version)
  {
    hide ReadNumber, ReadMagic, ReadConstants, ReadFunctions, VerifyFunction, VerifyFunctions;
    var p := LoadProgram(bs).value;
    version := ReadProgram(bs).value.version;
    var v := ReadNumber(bs, ReadMagic(bs, 0).value.next, 2).value;
    var c := ReadNumber(bs, v.next, 2).value;
    ConstantsFinite(bs, c.next, c.value, version);
    var n := ReadNumber(bs, ReadConstants(bs, c.next, c.value, version).value.next, 2).value;
    FunctionsCounted(bs, n.next, n.value);
    forall f | f in p.functions ensures FunctionChecked(p, f, version) {
      EachVerified(p, p.functions, version, f);
    }
  }

  /** A file of the first version holds no Float constant and no Float instruction. */
  lemma {:induction false} LegacyConstants(bs: seq<Byte>, at: nat, count: nat, version: int)
    requires at <= |bs| && ReadConstants(bs, at, count, version).Success? && version != FLOAT_VERSION
    ensures forall v :: v in ReadConstants(bs, at, count, version).value.value ==> !v.FloatV?
    decreases count
  {
    hide ReadNumber, ReadText, Signed64;
    if count > 0 {
      LegacyConstants(bs, ReadConstant(bs, at, version).value.next, count - 1, version);
    }
  }

  lemma LegacyFilesAreFloatFree(bs: seq<Byte>, f: Function, ip: nat)
    requires LoadProgram(bs).Success? && ReadProgram(bs).value.version == LEGACY_VERSION
    requires f in LoadProgram(bs).value.functions && ip in Boundaries(LoadProgram(bs).value, f, LEGACY_VERSION)
    ensures forall v :: v in LoadProgram(bs).value.constants ==> !v.FloatV?
    ensures ip < |f.code| && Decode(f.code, ip).Decoded? && !FloatInstr(Decode(f.code, ip).i)
  {
    hide ReadNumber, ReadMagic, ReadConstants, ReadFunctions, VerifyFunction, VerifyFunctions, Sweep, Decode;
    var p := LoadProgram(bs).value;
    var v := ReadNumber(bs, ReadMagic(bs, 0).value.next, 2).value;
    var c := ReadNumber(bs, v.next, 2).value;
    LegacyConstants(bs, c.next, c.value, LEGACY_VERSION);
    EachVerified(p, p.functions, LEGACY_VERSION, f);
    SweptHere(p, f, ip);
  }

  lemma SweptHere(p: Program, f: Function, ip: nat)
    requires VerifyFunction(p, f, LEGACY_VERSION).None? && ip in Boundaries(p, f, LEGACY_VERSION)
    ensures ip < |f.code| && Decode(f.code, ip).Decoded? && !FloatInstr(Decode(f.code, ip).i)
  {
    hide Decode, Sweep;
    SweepFrom(p, f, LEGACY_VERSION, 0, ip);
  }

  // ---- The sweep ----

  /** The offsets at which the sweep found instructions. */
  ghost function Boundaries(p: Program, f: Function, version: int): set<nat> {
    var r := Sweep(p, f, version, 0);
    if r.Success? then r.value.boundaries else {}
  }

  /** The machine may stand here: at an instruction, or behind the last one. */
  ghost predicate GoodPoint(p: Program, f: Function, version: int, ip: nat) {
    ip in Boundaries(p, f, version) || ip == |f.code|
  }

  lemma {:induction false} SweepFrom(p: Program, f: Function, version: int, at: nat, ip: nat)
    requires at <= |f.code| && Sweep(p, f, version, at).Success? && ip in Sweep(p, f, version, at).value.boundaries
    ensures var sw := Sweep(p, f, version, at).value;
            && at <= ip < |f.code| && Decode(f.code, ip).Decoded?
            && var d := Decode(f.code, ip);
               && InstrError(p, f, version, d.i).None?
               && (d.next in sw.boundaries || d.next == |f.code|)
               && (forall t :: t in JumpTargets(d.i) ==> t in sw.targets)
    decreases |f.code| - at
  {
    hide InstrError, Decode;
    var d := Decode(f.code, at);
    if ip != at {
      SweepFrom(p, f, version, d.next, ip);
    } else if d.next < |f.code| {
      SweepStart(p, f, version, d.next);
    }
  }

  lemma SweepStart(p: Program, f: Function, version: int, at: nat)
    requires at < |f.code| && Sweep(p, f, version, at).Success?
    ensures at in Sweep(p, f, version, at).value.boundaries
  {
    hide InstrError, Decode;
  }

  /** At a boundary there is an instruction the loader approved, and both ways on from it are good points. */
  lemma AtBoundary(p: Program, f: Function, version: int, ip: nat)
    requires FunctionChecked(p, f, version) && ip in Boundaries(p, f, version)
    ensures ip < |f.code| && Decode(f.code, ip).Decoded?
    ensures var d := Decode(f.code, ip);
            && InstrError(p, f, version, d.i).None? && GoodPoint(p, f, version, d.next)
            && (d.i.Jmp? || d.i.JmpIfFalse? ==> GoodPoint(p, f, version, d.i.target))
  {
    hide InstrError, Decode, Sweep;
    SweepFrom(p, f, version, 0, ip);
    var d := Decode(f.code, ip);
    if d.i.Jmp? || d.i.JmpIfFalse? {
      assert d.i.target in JumpTargets(d.i);
    }
  }

  lemma StartIsGood(p: Program, f: Function, version: int)
    requires FunctionChecked(p, f, version)
    ensures GoodPoint(p, f, version, 0)
  {
    hide InstrError, Decode;
    if |f.code| > 0 {
      SweepStart(p, f, version, 0);
    }
  }

  // ---- The invariant ----

  ghost predicate AllFinite(vs: seq<Value>) {
    forall v :: v in vs ==> FiniteValue(v)
  }

  ghost predicate FrameOk(p: Program, version: int, fr: Frame) {
    && fr.fn < |p.functions|
    && |fr.locals| == |fr.init| == p.functions[fr.fn].paramCount + p.functions[fr.fn].localCount
    && GoodPoint(p, p.functions[fr.fn], version, fr.ip)
    && AllFinite(fr.locals)
  }

  /** Frame bases are ordered and end within the stack. */
  ghost predicate BasesOrdered(s: State) {
    && (forall i, j :: 0 <= i < j < |s.callers| ==> s.callers[i].base <= s.callers[j].base)
    && (forall i :: 0 <= i < |s.callers| ==> s.callers[i].base <= s.top.base)
    && s.top.base <= |s.stack|
  }

  /** What holds in every reachable state of an accepted program. */
  ghost predicate Inv(p: Program, version: int, s: State) {
    && (forall i :: 0 <= i < |s.callers| ==> FrameOk(p, version, s.callers[i]))
    && FrameOk(p, version, s.top)
    && BasesOrdered(s)
    && 1 + |s.callers| <= MAX_FRAMES && |s.stack| <= MAX_STACK
    && AllFinite(s.stack)
  }

  /** The two errors that would mean the loader let something through. */
  predicate Unsound(e: Error) {
    e.OutOfBounds? || e.InvalidOpcode?
  }

  ghost predicate OutcomeOk(p: Program, version: int, o: Outcome) {
    match o
    case Running(s) => Inv(p, version, s)
    case Done(v, _) => FiniteValue(v)
    case Fault(e, _) => !Unsound(e)
  }

  // ---- One step ----

  /** Same frames, a stack that still covers the base. */
  lemma SameFrames(p: Program, version: int, s: State, s1: State)
    requires Inv(p, version, s) && s1.callers == s.callers && s1.top == s.top
    requires s.top.base <= |s1.stack| <= MAX_STACK && AllFinite(s1.stack)
    ensures Inv(p, version, s1)
  {
    hide FrameOk;
  }

  lemma PushOk(p: Program, version: int, s: State, v: Value)
    requires Inv(p, version, s) && FiniteValue(v)
    ensures OutcomeOk(p, version, Push(s, v))
  {
    hide FrameOk;
  }

  lemma TakeOk(p: Program, version: int, s: State)
    requires Inv(p, version, s) && TakeValue(s).Took?
    ensures Inv(p, version, TakeValue(s).s) && FiniteValue(TakeValue(s).v)
  {
    hide FrameOk;
    var s1 := TakeValue(s).s;
    assert forall v :: v in s1.stack ==> v in s.stack;
    assert s.stack[|s.stack| - 1] in s.stack;
  }

  lemma PushIntOk(p: Program, version: int, s: State, c: Computed<I64>)
    requires Inv(p, version, s) && (c.Failed? ==> !Unsound(c.e))
    ensures OutcomeOk(p, version, PushInt(s, c))
  {
    hide Inv;
    if c.Computed? {
      PushOk(p, version, s, IntV(c.value));
    }
  }

  lemma IntOk(p: Program, version: int, s: State, i: Instr)
    requires Inv(p, version, s)
    ensures OutcomeOk(p, version, ExecInt(s, i))
  {
    hide Inv, CheckedInt, DivideInt, PushInt;
    if TakeValue(s).Took? && TakeValue(s).v.IntV? {
      TakeOk(p, version, s);
      var b, s1 := TakeValue(s).v.n, TakeValue(s).s;
      if TakeValue(s1).Took? && TakeValue(s1).v.IntV? {
        TakeOk(p, version, s1);
        IntResultOk(p, version, TakeValue(s1).s, i, TakeValue(s1).v.n, b);
      }
    }
  }

  lemma IntResultOk(p: Program, version: int, s: State, i: Instr, a: I64, b: I64)
    requires Inv(p, version, s)
    ensures OutcomeOk(p, version, match i
              case Add => PushInt(s, CheckedInt(a + b))
              case Sub => PushInt(s, CheckedInt(a - b))
              case Mul => PushInt(s, CheckedInt(a * b))
              case Div => PushInt(s, DivideInt(a, b))
              case _ => Push(s, BoolV(a < b)))
  {
    hide Inv, CheckedInt, DivideInt, PushInt, OutcomeOk, Push;
    ArithmeticErrors(a, b);
    PushOk(p, version, s, BoolV(a < b));
    PushIntOk(p, version, s, DivideInt(a, b));
    var sum: int, difference: int, product: int := a + b, a - b, a * b;
    PushIntOk(p, version, s, CheckedInt(sum));
    PushIntOk(p, version, s, CheckedInt(difference));
    PushIntOk(p, version, s, CheckedInt(product));
  }

  lemma ArithmeticErrors(a: I64, b: I64)
    ensures forall x: int :: CheckedInt(x).Failed? ==> !Unsound(CheckedInt(x).e)
    ensures DivideInt(a, b).Failed? ==> !Unsound(DivideInt(a, b).e)
  {
  }

  lemma PushFloatOk(p: Program, version: int, s: State, c: Computed<F64>)
    requires Inv(p, version, s) && (c.Failed? ==> !Unsound(c.e)) && (c.Computed? ==> IsFinite(c.value))
    ensures OutcomeOk(p, version, PushFloat(s, c))
  {
    hide Inv;
    if c.Computed? {
      PushOk(p, version, s, FloatV(c.value));
    }
  }

  lemma FloatErrors(w: World, a: F64, b: F64)
    ensures forall x: F64 :: var c := CheckedFloat(x); (c.Failed? ==> !Unsound(c.e)) && (c.Computed? ==> IsFinite(c.value))
    ensures var c := DivideFloat(w, a, b); (c.Failed? ==> !Unsound(c.e)) && (c.Computed? ==> IsFinite(c.value))
  {
    hide IsFinite, Equal;
  }

  lemma FloatResultOk(p: Program, version: int, w: World, s: State, i: Instr, a: F64, b: F64)
    requires Inv(p, version, s)
    ensures OutcomeOk(p, version, match i
              case FAdd => PushFloat(s, CheckedFloat(w.fadd(a, b)))
              case FSub => PushFloat(s, CheckedFloat(w.fsub(a, b)))
              case FMul => PushFloat(s, CheckedFloat(w.fmul(a, b)))
              case FDiv => PushFloat(s, DivideFloat(w, a, b))
              case FCmpEq => Push(s, BoolV(Equal(a, b)))
              case _ => Push(s, BoolV(Less(a, b))))
  {
    hide Inv, CheckedFloat, DivideFloat, PushFloat, OutcomeOk, Push, Equal, Less, IsFinite;
    FloatErrors(w, a, b);
    PushOk(p, version, s, BoolV(Equal(a, b)));
    PushOk(p, version, s, BoolV(Less(a, b)));
    PushFloatOk(p, version, s, DivideFloat(w, a, b));
    PushFloatOk(p, version, s, CheckedFloat(w.fadd(a, b)));
    PushFloatOk(p, version, s, CheckedFloat(w.fsub(a, b)));
    PushFloatOk(p, version, s, CheckedFloat(w.fmul(a, b)));
  }

  lemma FloatOk(p: Program, version: int, w: World, s: State, i: Instr)
    requires Inv(p, version, s)
    ensures OutcomeOk(p, version, ExecFloat(w, s, i))
  {
    hide Inv, CheckedFloat, DivideFloat, PushFloat, Equal, Less;
    if TakeValue(s).Took? && TakeValue(s).v.FloatV? {
      TakeOk(p, version, s);
      var s1 := TakeValue(s).s;
      if TakeValue(s1).Took? && TakeValue(s1).v.FloatV? {
        TakeOk(p, version, s1);
        FloatResultOk(p, version, w, TakeValue(s1).s, i, TakeValue(s1).v.f, TakeValue(s).v.f);
      }
    }
  }

  lemma EqualOk(p: Program, version: int, s: State)
    requires Inv(p, version, s)
    ensures OutcomeOk(p, version, ExecEqual(s))
  {
    hide Inv;
    if TakeValue(s).Took? {
      TakeOk(p, version, s);
      var s1 := TakeValue(s).s;
      if TakeValue(s1).Took? {
        TakeOk(p, version, s1);
        PushOk(p, version, TakeValue(s1).s, BoolV(true));
        PushOk(p, version, TakeValue(s1).s, BoolV(false));
      }
    }
  }

  lemma ArgumentsOk(p: Program, version: int, s: State, count: nat)
    requires Inv(p, version, s) && TakeArguments(s, count).Took?
    ensures Inv(p, version, TakeArguments(s, count).s) && AllFinite(TakeArguments(s, count).v) && |TakeArguments(s, count).v| == count
  {
    hide FrameOk;
    var t := TakeArguments(s, count);
    assert forall v :: v in t.s.stack || v in t.v ==> v in s.stack;
  }

  lemma NewFrameOk(p: Program, version: int, index: nat, args: seq<Value>, base: nat)
    requires Checked(p, version) && index < |p.functions| && |args| == p.functions[index].paramCount && AllFinite(args)
    ensures |args| <= p.functions[index].paramCount + p.functions[index].localCount
    ensures FrameOk(p, version, MakeFrame(p, index, args, base))
  {
    hide VerifyFunction, GoodPoint;
    assert p.functions[index] in p.functions;
    StartIsGood(p, p.functions[index], version);
  }

  lemma CallOk(p: Program, version: int, s: State, index: int, argc: int)
    requires Checked(p, version) && Inv(p, version, s)
    requires 0 <= argc && 0 <= index < |p.functions| && argc == p.functions[index].paramCount
    ensures OutcomeOk(p, version, ExecCall(p, s, index, argc))
  {
    hide FrameOk, MakeFrame, AllFinite;
    if TakeArguments(s, argc).Took? {
      ArgumentsOk(p, version, s, argc);
      var args, s1 := TakeArguments(s, argc).v, TakeArguments(s, argc).s;
      NewFrameOk(p, version, index, args, |s1.stack|);
      FrameBase(p, index, args, |s1.stack|);
    }
  }

  lemma FrameBase(p: Program, index: nat, args: seq<Value>, base: nat)
    requires index < |p.functions| && |args| <= p.functions[index].paramCount + p.functions[index].localCount
    ensures MakeFrame(p, index, args, base).base == base
  {
  }

  lemma RuntimeOk(p: Program, version: int, w: World, s: State, index: int, argc: int)
    requires Inv(p, version, s) && 0 <= argc && 0 <= index < |p.constants|
    ensures OutcomeOk(p, version, ExecRuntime(p, w, s, index, argc))
  {
    hide FrameOk, AllFinite, ValuesToRuntime;
    if TakeArguments(s, argc).Took? {
      ArgumentsOk(p, version, s, argc);
      var s1 := TakeArguments(s, argc).s;
      forall tr: Trace, v: RuntimeValue ensures OutcomeOk(p, version, Push(s1.(trace := tr), ValueFromRuntime(v))) {
        SameFrames(p, version, s1, s1.(trace := tr));
        PushOk(p, version, s1.(trace := tr), ValueFromRuntime(v));
      }
    }
  }

  /** The push in RET never overflows: the value just left the stack. */
  lemma RetOk(p: Program, version: int, s: State)
    requires Inv(p, version, s)
    ensures OutcomeOk(p, version, ExecRet(s))
    ensures ExecRet(s).Fault? ==> ExecRet(s).e == StackUnderflow
  {
    hide FrameOk;
    if TakeValue(s).Took? {
      TakeOk(p, version, s);
      if s.callers != [] {
        var n := |s.callers| - 1;
        var s1 := State(s.callers[..n], s.callers[n], TakeValue(s).s.stack[..s.top.base], s.trace);
        assert forall v :: v in s1.stack ==> v in s.stack;
        assert Inv(p, version, s1);
        PushOk(p, version, s1, TakeValue(s).v);
      }
    }
  }

  lemma MoveOk(p: Program, version: int, s: State, ip: nat)
    requires Inv(p, version, s) && GoodPoint(p, p.functions[s.top.fn], version, ip)
    ensures Inv(p, version, s.(top := s.top.(ip := ip)))
  {
    hide GoodPoint;
  }

  lemma StoreOk(p: Program, version: int, s: State, slot: nat, v: Value)
    requires Inv(p, version, s) && slot < |s.top.locals| && FiniteValue(v)
    ensures Inv(p, version, s.(top := s.top.(locals := s.top.locals[slot := v], init := s.top.init[slot := true])))
  {
    hide GoodPoint;
    assert forall u :: u in s.top.locals[slot := v] ==> u in s.top.locals || u == v;
  }

  lemma SimpleOk(p: Program, version: int, w: World, s: State, i: Instr)
    requires Inv(p, version, s) && (i.Pop? || i.Not? || i.FNeg?)
    ensures OutcomeOk(p, version, Exec(p, w, s, i))
  {
    hide Inv, IsFinite;
    if TakeValue(s).Took? {
      TakeOk(p, version, s);
      var s1 := TakeValue(s).s;
      PushOk(p, version, s1, BoolV(true));
      PushOk(p, version, s1, BoolV(false));
      if TakeValue(s).v.FloatV? {
        NegateFinite(TakeValue(s).v.f);
        PushOk(p, version, s1, FloatV(Negate(TakeValue(s).v.f)));
      }
    }
  }

  lemma LocalOk(p: Program, version: int, w: World, s: State, i: Instr)
    requires Inv(p, version, s) && (i.Load? || i.Store?) && 0 <= i.slot < |s.top.locals|
    ensures OutcomeOk(p, version, Exec(p, w, s, i))
  {
    if i.Load? {
      assert s.top.locals[i.slot] in s.top.locals;
      PushOk(p, version, s, s.top.locals[i.slot]);
    } else if TakeValue(s).Took? {
      TakeOk(p, version, s);
      StoreOk(p, version, TakeValue(s).s, i.slot, TakeValue(s).v);
    }
  }

  lemma JumpOk(p: Program, version: int, w: World, s: State, i: Instr)
    requires Inv(p, version, s) && (i.Jmp? || i.JmpIfFalse?) && 0 <= i.target && GoodPoint(p, p.functions[s.top.fn], version, i.target)
    ensures OutcomeOk(p, version, Exec(p, w, s, i))
  {
    hide GoodPoint;
    if i.Jmp? {
      MoveOk(p, version, s, i.target);
    } else if TakeValue(s).Took? {
      TakeOk(p, version, s);
      MoveOk(p, version, TakeValue(s).s, i.target);
    }
  }

  /** Executing an approved instruction keeps the invariant. */
  lemma ExecOk(p: Program, version: int, w: World, s: State, i: Instr)
    requires Checked(p, version) && Inv(p, version, s) && OperandsFit(i)
    requires InstrError(p, p.functions[s.top.fn], version, i).None?
    requires i.Jmp? || i.JmpIfFalse? ==> GoodPoint(p, p.functions[s.top.fn], version, i.target)
    ensures OutcomeOk(p, version, Exec(p, w, s, i))
  {
    hide GoodPoint, HasFunction, ExecInt, ExecFloat, ExecEqual, ExecRet, ExecCall, ExecRuntime, OutcomeOk, AllFinite, BasesOrdered, VerifyFunction;
    match i
    case PushConst(index) =>
      assert p.constants[index] in p.constants;
      PushOk(p, version, s, p.constants[index]);
    case Load(_) => LocalOk(p, version, w, s, i);
    case Store(_) => LocalOk(p, version, w, s, i);
    case Jmp(_) => JumpOk(p, version, w, s, i);
    case JmpIfFalse(_) => JumpOk(p, version, w, s, i);
    case Call(index, argc) => CallOk(p, version, s, index, argc);
    case CallRuntime(index, argc) => RuntimeOk(p, version, w, s, index, argc);
    case Ret => RetOk(p, version, s);
    case Pop => SimpleOk(p, version, w, s, i);
    case Not => SimpleOk(p, version, w, s, i);
    case FNeg => SimpleOk(p, version, w, s, i);
    case CmpEq => EqualOk(p, version, s);
    case Add => IntOk(p, version, s, i);
    case Sub => IntOk(p, version, s, i);
    case Mul => IntOk(p, version, s, i);
    case Div => IntOk(p, version, s, i);
    case CmpLt => IntOk(p, version, s, i);
    case _ => FloatOk(p, version, w, s, i);
  }

  lemma StepOk(p: Program, version: int, w: World, s: State)
    requires Checked(p, version) && Inv(p, version, s)
    ensures OutcomeOk(p, version, Step(p, w, s))
  {
    hide Exec, InstrError, Decode, OperandsFit, Checked, BasesOrdered, AllFinite, Boundaries, FunctionChecked;
    var f := p.functions[s.top.fn];
    if s.top.ip < |f.code| {
      CheckedFunction(p, version, f);
      AtBoundary(p, f, version, s.top.ip);
      var d := Decode(f.code, s.top.ip);
      MoveOk(p, version, s, d.next);
      ExecOk(p, version, w, s.(top := s.top.(ip := d.next)), d.i);
    }
  }

  lemma CheckedFunction(p: Program, version: int, f: Function)
    requires Checked(p, version) && f in p.functions
    ensures FunctionChecked(p, f, version)
  {
  }

  lemma StartOk(p: Program, version: int)
    requires Checked(p, version)
    ensures OutcomeOk(p, version, Start(p))
  {
    hide GoodPoint, VerifyFunction, FrameOk, MakeFrame;
    NewFrameOk(p, version, p.entry, [], 0);
    FrameBase(p, p.entry, [], 0);
  }

  lemma {:induction false} StepsOk(p: Program, version: int, w: World, o: Outcome, k: nat)
    requires Checked(p, version) && OutcomeOk(p, version, o)
    ensures OutcomeOk(p, version, Steps(p, w, o, k))
    decreases k
  {
    hide Step, Inv, Checked;
    if k > 0 && o.Running? {
      StepOk(p, version, w, o.s);
      StepsOk(p, version, w, Step(p, w, o.s), k - 1);
    }
  }

  /**
    Verifier soundness: whatever bytes the loader accepts, and whatever the world answers, every state the
    machine reaches satisfies the invariant, and no run ends outside a vector or at an unknown opcode.
   */
  lemma AcceptedProgramsStayInBounds(bs: seq<Byte>, w: World, k: nat) returns (version: int)
    requires LoadProgram(bs).Success?
    ensures Checked(LoadProgram(bs).value, version)
    ensures OutcomeOk(LoadProgram(bs).value, version, Steps(LoadProgram(bs).value, w, Start(LoadProgram(bs).value), k))
  {
    hide LoadProgram, Steps, Start, Checked, OutcomeOk;
    version := AcceptedIsChecked(bs);
    StartOk(LoadProgram(bs).value, version);
    StepsOk(LoadProgram(bs).value, version, w, Start(LoadProgram(bs).value), k);
  }

  // ---- Frame isolation ----

  /** The active frame goes on, over the same operands of its callers. */
  ghost predicate Stays(s: State, s': State) {
    && s'.callers == s.callers && s'.top.base == s.top.base <= |s'.stack| && s.top.base <= |s.stack|
    && s'.stack[..s.top.base] == s.stack[..s.top.base]
  }

  ghost predicate StaysIn(s: State, o: Outcome)
    requires s.top.base <= |s.stack|
  {
    o.Running? ==> Stays(s, o.s)
  }

  lemma PushStays(s: State, s1: State, v: Value)
    requires s.top.base <= |s.stack| && Stays(s, s1)
    ensures StaysIn(s, Push(s1, v))
  {
  }

  lemma TakeStays(s: State, s1: State)
    requires s.top.base <= |s.stack| && Stays(s, s1) && TakeValue(s1).Took?
    ensures Stays(s, TakeValue(s1).s)
  {
  }

  lemma IntStays(s: State, i: Instr)
    requires s.top.base <= |s.stack|
    ensures StaysIn(s, ExecInt(s, i))
  {
    hide CheckedInt, DivideInt, Stays, StaysIn;
    TwoTaken(s);
    NoStay(s);
  }

  lemma FloatStays(w: World, s: State, i: Instr)
    requires s.top.base <= |s.stack|
    ensures StaysIn(s, ExecFloat(w, s, i))
  {
    hide CheckedFloat, DivideFloat, Equal, Less, Stays, StaysIn;
    TwoTaken(s);
    NoStay(s);
  }

  lemma EqualStays(s: State)
    requires s.top.base <= |s.stack|
    ensures StaysIn(s, ExecEqual(s))
  {
    hide Stays, StaysIn;
    TwoTaken(s);
    NoStay(s);
  }

  /** Pushing any result after taking two operands. */
  lemma TwoTaken(s: State)
    requires s.top.base <= |s.stack|
    ensures TakeValue(s).Took? && TakeValue(TakeValue(s).s).Took? ==>
              forall v: Value :: StaysIn(s, Push(TakeValue(TakeValue(s).s).s, v))
  {
    hide Stays, StaysIn;
    SameStays(s);
    if TakeValue(s).Took? && TakeValue(TakeValue(s).s).Took? {
      TakeStays(s, s);
      TakeStays(s, TakeValue(s).s);
      forall v: Value ensures StaysIn(s, Push(TakeValue(TakeValue(s).s).s, v)) {
        PushStays(s, TakeValue(TakeValue(s).s).s, v);
      }
    }
  }

  lemma SameStays(s: State)
    requires s.top.base <= |s.stack|
    ensures Stays(s, s)
  {
  }

  lemma NoStay(s: State)
    requires s.top.base <= |s.stack|
    ensures forall e, tr :: StaysIn(s, Fault(e, tr))
  {
  }

  lemma PlainStays(p: Program, w: World, s: State, i: Instr)
    requires s.top.base <= |s.stack| && !i.Call? && !i.Ret?
    ensures StaysIn(s, Exec(p, w, s, i))
  {
    hide ExecInt, ExecFloat, ExecEqual, ExecCall, ExecRet, ValuesToRuntime, Negate;
    IntStays(s, i);
    FloatStays(w, s, i);
    EqualStays(s);
  }

  lemma CallStays(p: Program, s: State, index: int, argc: int)
    requires s.top.base <= |s.stack| && ExecCall(p, s, index, argc).Running?
    ensures var s' := ExecCall(p, s, index, argc).s;
            && s'.callers == s.callers + [s.top] && s.top.base <= s'.top.base == |s'.stack|
            && s'.stack[..s.top.base] == s.stack[..s.top.base]
  {
  }

  lemma RetStays(s: State)
    requires s.top.base <= |s.stack| && ExecRet(s).Running?
    ensures var s', m := ExecRet(s).s, |s.callers| - 1;
            && m >= 0 && s'.callers == s.callers[..m] && s'.top == s.callers[m]
            && exists v :: s'.stack == s.stack[..s.top.base] + [v]
  {
    var v := TakeValue(s).v;
    assert ExecRet(s).s.stack == TakeValue(s).s.stack[..s.top.base] + [v];
    assert TakeValue(s).s.stack[..s.top.base] == s.stack[..s.top.base];
  }

  /** The base of the frame at depth `n`; everything below it belongs to the frames that wait for it. */
  function BaseAt(s: State, n: nat): nat
    requires n <= |s.callers|
  {
    if n == |s.callers| then s.top.base else s.callers[n].base
  }

  /** The `n` outermost frames and their operands are the same in both states. */
  ghost predicate Untouched(s: State, s': State, n: nat) {
    && n <= |s.callers| && n <= |s'.callers| && s'.callers[..n] == s.callers[..n]
    && BaseAt(s', n) == BaseAt(s, n) <= |s'.stack| && BaseAt(s, n) <= |s.stack|
    && s'.stack[..BaseAt(s, n)] == s.stack[..BaseAt(s, n)]
  }

  lemma ExecIsolates(p: Program, w: World, s: State, i: Instr, n: nat)
    requires n <= |s.callers| && BasesOrdered(s) && Exec(p, w, s, i).Running?
    ensures BasesOrdered(Exec(p, w, s, i).s)
    ensures |Exec(p, w, s, i).s.callers| >= n ==> Untouched(s, Exec(p, w, s, i).s, n)
  {
    hide ExecInt, ExecFloat, ExecEqual, ExecCall, ExecRet, ExecRuntime, TakeValue, TakeBool, TakeFloat, Push;
    var o := Exec(p, w, s, i);
    var b := BaseAt(s, n);
    if i.Call? {
      CallStays(p, s, i.index, i.argc);
      PrefixOf(s.stack, o.s.stack, s.top.base, b);
    } else if i.Ret? {
      RetStays(s);
      if n <= |s.callers| - 1 {
        PrefixOf(s.stack, o.s.stack, s.top.base, b);
      }
    } else {
      PlainStays(p, w, s, i);
      PrefixOf(s.stack, o.s.stack, s.top.base, b);
    }
  }

  lemma PrefixOf(a: seq<Value>, b: seq<Value>, n: nat, m: nat)
    requires m <= n <= |a| && n <= |b| && b[..n] == a[..n]
    ensures b[..m] == a[..m]
  {
    assert b[..m] == b[..n][..m] && a[..m] == a[..n][..m];
  }

  lemma StepIsolates(p: Program, w: World, s: State, n: nat)
    requires n <= |s.callers| && BasesOrdered(s) && Step(p, w, s).Running?
    ensures BasesOrdered(Step(p, w, s).s)
    ensures |Step(p, w, s).s.callers| >= n ==> Untouched(s, Step(p, w, s).s, n)
  {
    hide Decode, Exec;
    var d := Decode(p.functions[s.top.fn].code, s.top.ip);
    ExecIsolates(p, w, s.(top := s.top.(ip := d.next)), d.i, n);
  }

  /** The run does not fall below depth `n` within `k` steps. */
  ghost predicate StaysAbove(p: Program, w: World, s: State, n: nat, k: nat) {
    forall j: nat :: j <= k ==> Steps(p, w, Running(s), j).Running? && |Steps(p, w, Running(s), j).s.callers| >= n
  }

  /**
    Frame isolation, over whole runs: until a frame at depth `n` is returned to, however long that takes and
    whatever runs above it, neither it nor any frame below it changes, and neither do their operands.
   */
  lemma {:induction false} FramesAreIsolated(p: Program, w: World, s: State, n: nat, k: nat)
    requires n <= |s.callers| && BasesOrdered(s) && StaysAbove(p, w, s, n, k)
    ensures Untouched(s, Steps(p, w, Running(s), k).s, n)
    decreases k
  {
    hide Step, BasesOrdered, Untouched;
    if k == 0 {
      AlwaysUntouched(s, n);
    } else {
      var s1 := NextState(p, w, s, n, k);
      StepIsolates(p, w, s, n);
      FramesAreIsolated(p, w, s1, n, k - 1);
      UntouchedTwice(s, s1, Steps(p, w, Running(s1), k - 1).s, n);
    }
  }

  lemma NextState(p: Program, w: World, s: State, n: nat, k: nat) returns (s1: State)
    requires k > 0 && StaysAbove(p, w, s, n, k)
    ensures Step(p, w, s) == Running(s1) && |s1.callers| >= n && StaysAbove(p, w, s1, n, k - 1)
    ensures Steps(p, w, Running(s), k) == Steps(p, w, Running(s1), k - 1)
  {
    hide Step;
    var o := Steps(p, w, Running(s), 1);
    assert o == Steps(p, w, Step(p, w, s), 0) == Step(p, w, s);
    s1 := o.s;
    forall j: nat | j <= k - 1
      ensures Steps(p, w, Running(s1), j).Running? && |Steps(p, w, Running(s1), j).s.callers| >= n
    {
      assert Steps(p, w, Running(s), j + 1) == Steps(p, w, Running(s1), j);
    }
  }

  lemma AlwaysUntouched(s: State, n: nat)
    requires n <= |s.callers| && BasesOrdered(s)
    ensures Untouched(s, s, n)
  {
  }

  lemma UntouchedTwice(a: State, b: State, c: State, n: nat)
    requires Untouched(a, b, n) && Untouched(b, c, n)
    ensures Untouched(a, c, n)
  {
  }
}
