/** Calls: what a completed call leaves behind, and that a callee cannot see its callers. */
module FrameIsolation {
  import opened Prelude
  import opened Bytes
  import opened Floats
  import opened Values
  import opened Bytecode
  import opened MachineSpec
  import opened VerifierSoundness

  // ---- Completed calls ----

  /** Only RET gives up a frame. */
  lemma OnlyRetReturns(p: Program, w: World, s: State, i: Instr)
    requires s.top.base <= |s.stack| && Exec(p, w, s, i).Running? && |Exec(p, w, s, i).s.callers| < |s.callers|
    ensures i.Ret?
  {
    hide Exec, Stays;
    if i.Call? {
      ExecIsCall(p, w, s, i);
      CallStays(p, s, i.index, i.argc);
    } else if !i.Ret? {
      PlainStays(p, w, s, i);
      StaysSameDepth(s, Exec(p, w, s, i).s);
    }
  }

  lemma ExecIsCall(p: Program, w: World, s: State, i: Instr)
    requires i.Call?
    ensures Exec(p, w, s, i) == ExecCall(p, s, i.index, i.argc)
  {
  }

  lemma StaysSameDepth(s: State, s': State)
    requires Stays(s, s')
    ensures s'.callers == s.callers
  {
  }

  lemma ReturnStep(p: Program, w: World, s: State)
    requires s.top.base <= |s.stack| && Step(p, w, s).Running? && |Step(p, w, s).s.callers| < |s.callers|
    ensures var s', m := Step(p, w, s).s, |s.callers| - 1;
            && s'.callers == s.callers[..m] && s'.top == s.callers[m]
            && exists v :: s'.stack == s.stack[..s.top.base] + [v]
  {
    hide Decode, ExecRet, ExecCall, ExecInt, ExecFloat, ExecEqual, ExecRuntime;
    var d := Decode(p.functions[s.top.fn].code, s.top.ip);
    var s1 := s.(top := s.top.(ip := d.next));
    OnlyRetReturns(p, w, s1, d.i);
    RetStays(s1);
  }

  /**
    A completed call: `s` is the caller at the call, pointing behind it, and after `k` steps above it and one
    more the callee has returned. The caller's frame is as it was, and so are its operands, but for the
    arguments, which one result has replaced.
   */
  lemma CompletedCall(p: Program, w: World, s: State, index: int, argc: int, k: nat)
    requires BasesOrdered(s) && ExecCall(p, s, index, argc).Running?
    requires StaysAbove(p, w, ExecCall(p, s, index, argc).s, |s.callers| + 1, k)
    requires var last := Steps(p, w, Running(ExecCall(p, s, index, argc).s), k).s;
             Step(p, w, last).Running? && |Step(p, w, last).s.callers| == |s.callers|
    ensures var after := Step(p, w, Steps(p, w, Running(ExecCall(p, s, index, argc).s), k).s).s;
            && 0 <= argc <= |s.stack| && after.callers == s.callers && after.top == s.top
            && exists v :: after.stack == s.stack[..|s.stack| - argc] + [v]
  {
    hide Step, Steps, MakeFrame, ExecCall, BasesOrdered, Untouched;
    var n, in' := |s.callers| + 1, ExecCall(p, s, index, argc).s;
    CallOrdered(p, s, index, argc);
    FramesAreIsolated(p, w, in', n, k);
    assert Steps(p, w, Running(in'), k).Running? && |Steps(p, w, Running(in'), k).s.callers| >= n;
    var last := Steps(p, w, Running(in'), k).s;
    StaysOrdered(p, w, in', k);
    LastFrame(p, w, in', last, n);
    ReturnStep(p, w, last);
  }

  lemma CallOrdered(p: Program, s: State, index: int, argc: int)
    requires BasesOrdered(s) && ExecCall(p, s, index, argc).Running?
    ensures var s' := ExecCall(p, s, index, argc).s;
            && BasesOrdered(s') && s'.callers == s.callers + [s.top] && 0 <= argc <= |s.stack|
            && s'.stack == s.stack[..|s.stack| - argc] && s'.top.base == |s'.stack|
  {
  }

  /** The state before the return is the callee's own: nothing is above it, everything below is untouched. */
  lemma LastFrame(p: Program, w: World, first: State, last: State, n: nat)
    requires Untouched(first, last, n) && |first.callers| == n && first.top.base == |first.stack|
    requires Step(p, w, last).Running? && |Step(p, w, last).s.callers| == n - 1 && |last.callers| >= n && BasesOrdered(last)
    ensures |last.callers| == n && last.callers == first.callers && last.top.base <= |last.stack|
    ensures last.stack[..last.top.base] == first.stack
  {
    hide Step;
    StepDepth(p, w, last);
    assert last.callers == last.callers[..n] && first.callers == first.callers[..n];
    assert first.stack == first.stack[..first.top.base];
  }

  lemma StepDepth(p: Program, w: World, s: State)
    requires s.top.base <= |s.stack| && Step(p, w, s).Running?
    ensures |Step(p, w, s).s.callers| >= |s.callers| - 1
  {
    hide Decode, Exec, Stays;
    var d := Decode(p.functions[s.top.fn].code, s.top.ip);
    var s1 := s.(top := s.top.(ip := d.next));
    if |Step(p, w, s).s.callers| < |s.callers| {
      OnlyRetReturns(p, w, s1, d.i);
      ExecIsRet(p, w, s1, d.i);
      RetStays(s1);
    }
  }

  lemma ExecIsRet(p: Program, w: World, s: State, i: Instr)
    requires i.Ret?
    ensures Exec(p, w, s, i) == ExecRet(s)
  {
  }

  /** Frame bases stay ordered in every run. */
  lemma {:induction false} StaysOrdered(p: Program, w: World, s: State, k: nat)
    requires BasesOrdered(s) && Steps(p, w, Running(s), k).Running?
    ensures BasesOrdered(Steps(p, w, Running(s), k).s)
    decreases k
  {
    hide Step, BasesOrdered;
    if k > 0 {
      assert Steps(p, w, Running(s), k) == Steps(p, w, Step(p, w, s), k - 1);
      StepIsolates(p, w, s, 0);
      StaysOrdered(p, w, Step(p, w, s).s, k - 1);
    }
  }

  // ---- A callee cannot see its callers ----

  /** From depth `n` on, and above operand `b`, the two states are the same; below, only their sizes are. */
  ghost predicate AgreesAbove(s: State, t: State, n: nat, b: nat) {
    && n <= |s.callers| == |t.callers| && s.callers[n..] == t.callers[n..] && s.top == t.top && s.trace == t.trace
    && b <= s.top.base <= |s.stack| == |t.stack| && s.stack[b..] == t.stack[b..]
  }

  /** The frames from depth `n` on sit on operand `b` or higher. */
  ghost predicate BasesAbove(s: State, n: nat, b: nat) {
    forall i :: n <= i < |s.callers| ==> b <= s.callers[i].base <= s.top.base
  }

  /** Both go on alike, as long as they do not return to a frame below depth `n`. */
  ghost predicate SameOutcome(o: Outcome, q: Outcome, n: nat, b: nat) {
    match o
    case Running(s) => q.Running? && (|s.callers| >= n ==> AgreesAbove(s, q.s, n, b))
    case Done(_, _) => q == o
    case Fault(_, _) => q == o
  }

  /** The same value is taken, or the same error is raised. */
  ghost predicate SameTaken<T>(x: Taken<T>, y: Taken<T>, n: nat, b: nat) {
    match x
    case Took(v, s) => y.Took? && y.v == v && AgreesAbove(s, y.s, n, b)
    case Refused(e, tr) => y.Refused? && y.e == e && y.tr == tr
  }

  lemma PushSame(s: State, t: State, n: nat, b: nat, v: Value)
    requires AgreesAbove(s, t, n, b)
    ensures SameOutcome(Push(s, v), Push(t, v), n, b)
  {
    if |s.stack| < MAX_STACK {
      assert (s.stack + [v])[b..] == s.stack[b..] + [v] && (t.stack + [v])[b..] == t.stack[b..] + [v];
    }
  }

  lemma TakeSame(s: State, t: State, n: nat, b: nat)
    requires AgreesAbove(s, t, n, b)
    ensures SameTaken(TakeValue(s), TakeValue(t), n, b)
  {
    if |s.stack| > s.top.base {
      var m := |s.stack| - 1;
      assert s.stack[m] == s.stack[b..][m - b] && t.stack[m] == t.stack[b..][m - b];
      assert s.stack[..m][b..] == s.stack[b..][..m - b] && t.stack[..m][b..] == t.stack[b..][..m - b];
    }
  }

  lemma TakeKindsSame(s: State, t: State, n: nat, b: nat)
    requires AgreesAbove(s, t, n, b)
    ensures SameTaken(TakeInt(s), TakeInt(t), n, b) && SameTaken(TakeFloat(s), TakeFloat(t), n, b) && SameTaken(TakeBool(s), TakeBool(t), n, b)
  {
    hide AgreesAbove, TakeValue;
    TakeSame(s, t, n, b);
    Traces(s, t, n, b);
  }

  lemma Traces(s: State, t: State, n: nat, b: nat)
    requires AgreesAbove(s, t, n, b)
    ensures s.trace == t.trace
  {
  }

  lemma IntSame(s: State, t: State, n: nat, b: nat, i: Instr)
    requires AgreesAbove(s, t, n, b)
    ensures SameOutcome(ExecInt(s, i), ExecInt(t, i), n, b)
  {
    hide AgreesAbove, TakeInt, Push, CheckedInt, DivideInt;
    TakeKindsSame(s, t, n, b);
    if TakeInt(s).Took? {
      var s1, t1 := TakeInt(s).s, TakeInt(t).s;
      TakeKindsSame(s1, t1, n, b);
      if TakeInt(s1).Took? {
        var s2, t2 := TakeInt(s1).s, TakeInt(t1).s;
        Traces(s2, t2, n, b);
        forall v ensures SameOutcome(Push(s2, v), Push(t2, v), n, b) {
          PushSame(s2, t2, n, b, v);
        }
      }
    }
  }

  lemma FloatSame(w: World, s: State, t: State, n: nat, b: nat, i: Instr)
    requires AgreesAbove(s, t, n, b)
    ensures SameOutcome(ExecFloat(w, s, i), ExecFloat(w, t, i), n, b)
  {
    hide AgreesAbove, TakeFloat, Push, CheckedFloat, DivideFloat, Equal, Less;
    TakeKindsSame(s, t, n, b);
    if TakeFloat(s).Took? {
      var s1, t1 := TakeFloat(s).s, TakeFloat(t).s;
      TakeKindsSame(s1, t1, n, b);
      if TakeFloat(s1).Took? {
        var s2, t2 := TakeFloat(s1).s, TakeFloat(t1).s;
        Traces(s2, t2, n, b);
        forall v ensures SameOutcome(Push(s2, v), Push(t2, v), n, b) {
          PushSame(s2, t2, n, b, v);
        }
      }
    }
  }

  lemma EqualSame(s: State, t: State, n: nat, b: nat)
    requires AgreesAbove(s, t, n, b)
    ensures SameOutcome(ExecEqual(s), ExecEqual(t), n, b)
  {
    hide AgreesAbove, TakeValue, Push;
    TakeSame(s, t, n, b);
    Traces(s, t, n, b);
    if TakeValue(s).Took? {
      var s1, t1 := TakeValue(s).s, TakeValue(t).s;
      TakeSame(s1, t1, n, b);
      if TakeValue(s1).Took? {
        var s2, t2 := TakeValue(s1).s, TakeValue(t1).s;
        forall v ensures SameOutcome(Push(s2, v), Push(t2, v), n, b) {
          PushSame(s2, t2, n, b, v);
        }
      }
    }
  }

  lemma ArgumentsSame(s: State, t: State, n: nat, b: nat, count: nat)
    requires AgreesAbove(s, t, n, b)
    ensures SameTaken(TakeArguments(s, count), TakeArguments(t, count), n, b)
  {
    var size := |s.stack|;
    if count <= size - s.top.base {
      var m := size - count;
      assert s.stack[m..] == s.stack[b..][m - b..] && t.stack[m..] == t.stack[b..][m - b..];
      assert s.stack[..m][b..] == s.stack[b..][..m - b] && t.stack[..m][b..] == t.stack[b..][..m - b];
    }
  }

  lemma CallSame(p: Program, s: State, t: State, n: nat, b: nat, index: int, argc: int)
    requires AgreesAbove(s, t, n, b)
    ensures SameOutcome(ExecCall(p, s, index, argc), ExecCall(p, t, index, argc), n, b)
  {
    hide TakeArguments, MakeFrame;
    if argc >= 0 {
      ArgumentsSame(s, t, n, b, argc);
      ArgumentsFrame(s, argc);
      ArgumentsFrame(t, argc);
      assert (s.callers + [s.top])[n..] == s.callers[n..] + [s.top] && (t.callers + [t.top])[n..] == t.callers[n..] + [t.top];
      if ExecCall(p, s, index, argc).Running? {
        FrameBase(p, index, TakeArguments(s, argc).v, |TakeArguments(s, argc).s.stack|);
      }
    }
  }

  lemma ArgumentsFrame(s: State, count: nat)
    ensures TakeArguments(s, count).Took? ==> TakeArguments(s, count).s.top == s.top && |TakeArguments(s, count).v| == count
    ensures TakeArguments(s, count).Took? && s.top.base <= |s.stack| ==> s.top.base <= |TakeArguments(s, count).s.stack|
  {
  }

  lemma RuntimeSame(p: Program, w: World, s: State, t: State, n: nat, b: nat, index: int, argc: int)
    requires AgreesAbove(s, t, n, b)
    ensures SameOutcome(ExecRuntime(p, w, s, index, argc), ExecRuntime(p, w, t, index, argc), n, b)
  {
    hide TakeArguments, ValuesToRuntime, Push;
    if argc >= 0 {
      ArgumentsSame(s, t, n, b, argc);
      if TakeArguments(s, argc).Took? {
        var s1, t1 := TakeArguments(s, argc).s, TakeArguments(t, argc).s;
        forall tr: Trace, v ensures SameOutcome(Push(s1.(trace := tr), v), Push(t1.(trace := tr), v), n, b) {
          PushSame(s1.(trace := tr), t1.(trace := tr), n, b, v);
        }
      }
    }
  }

  lemma RetSame(s: State, t: State, n: nat, b: nat)
    requires AgreesAbove(s, t, n, b) && BasesAbove(s, n, b)
    ensures SameOutcome(ExecRet(s), ExecRet(t), n, b)
  {
    hide TakeValue;
    TakeSame(s, t, n, b);
    TakenStack(s);
    TakenStack(t);
    if TakeValue(s).Took? && s.callers != [] {
      var m, base := |s.callers| - 1, s.top.base;
      if m >= n {
        assert s.callers[m] == s.callers[n..][m - n] && t.callers[m] == t.callers[n..][m - n];
        assert s.callers[..m][n..] == s.callers[n..][..m - n] && t.callers[..m][n..] == t.callers[n..][..m - n];
        assert s.stack[..base][b..] == s.stack[b..][..base - b] && t.stack[..base][b..] == t.stack[b..][..base - b];
        var v := TakeValue(s).v;
        PushSame(State(s.callers[..m], s.callers[m], s.stack[..base], s.trace), State(t.callers[..m], t.callers[m], t.stack[..base], t.trace), n, b, v);
      }
    }
  }

  lemma TakenStack(s: State)
    requires s.top.base <= |s.stack|
    ensures TakeValue(s).Took? ==> s.top.base <= |TakeValue(s).s.stack| && TakeValue(s).s.stack[..s.top.base] == s.stack[..s.top.base]
  {
    if TakeValue(s).Took? {
      assert s.stack[..|s.stack| - 1][..s.top.base] == s.stack[..s.top.base];
    }
  }

  lemma SimpleSame(p: Program, w: World, s: State, t: State, n: nat, b: nat, i: Instr)
    requires AgreesAbove(s, t, n, b) && (i.PushConst? || i.Load? || i.Store? || i.Jmp? || i.JmpIfFalse? || i.Pop? || i.Not? || i.FNeg?)
    ensures SameOutcome(Exec(p, w, s, i), Exec(p, w, t, i), n, b)
  {
    hide AgreesAbove, SameOutcome, Exec;
    if i.PushConst? || i.Load? || i.Jmp? {
      FetchSame(p, w, s, t, n, b, i);
    } else {
      TakingSame(p, w, s, t, n, b, i);
    }
  }

  lemma FetchSame(p: Program, w: World, s: State, t: State, n: nat, b: nat, i: Instr)
    requires AgreesAbove(s, t, n, b) && (i.PushConst? || i.Load? || i.Jmp?)
    ensures SameOutcome(Exec(p, w, s, i), Exec(p, w, t, i), n, b)
  {
    hide Push;
    forall v ensures SameOutcome(Push(s, v), Push(t, v), n, b) {
      PushSame(s, t, n, b, v);
    }
  }

  lemma TakingSame(p: Program, w: World, s: State, t: State, n: nat, b: nat, i: Instr)
    requires AgreesAbove(s, t, n, b) && (i.Store? || i.JmpIfFalse? || i.Pop? || i.Not? || i.FNeg?)
    ensures SameOutcome(Exec(p, w, s, i), Exec(p, w, t, i), n, b)
  {
    hide TakeValue, TakeInt, TakeBool, TakeFloat, Push, Negate;
    TakeSame(s, t, n, b);
    TakeKindsSame(s, t, n, b);
    if i.Not? && TakeBool(s).Took? {
      PushSame(TakeBool(s).s, TakeBool(t).s, n, b, BoolV(!TakeBool(s).v));
    } else if i.FNeg? && TakeFloat(s).Took? {
      PushSame(TakeFloat(s).s, TakeFloat(t).s, n, b, FloatV(Negate(TakeFloat(s).v)));
    } else if i.Store? && TakeValue(s).Took? {
      TakenFrame(s);
    }
  }

  lemma TakenFrame(s: State)
    ensures TakeValue(s).Took? ==> TakeValue(s).s.top == s.top && TakeValue(s).s.callers == s.callers
  {
  }

  lemma ExecSame(p: Program, w: World, s: State, t: State, n: nat, b: nat, i: Instr)
    requires AgreesAbove(s, t, n, b) && BasesAbove(s, n, b)
    ensures SameOutcome(Exec(p, w, s, i), Exec(p, w, t, i), n, b)
  {
    hide AgreesAbove, SameOutcome, ExecInt, ExecFloat, ExecEqual, ExecCall, ExecRuntime, ExecRet, BasesAbove;
    match i
    case Call(index, argc) => CallSame(p, s, t, n, b, index, argc);
    case CallRuntime(index, argc) => RuntimeSame(p, w, s, t, n, b, index, argc);
    case Ret => RetSame(s, t, n, b);
    case CmpEq => EqualSame(s, t, n, b);
    case _ =>
      if i.PushConst? || i.Load? || i.Store? || i.Jmp? || i.JmpIfFalse? || i.Pop? || i.Not? || i.FNeg? {
        SimpleSame(p, w, s, t, n, b, i);
      } else if i.Add? || i.Sub? || i.Mul? || i.Div? || i.CmpLt? {
        IntSame(s, t, n, b, i);
      } else {
        FloatSame(w, s, t, n, b, i);
      }
  }

  lemma StepSame(p: Program, w: World, s: State, t: State, n: nat, b: nat)
    requires AgreesAbove(s, t, n, b) && BasesAbove(s, n, b)
    ensures SameOutcome(Step(p, w, s), Step(p, w, t), n, b)
  {
    hide Exec, Decode;
    if s.top.fn < |p.functions| && s.top.ip < |p.functions[s.top.fn].code| {
      var d := Decode(p.functions[s.top.fn].code, s.top.ip);
      if d.Decoded? {
        ExecSame(p, w, s.(top := s.top.(ip := d.next)), t.(top := t.top.(ip := d.next)), n, b, d.i);
      }
    }
  }

  lemma OrderedAbove(s: State, n: nat, b: nat)
    requires BasesOrdered(s) && n <= |s.callers| && b <= BaseAt(s, n)
    ensures BasesAbove(s, n, b)
  {
  }

  /**
    A callee sees neither the frames nor the operands of its callers: two machines that differ only below
    the callee's depth do the same, for as long as they stay above it, and fail alike.
   */
  lemma {:induction false} CalleesAreBlind(p: Program, w: World, s: State, t: State, n: nat, k: nat)
    requires BasesOrdered(s) && n <= |s.callers| && AgreesAbove(s, t, n, BaseAt(s, n)) && StaysAbove(p, w, s, n, k)
    ensures var o, q := Steps(p, w, Running(s), k), Steps(p, w, Running(t), k);
            && q.Running? && AgreesAbove(o.s, q.s, n, BaseAt(s, n))
            && (Step(p, w, o.s).Fault? ==> Step(p, w, q.s) == Step(p, w, o.s))
    decreases k
  {
    hide Step, BasesOrdered, AgreesAbove, StaysAbove, BasesAbove, Untouched;
    var b := BaseAt(s, n);
    OrderedAbove(s, n, b);
    StepSame(p, w, s, t, n, b);
    if k > 0 {
      var s1 := NextState(p, w, s, n, k);
      StepIsolates(p, w, s, n);
      SameBase(s, s1, n);
      CalleesAreBlind(p, w, s1, Step(p, w, t).s, n, k - 1);
      assert Steps(p, w, Running(t), k) == Steps(p, w, Step(p, w, t), k - 1);
    }
  }

  lemma SameBase(s: State, s': State, n: nat)
    requires Untouched(s, s', n)
    ensures n <= |s'.callers| && n <= |s.callers| && BaseAt(s', n) == BaseAt(s, n)
  {
  }
}
