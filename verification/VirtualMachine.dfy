/**
  The virtual machine as it runs. Code, constants, locals and functions are indexed without any test, as in
  an unchecked vector access: that every index is in range follows from what the loader accepted.
 */
module VirtualMachine {
  import opened Prelude
  import opened Bytes
  import opened Floats
  import opened Values
  import opened RuntimeApi
  import opened Bytecode
  import opened FileFormat
  import opened MachineSpec
  import opened VerifierSoundness
  import Loader

  /** How a run ends. */
  datatype End = Halted(v: Value) | Stopped(e: Error)

  /** The machine has done what the specified step does. */
  ghost predicate Agrees(spec: Outcome, end: Option<End>, frames: seq<Frame>, stack: seq<Value>, trace: Trace) {
    match spec
    case Running(s) => end.None? && frames == s.callers + [s.top] && stack == s.stack && trace == s.trace
    case Done(v, tr) => end == Some(Halted(v)) && trace == tr
    case Fault(e, tr) => end == Some(Stopped(e)) && trace == tr
  }

  /** A value was taken from the stack as specified, or the specified error was raised. */
  ghost predicate Takes<T>(spec: Taken<T>, r: Result<T, Error>, stack: seq<Value>) {
    match spec
    case Took(v, s) => r == Success(v) && stack == s.stack
    case Refused(e, _) => r == Failure(e)
  }

  class Vm {
    const program: Program
    const world: World
    ghost const version: int
    var stack: seq<Value>
    var frames: seq<Frame>
    var trace: Trace // the calls the Runtime has answered so far

    /** The machine has frames, and its state satisfies what acceptance guarantees. */
    ghost predicate Valid()
      reads this
    {
      frames != [] && Checked(program, version) && Inv(program, version, Now())
    }

    ghost function Now(): State
      requires frames != []
      reads this
    {
      State(frames[..|frames| - 1], frames[|frames| - 1], stack, trace)
    }

    constructor (program: Program, world: World, ghost version: int)
      requires Checked(program, version)
      ensures this.program == program && this.world == world && this.version == version
      ensures frames == [] && stack == [] && trace == []
    {
      this.program, this.world, this.version := program, world, version;
      stack, frames, trace := [], [], [];
    }

    // ---- Operands ----

    method Push(v: Value) returns (end: Option<End>)
      requires frames != []
      modifies this`stack
      ensures Agrees(MachineSpec.Push(old(Now()), v), end, frames, stack, trace)
    {
      if |stack| >= MAX_STACK {
        return Some(Stopped(OperandStackOverflow));
      }
      stack := stack + [v];
      end := None;
    }

    method Pop() returns (r: Result<Value, Error>)
      requires frames != []
      modifies this`stack
      ensures Takes(TakeValue(old(Now())), r, stack)
    {
      if |stack| <= frames[|frames| - 1].base {
        return Failure(StackUnderflow);
      }
      r := Success(stack[|stack| - 1]);
      stack := stack[..|stack| - 1];
    }

    method PopInt() returns (r: Result<I64, Error>)
      requires frames != []
      modifies this`stack
      ensures Takes(TakeInt(old(Now())), r, stack)
    {
      var v :- Pop();
      r := if v.IntV? then Success(v.n) else Failure(ExpectedInt);
    }

    method PopFloat() returns (r: Result<F64, Error>)
      requires frames != []
      modifies this`stack
      ensures Takes(TakeFloat(old(Now())), r, stack)
    {
      var v :- Pop();
      r := if v.FloatV? then Success(v.f) else Failure(ExpectedFloat);
    }

    method PopBool() returns (r: Result<bool, Error>)
      requires frames != []
      modifies this`stack
      ensures Takes(TakeBool(old(Now())), r, stack)
    {
      var n :- PopInt();
      r := if n == 0 || n == 1 then Success(n != 0) else Failure(ExpectedBool);
    }

    /** Filled from the back: the last argument is on top. */
    method Arguments(count: nat) returns (r: Result<seq<Value>, Error>)
      requires frames != [] && frames[|frames| - 1].base <= |stack|
      modifies this`stack
      ensures Takes(TakeArguments(old(Now()), count), r, stack)
    {
      if count > |stack| - frames[|frames| - 1].base {
        return Failure(StackUnderflow);
      }
      var args := new Value[count](_ => IntV(0));
      var i := count;
      while i > 0
        invariant 0 <= i <= count && frames == old(frames)
        invariant |stack| == |old(stack)| - count + i && stack == old(stack)[..|stack|]
        invariant args[i..] == old(stack)[|stack|..]
      {
        var v := Pop();
        ghost var before := args[i..];
        args[i - 1] := v.value;
        i := i - 1;
        assert args[i..] == [args[i]] + args[i + 1..] && args[i + 1..] == before;
        assert old(stack)[|stack|..] == [old(stack)[|stack|]] + old(stack)[|stack| + 1..];
      }
      assert args[0..] == args[..];
      r := Success(args[..]);
    }

    // ---- Instructions ----

    /** The operand bytes behind the instruction pointer, lowest first. */
    method Operand(width: nat) returns (value: nat)
      requires frames != [] && frames[|frames| - 1].fn < |program.functions|
      requires frames[|frames| - 1].ip + width <= |program.functions[frames[|frames| - 1].fn].code|
      modifies this`frames
      ensures var f := old(frames[|frames| - 1]);
              && frames == old(frames)[|old(frames)| - 1 := f.(ip := f.ip + width)]
              && value == FromLE(program.functions[f.fn].code[f.ip..f.ip + width])
    {
      hide Pow256;
      var top := |frames| - 1;
      ghost var f := frames[top];
      var code := program.functions[frames[top].fn].code;
      ghost var word := code[f.ip..f.ip + width];
      var scale := 1;
      value := 0;
      assert word[0..] == word;
      for i := 0 to width
        invariant frames == old(frames)[top := f.(ip := f.ip + i)] && scale > 0
        invariant FromLE(word) == value + scale * FromLE(word[i..])
      {
        Loader.Shift(word, i, scale);
        assert code[frames[top].ip] == word[i];
        value := value + code[frames[top].ip] * scale;
        scale := scale * 256;
        frames := frames[top := frames[top].(ip := frames[top].ip + 1)];
      }
      assert word[width..] == [];
    }

    /** The opcode of `i` has been fetched and its operands have not; `s` is the state behind the whole instruction. */
    ghost predicate Fetched(s: State, opcode: Byte, i: Instr)
      reads this
    {
      && s.top.fn < |program.functions|
      && var f := program.functions[s.top.fn]; var width := OperandWidth(opcode);
      && 0 <= width <= s.top.ip <= |f.code|
      && i == Assemble(opcode, f.code[s.top.ip - width..s.top.ip])
      && InstrError(program, f, version, i).None?
      && |s.top.locals| == |s.top.init| == f.paramCount + f.localCount
      && s.top.base <= |s.stack|
      && frames == s.callers + [s.top.(ip := s.top.ip - width)] && stack == s.stack && trace == s.trace
    }

    method Integers(opcode: Byte, ghost s: State, ghost i: Instr) returns (end: Option<End>)
      requires Fetched(s, opcode, i) && (0x04 <= opcode <= 0x07 || opcode == 0x09)
      modifies this`stack
      ensures Agrees(Exec(program, world, s, i), end, frames, stack, trace)
    {
      hide InstrError, CheckedInt, DivideInt;
      assert Now() == s;
      var rhs := PopInt();
      if rhs.Failure? { return Some(Stopped(rhs.error)); }
      var lhs := PopInt();
      if lhs.Failure? { return Some(Stopped(lhs.error)); }
      if opcode == 0x09 {
        end := Push(BoolV(lhs.value < rhs.value));
        return;
      }
      var a: int, b: int := lhs.value, rhs.value;
      var result := match opcode
        case 0x04 => CheckedInt(a + b)
        case 0x05 => CheckedInt(a - b)
        case 0x06 => CheckedInt(a * b)
        case _ => DivideInt(lhs.value, rhs.value);
      if result.Failed? { return Some(Stopped(result.e)); }
      end := Push(IntV(result.value));
    }

    lemma FetchedFloat(s: State, opcode: Byte, i: Instr)
      requires Fetched(s, opcode, i) && (0x11 <= opcode <= 0x14 || opcode == 0x16 || opcode == 0x17)
      ensures frames != [] && Now() == s && Exec(program, world, s, i) == ExecFloat(world, s, i)
      ensures (opcode == 0x11 <==> i.FAdd?) && (opcode == 0x12 <==> i.FSub?) && (opcode == 0x13 <==> i.FMul?)
      ensures (opcode == 0x14 <==> i.FDiv?) && (opcode == 0x16 <==> i.FCmpEq?) && (opcode == 0x17 <==> i.FCmpLt?)
    {
      hide InstrError, ExecFloat;
    }

    method Floats(opcode: Byte, ghost s: State, ghost i: Instr) returns (end: Option<End>)
      requires Fetched(s, opcode, i) && (0x11 <= opcode <= 0x14 || opcode == 0x16 || opcode == 0x17)
      modifies this`stack
      ensures Agrees(Exec(program, world, s, i), end, frames, stack, trace)
    {
      hide InstrError, CheckedFloat, DivideFloat, Equal, Less, Exec, Assemble, Vm.Fetched;
      FetchedFloat(s, opcode, i);
      var rhs := PopFloat();
      if rhs.Failure? { return Some(Stopped(rhs.error)); }
      var lhs := PopFloat();
      if lhs.Failure? { return Some(Stopped(lhs.error)); }
      var a, b := lhs.value, rhs.value;
      if opcode == 0x16 || opcode == 0x17 {
        end := Push(BoolV(if opcode == 0x16 then Equal(a, b) else Less(a, b)));
        return;
      }
      var result := match opcode
        case 0x11 => CheckedFloat(world.fadd(a, b))
        case 0x12 => CheckedFloat(world.fsub(a, b))
        case 0x13 => CheckedFloat(world.fmul(a, b))
        case _ => DivideFloat(world, a, b);
      if result.Failed? { return Some(Stopped(result.e)); }
      end := Push(FloatV(result.value));
    }

    method Compare(opcode: Byte, ghost s: State, ghost i: Instr) returns (end: Option<End>)
      requires Fetched(s, opcode, i) && opcode == 0x08
      modifies this`stack
      ensures Agrees(Exec(program, world, s, i), end, frames, stack, trace)
    {
      hide InstrError;
      assert Now() == s;
      var rhs := Pop();
      if rhs.Failure? { return Some(Stopped(rhs.error)); }
      var lhs := Pop();
      if lhs.Failure? { return Some(Stopped(lhs.error)); }
      match (lhs.value, rhs.value) {
        case (IntV(x), IntV(y)) => end := Push(BoolV(x == y));
        case (StringV(x), StringV(y)) => end := Push(BoolV(x == y));
        case (FloatV(_), FloatV(_)) => end := Some(Stopped(FloatEquality));
        case _ => end := Some(Stopped(MismatchedEquality));
      }
    }

    method Variables(opcode: Byte, ghost s: State, ghost i: Instr) returns (end: Option<End>)
      requires Fetched(s, opcode, i) && 0x01 <= opcode <= 0x03
      modifies this`stack, this`frames
      ensures Agrees(Exec(program, world, s, i), end, frames, stack, trace)
    {
      hide FromLE;
      if opcode == 0x01 {
        var index := Operand(2);
        assert Now() == s;
        end := Push(program.constants[index]);
        return;
      }
      var slot := Operand(1);
      assert Now() == s;
      var top := |frames| - 1;
      if opcode == 0x02 {
        if !frames[top].init[slot] {
          return Some(Stopped(UninitializedLocal));
        }
        end := Push(frames[top].locals[slot]);
      } else {
        var v := Pop();
        if v.Failure? { return Some(Stopped(v.error)); }
        frames := frames[top := frames[top].(locals := frames[top].locals[slot := v.value], init := frames[top].init[slot := true])];
        end := None;
      }
    }

    method Jumps(opcode: Byte, ghost s: State, ghost i: Instr) returns (end: Option<End>)
      requires Fetched(s, opcode, i) && (opcode == 0x0A || opcode == 0x0B)
      modifies this`stack, this`frames
      ensures Agrees(Exec(program, world, s, i), end, frames, stack, trace)
    {
      hide FromLE, InstrError;
      var target := Operand(4);
      assert Now() == s;
      var top := |frames| - 1;
      if opcode == 0x0A {
        frames := frames[top := frames[top].(ip := target)];
      } else {
        var b := PopBool();
        if b.Failure? { return Some(Stopped(b.error)); }
        if !b.value {
          frames := frames[top := frames[top].(ip := target)];
        }
      }
      end := None;
    }

    method Simple(opcode: Byte, ghost s: State, ghost i: Instr) returns (end: Option<End>)
      requires Fetched(s, opcode, i) && (opcode == 0x0F || opcode == 0x10 || opcode == 0x15)
      modifies this`stack
      ensures Agrees(Exec(program, world, s, i), end, frames, stack, trace)
    {
      hide InstrError, Negate;
      assert Now() == s;
      if opcode == 0x0F {
        var v := Pop();
        end := if v.Failure? then Some(Stopped(v.error)) else None;
      } else if opcode == 0x10 {
        var b := PopBool();
        if b.Failure? { return Some(Stopped(b.error)); }
        end := Push(BoolV(!b.value));
      } else {
        var f := PopFloat();
        if f.Failure? { return Some(Stopped(f.error)); }
        end := Push(FloatV(Negate(f.value)));
      }
    }

    method Return(opcode: Byte, ghost s: State, ghost i: Instr) returns (end: Option<End>)
      requires Fetched(s, opcode, i) && opcode == 0x0E
      modifies this`stack, this`frames
      ensures Agrees(Exec(program, world, s, i), end, frames, stack, trace)
    {
      hide InstrError;
      assert Now() == s;
      var result := Pop();
      if result.Failure? { return Some(Stopped(result.error)); }
      stack := stack[..frames[|frames| - 1].base];
      frames := frames[..|frames| - 1];
      if frames == [] {
        return Some(Halted(result.value));
      }
      end := Push(result.value);
    }

    /** Arguments go to the first locals; every other local is uninitialised. */
    method MakeFrame(index: nat, args: seq<Value>) returns (frame: Frame)
      requires index < |program.functions|
      requires |args| <= program.functions[index].paramCount + program.functions[index].localCount
      ensures frame == MachineSpec.MakeFrame(program, index, args, |stack|)
    {
      var count := program.functions[index].paramCount + program.functions[index].localCount;
      var locals, init := seq(count, _ => IntV(0)), seq(count, _ => false);
      for i := 0 to |args|
        invariant |locals| == |init| == count
        invariant forall k :: 0 <= k < count ==> locals[k] == if k < i then args[k] else IntV(0)
        invariant forall k :: 0 <= k < count ==> init[k] == (k < i)
      {
        locals := locals[i := args[i]];
        init := init[i := true];
      }
      assert locals == args + seq(count - |args|, _ => IntV(0));
      assert init == seq(count, i => i < |args|);
      frame := Frame(index, 0, |stack|, locals, init);
    }

    method Call(opcode: Byte, ghost s: State, ghost i: Instr) returns (end: Option<End>)
      requires Fetched(s, opcode, i) && opcode == 0x0C && Checked(program, version)
      modifies this`stack, this`frames
      ensures Agrees(Exec(program, world, s, i), end, frames, stack, trace)
    {
      hide FromLE, MachineSpec.MakeFrame, VerifyFunction;
      ghost var at := s.top.ip - 3;
      ghost var code := program.functions[s.top.fn].code;
      assert code[at..at + 3][..2] == code[at..at + 2] && code[at..at + 3][2..] == code[at + 2..at + 3];
      var index := Operand(2);
      var argc := Operand(1);
      assert Now() == s;
      assert program.functions[index] in program.functions;
      var args := Arguments(argc);
      if args.Failure? { return Some(Stopped(args.error)); }
      if |frames| >= MAX_FRAMES {
        return Some(Stopped(CallStackOverflow));
      }
      var frame := MakeFrame(index, args.value);
      frames := frames + [frame];
      end := None;
    }

    method ToRuntime(vs: seq<Value>) returns (r: Option<seq<RuntimeValue>>)
      ensures r == ValuesToRuntime(vs)
    {
      var done: seq<RuntimeValue> := [];
      assert vs[0..] == vs && (ValuesToRuntime(vs).Some? ==> [] + ValuesToRuntime(vs).value == ValuesToRuntime(vs).value);
      for i := 0 to |vs|
        invariant ValuesToRuntime(vs) == match ValuesToRuntime(vs[i..]) case None => None case Some(rest) => Some(done + rest)
      {
        assert vs[i..][0] == vs[i] && vs[i..][1..] == vs[i + 1..];
        ghost var rest := ValuesToRuntime(vs[i + 1..]);
        match vs[i] {
          case IntV(n) =>
            assert rest.Some? ==> done + ([RuntimeInt(n)] + rest.value) == done + [RuntimeInt(n)] + rest.value;
            done := done + [RuntimeInt(n)];
          case StringV(t) =>
            assert rest.Some? ==> done + ([RuntimeString(t)] + rest.value) == done + [RuntimeString(t)] + rest.value;
            done := done + [RuntimeString(t)];
          case FloatV(_) =>
            return None;
        }
      }
      assert done + [] == done;
      r := Some(done);
    }

    method CallRuntime(opcode: Byte, ghost s: State, ghost i: Instr) returns (end: Option<End>)
      requires Fetched(s, opcode, i) && opcode == 0x0D
      modifies this`stack, this`frames, this`trace
      ensures Agrees(Exec(program, world, s, i), end, frames, stack, trace)
    {
      hide FromLE, HasFunction, ValuesToRuntime;
      ghost var at := s.top.ip - 3;
      ghost var code := program.functions[s.top.fn].code;
      assert code[at..at + 3][..2] == code[at..at + 2] && code[at..at + 3][2..] == code[at + 2..at + 3];
      var index := Operand(2);
      var argc := Operand(1);
      assert Now() == s;
      var args := Arguments(argc);
      if args.Failure? { return Some(Stopped(args.error)); }
      var runtimeArgs := ToRuntime(args.value);
      if runtimeArgs.None? { return Some(Stopped(RuntimeFloatArgument)); }
      var event := Event(program.constants[index].t, runtimeArgs.value);
      var reply := world.runtime(trace, event);
      trace := trace + [event];
      if reply.Threw? { return Some(Stopped(RuntimeFailure)); }
      end := Push(ValueFromRuntime(reply.value));
    }

    method Execute(opcode: Byte, ghost s: State, ghost i: Instr) returns (end: Option<End>)
      requires Fetched(s, opcode, i) && Checked(program, version)
      modifies this`stack, this`frames, this`trace
      ensures Agrees(Exec(program, world, s, i), end, frames, stack, trace)
    {
      hide Exec, InstrError, Assemble, Checked, Agrees;
      if opcode <= 0x03 {
        end := Variables(opcode, s, i);
      } else if opcode == 0x08 {
        end := Compare(opcode, s, i);
      } else if opcode <= 0x07 || opcode == 0x09 {
        end := Integers(opcode, s, i);
      } else if opcode <= 0x0B {
        end := Jumps(opcode, s, i);
      } else if opcode == 0x0C {
        end := Call(opcode, s, i);
      } else if opcode == 0x0D {
        end := CallRuntime(opcode, s, i);
      } else if opcode == 0x0E {
        end := Return(opcode, s, i);
      } else if opcode <= 0x10 || opcode == 0x15 {
        end := Simple(opcode, s, i);
      } else {
        end := Floats(opcode, s, i);
      }
    }

    /** Fetch, decode, execute. */
    method Step() returns (end: Option<End>)
      requires Valid()
      modifies this`stack, this`frames, this`trace
      ensures Agrees(MachineSpec.Step(program, world, old(Now())), end, frames, stack, trace)
      ensures end.None? ==> Valid()
    {
      ghost var before := Now();
      StepOk(program, version, world, before);
      var top := |frames| - 1;
      var active := program.functions[frames[top].fn];
      if frames[top].ip >= |active.code| {
        return Some(Stopped(EndedWithoutRet));
      }
      var opcode := active.code[frames[top].ip];
      frames := frames[top := frames[top].(ip := frames[top].ip + 1)];
      ghost var d := Decode(active.code, before.top.ip);
      ghost var s := before.(top := before.top.(ip := d.next));
      Fetch(before, opcode);
      end := Execute(opcode, s, d.i);
      ghost var o := Exec(program, world, s, d.i);
      if end.None? {
        assert frames[..|frames| - 1] == o.s.callers;
      }
    }

    lemma Fetch(before: State, opcode: Byte)
      requires Checked(program, version) && Inv(program, version, before)
      requires var code := program.functions[before.top.fn].code; before.top.ip < |code| && opcode == code[before.top.ip]
      requires frames == before.callers + [before.top.(ip := before.top.ip + 1)] && stack == before.stack && trace == before.trace
      ensures var d := Decode(program.functions[before.top.fn].code, before.top.ip);
              d.Decoded? && Fetched(before.(top := before.top.(ip := d.next)), opcode, d.i)
    {
      hide FromLE, InstrError, Sweep, VerifyFunction, AllFinite, Assemble;
      AtBoundary(program, program.functions[before.top.fn], version, before.top.ip);
    }

    /** Run for at most `budget` instructions. */
    method Run(budget: nat) returns (end: Option<End>)
      requires frames == [] && stack == [] && trace == [] && Checked(program, version)
      modifies this
      ensures Agrees(Steps(program, world, Start(program), budget), end, frames, stack, trace)
    {
      hide MachineSpec.Step, Inv, VerifyFunction, MachineSpec.MakeFrame;
      assert program.functions[program.entry] in program.functions;
      StartOk(program, version);
      var frame := MakeFrame(program.entry, []);
      frames := [frame];
      assert Start(program) == Running(Now());
      end := None;
      for k := 0 to budget
        invariant Valid() && end.None?
        invariant Steps(program, world, Start(program), budget) == Steps(program, world, Running(Now()), budget - k)
      {
        ghost var before := Now();
        end := Step();
        if end.Some? {
          return;
        }
      }
      assert frames == frames[..|frames| - 1] + [frames[|frames| - 1]];
    }
  }

  /** Load a file and run it: the machine does what the specification says of the program the file holds. */
  method RunFile(file: seq<Byte>, world: World, budget: nat) returns (r: Result<Option<End>, LoadError>, trace: Trace)
    ensures r.Failure? <==> LoadProgram(file).Failure?
    ensures r.Failure? ==> r.error == LoadProgram(file).error
    ensures r.Success? ==> var p := LoadProgram(file).value;
              match Steps(p, world, Start(p), budget)
              case Running(s) => r.value == None && trace == s.trace
              case Done(v, tr) => r.value == Some(Halted(v)) && trace == tr
              case Fault(e, tr) => r.value == Some(Stopped(e)) && trace == tr
  {
    hide LoadProgram, Steps, Start, Checked;
    trace := [];
    var program := Loader.Load(file);
    if program.Failure? {
      return Failure(program.error), [];
    }
    ghost var version := AcceptedIsChecked(file);
    var vm := new Vm(program.value, world, version);
    var end := vm.Run(budget);
    r, trace := Success(end), vm.trace;
  }
}
