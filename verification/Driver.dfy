/** The two programs end to end: the compiler from a syntax tree to a file, and the machine from a file to a result. */
module Driver {
  import opened Prelude
  import opened Bytes
  import opened Values
  import opened Syntax
  import opened RuntimeApi
  import opened Semantics
  import opened CheckerSpec
  import opened TypeSoundness
  import opened CodeGenSpec
  import opened Simulation
  import opened FileFormat
  import opened RoundTrip
  import opened Toolchain
  import opened Loading
  import opened VirtualMachine
  import TypeChecker
  import CodeGenerator
  import BytecodeWriter
  import Typing
  import Capacity
  import B = Bytecode
  import M = MachineSpec

  datatype CompileError = Semantic(c: CheckError) | Generation(g: GenError)

  /** Checking renames nothing, so the checked program still has its `main`. */
  lemma MainSurvives(fs: seq<FunctionDecl>)
    requires CheckProgram(fs).Success?
    ensures IndexOf(CheckProgram(fs).value, MAIN) == IndexOf(fs, MAIN) && IndexOf(fs, MAIN).Some?
  {
    hide CheckFunction;
    var as' := CheckProgram(fs).value;
    forall i | 0 <= i < |fs| ensures fs[i].name == as'[i].name {
      CheckedName(fs, fs[i]);
    }
    SameIndex(fs, as', MAIN);
  }

  /** The bytes of the `.bc` file, or the first error. */
  method Compile(fs: seq<FunctionDecl>) returns (r: Result<seq<Byte>, CompileError>)
    ensures match CheckProgram(fs)
            case Failure(e) => r == Failure(Semantic(e))
            case Success(as') =>
              IndexOf(as', MAIN).Some? &&
              match Generate(as')
              case Failure(e) => r == Failure(Generation(e))
              case Success(m) => r == Success(WriteModule(m))
  {
    hide CheckProgram, Generate, WriteModule;
    var checker := new TypeChecker.Checker();
    var checked := checker.Check(fs);
    if checked.Failure? {
      return Failure(Semantic(checked.error));
    }
    MainSurvives(fs);
    var m := CodeGenerator.Generate(checked.value);
    if m.Failure? {
      return Failure(Generation(m.error));
    }
    var file := BytecodeWriter.Write(m.value);
    r := Success(file);
  }

  /** The module fits the file format and no jump leads to the end of the code of a function. */
  ghost predicate Loads(fs: seq<FunctionDecl>, m: B.Module) {
    Compiles(fs, m) && TextsFit(m) && |m.constants| <= MAX_U16 && |fs| <= MAX_U16 && NoEndJumps(fs)
  }

  /** What a run of the machine says about the source program. */
  ghost predicate Reflects(end: Option<End>, trace: Trace, fs: seq<FunctionDecl>, w: World, budget: nat) {
    match end
    case None => true
    case Some(Halted(v)) => exists x :: RunProgram(fs, w, budget + 1) == Ok(x, trace) && Enc(x) == v
    case Some(Stopped(e)) => e.Limit() || (Legitimate(e) && RunProgram(fs, w, budget + 1) == Fail(e, trace))
  }

  datatype Ran = NotCompiled(c: CompileError) | NotLoaded(l: LoadError) | Ended(v: Option<End>)

  /**
    Compile a program and run the file for at most `budget` instructions. Whatever the machine ends with,
    other than a resource limit, is what the source program means, after the same Runtime calls.
   */
  method CompileAndRun(fs: seq<FunctionDecl>, world: World, budget: nat) returns (r: Ran, trace: Trace)
    requires KeepsSignatures(world)
    ensures (exists m :: Loads(fs, m)) ==> r.Ended? && Reflects(r.v, trace, fs, world, budget)
  {
    hide KeepsSignatures, CheckProgram, Generate, WriteModule, LoadProgram, Compiles, M.Steps, M.Start, RunProgram, Legitimate, NoEndJumps, TextsFit;
    var file := Compile(fs);
    if file.Failure? {
      if m :| Loads(fs, m) {
        CompiledFile(fs, m);
        assert false;
      }
      return NotCompiled(file.error), [];
    }
    var end, tr := RunFile(file.value, world, budget);
    if m :| Loads(fs, m) {
      CompiledFile(fs, m);
      LoadsBackIff(fs, m);
      RunReflects(fs, world, m, budget);
    }
    trace := tr;
    r := if end.Failure? then NotLoaded(end.error) else Ended(end.value);
  }

  lemma CompiledFile(fs: seq<FunctionDecl>, m: B.Module)
    requires Compiles(fs, m)
    ensures CheckProgram(fs).Success? && IndexOf(CheckProgram(fs).value, MAIN).Some? && Generate(CheckProgram(fs).value) == Success(m)
  {
  }

  lemma RunReflects(fs: seq<FunctionDecl>, w: World, m: B.Module, k: nat)
    requires Compiles(fs, m) && KeepsSignatures(w) && m.entry >= 0
    ensures match MachineRun(m, w, k)
            case Running(_) => true
            case Done(v, tr) => Reflects(Some(Halted(v)), tr, fs, w, k)
            case Fault(e, tr) => Reflects(Some(Stopped(e)), tr, fs, w, k)
  {
    hide KeepsSignatures, Compiles, MachineRun, RunProgram, Legitimate;
    match MachineRun(m, w, k)
    case Running(_) =>
    case Done(v, tr) =>
      ResultReflected(fs, w, m, k, v, tr);
    case Fault(e, tr) =>
      TypeSafety(fs, w, m, k);
      if !e.Limit() {
        ErrorReflected(fs, w, m, k, e, tr);
      }
  }

  /** The annotated program has room: for its functions, their variables and code, and their constants. */
  ghost predicate HasRoom(checked: seq<FunctionDecl>) {
    && |checked| <= 65536 && |Capacity.AllNeeds(checked)| <= 65536
    && forall i :: 0 <= i < |checked| ==> Capacity.FunctionFits(checked[i])
  }

  /** A program is compiled exactly if it has a typing and its annotated form has room. */
  lemma CompilesExactly(fs: seq<FunctionDecl>)
    requires forall fn :: fn in fs ==> AllShaped(fn.body)
    ensures (exists m :: Compiles(fs, m)) <==> Typing.ProgramTyped(fs) && CheckProgram(fs).Success? && HasRoom(CheckProgram(fs).value)
    ensures Typing.ProgramTyped(fs) ==> CheckProgram(fs).Success?
  {
    hide CheckProgram, Generate, Typing.ProgramTyped, AllShaped, Capacity.FunctionFits, Capacity.AllNeeds, IndexOf;
    Typing.AcceptedIffTyped(fs);
    if CheckProgram(fs).Success? {
      MainSurvives(fs);
      var checked := CheckProgram(fs).value;
      Capacity.GeneratesExactly(checked);
      if Generate(checked).Success? {
        assert Compiles(fs, Generate(checked).value);
      }
    }
  }
}
