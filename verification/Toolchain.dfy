/** The compiler, the file and the machine together: what a compiled program does is what its source means. */
module Toolchain {
  import opened Prelude
  import opened Bytes
  import opened Floats
  import opened Values
  import opened Syntax
  import opened RuntimeApi
  import opened Semantics
  import opened CheckerSpec
  import opened TypeSoundness
  import opened Slots
  import opened CodeGenSpec
  import opened Simulation
  import opened FileFormat
  import RoundTrip
  import B = Bytecode
  import M = MachineSpec

  /** `m` is what the compiler makes of the program. */
  ghost predicate Compiles(fs: seq<FunctionDecl>, m: B.Module) {
    && (forall fn :: fn in fs ==> AllShaped(fn.body))
    && CheckProgram(fs).Success?
    && IndexOf(CheckProgram(fs).value, MAIN).Some?
    && Generate(CheckProgram(fs).value) == Success(m)
  }

  /** The constant pool before each function. */
  ghost function PoolsOf(fns: seq<FunctionDecl>, pool: seq<Value>): (r: seq<seq<Value>>)
    ensures |r| == |fns|
    decreases fns
  {
    if fns == [] then []
    else
      var g := GenFunction(fns[0], pool);
      [pool] + PoolsOf(fns[1..], if g.Success? then g.value.1 else [])
  }

  lemma {:induction false} PoolsLink(fns: seq<FunctionDecl>, pool: seq<Value>, i: nat)
    requires GenFunctions(fns, pool).Success? && i < |fns|
    ensures var out, final := GenFunctions(fns, pool).value.0, GenFunctions(fns, pool).value.1;
            var r := GenFunction(fns[i], PoolsOf(fns, pool)[i]);
            && r.Success? && r.value.0 == out[i] && r.value.1 <= final
            && (i + 1 < |fns| ==> r.value.1 == PoolsOf(fns, pool)[i + 1])
            && (i + 1 == |fns| ==> r.value.1 == final)
    decreases fns
  {
    hide GenFunction;
    if i > 0 {
      PoolsLink(fns[1..], GenFunction(fns[0], pool).value.1, i - 1);
    } else if |fns| == 1 {
      assert GenFunctions(fns[1..], GenFunction(fns[0], pool).value.1).value.1 == GenFunction(fns[0], pool).value.1;
    }
  }

  ghost function Linking(fs: seq<FunctionDecl>, w: World, m: B.Module): Context
    requires Compiles(fs, m)
  {
    Context(fs, w, B.Program(m.constants, m.functions, IndexOf(CheckProgram(fs).value, MAIN).value), PoolsOf(CheckProgram(fs).value, []))
  }

  lemma {:induction false} SameIndex(fs: seq<FunctionDecl>, gs: seq<FunctionDecl>, name: Text)
    requires |fs| == |gs| && forall i :: 0 <= i < |fs| ==> fs[i].name == gs[i].name
    ensures IndexOf(fs, name) == IndexOf(gs, name)
    decreases fs
  {
    if fs != [] {
      SameIndex(fs[1..], gs[1..], name);
    }
  }

  /** Every module the compiler produces is linked to its program, in every world. */
  lemma CompiledLinked(fs: seq<FunctionDecl>, w: World, m: B.Module)
    requires Compiles(fs, m) && KeepsSignatures(w)
    ensures Linked(Linking(fs, w, m))
    ensures IndexOf(fs, MAIN) == Some(m.entry) && fs[m.entry].params == [] && m.entry <= MAX_U16
  {
    hide CheckFunction, GenFunction, GenFunctions, AllShaped, PoolsOf, KeepsSignatures, IndexOf, FunctionLinked, DistinctNames;
    var as' := CheckProgram(fs).value;
    var c := Linking(fs, w, m);
    forall fn | fn in fs ensures CheckFunction(fs, fn).Success? {
      var i :| 0 <= i < |fs| && fs[i] == fn;
      assert CheckFunction(fs, fs[i]) == Success(as'[i]);
    }
    forall i | 0 <= i < |fs| ensures FunctionLinked(c, i) && fs[i].name == as'[i].name {
      OneLinked(fs, w, m, i);
    }
    SameIndex(fs, as', MAIN);
  }

  lemma OneLinked(fs: seq<FunctionDecl>, w: World, m: B.Module, i: nat)
    requires Compiles(fs, m) && i < |fs| && CheckFunction(fs, fs[i]).Success?
    ensures i < |m.functions| && FunctionLinked(Linking(fs, w, m), i)
    ensures fs[i].name == CheckProgram(fs).value[i].name
  {
    hide CheckFunction, GenFunction, GenFunctions, AllShaped, PoolsOf;
    var as' := CheckProgram(fs).value;
    assert CheckFunction(fs, fs[i]) == Success(as'[i]);
    PoolsLink(as', [], i);
    CheckedName(fs, fs[i]);
  }

  lemma CheckedName(fs: seq<FunctionDecl>, fn: FunctionDecl)
    requires CheckFunction(fs, fn).Success?
    ensures CheckFunction(fs, fn).value.name == fn.name && CheckFunction(fs, fn).value.params == fn.params
    ensures CheckFunction(fs, fn).value.returnType == fn.returnType
  {
  }

  /** How a run of the machine answers a run of the source with the given fuel. */
  ghost predicate Answers(o: M.Outcome, k: nat, fuel: nat, r: Res<Val>) {
    match r
    case Ok(v, tr) => o == M.Done(Enc(v), tr) || LimitHit(o, tr)
    case Fail(e, tr) => o == M.Fault(e, tr) || LimitHit(o, tr)
    case OutOfFuel(tr) => (o.Running? && k >= fuel && o.s.trace == tr) || LimitHit(o, tr)
    case Wrong => false
  }

  /**
    Semantic preservation. With every fuel the machine, run on the compiled program, ends as the source does:
    with the same value or the same error after the same Runtime calls. Where the source has not ended, the
    machine is still running after at least that many steps, with the same calls made. The only other way
    out is a resource limit, after a prefix of those calls.
   */
  lemma SemanticPreservation(fs: seq<FunctionDecl>, w: World, m: B.Module, fuel: nat) returns (k: nat)
    requires Compiles(fs, m) && KeepsSignatures(w)
    ensures m.entry >= 0
    ensures Answers(M.Steps(RoundTrip.LoadedForm(m), w, M.Start(RoundTrip.LoadedForm(m)), k), k, fuel, RunProgram(fs, w, fuel))
  {
    hide M.Steps, CallFunction, Linked, KeepsSignatures, Compiles;
    CompiledLinked(fs, w, m);
    var c := Linking(fs, w, m);
    LinkingProgram(fs, w, m);
    LinkedFacts(c, m.entry);
    var start := M.Start(c.p);
    assert EncAll([]) == [];
    k := SimFunction(c, m.entry, [], start.s, fuel);
  }

  lemma LinkingProgram(fs: seq<FunctionDecl>, w: World, m: B.Module)
    requires Compiles(fs, m) && KeepsSignatures(w)
    ensures m.entry >= 0 && Linking(fs, w, m).p == RoundTrip.LoadedForm(m) && Linking(fs, w, m).fs == fs && Linking(fs, w, m).w == w
  {
  }

  // ---- Consequences for every run of the machine ----

  lemma {:induction false} EndIsFinal(p: B.Program, w: World, o: M.Outcome, j: nat, k: nat)
    requires j <= k && !M.Steps(p, w, o, j).Running?
    ensures M.Steps(p, w, o, k) == M.Steps(p, w, o, j)
  {
    hide M.Step;
    M.StepsAdd(p, w, o, j, k - j);
  }

  ghost function MachineRun(m: B.Module, w: World, k: nat): M.Outcome
    requires m.entry >= 0
  {
    M.Steps(RoundTrip.LoadedForm(m), w, M.Start(RoundTrip.LoadedForm(m)), k)
  }

  /** A run that has ended has ended as the source does, with fuel for the steps taken. */
  lemma EndedRun(fs: seq<FunctionDecl>, w: World, m: B.Module, k: nat)
    requires Compiles(fs, m) && KeepsSignatures(w) && m.entry >= 0
    requires !MachineRun(m, w, k).Running?
    ensures var o, r := MachineRun(m, w, k), RunProgram(fs, w, k + 1);
            match r
            case Ok(v, tr) => o == M.Done(Enc(v), tr) || LimitHit(o, tr)
            case Fail(e, tr) => o == M.Fault(e, tr) || LimitHit(o, tr)
            case OutOfFuel(tr) => LimitHit(o, tr)
            case Wrong => false
  {
    hide M.Steps, RunProgram, Compiles, KeepsSignatures, M.Start, LimitHit;
    var n := SemanticPreservation(fs, w, m, k + 1);
    var p := RoundTrip.LoadedForm(m);
    if n <= k {
      if !M.Steps(p, w, M.Start(p), n).Running? {
        EndIsFinal(p, w, M.Start(p), n, k);
      }
    } else {
      EndIsFinal(p, w, M.Start(p), k, n);
    }
    LimitEnds(MachineRun(m, w, n));
  }

  lemma LimitEnds(o: M.Outcome)
    ensures forall tr :: LimitHit(o, tr) ==> !o.Running?
  {
  }

  /**
    Type safety. Whatever the world answers and however long it runs, a compiled program only ever stops
    with arithmetic errors, a Runtime error, or one of the two stack limits. All internal checks of the
    machine are dead, and so are accesses outside its vectors.
   */
  lemma TypeSafety(fs: seq<FunctionDecl>, w: World, m: B.Module, k: nat)
    requires Compiles(fs, m) && KeepsSignatures(w) && m.entry >= 0
    ensures MachineRun(m, w, k).Fault? ==> Legitimate(MachineRun(m, w, k).e) || MachineRun(m, w, k).e.Limit()
  {
    hide MachineRun, RunProgram, KeepsSignatures, CheckProgram, Generate;
    if MachineRun(m, w, k).Fault? {
      EndedRun(fs, w, m, k);
      CheckedProgramsDoNotGoWrong(fs, w, k + 1);
    }
  }

  /** The converse of preservation: a result of the machine is the result of the source. */
  lemma ResultReflected(fs: seq<FunctionDecl>, w: World, m: B.Module, k: nat, v: Value, tr: Trace)
    requires Compiles(fs, m) && KeepsSignatures(w) && m.entry >= 0
    requires MachineRun(m, w, k) == M.Done(v, tr)
    ensures RunProgram(fs, w, k + 1).Ok? && Enc(RunProgram(fs, w, k + 1).value) == v && RunProgram(fs, w, k + 1).tr == tr
  {
    hide MachineRun, RunProgram, Compiles, KeepsSignatures;
    EndedRun(fs, w, m, k);
  }

  lemma ErrorReflected(fs: seq<FunctionDecl>, w: World, m: B.Module, k: nat, e: Error, tr: Trace)
    requires Compiles(fs, m) && KeepsSignatures(w) && m.entry >= 0
    requires MachineRun(m, w, k) == M.Fault(e, tr) && !e.Limit()
    ensures RunProgram(fs, w, k + 1) == Fail(e, tr)
  {
    hide MachineRun, RunProgram, Compiles, KeepsSignatures;
    EndedRun(fs, w, m, k);
  }
}
