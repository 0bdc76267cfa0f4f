/** The loader gives back what the compiler produced, exactly when three conditions on the source hold. */
module Loading {
  import opened Prelude
  import opened Bytes
  import opened Floats
  import opened Values
  import opened Syntax
  import opened RuntimeApi
  import opened CheckerSpec
  import opened Slots
  import opened CodeGenSpec
  import opened Simulation
  import opened FileFormat
  import opened RoundTrip
  import opened Assembly
  import opened Acceptance
  import opened Toolchain
  import B = Bytecode

  /** A world in which every Runtime call fails; verification does not run anything. */
  const NO_WORLD := World((a, b) => 0, (a, b) => 0, (a, b) => 0, (a, b) => 0, (tr, ev) => Threw)

  lemma NoWorldKeepsSignatures()
    ensures KeepsSignatures(NO_WORLD)
  {
  }

  /** The JVM writes a text from a byte array, which has fewer than 2^31 bytes. */
  ghost predicate TextsFit(m: B.Module) {
    && (forall v :: v in m.constants && v.StringV? ==> |v.t| <= MAX_CODE)
    && (forall f :: f in m.functions ==> |f.name| <= MAX_CODE)
  }

  /** The code of one function, as the sweep sees it. */
  lemma FunctionInstrs(c: Context, i: nat, version: int) returns (ins: seq<B.Instr>)
    requires Linked(c) && i < |c.fs| && CountsAgree(c)
    requires StmtsContainFloat(CheckFunction(c.fs, c.fs[i]).value.body) ==> version == FLOAT_VERSION
    requires PoolOk(c.pools[i], version)
    ensures c.p.functions[i].code == EncodeAll(ins) && AllPass(ins, c.p, c.p.functions[i], version) && JumpsLand(ins, 0)
    ensures JumpsToEnd(ins, 0) <==> c.fs[i].returnType.Some? && AnyTargetsEnd(c.fs[i].body)
    ensures GenFunction(CheckFunction(c.fs, c.fs[i]).value, c.pools[i]).Success?
    ensures PoolOk(GenFunction(CheckFunction(c.fs, c.fs[i]).value, c.pools[i]).value.1, version)
  {
    hide B.Encode, EncodeAll, StmtsCodes, FloatStmtsOk, GenStmts, CheckStmts, JumpsLand, JumpsToEnd, PoolOk, SlotsOk, CountsAgree, AnyTargetsEnd,
         AllEmitNothing, ReturnZero, AllPass, StmtsContainFloat, Linked, GenFunction, CheckFunction, DeclareParams;
    LinkedLength(c);
    var fn, f := c.fs[i], c.p.functions[i];
    var st, st', g, base, body, all := FunctionLayout(c, i);
    LayoutFacts(c, i, st, st', g, base, body, all, version);
    var a := StmtsInstrs(c, fn, st, fn.body, st', g, base, 0, body, f, version);
    ins := a;
    if fn.returnType.None? {
      var tail := ReturnZero(body.g).value;
      var b := ReturnZeroInstrs(c, body.g, tail, |body.code|, f, version);
      AssembledSize(a, body.code, c, f, version);
      JoinCode(a, body.code, b, tail.code, c, f, version);
      JumpsLandAppend(a, b, 0);
      ToEndAppend(a, b, 0);
      ins := a + b;
    }
  }

  /** Which pool a linked function starts and ends with. */
  lemma LayoutFacts(c: Context, i: nat, st: State, st': State, g: Gen, base: nat, body: Emitted, all: Emitted, version: int)
    requires Linked(c) && i < |c.fs|
    requires DeclareParams(|c.fs[i].params|, State([map[]], 0), c.fs[i].params) == Success(st)
    requires StmtsCodes(c, c.fs[i], st, c.fs[i].body, st', g, base, 0, body) && st'.next == base
    requires StmtsContainFloat(CheckFunction(c.fs, c.fs[i]).value.body) ==> version == FLOAT_VERSION
    requires g == Gen(c.pools[i], 0)
    requires c.fs[i].returnType.Some? ==> all == body
    requires c.fs[i].returnType.None? ==> ReturnZero(body.g).Success? && all == Emitted(body.code + ReturnZero(body.g).value.code, ReturnZero(body.g).value.g)
    ensures FloatStmtsOk(c, c.fs[i], st, c.fs[i].body, version)
    ensures GenFunction(CheckFunction(c.fs, c.fs[i]).value, c.pools[i]).Success?
    ensures GenFunction(CheckFunction(c.fs, c.fs[i]).value, c.pools[i]).value.1 == all.g.pool
    ensures st.next <= base
  {
    hide ReturnZero;
    assert FunctionLinked(c, i);
  }

  lemma FloatVersion(fns: seq<FunctionDecl>, m: B.Module, i: nat)
    requires IndexOf(fns, MAIN).Some? && Generate(fns) == Success(m) && i < |fns|
    ensures StmtsContainFloat(fns[i].body) ==> Version(m) == FLOAT_VERSION
  {
    if StmtsContainFloat(fns[i].body) {
      assert fns[i] in fns && FunctionUsesFloat(fns[i]);
    }
  }

  lemma LinkedCounts(c: Context)
    requires Linked(c)
    ensures CountsAgree(c)
  {
    hide Linked;
    LinkedLength(c);
    forall i | 0 <= i < |c.fs| ensures c.p.functions[i].paramCount == |c.fs[i].params| <= 255 {
      LinkedFacts(c, i);
    }
  }

  lemma LinkedLength(c: Context)
    requires Linked(c)
    ensures |c.p.functions| == |c.fs| == |c.pools| <= MAX_U16 + 1
  {
  }

  /** Floats in the pool, before each function and at the end, are finite and imply version 2. */
  lemma {:induction false} PoolsOk(fs: seq<FunctionDecl>, m: B.Module, c: Context, i: nat)
    requires Compiles(fs, m) && c == Linking(fs, NO_WORLD, m) && Linked(c) && CountsAgree(c) && i <= |fs|
    ensures i < |fs| ==> PoolOk(c.pools[i], Version(m))
    ensures i == |fs| ==> PoolOk(m.constants, Version(m))
    decreases i
  {
    hide CheckFunction, GenFunction, PoolOk, Linked, CountsAgree, StmtsContainFloat, FunctionUsesFloat;
    var as' := CheckProgram(fs).value;
    if i > 0 {
      PoolsOk(fs, m, c, i - 1);
      FloatVersion(as', m, i - 1);
      assert CheckFunction(fs, fs[i - 1]) == Success(as'[i - 1]);
      var _ := FunctionInstrs(c, i - 1, Version(m));
      PoolsLink(as', [], i - 1);
    } else {
      EmptyPoolOk(Version(m));
    }
  }

  lemma EmptyPoolOk(version: int)
    ensures PoolOk([], version)
  {
  }

  /** One function passes verification unless it returns a value and its code jumps to its own end. */
  lemma FunctionVerified(fs: seq<FunctionDecl>, m: B.Module, i: nat)
    requires Compiles(fs, m) && i < |fs|
    ensures m.entry >= 0 && i < |m.functions|
    ensures VerifyFunction(LoadedForm(m), m.functions[i], Version(m)) == if fs[i].returnType.Some? && AnyTargetsEnd(fs[i].body) then Some(InvalidJumpTarget) else None
  {
    hide CheckFunction, GenFunction, PoolOk, Linked, CountsAgree, StmtsContainFloat, FunctionUsesFloat, VerifyFunction, AnyTargetsEnd, KeepsSignatures, AllPass,
         EncodeAll, JumpsLand, JumpsToEnd;
    NoWorldKeepsSignatures();
    CompiledLinked(fs, NO_WORLD, m);
    LinkingProgram(fs, NO_WORLD, m);
    var c := Linking(fs, NO_WORLD, m);
    LinkedCounts(c);
    LinkedLength(c);
    PoolsOk(fs, m, c, i);
    FloatVersion(CheckProgram(fs).value, m, i);
    assert CheckFunction(fs, fs[i]) == Success(CheckProgram(fs).value[i]);
    var ins := FunctionInstrs(c, i, Version(m));
    VerifyAssembled(c.p, m.functions[i], Version(m), ins);
  }

  /** If bad jumps are all that is wrong with any function, they are what the loader reports. */
  lemma {:induction false} AllVerified(p: B.Program, fns: seq<B.Function>, version: int, bad: seq<bool>)
    requires |bad| == |fns|
    requires forall i :: 0 <= i < |fns| ==> VerifyFunction(p, fns[i], version) == if bad[i] then Some(InvalidJumpTarget) else None
    ensures VerifyFunctions(p, fns, version) == if true in bad then Some(InvalidJumpTarget) else None
    decreases fns
  {
    hide VerifyFunction;
    if fns != [] {
      AllVerified(p, fns[1..], version, bad[1..]);
      assert bad == [bad[0]] + bad[1..];
    }
  }

  lemma CompiledFits(fs: seq<FunctionDecl>, m: B.Module)
    requires Compiles(fs, m) && TextsFit(m)
    ensures ContentsFit(m) && |m.constants| <= MAX_U16 + 1 && |m.functions| == |fs| <= MAX_U16 + 1
    ensures m.entry < |fs| && m.functions[m.entry].paramCount == 0
  {
    hide CheckFunction, GenFunction, Linked, CountsAgree, KeepsSignatures, StmtsContainFloat, FunctionUsesFloat, Intern, AllShaped;
    NoWorldKeepsSignatures();
    CompiledLinked(fs, NO_WORLD, m);
    LinkingProgram(fs, NO_WORLD, m);
    var c := Linking(fs, NO_WORLD, m);
    LinkedCounts(c);
    LinkedLength(c);
    PoolsOk(fs, m, c, |fs|);
    LinkedFacts(c, m.entry);
    forall f | f in m.functions ensures FunctionFits(f) {
      var i :| 0 <= i < |m.functions| && m.functions[i] == f;
      FunctionSize(c, i);
    }
    PoolBound(fs, m);
  }

  lemma FunctionSize(c: Context, i: nat)
    requires Linked(c) && i < |c.fs|
    ensures i < |c.p.functions| && 0 <= c.p.functions[i].paramCount <= 255 && 0 <= c.p.functions[i].localCount <= 255
    ensures |c.p.functions[i].code| <= MAX_CODE
  {
    assert FunctionLinked(c, i);
    FunctionSlots(c.fs, c.fs[i]);
  }

  // ---- The pool never has more than 65536 entries ----

  lemma InternBound(g: Gen, v: Value)
    requires Intern(g, v).Success? && |g.pool| <= MAX_U16 + 1
    ensures |Intern(g, v).value.1.pool| <= MAX_U16 + 1
  {
  }

  lemma {:induction false} ExprBound(e: Expr, g: Gen, base: int, depth: nat)
    requires GenExpr(e, g, base, depth).Success? && |g.pool| <= MAX_U16 + 1
    ensures |GenExpr(e, g, base, depth).value.g.pool| <= MAX_U16 + 1
    decreases e
  {
    hide Intern, B.Encode, OperatorCode;
    match e
    case IntLit(n) => InternBound(g, IntV(n));
    case FloatLit(v) => InternBound(g, FloatV(v));
    case BoolLit(b) => InternBound(g, IntV(if b then 1 else 0));
    case StringLit(t) => InternBound(g, StringV(t));
    case VarRef(_, _, _) =>
    case Unary(op, operand, ty) =>
      if op.NEG? && ty != Some(TFloat) {
        InternBound(g, IntV(0));
        ExprBound(operand, GenConst(g, IntV(0)).value.g, base, depth);
      } else {
        ExprBound(operand, g, base, depth);
      }
    case Binary(op, left, right, _) =>
      var d := if Swapped(op) then depth + 1 else depth;
      var g1 := if Swapped(op) then g.(maxTemp := Max(g.maxTemp, depth + 1)) else g;
      ExprBound(left, g1, base, d);
      ExprBound(right, GenExpr(left, g1, base, d).value.g, base, d);
    case Call(namespace, name, args, _, _) =>
      ArgsBound(args, g, base, depth);
      if namespace.Some? {
        InternBound(GenArgs(args, g, base, depth).value.g, StringV(QualifiedName(namespace.value, name)));
      }
  }

  lemma {:induction false} ArgsBound(es: seq<Expr>, g: Gen, base: int, depth: nat)
    requires GenArgs(es, g, base, depth).Success? && |g.pool| <= MAX_U16 + 1
    ensures |GenArgs(es, g, base, depth).value.g.pool| <= MAX_U16 + 1
    decreases es
  {
    if es != [] {
      ExprBound(es[0], g, base, depth);
      ArgsBound(es[1..], GenExpr(es[0], g, base, depth).value.g, base, depth);
    }
  }

  lemma {:induction false} StmtBound(s: Stmt, g: Gen, base: int, at: nat)
    requires GenStmt(s, g, base, at).Success? && |g.pool| <= MAX_U16 + 1
    ensures |GenStmt(s, g, base, at).value.g.pool| <= MAX_U16 + 1
    decreases s
  {
    hide Intern, B.Encode, GenExpr;
    match s
    case Block(ss) => StmtsBound(ss, g, base, at);
    case VarDecl(_, _, _, init, _) => ExprBound(init, g, base, 0);
    case Assign(_, value, _) => ExprBound(value, g, base, 0);
    case If(cond, thn, els) =>
      ExprBound(cond, g, base, 0);
      var c := GenExpr(cond, g, base, 0).value;
      var thenAt := at + |c.code| + 5;
      StmtsBound(thn, c.g, base, thenAt);
      var t := GenStmts(thn, c.g, base, thenAt).value;
      if els.Some? {
        StmtBound(els.value, t.g, base, thenAt + |t.code| + (if AnyReturns(thn) then 0 else 5));
      }
    case While(cond, body) =>
      ExprBound(cond, g, base, 0);
      var c := GenExpr(cond, g, base, 0).value;
      StmtsBound(body, c.g, base, at + |c.code| + 5);
    case Return(result) =>
      if result.None? {
        InternBound(g, IntV(0));
      } else {
        ExprBound(result.value, g, base, 0);
      }
    case CallStmt(call) => ExprBound(call, g, base, 0);
  }

  lemma {:induction false} StmtsBound(ss: seq<Stmt>, g: Gen, base: int, at: nat)
    requires GenStmts(ss, g, base, at).Success? && |g.pool| <= MAX_U16 + 1
    ensures |GenStmts(ss, g, base, at).value.g.pool| <= MAX_U16 + 1
    decreases ss
  {
    if ss != [] {
      StmtBound(ss[0], g, base, at);
      var head := GenStmt(ss[0], g, base, at).value;
      StmtsBound(ss[1..], head.g, base, at + |head.code|);
    }
  }

  lemma {:induction false} FunctionsBound(fns: seq<FunctionDecl>, pool: seq<Value>)
    requires GenFunctions(fns, pool).Success? && |pool| <= MAX_U16 + 1
    ensures |GenFunctions(fns, pool).value.1| <= MAX_U16 + 1
    decreases fns
  {
    hide GenStmts, Intern, B.Encode;
    if fns != [] {
      var fn := fns[0];
      StmtsBound(fn.body, Gen(pool, 0), |fn.params| + fn.localCount, 0);
      if fn.returnType.None? {
        InternBound(GenStmts(fn.body, Gen(pool, 0), |fn.params| + fn.localCount, 0).value.g, IntV(0));
      }
      FunctionsBound(fns[1..], GenFunction(fn, pool).value.1);
    }
  }

  lemma PoolBound(fs: seq<FunctionDecl>, m: B.Module)
    requires Compiles(fs, m)
    ensures |m.constants| <= MAX_U16 + 1
  {
    hide GenFunctions;
    FunctionsBound(CheckProgram(fs).value, []);
  }

  // ---- The main result ----

  /** No value-returning function jumps to the end of its own code. */
  predicate NoEndJumps(fs: seq<FunctionDecl>) {
    forall fn :: fn in fs && fn.returnType.Some? ==> !AnyTargetsEnd(fn.body)
  }

  lemma ModuleVerified(fs: seq<FunctionDecl>, m: B.Module)
    requires Compiles(fs, m) && m.entry >= 0 && |m.functions| == |fs|
    ensures VerifyFunctions(LoadedForm(m), m.functions, Version(m)) == if NoEndJumps(fs) then None else Some(InvalidJumpTarget)
  {
    hide VerifyFunctions, VerifyFunction, AnyTargetsEnd, Compiles;
    var bad := seq(|fs|, i requires 0 <= i < |fs| => fs[i].returnType.Some? && AnyTargetsEnd(fs[i].body));
    forall i | 0 <= i < |fs|
      ensures VerifyFunction(LoadedForm(m), m.functions[i], Version(m)) == if bad[i] then Some(InvalidJumpTarget) else None
    {
      FunctionVerified(fs, m, i);
    }
    AllVerified(LoadedForm(m), m.functions, Version(m), bad);
    if !NoEndJumps(fs) {
      var fn :| fn in fs && fn.returnType.Some? && AnyTargetsEnd(fn.body);
      var i :| 0 <= i < |fs| && fs[i] == fn;
      assert bad[i];
    }
  }

  /**
    What the loader makes of a written file with at most 65535 constants: a 65536th function leaves it with
    bytes to spare, a jump to the end of a value-returning function is refused, and otherwise it gives back
    the compiled program.
   */
  lemma LoadOutcome(fs: seq<FunctionDecl>, m: B.Module)
    requires Compiles(fs, m) && TextsFit(m) && |m.constants| <= MAX_U16
    ensures m.entry >= 0
    ensures LoadProgram(WriteModule(m)) ==
            if |fs| > MAX_U16 then Failure(TrailingBytes)
            else if NoEndJumps(fs) then Success(LoadedForm(m)) else Failure(InvalidJumpTarget)
  {
    hide ReadProgram, WriteModule, VerifyFunctions, NoEndJumps, ContentsFit, Compiles, TextsFit, Version;
    CompiledFits(fs, m);
    RoundTripIffCountsFit(m);
    EntryFits(m);
    ModuleVerified(fs, m);
    if |fs| > MAX_U16 {
      FunctionCountWraps(m);
    }
  }

  /**
    The loader turns the written file back into the compiled program exactly when there are at most 65535
    constants, at most 65535 functions, and no value-returning function jumps to its own end.
   */
  lemma LoadsBackIff(fs: seq<FunctionDecl>, m: B.Module)
    requires Compiles(fs, m) && TextsFit(m)
    ensures m.entry >= 0
    ensures LoadProgram(WriteModule(m)) == Success(LoadedForm(m))
            <==> |m.constants| <= MAX_U16 && |fs| <= MAX_U16 && NoEndJumps(fs)
  {
    hide ReadProgram, WriteModule, VerifyFunctions, NoEndJumps, ContentsFit, Compiles, TextsFit, Version;
    CompiledFits(fs, m);
    EntryFits(m);
    if |m.constants| > MAX_U16 {
      ConstantCountWraps(m);
    } else {
      LoadOutcome(fs, m);
    }
  }

  lemma EntryFits(m: B.Module)
    requires ContentsFit(m)
    ensures m.entry >= 0
  {
  }

  // ---- What the condition means for a programmer ----

  /** No statement follows one that always returns, in any block. */
  predicate NoDeadCode(s: Stmt) {
    match s
    case Block(ss) => NoneDead(ss)
    case If(_, thn, els) => NoneDead(thn) && (els.Some? ==> NoDeadCode(els.value))
    case While(_, body) => NoneDead(body)
    case _ => true
  }

  predicate NoneDead(ss: seq<Stmt>) {
    ss == [] || (NoDeadCode(ss[0]) && (AlwaysReturns(ss[0]) ==> |ss| == 1) && NoneDead(ss[1..]))
  }

  lemma {:induction false} LiveCodeEndsWithReturn(s: Stmt)
    requires AlwaysReturns(s) && NoDeadCode(s)
    ensures !TargetsEnd(s) && !EmitsNothing(s)
    decreases s
  {
    match s
    case Block(ss) => LiveListEndsWithReturn(ss);
    case If(_, thn, els) => LiveCodeEndsWithReturn(els.value);
    case Return(_) =>
  }

  lemma {:induction false} LiveListEndsWithReturn(ss: seq<Stmt>)
    requires AnyReturns(ss) && NoneDead(ss)
    ensures !AnyTargetsEnd(ss) && !AllEmitNothing(ss)
    decreases ss
  {
    if AlwaysReturns(ss[0]) {
      LiveCodeEndsWithReturn(ss[0]);
      assert ss[1..] == [];
    } else {
      LiveListEndsWithReturn(ss[1..]);
    }
  }

  /** A program without dead code, with few enough constants and functions, loads back as it was compiled. */
  lemma NoDeadCodeLoads(fs: seq<FunctionDecl>, m: B.Module)
    requires Compiles(fs, m) && TextsFit(m)
    requires |m.constants| <= MAX_U16 && |fs| <= MAX_U16
    requires forall fn :: fn in fs && fn.returnType.Some? ==> NoneDead(fn.body)
    ensures m.entry >= 0 && LoadProgram(WriteModule(m)) == Success(LoadedForm(m))
  {
    hide LoadProgram, WriteModule, Compiles, TextsFit, NoneDead, AnyTargetsEnd;
    LoadsBackIff(fs, m);
    forall fn | fn in fs && fn.returnType.Some? ensures !AnyTargetsEnd(fn.body) {
      MustReturn(fs, m, fn);
      LiveListEndsWithReturn(fn.body);
    }
  }

  lemma MustReturn(fs: seq<FunctionDecl>, m: B.Module, fn: FunctionDecl)
    requires Compiles(fs, m) && fn in fs && fn.returnType.Some?
    ensures AnyReturns(fn.body)
  {
    hide Generate, AnyReturns, AllShaped, CheckStmts, DeclareParams, IndexOf;
    var i :| 0 <= i < |fs| && fs[i] == fn;
    assert CheckFunction(fs, fs[i]) == Success(CheckProgram(fs).value[i]);
  }

  /** `fun main(): Int { return 1; while (true) { } }` */
  const DEAD_LOOP: seq<FunctionDecl> :=
    [FunctionDecl(MAIN, [], Some(TInt), [Return(Some(IntLit(1))), While(BoolLit(true), [])], 0)]

  lemma DeadLoopChecks(fn: FunctionDecl, st: State)
    requires fn == DEAD_LOOP[0] && st == State([map[]], 0)
    ensures CheckStmts([fn], fn, st, fn.body) == Success((fn.body, st)) && AllShaped(fn.body) && AnyReturns(fn.body)
  {
    var fs := [fn];
    var loop := While(BoolLit(true), []);
    assert fn.body == [fn.body[0]] + [loop] && fn.body[1..] == [loop] && [loop][1..] == [];
    assert CheckStmts(fs, fn, OpenScope(st), []) == Success(([], OpenScope(st)));
    assert CloseScope(OpenScope(st)) == st;
    assert CheckStmt(fs, fn, st, loop) == Success((loop, st));
    assert CheckStmts(fs, fn, st, []) == Success(([], st)) && [loop] + [] == [loop];
    assert CheckStmts(fs, fn, st, [loop]) == Success(([loop], st));
    assert CheckStmt(fs, fn, st, fn.body[0]) == Success((fn.body[0], st));
    assert WellShaped(loop) && AllShaped([loop]);
  }

  lemma DeadLoopGenerates(fn: FunctionDecl)
    requires fn == DEAD_LOOP[0]
    ensures GenFunction(fn, []).Success? && GenFunction(fn, []).value.1 == [IntV(1)] && GenFunction(fn, []).value.0.name == MAIN
  {
    hide B.Encode;
    var loop := While(BoolLit(true), []);
    var g0, g1 := Gen([], 0), Gen([IntV(1)], 0);
    assert fn.body[1..] == [loop] && [loop][1..] == [];
    assert [] + [IntV(1)] == [IntV(1)];
    assert Intern(g0, IntV(1)) == Success((0, g1)) && Intern(g1, IntV(1)) == Success((0, g1));
    var ret := GenStmt(fn.body[0], g0, 0, 0).value;
    var code := GenStmt(loop, g1, 0, |ret.code|).value;
    assert GenStmts([loop], g1, 0, |ret.code|) == Success(Emitted(code.code + [], g1));
    assert GenStmts(fn.body, g0, 0, 0) == Success(Emitted(ret.code + (code.code + []), g1));
  }

  lemma DeadLoopCompiles() returns (m: B.Module)
    ensures Compiles(DEAD_LOOP, m) && TextsFit(m)
  {
    hide GenFunction, Generate, AllShaped;
    DeadLoopChecked();
    m := Generate(DEAD_LOOP).value;
    assert |MAIN| == 4;
  }

  lemma DeadLoopPool(m: B.Module)
    requires Compiles(DEAD_LOOP, m)
    ensures |m.constants| == 1
  {
    hide GenFunction, Generate, AllShaped;
    DeadLoopChecked();
  }

  lemma DeadLoopChecked()
    ensures CheckProgram(DEAD_LOOP) == Success(DEAD_LOOP) && IndexOf(DEAD_LOOP, MAIN) == Some(0) && AllShaped(DEAD_LOOP[0].body)
    ensures Generate(DEAD_LOOP).Success? && Generate(DEAD_LOOP).value.constants == [IntV(1)]
    ensures |Generate(DEAD_LOOP).value.functions| == 1 && Generate(DEAD_LOOP).value.functions[0].name == MAIN
  {
    hide CheckStmts, GenFunction, AllShaped, AnyReturns, StmtsContainFloat;
    var fs := DEAD_LOOP;
    var fn, st := fs[0], State([map[]], 0);
    DeadLoopChecks(fn, st);
    DeadLoopGenerates(fn);
    assert fs == [fn] && fs[1..] == [] && [fn] + [] == fs;
    assert DeclareParams(0, st, []) == Success(st);
    assert CheckFunction(fs, fn) == Success(fn);
    assert CheckFunctions(fs, []) == Success([]);
    assert CheckFunctions(fs, fs) == Success(fs);
    assert IndexOf(fs, MAIN) == Some(0);
    assert GenFunctions([], [IntV(1)]) == Success(([], [IntV(1)]));
  }

  /** The checker accepts it and code is generated for it, but the loader refuses the file. */
  lemma DeadLoopIsRefused(m: B.Module)
    requires Compiles(DEAD_LOOP, m) && TextsFit(m)
    ensures LoadProgram(WriteModule(m)) == Failure(InvalidJumpTarget)
  {
    hide LoadProgram, WriteModule, LoadedForm, Compiles, TextsFit;
    DeadLoopPool(m);
    LoadOutcome(DEAD_LOOP, m);
    var fn := DEAD_LOOP[0];
    assert fn in DEAD_LOOP;
    assert fn.body[1..] == [While(BoolLit(true), [])];
    assert AnyTargetsEnd(fn.body[1..]);
  }
}
