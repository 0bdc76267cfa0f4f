/** Which generated modules the loader accepts: exactly those without a jump to the end of a function. */
module Acceptance {
  import opened Prelude
  import opened Bytes
  import opened Floats
  import opened Values
  import opened Syntax
  import opened RuntimeApi
  import opened CheckerSpec
  import opened Slots
  import opened CodeGenSpec
  import opened Simulation
  import Semantics
  import TypeSoundness
  import opened FileFormat
  import opened Assembly
  import B = Bytecode

  // ---- The condition, on the source tree ----

  /** The statement emits no code. */
  predicate EmitsNothing(s: Stmt) {
    s.Block? && AllEmitNothing(s.body)
  }

  predicate AllEmitNothing(ss: seq<Stmt>) {
    ss == [] || (EmitsNothing(ss[0]) && AllEmitNothing(ss[1..]))
  }

  /** The code of the statement jumps to its own end. */
  predicate TargetsEnd(s: Stmt) {
    match s
    case Block(ss) => AnyTargetsEnd(ss)
    case While(_, _) => true
    case If(_, thn, els) =>
      els.None? || !AnyReturns(thn) || EmitsNothing(els.value) || TargetsEnd(els.value)
    case _ => false
  }

  /** The last statement that emits code decides. */
  predicate AnyTargetsEnd(ss: seq<Stmt>) {
    ss != [] && (AnyTargetsEnd(ss[1..]) || (AllEmitNothing(ss[1..]) && TargetsEnd(ss[0])))
  }

  // ---- Facts about the pieces ----

  /** Counts in the machine program agree with the source program. */
  ghost predicate CountsAgree(c: Context) {
    && |c.p.functions| == |c.fs| <= MAX_U16 + 1
    && forall i :: 0 <= i < |c.fs| ==> c.p.functions[i].paramCount == |c.fs[i].params| <= 255
  }

  /** Float constants are finite and only in version 2 files. */
  ghost predicate PoolOk(pool: seq<Value>, version: int) {
    forall v :: v in pool && v.FloatV? ==> IsFinite(v.f) && version == FLOAT_VERSION
  }

  /** What the code of a fragment needs from the function around it. */
  ghost predicate Fits(c: Context, st: State, base: nat, f: B.Function, x: Emitted) {
    && CountsAgree(c) && SlotsOk(st) && st.next <= base
    && x.g.pool <= c.p.constants && base + x.g.maxTemp <= f.paramCount + f.localCount
  }

  /** `ins` is the code, and the loader objects to none of it. */
  ghost predicate Assembles(ins: seq<B.Instr>, code: seq<Byte>, c: Context, f: B.Function, version: int) {
    code == EncodeAll(ins) && AllPass(ins, c.p, f, version)
  }

  ghost predicate NoJumps(ins: seq<B.Instr>) {
    forall i :: i in ins ==> !IsJump(i)
  }

  lemma JoinCode(a: seq<B.Instr>, x: seq<Byte>, b: seq<B.Instr>, y: seq<Byte>, c: Context, f: B.Function, version: int)
    requires Assembles(a, x, c, f, version) && Assembles(b, y, c, f, version)
    ensures Assembles(a + b, x + y, c, f, version)
  {
    hide EncodeAll, B.OperandsFit, InstrError;
    EncodeAppend(a, b);
  }

  lemma OneInstr(i: B.Instr, c: Context, f: B.Function, version: int)
    requires B.OperandsFit(i) && InstrError(c.p, f, version, i).None?
    ensures Assembles([i], B.Encode(i), c, f, version)
  {
    hide EncodeAll, B.Encode, B.OperandsFit, InstrError;
    EncodeOne(i);
  }

  lemma ConstInstr(c: Context, g: Gen, v: Value, f: B.Function, version: int) returns (ins: seq<B.Instr>)
    requires GenConst(g, v).Success? && GenConst(g, v).value.g.pool <= c.p.constants
    requires PoolOk(g.pool, version) && (v.FloatV? ==> IsFinite(v.f) && version == FLOAT_VERSION)
    ensures Assembles(ins, GenConst(g, v).value.code, c, f, version) && NoJumps(ins) && ins != []
    ensures PoolOk(GenConst(g, v).value.g.pool, version)
  {
    var k := Intern(g, v).value;
    ins := [B.PushConst(k.0)];
    OneInstr(B.PushConst(k.0), c, f, version);
  }

  // ---- Expressions ----

  ghost predicate FloatOk(c: Context, st: State, e: Expr, version: int) {
    CheckExpr(c.fs, st.scopes, e).Success? && (ExprContainsFloat(CheckExpr(c.fs, st.scopes, e).value) ==> version == FLOAT_VERSION)
  }

  lemma FloatParts(c: Context, st: State, e: Expr, version: int)
    requires FloatOk(c, st, e, version)
    ensures e.Unary? ==> FloatOk(c, st, e.operand, version)
    ensures e.Binary? ==> FloatOk(c, st, e.left, version) && FloatOk(c, st, e.right, version)
    ensures TypeIn(c, st, e) == Some(TFloat) ==> version == FLOAT_VERSION
  {
    FloatIfTyped(CheckExpr(c.fs, st.scopes, e).value);
  }

  lemma FloatIfTyped(a: Expr)
    ensures TypeOf(a) == Some(TFloat) ==> ExprContainsFloat(a)
  {
  }

  lemma OperatorInstrs(c: Context, op: BinaryOp, float: bool, f: B.Function, version: int) returns (ins: seq<B.Instr>)
    requires float ==> version == FLOAT_VERSION
    ensures Assembles(ins, OperatorCode(op, float), c, f, version) && NoJumps(ins) && ins != []
  {
    hide B.Encode, EncodeAll, OperatorCode;
    OperatorShape(op, float);
    var i := FirstInstr(op, float);
    OneInstr(i, c, f, version);
    ins := [i];
    if Negated(op) {
      OneInstr(B.Not, c, f, version);
      JoinCode([i], B.Encode(i), [B.Not], B.Encode(B.Not), c, f, version);
      ins := [i] + [B.Not];
    }
  }

  lemma {:induction false} ExprInstrs(c: Context, st: State, e: Expr, t: Option<Type>, g: Gen, base: nat, depth: nat, x: Emitted, f: B.Function, version: int)
      returns (ins: seq<B.Instr>)
    requires Codes(c, st, e, t, g, base, depth, x) && Fits(c, st, base, f, x)
    requires FloatOk(c, st, e, version) && PoolOk(g.pool, version)
    ensures Assembles(ins, x.code, c, f, version) && NoJumps(ins) && ins != []
    ensures PoolOk(x.g.pool, version)
    decreases e, 1
  {
    hide B.Encode, EncodeAll, Assembles, OperatorCode, Intern, InstrError, SlotsOk, CountsAgree;
    match e
    case IntLit(n) =>
      ins := ConstInstr(c, g, IntV(n), f, version);
    case FloatLit(v) =>
      ins := ConstInstr(c, g, FloatV(v), f, version);
    case BoolLit(b) =>
      ins := ConstInstr(c, g, IntV(if b then 1 else 0), f, version);
    case StringLit(s) =>
      ins := ConstInstr(c, g, StringV(s), f, version);
    case VarRef(_, _, _) =>
      ins := VarInstr(c, st, e, t, g, base, depth, x, f, version);
    case Unary(_, _, _) =>
      ins := UnaryInstrs(c, st, e, t, g, base, depth, x, f, version);
    case Binary(op, _, _, _) =>
      if Swapped(op) {
        ins := SwappedInstrs(c, st, e, t, g, base, depth, x, f, version);
      } else {
        ins := BinaryInstrs(c, st, e, t, g, base, depth, x, f, version);
      }
    case Call(_, _, _, _, _) =>
      ins := CallInstrs(c, st, e, t, g, base, depth, x, f, version);
  }

  lemma VarInstr(c: Context, st: State, e: Expr, t: Option<Type>, g: Gen, base: nat, depth: nat, x: Emitted, f: B.Function, version: int)
      returns (ins: seq<B.Instr>)
    requires e.VarRef? && Codes(c, st, e, t, g, base, depth, x) && Fits(c, st, base, f, x)
    ensures Assembles(ins, x.code, c, f, version) && NoJumps(ins) && ins != [] && x.g == g
  {
    hide B.Encode, EncodeAll, Assembles;
    var level := Semantics.FindLevel(st.scopes, e.name).value;
    var slot := st.scopes[level][e.name].slot;
    ins := [B.Load(slot)];
    OneInstr(B.Load(slot), c, f, version);
  }

  lemma {:induction false} UnaryInstrs(c: Context, st: State, e: Expr, t: Option<Type>, g: Gen, base: nat, depth: nat, x: Emitted, f: B.Function, version: int)
      returns (ins: seq<B.Instr>)
    requires e.Unary? && Codes(c, st, e, t, g, base, depth, x) && Fits(c, st, base, f, x)
    requires FloatOk(c, st, e, version) && PoolOk(g.pool, version)
    ensures Assembles(ins, x.code, c, f, version) && NoJumps(ins) && ins != []
    ensures PoolOk(x.g.pool, version)
    decreases e, 0
  {
    hide B.Encode, EncodeAll, Assembles, GenExpr, CheckExpr, GenConst, ExprCode, TypeIn, FloatOk, PoolOk, SlotsOk, CountsAgree;
    UseCodes(c, st, e, t, g, base, depth, x);
    UnaryTypes(c, st, e);
    FloatParts(c, st, e, version);
    if e.uop.NEG? && TypeIn(c, st, e) == Some(TInt) {
      NegateLayout(c, st, e, g, base, depth);
      var zero := GenConst(g, IntV(0)).value;
      var y := ExprCode(c, st, e.operand, zero.g, base, depth);
      MakeCodes(c, st, e.operand, zero.g, base, depth);
      var a := ConstInstr(c, g, IntV(0), f, version);
      var b := ExprInstrs(c, st, e.operand, TypeIn(c, st, e.operand), zero.g, base, depth, y, f, version);
      OneInstr(B.Sub, c, f, version);
      JoinCode(a, zero.code, b, y.code, c, f, version);
      JoinCode(a + b, zero.code + y.code, [B.Sub], B.Encode(B.Sub), c, f, version);
      ins := a + b + [B.Sub];
    } else {
      OperandLayout(c, st, e, g, base, depth);
      var i := if e.uop.NOT? then B.Not else B.FNeg;
      var y := ExprCode(c, st, e.operand, g, base, depth);
      MakeCodes(c, st, e.operand, g, base, depth);
      var b := ExprInstrs(c, st, e.operand, TypeIn(c, st, e.operand), g, base, depth, y, f, version);
      OneInstr(i, c, f, version);
      JoinCode(b, y.code, [i], B.Encode(i), c, f, version);
      ins := b + [i];
    }
  }

  lemma MakeCodes(c: Context, st: State, e: Expr, g: Gen, base: nat, depth: nat)
    requires HasCode(c, st, e, g, base, depth)
    ensures Codes(c, st, e, TypeIn(c, st, e), g, base, depth, ExprCode(c, st, e, g, base, depth))
  {
  }

  lemma {:induction false} BinaryInstrs(c: Context, st: State, e: Expr, t: Option<Type>, g: Gen, base: nat, depth: nat, x: Emitted, f: B.Function, version: int)
      returns (ins: seq<B.Instr>)
    requires e.Binary? && !Swapped(e.op) && Codes(c, st, e, t, g, base, depth, x) && Fits(c, st, base, f, x)
    requires FloatOk(c, st, e, version) && PoolOk(g.pool, version)
    ensures Assembles(ins, x.code, c, f, version) && NoJumps(ins) && ins != []
    ensures PoolOk(x.g.pool, version)
    decreases e, 0
  {
    hide B.Encode, EncodeAll, Assembles, GenExpr, CheckExpr, ExprCode, TypeIn, FloatOk, PoolOk, OperatorCode, SlotsOk, CountsAgree;
    UseCodes(c, st, e, t, g, base, depth, x);
    BinaryLayout(c, st, e, g, base, depth);
    FloatParts(c, st, e, version);
    FloatParts(c, st, e.left, version);
    var l := ExprCode(c, st, e.left, g, base, depth);
    var r := ExprCode(c, st, e.right, l.g, base, depth);
    MakeCodes(c, st, e.left, g, base, depth);
    MakeCodes(c, st, e.right, l.g, base, depth);
    var float := TypeIn(c, st, e.left).value.TFloat?;
    var a := ExprInstrs(c, st, e.left, TypeIn(c, st, e.left), g, base, depth, l, f, version);
    var b := ExprInstrs(c, st, e.right, TypeIn(c, st, e.right), l.g, base, depth, r, f, version);
    var o := OperatorInstrs(c, e.op, float, f, version);
    JoinCode(a, l.code, b, r.code, c, f, version);
    JoinCode(a + b, l.code + r.code, o, OperatorCode(e.op, float), c, f, version);
    ins := a + b + o;
  }

  lemma {:induction false} SwappedInstrs(c: Context, st: State, e: Expr, t: Option<Type>, g: Gen, base: nat, depth: nat, x: Emitted, f: B.Function, version: int)
      returns (ins: seq<B.Instr>)
    requires e.Binary? && Swapped(e.op) && Codes(c, st, e, t, g, base, depth, x) && Fits(c, st, base, f, x)
    requires FloatOk(c, st, e, version) && PoolOk(g.pool, version)
    ensures Assembles(ins, x.code, c, f, version) && NoJumps(ins) && ins != []
    ensures PoolOk(x.g.pool, version)
    decreases e, 0
  {
    hide B.Encode, EncodeAll, Assembles, GenExpr, CheckExpr, ExprCode, TypeIn, FloatOk, PoolOk, OperatorCode, SlotsOk, CountsAgree;
    UseCodes(c, st, e, t, g, base, depth, x);
    SwappedLayout(c, st, e, g, base, depth);
    FloatParts(c, st, e, version);
    FloatParts(c, st, e.left, version);
    var g1, slot := g.(maxTemp := Max(g.maxTemp, depth + 1)), base + depth;
    var l := ExprCode(c, st, e.left, g1, base, depth + 1);
    var r := ExprCode(c, st, e.right, l.g, base, depth + 1);
    MakeCodes(c, st, e.left, g1, base, depth + 1);
    MakeCodes(c, st, e.right, l.g, base, depth + 1);
    var float := TypeIn(c, st, e.left).value.TFloat?;
    var a := ExprInstrs(c, st, e.left, TypeIn(c, st, e.left), g1, base, depth + 1, l, f, version);
    var b := ExprInstrs(c, st, e.right, TypeIn(c, st, e.right), l.g, base, depth + 1, r, f, version);
    var o := OperatorInstrs(c, e.op, float, f, version);
    OneInstr(B.Store(slot), c, f, version);
    OneInstr(B.Load(slot), c, f, version);
    var s1, s2 := [B.Store(slot)], [B.Load(slot)];
    var c1, c2 := B.Encode(B.Store(slot)), B.Encode(B.Load(slot));
    JoinCode(a, l.code, s1, c1, c, f, version);
    JoinCode(a + s1, l.code + c1, b, r.code, c, f, version);
    JoinCode(a + s1 + b, l.code + c1 + r.code, s2, c2, c, f, version);
    JoinCode(a + s1 + b + s2, l.code + c1 + r.code + c2, o, OperatorCode(e.op, float), c, f, version);
    ins := a + s1 + b + s2 + o;
  }

  lemma {:induction false} ArgsInstrs(c: Context, st: State, es: seq<Expr>, ts: seq<Type>, g: Gen, base: nat, depth: nat, x: Emitted, f: B.Function, version: int)
      returns (ins: seq<B.Instr>)
    requires ArgsCodes(c, st, es, ts, g, base, depth, x) && Fits(c, st, base, f, x)
    requires ArgsContainFloat(CheckArgs(c.fs, st.scopes, es, ts).value) ==> version == FLOAT_VERSION
    requires PoolOk(g.pool, version)
    ensures Assembles(ins, x.code, c, f, version) && NoJumps(ins)
    ensures PoolOk(x.g.pool, version)
    decreases es
  {
    if es == [] {
      ins := [];
      return;
    }
    hide B.Encode, EncodeAll, Assembles, GenExpr, GenArgs, CheckExpr, CheckArgs, Codes, PoolOk, SlotsOk, CountsAgree, ArgsContainFloat, ArgsCodes;
    FloatArgs(c, st, es, ts, g, base, depth, x, version);
    var head, rest := ArgsLayout(c, st, es, ts, g, base, depth, x);
    UseArgsCodes(c, st, es[1..], ts[1..], head.g, base, depth, rest);
    var a := ExprInstrs(c, st, es[0], Some(ts[0]), g, base, depth, head, f, version);
    var b := ArgsInstrs(c, st, es[1..], ts[1..], head.g, base, depth, rest, f, version);
    JoinCode(a, head.code, b, rest.code, c, f, version);
    ins := a + b;
  }

  lemma FloatArgs(c: Context, st: State, es: seq<Expr>, ts: seq<Type>, g: Gen, base: nat, depth: nat, x: Emitted, version: int)
    requires es != [] && ArgsCodes(c, st, es, ts, g, base, depth, x)
    requires ArgsContainFloat(CheckArgs(c.fs, st.scopes, es, ts).value) ==> version == FLOAT_VERSION
    ensures FloatOk(c, st, es[0], version)
    ensures CheckArgs(c.fs, st.scopes, es[1..], ts[1..]).Success?
    ensures ArgsContainFloat(CheckArgs(c.fs, st.scopes, es[1..], ts[1..]).value) ==> version == FLOAT_VERSION
  {
    var as' := CheckArgs(c.fs, st.scopes, es, ts).value;
    assert as'[1..] == CheckArgs(c.fs, st.scopes, es[1..], ts[1..]).value;
  }

  lemma FloatCall(c: Context, st: State, e: Expr, ts: seq<Type>, g: Gen, base: nat, depth: nat, x: Emitted, version: int)
    requires e.Call? && FloatOk(c, st, e, version) && ArgsCodes(c, st, e.args, ts, g, base, depth, x)
    requires (e.namespace.Some? ==> SignatureOf(QualifiedName(e.namespace.value, e.name)).Some?) && (e.namespace.None? ==> IndexOf(c.fs, e.name).Some?)
    requires ts == TypeSoundness.CallParamTypes(c.fs, e)
    ensures ArgsContainFloat(CheckArgs(c.fs, st.scopes, e.args, ts).value) ==> version == FLOAT_VERSION
  {
  }

  lemma {:induction false} CallInstrs(c: Context, st: State, e: Expr, t: Option<Type>, g: Gen, base: nat, depth: nat, x: Emitted, f: B.Function, version: int)
      returns (ins: seq<B.Instr>)
    requires e.Call? && Codes(c, st, e, t, g, base, depth, x) && Fits(c, st, base, f, x)
    requires FloatOk(c, st, e, version) && PoolOk(g.pool, version)
    ensures Assembles(ins, x.code, c, f, version) && NoJumps(ins) && ins != []
    ensures PoolOk(x.g.pool, version)
    decreases e, 0
  {
    hide B.Encode, EncodeAll, Assembles, GenExpr, CheckExpr, CheckArgs, GenArgs, ExprCode, TypeIn, FloatOk, PoolOk, SlotsOk, SignatureOf, HasFunction, ArgsContainFloat;
    UseCodes(c, st, e, t, g, base, depth, x);
    var ts, y := CallLayout(c, st, e, g, base, depth);
    FloatCall(c, st, e, ts, g, base, depth, y, version);
    var a := ArgsInstrs(c, st, e.args, ts, g, base, depth, y, f, version);
    if e.namespace.Some? {
      var name := QualifiedName(e.namespace.value, e.name);
      var key := Intern(y.g, StringV(name)).value;
      CompilerTableIsImplemented(name);
      OneInstr(B.CallRuntime(key.0, |e.args|), c, f, version);
      JoinCode(a, y.code, [B.CallRuntime(key.0, |e.args|)], B.Encode(B.CallRuntime(key.0, |e.args|)), c, f, version);
      ins := a + [B.CallRuntime(key.0, |e.args|)];
      InternText(y.g, name, version);
    } else {
      var i := IndexOf(c.fs, e.name).value;
      OneInstr(B.Call(i, |e.args|), c, f, version);
      JoinCode(a, y.code, [B.Call(i, |e.args|)], B.Encode(B.Call(i, |e.args|)), c, f, version);
      ins := a + [B.Call(i, |e.args|)];
    }
  }

  lemma InternText(g: Gen, name: Text, version: int)
    requires PoolOk(g.pool, version) && Intern(g, StringV(name)).Success?
    ensures PoolOk(Intern(g, StringV(name)).value.1.pool, version)
  {
  }

  // ---- Statements ----

  ghost predicate FloatStmtOk(c: Context, fn: FunctionDecl, st: State, t: Stmt, version: int) {
    && st.scopes != [] && CheckStmt(c.fs, fn, st, t).Success?
    && (StmtContainsFloat(CheckStmt(c.fs, fn, st, t).value.0) ==> version == FLOAT_VERSION)
  }

  ghost predicate FloatStmtsOk(c: Context, fn: FunctionDecl, st: State, ts: seq<Stmt>, version: int) {
    && st.scopes != [] && CheckStmts(c.fs, fn, st, ts).Success?
    && (StmtsContainFloat(CheckStmts(c.fs, fn, st, ts).value.0) ==> version == FLOAT_VERSION)
  }

  /** A fragment of statement code fits the function, and its slots end below `next`. */
  ghost predicate StmtFits(c: Context, st: State, next: nat, base: nat, at: nat, f: B.Function, x: Emitted) {
    && CountsAgree(c) && SlotsOk(st) && st.next <= next <= base
    && x.g.pool <= c.p.constants && base + x.g.maxTemp <= f.paramCount + f.localCount
    && at + |x.code| <= MAX_CODE
  }

  /** Statement code passes the loader; its jumps land inside it or at its end, and `toEnd` says whether one does the latter. */
  ghost predicate Verified(ins: seq<B.Instr>, at: nat, x: Emitted, c: Context, f: B.Function, version: int, toEnd: bool, nothing: bool) {
    && Assembles(ins, x.code, c, f, version)
    && JumpsLand(ins, at) && (JumpsToEnd(ins, at) <==> toEnd) && (ins == [] <==> nothing)
    && PoolOk(x.g.pool, version)
  }

  lemma StraightCode(ins: seq<B.Instr>, at: nat)
    requires NoJumps(ins)
    ensures JumpsLand(ins, at) && !JumpsToEnd(ins, at)
  {
  }

  lemma AssembledSize(ins: seq<B.Instr>, x: seq<Byte>, c: Context, f: B.Function, version: int)
    requires Assembles(ins, x, c, f, version)
    ensures |EncodeAll(ins)| == |x|
  {
  }

  /** The border between two pieces of code is a place to land. */
  lemma BorderLands(a: seq<B.Instr>, b: seq<B.Instr>, at: nat)
    ensures Lands(a + b, at, at + |EncodeAll(a)|)
  {
    hide Lands, EncodeAll;
    StartLands(b, at + |EncodeAll(a)|);
    LandsAppend(a, b, at, at + |EncodeAll(a)|);
  }

  lemma SimpleParts(c: Context, fn: FunctionDecl, st: State, t: Stmt, version: int)
    requires FloatStmtOk(c, fn, st, t, version)
    ensures t.VarDecl? ==> FloatOk(c, st, t.init, version)
    ensures t.Assign? ==> FloatOk(c, st, t.value, version)
    ensures t.CallStmt? ==> FloatOk(c, st, t.call, version)
    ensures t.Return? && t.result.Some? ==> FloatOk(c, st, t.result.value, version)
    ensures t.While? || t.If? ==> FloatOk(c, st, t.cond, version)
    ensures t.While? ==> FloatStmtsOk(c, fn, OpenScope(st), t.body, version)
    ensures t.Block? ==> FloatStmtsOk(c, fn, OpenScope(st), t.body, version)
  {
  }

  lemma IfParts(c: Context, fn: FunctionDecl, st: State, t: Stmt, version: int)
    requires t.If? && FloatStmtOk(c, fn, st, t, version)
    ensures FloatStmtsOk(c, fn, OpenScope(st), t.thn, version)
    ensures t.els.Some? ==> FloatStmtOk(c, fn, CloseScope(CheckStmts(c.fs, fn, OpenScope(st), t.thn).value.1), t.els.value, version)
  {
  }

  /** An expression followed by one plain instruction. */
  lemma ExprThen(c: Context, st: State, e: Expr, ty: Option<Type>, g: Gen, base: nat, y: Emitted, i: B.Instr, at: nat, x: Emitted, f: B.Function, version: int)
      returns (ins: seq<B.Instr>)
    requires Codes(c, st, e, ty, g, base, 0, y) && Fits(c, st, base, f, y) && FloatOk(c, st, e, version) && PoolOk(g.pool, version)
    requires B.OperandsFit(i) && InstrError(c.p, f, version, i).None? && !IsJump(i)
    requires x == Emitted(y.code + B.Encode(i), y.g)
    ensures Verified(ins, at, x, c, f, version, false, false)
  {
    hide B.Encode, EncodeAll, Assembles, Codes, Fits, FloatOk, PoolOk, B.OperandsFit, InstrError, JumpsLand, JumpsToEnd;
    var a := ExprInstrs(c, st, e, ty, g, base, 0, y, f, version);
    OneInstr(i, c, f, version);
    JoinCode(a, y.code, [i], B.Encode(i), c, f, version);
    ins := a + [i];
    StraightCode(ins, at);
  }

  lemma ReturnZeroInstrs(c: Context, g: Gen, x: Emitted, at: nat, f: B.Function, version: int) returns (ins: seq<B.Instr>)
    requires ReturnZero(g) == Success(x) && x.g.pool <= c.p.constants && PoolOk(g.pool, version)
    ensures Verified(ins, at, x, c, f, version, false, false)
  {
    hide B.Encode, EncodeAll, Assembles, PoolOk, GenConst, JumpsLand, JumpsToEnd;
    var zero := GenConst(g, IntV(0)).value;
    var a := ConstInstr(c, g, IntV(0), f, version);
    OneInstr(B.Ret, c, f, version);
    JoinCode(a, zero.code, [B.Ret], B.Encode(B.Ret), c, f, version);
    ins := a + [B.Ret];
    StraightCode(ins, at);
  }

  lemma {:induction false} StmtInstrs(c: Context, fn: FunctionDecl, st: State, t: Stmt, st': State, g: Gen, base: nat, at: nat, x: Emitted, f: B.Function, version: int)
      returns (ins: seq<B.Instr>)
    requires StmtCodes(c, fn, st, t, st', g, base, at, x) && StmtFits(c, st, st'.next, base, at, f, x)
    requires FloatStmtOk(c, fn, st, t, version) && PoolOk(g.pool, version)
    ensures Verified(ins, at, x, c, f, version, TargetsEnd(t), EmitsNothing(t))
    decreases t, 1
  {
    hide B.Encode, EncodeAll, Assembles, Codes, FloatOk, PoolOk, JumpsLand, JumpsToEnd, StmtCodes, FloatStmtOk, GenStmt, CheckStmt, Verified, AnyTargetsEnd,
         AllEmitNothing, AnyReturns, WellShaped, CountsAgree, ReturnZero;
    SimpleParts(c, fn, st, t, version);
    match t
    case Block(ts) =>
      ins := BlockInstrs(c, fn, st, t, st', g, base, at, x, f, version);
    case VarDecl(_, _, _, _, _) =>
      var y, ty := DeclLayout(c, fn, st, t, st', g, base, at, x);
      ins := ExprThen(c, st, t.init, Some(ty), g, base, y, B.Store(st.next), at, x, f, version);
    case Assign(_, _, _) =>
      var y, level := AssignLayout(c, fn, st, t, st', g, base, at, x);
      ins := ExprThen(c, st, t.value, Some(st.scopes[level][t.name].ty), g, base, y, B.Store(st.scopes[level][t.name].slot), at, x, f, version);
    case If(_, _, _) =>
      ins := IfInstrs(c, fn, st, t, st', g, base, at, x, f, version);
    case While(_, _) =>
      ins := WhileInstrs(c, fn, st, t, st', g, base, at, x, f, version);
    case Return(result) =>
      if result.None? {
        ReturnNothing(c, fn, st, t, st', g, base, at, x);
        ins := ReturnZeroInstrs(c, g, x, at, f, version);
      } else {
        var e, y, ty := EndLayout(c, fn, st, t, st', g, base, at, x);
        ins := ExprThen(c, st, e, ty, g, base, y, B.Ret, at, x, f, version);
      }
    case CallStmt(_) =>
      var e, y, ty := EndLayout(c, fn, st, t, st', g, base, at, x);
      ins := ExprThen(c, st, e, ty, g, base, y, B.Pop, at, x, f, version);
  }

  lemma ReturnNothing(c: Context, fn: FunctionDecl, st: State, t: Stmt, st': State, g: Gen, base: nat, at: nat, x: Emitted)
    requires t.Return? && t.result.None? && StmtCodes(c, fn, st, t, st', g, base, at, x)
    ensures ReturnZero(g) == Success(x)
  {
    hide ReturnZero;
    assert CheckStmt(c.fs, fn, st, t).value.0 == Return(None);
  }

  lemma {:induction false} BlockInstrs(c: Context, fn: FunctionDecl, st: State, t: Stmt, st': State, g: Gen, base: nat, at: nat, x: Emitted, f: B.Function, version: int)
      returns (ins: seq<B.Instr>)
    requires t.Block? && StmtCodes(c, fn, st, t, st', g, base, at, x) && StmtFits(c, st, st'.next, base, at, f, x)
    requires FloatStmtOk(c, fn, st, t, version) && PoolOk(g.pool, version)
    ensures Verified(ins, at, x, c, f, version, TargetsEnd(t), EmitsNothing(t))
    decreases t, 0
  {
    hide Verified, PoolOk, FloatStmtOk, FloatStmtsOk, CheckStmts, GenStmts, SlotsOk, CountsAgree, AnyTargetsEnd, AllEmitNothing;
    SimpleParts(c, fn, st, t, version);
    OpenSlots(st);
    var inner := CheckStmts(c.fs, fn, OpenScope(st), t.body).value.1;
    ins := StmtsInstrs(c, fn, OpenScope(st), t.body, inner, g, base, at, x, f, version);
  }

  lemma {:induction false} StmtsInstrs(c: Context, fn: FunctionDecl, st: State, ts: seq<Stmt>, st': State, g: Gen, base: nat, at: nat, x: Emitted, f: B.Function, version: int)
      returns (ins: seq<B.Instr>)
    requires StmtsCodes(c, fn, st, ts, st', g, base, at, x) && StmtFits(c, st, st'.next, base, at, f, x)
    requires FloatStmtsOk(c, fn, st, ts, version) && PoolOk(g.pool, version)
    ensures Verified(ins, at, x, c, f, version, AnyTargetsEnd(ts), AllEmitNothing(ts))
    decreases ts
  {
    hide B.Encode, EncodeAll, Assembles, StmtCodes, StmtsCodes, FloatStmtOk, FloatStmtsOk, GenStmt, GenStmts, CheckStmt, CheckStmts, JumpsLand, JumpsToEnd, PoolOk,
         SlotsOk, CountsAgree, TargetsEnd, EmitsNothing;
    if ts == [] {
      ins := [];
      NoInstrs(c, fn, st, st', g, base, at, x, f, version);
      return;
    }
    var st1, head, rest := StmtsLayout(c, fn, st, ts, st', g, base, at, x);
    ListParts(c, fn, st, ts, st1, g, base, at, head, version);
    NextGrows(c, fn, st1, ts[1..], st', head.g, base, at + |head.code|, rest);
    var a := StmtInstrs(c, fn, st, ts[0], st1, g, base, at, head, f, version);
    var b := StmtsInstrs(c, fn, st1, ts[1..], st', head.g, base, at + |head.code|, rest, f, version);
    AssembledSize(a, head.code, c, f, version);
    JoinCode(a, head.code, b, rest.code, c, f, version);
    JumpsLandAppend(a, b, at);
    ins := a + b;
    if b == [] {
      assert ins == a;
      NoCodeNoJump(ts[1..]);
    } else {
      ToEndAppend(a, b, at);
    }
  }

  lemma NoInstrs(c: Context, fn: FunctionDecl, st: State, st': State, g: Gen, base: nat, at: nat, x: Emitted, f: B.Function, version: int)
    requires StmtsCodes(c, fn, st, [], st', g, base, at, x) && PoolOk(g.pool, version)
    ensures Verified([], at, x, c, f, version, false, true)
  {
  }

  lemma {:induction false} NoCodeNoJump(ts: seq<Stmt>)
    requires AllEmitNothing(ts)
    ensures !AnyTargetsEnd(ts)
    decreases ts
  {
    if ts != [] {
      NoCodeNoJump(ts[1..]);
      NoCodeNoJump(ts[0].body);
    }
  }

  lemma ListParts(c: Context, fn: FunctionDecl, st: State, ts: seq<Stmt>, st1: State, g: Gen, base: nat, at: nat, head: Emitted, version: int)
    requires ts != [] && FloatStmtsOk(c, fn, st, ts, version) && SlotsOk(st) && StmtCodes(c, fn, st, ts[0], st1, g, base, at, head)
    ensures FloatStmtOk(c, fn, st, ts[0], version) && FloatStmtsOk(c, fn, st1, ts[1..], version) && SlotsOk(st1) && st.next <= st1.next
  {
    StmtSlots(c.fs, fn, st, ts[0]);
    var as' := CheckStmts(c.fs, fn, st, ts).value.0;
    assert as'[1..] == CheckStmts(c.fs, fn, st1, ts[1..]).value.0;
  }

  // ---- Control flow ----

  lemma JumpInstr(i: B.Instr, c: Context, f: B.Function, version: int)
    requires IsJump(i) && 0 <= i.target <= MAX_CODE
    ensures Assembles([i], B.Encode(i), c, f, version) && |B.Encode(i)| == 5 == |EncodeAll([i])|
  {
    OneInstr(i, c, f, version);
  }

  /** A condition, a branch to the end, and the code it may skip. */
  lemma SkipLands(b: seq<B.Instr>, j: B.Instr, th: seq<B.Instr>, at: nat)
    requires NoJumps(b) && IsJump(j) && JumpsLand(th, at + |EncodeAll(b + [j])|)
    requires j.target == at + |EncodeAll(b + [j] + th)|
    ensures JumpsLand(b + [j] + th, at) && JumpsToEnd(b + [j] + th, at)
  {
    hide EncodeAll, Lands;
    var all := b + [j] + th;
    StartLands(all, at);
    forall i | i in all && IsJump(i) ensures Lands(all, at, i.target) {
      if i in th {
        LandsAppend(b + [j], th, at, i.target);
      }
    }
    assert j in all;
  }

  /** The same with an `else` branch behind a jump over it. */
  lemma BothLand(b: seq<B.Instr>, j: B.Instr, th: seq<B.Instr>, k: B.Instr, el: seq<B.Instr>, at: nat)
    requires NoJumps(b) && IsJump(j) && IsJump(k) && JumpsLand(th, at + |EncodeAll(b + [j])|)
    requires JumpsLand(el, at + |EncodeAll(b + [j] + th + [k])|)
    requires j.target == at + |EncodeAll(b + [j] + th + [k])| && k.target == at + |EncodeAll(b + [j] + th + [k] + el)|
    ensures JumpsLand(b + [j] + th + [k] + el, at) && JumpsToEnd(b + [j] + th + [k] + el, at)
  {
    hide EncodeAll, Lands;
    var q := b + [j] + th + [k];
    var all := q + el;
    StartLands(all, at);
    BorderLands(q, el, at);
    forall i | i in all && IsJump(i) ensures Lands(all, at, i.target) {
      if i in th {
        LandsAppend(b + [j], th, at, i.target);
        LandsAppend(b + [j] + th, [k], at, i.target);
        LandsAppend(q, el, at, i.target);
      } else if i in el {
        LandsAppend(q, el, at, i.target);
      }
    }
    assert k in all;
  }

  /** A loop: its branch goes to the end, its last jump to the start. */
  lemma LoopLands(b: seq<B.Instr>, j: B.Instr, bd: seq<B.Instr>, k: B.Instr, at: nat)
    requires NoJumps(b) && IsJump(j) && IsJump(k) && JumpsLand(bd, at + |EncodeAll(b + [j])|)
    requires j.target == at + |EncodeAll(b + [j] + bd + [k])| && k.target == at
    ensures JumpsLand(b + [j] + bd + [k], at) && JumpsToEnd(b + [j] + bd + [k], at)
  {
    hide EncodeAll, Lands;
    var all := b + [j] + bd + [k];
    StartLands(all, at);
    forall i | i in all && IsJump(i) ensures Lands(all, at, i.target) {
      if i in bd {
        LandsAppend(b + [j], bd, at, i.target);
        LandsAppend(b + [j] + bd, [k], at, i.target);
      }
    }
    assert j in all;
  }

  lemma BlockBody(c: Context, fn: FunctionDecl, st: State, ts: seq<Stmt>, next: nat, g: Gen, base: nat, at: nat, x: Emitted, f: B.Function)
      returns (inner: State)
    requires BlockCodes(c, fn, st, ts, next, g, base, at, x) && StmtFits(c, st, next, base, at, f, x)
    ensures StmtsCodes(c, fn, OpenScope(st), ts, inner, g, base, at, x) && inner.next == next
    ensures StmtFits(c, OpenScope(st), inner.next, base, at, f, x)
    ensures inner == CheckStmts(c.fs, fn, OpenScope(st), ts).value.1
  {
    hide SlotsOk, CountsAgree;
    OpenSlots(st);
    inner := CheckStmts(c.fs, fn, OpenScope(st), ts).value.1;
  }

  lemma {:induction false} WhileInstrs(c: Context, fn: FunctionDecl, st: State, t: Stmt, st': State, g: Gen, base: nat, at: nat, x: Emitted, f: B.Function, version: int)
      returns (ins: seq<B.Instr>)
    requires t.While? && StmtCodes(c, fn, st, t, st', g, base, at, x) && StmtFits(c, st, st'.next, base, at, f, x)
    requires FloatStmtOk(c, fn, st, t, version) && PoolOk(g.pool, version)
    ensures Verified(ins, at, x, c, f, version, TargetsEnd(t), EmitsNothing(t))
    decreases t, 0
  {
    hide B.Encode, EncodeAll, Assembles, StmtCodes, StmtsCodes, BlockCodes, Codes, FloatOk, FloatStmtOk, FloatStmtsOk, GenStmt, GenStmts, CheckStmt, CheckStmts,
         JumpsLand, JumpsToEnd, PoolOk, SlotsOk, CountsAgree, AnyTargetsEnd, AllEmitNothing, NoJumps;
    SimpleParts(c, fn, st, t, version);
    var b, bd := WhileLayout(c, fn, st, t, st', g, base, at, x);
    var j, k := B.JmpIfFalse(at + |b.code| + |bd.code| + 10), B.Jmp(at);
    JumpSize(at + |b.code| + |bd.code| + 10);
    JumpSize(at);
    var inner := BlockBody(c, fn, st, t.body, st'.next, b.g, base, at + |b.code| + 5, bd, f);
    var a := ExprInstrs(c, st, t.cond, Some(TBool), g, base, 0, b, f, version);
    var d := StmtsInstrs(c, fn, OpenScope(st), t.body, inner, b.g, base, at + |b.code| + 5, bd, f, version);
    JumpInstr(j, c, f, version);
    JumpInstr(k, c, f, version);
    JoinCode(a, b.code, [j], B.Encode(j), c, f, version);
    JoinCode(a + [j], b.code + B.Encode(j), d, bd.code, c, f, version);
    JoinCode(a + [j] + d, b.code + B.Encode(j) + bd.code, [k], B.Encode(k), c, f, version);
    AssembledSize(a + [j], b.code + B.Encode(j), c, f, version);
    AssembledSize(a + [j] + d + [k], x.code, c, f, version);
    LoopLands(a, j, d, k, at);
    ins := a + [j] + d + [k];
  }

  lemma {:induction false} IfInstrs(c: Context, fn: FunctionDecl, st: State, t: Stmt, st': State, g: Gen, base: nat, at: nat, x: Emitted, f: B.Function, version: int)
      returns (ins: seq<B.Instr>)
    requires t.If? && StmtCodes(c, fn, st, t, st', g, base, at, x) && StmtFits(c, st, st'.next, base, at, f, x)
    requires FloatStmtOk(c, fn, st, t, version) && PoolOk(g.pool, version)
    ensures Verified(ins, at, x, c, f, version, TargetsEnd(t), EmitsNothing(t))
    decreases t, 0
  {
    hide B.Encode, EncodeAll, Assembles, StmtCodes, StmtsCodes, BlockCodes, Codes, FloatOk, FloatStmtOk, FloatStmtsOk, GenStmt, GenStmts, CheckStmt, CheckStmts,
         JumpsLand, JumpsToEnd, PoolOk, SlotsOk, CountsAgree, AnyTargetsEnd, AllEmitNothing, NoJumps, AnyReturns;
    SimpleParts(c, fn, st, t, version);
    IfParts(c, fn, st, t, version);
    var b, th, st1, el := IfLayout(c, fn, st, t, st', g, base, at, x);
    var thenAt := at + |b.code| + 5;
    var over := t.els.Some? && !AnyReturns(t.thn);
    var j := B.JmpIfFalse(thenAt + |th.code| + (if over then 5 else 0));
    JumpSize(j.target);
    JumpSize(thenAt + |th.code| + 5 + |el.code|);
    IfSizes(c, fn, st, t, st', g, base, at, x, b, th, st1, el);
    var inner := BlockBody(c, fn, st, t.thn, st1.next, b.g, base, thenAt, th, f);
    var a := ExprInstrs(c, st, t.cond, Some(TBool), g, base, 0, b, f, version);
    var d := StmtsInstrs(c, fn, OpenScope(st), t.thn, inner, b.g, base, thenAt, th, f, version);
    JumpInstr(j, c, f, version);
    JoinCode(a, b.code, [j], B.Encode(j), c, f, version);
    AssembledSize(a + [j], b.code + B.Encode(j), c, f, version);
    JoinCode(a + [j], b.code + B.Encode(j), d, th.code, c, f, version);
    AssembledSize(a + [j] + d, b.code + B.Encode(j) + th.code, c, f, version);
    ins := a + [j] + d;
    if !over {
      SkipLands(a, j, d, at);
    }
    if t.els.Some? {
      ElseState(c, fn, st, t, st1, b.g, base, thenAt, th);
      var e := StmtInstrs(c, fn, st1, t.els.value, st', th.g, base, j.target, el, f, version);
      ins := WithElse(c, t, a, j, d, e, at, x, b, th, el, f, version);
    }
  }

  lemma ElseState(c: Context, fn: FunctionDecl, st: State, t: Stmt, st1: State, g: Gen, base: nat, at: nat, th: Emitted)
    requires t.If? && BlockCodes(c, fn, st, t.thn, st1.next, g, base, at, th) && st1.scopes == st.scopes && SlotsOk(st)
    ensures SlotsOk(st1) && CheckStmts(c.fs, fn, OpenScope(st), t.thn).Success?
    ensures st1 == CloseScope(CheckStmts(c.fs, fn, OpenScope(st), t.thn).value.1)
  {
    hide CheckStmts, GenStmts;
    BlockSlots(c.fs, fn, st, t.thn);
    assert CloseScope(CheckStmts(c.fs, fn, OpenScope(st), t.thn).value.1).scopes == st.scopes;
  }

  lemma IfSizes(c: Context, fn: FunctionDecl, st: State, t: Stmt, st': State, g: Gen, base: nat, at: nat, x: Emitted, b: Emitted, th: Emitted, st1: State, el: Emitted)
    requires t.If? && IfShape(c, fn, st, t, st', g, base, at, x, b, th, st1, el)
    ensures b.g.pool <= th.g.pool <= x.g.pool && b.g.maxTemp <= th.g.maxTemp <= x.g.maxTemp && st.next <= st1.next <= st'.next
    ensures |x.code| == |b.code| + 5 + |th.code| + (if t.els.None? then 0 else |el.code| + (if AnyReturns(t.thn) then 0 else 5))
  {
    hide B.Encode, Codes, GenStmts, CheckStmts, StmtCodes, AnyReturns;
    JumpSize(at + |b.code| + 5 + |th.code|);
    JumpSize(at + |b.code| + 5 + |th.code| + 5);
    JumpSize(at + |b.code| + 5 + |th.code| + 5 + |el.code|);
  }

  /** Adding the `else` branch to a condition and a `then` block. */
  lemma WithElse(c: Context, t: Stmt, a: seq<B.Instr>, j: B.Instr, d: seq<B.Instr>, e: seq<B.Instr>, at: nat, x: Emitted, b: Emitted, th: Emitted, el: Emitted,
                 f: B.Function, version: int) returns (ins: seq<B.Instr>)
    requires t.If? && t.els.Some? && NoJumps(a) && a != [] && j.JmpIfFalse? && j.target >= 0 && |B.Encode(j)| == 5
    requires Assembles(a + [j], b.code + B.Encode(j), c, f, version) && Assembles(a + [j] + d, b.code + B.Encode(j) + th.code, c, f, version)
    requires JumpsLand(d, at + |b.code| + 5) && Verified(e, j.target, el, c, f, version, TargetsEnd(t.els.value), EmitsNothing(t.els.value))
    requires AnyReturns(t.thn) ==>
               && j.target == at + |b.code| + 5 + |th.code| && x == Emitted(b.code + B.Encode(j) + th.code + el.code, el.g)
               && JumpsLand(a + [j] + d, at) && JumpsToEnd(a + [j] + d, at)
    requires !AnyReturns(t.thn) ==>
               && j.target == at + |b.code| + 10 + |th.code| && at + |x.code| <= MAX_CODE
               && x == Emitted(b.code + B.Encode(j) + th.code + B.Encode(B.Jmp(j.target + |el.code|)) + el.code, el.g)
    ensures Verified(ins, at, x, c, f, version, TargetsEnd(t), EmitsNothing(t))
  {
    hide B.Encode, EncodeAll, Assembles, JumpsLand, JumpsToEnd, PoolOk, NoJumps, AnyReturns, EmitsNothing;
    var front := b.code + B.Encode(j) + th.code;
    AssembledSize(a + [j] + d, front, c, f, version);
    AssembledSize(a + [j], b.code + B.Encode(j), c, f, version);
    if AnyReturns(t.thn) {
      JoinCode(a + [j] + d, front, e, el.code, c, f, version);
      JumpsLandAppend(a + [j] + d, e, at);
      ins := a + [j] + d + e;
      if e == [] {
        assert ins == a + [j] + d;
      } else {
        ToEndAppend(a + [j] + d, e, at);
      }
    } else {
      var k := B.Jmp(j.target + |el.code|);
      JumpSize(k.target);
      JumpInstr(k, c, f, version);
      JoinCode(a + [j] + d, front, [k], B.Encode(k), c, f, version);
      JoinCode(a + [j] + d + [k], front + B.Encode(k), e, el.code, c, f, version);
      AssembledSize(a + [j] + d + [k], front + B.Encode(k), c, f, version);
      AssembledSize(a + [j] + d + [k] + e, x.code, c, f, version);
      BothLand(a, j, d, k, e, at);
      ins := a + [j] + d + [k] + e;
    }
    NotABlock(t);
  }

  lemma NotABlock(t: Stmt)
    requires !t.Block?
    ensures !EmitsNothing(t)
  {
  }
}
