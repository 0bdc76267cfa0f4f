/**
  What a `.tc` program means: a big-step evaluation over names and nested scopes, left to right, recording
  every Runtime call. It never looks at the checker's annotations. `fuel` bounds the nesting of calls and
  the number of loop iterations; a result other than `OutOfFuel` does not depend on it.
 */
module Semantics {
  import opened Prelude
  import opened Bytes
  import opened Floats
  import opened Values
  import opened Syntax
  import opened RuntimeApi

  /** `VUnit` is what a function without a return type yields. */
  datatype Val = VInt(n: I64) | VFloat(f: F64) | VBool(b: bool) | VString(t: Text) | VUnit

  type Env = seq<map<Text, Val>>

  /** `Wrong` marks an operation applied to values it has no meaning for. */
  datatype Res<+T> = Ok(value: T, tr: Trace) | Fail(e: Error, tr: Trace) | OutOfFuel(tr: Trace) | Wrong {
    predicate IsFailure() {
      !Ok?
    }

    function PropagateFailure<U>(): Res<U>
      requires !Ok?
    {
      match this
      case Fail(e, tr) => Fail(e, tr)
      case OutOfFuel(tr) => OutOfFuel(tr)
      case Wrong => Wrong
    }

    function Extract(): (T, Trace)
      requires Ok?
    {
      (value, tr)
    }

    /** Runtime calls are only ever added. */
    ghost predicate Extends(before: Trace) {
      Wrong? || before <= tr
    }
  }

  datatype Flow = Normal(env: Env) | Returns(v: Val)

  /** The innermost of the nested scopes that binds `x`. */
  function FindLevel<T>(scopes: seq<map<Text, T>>, x: Text): (r: Option<nat>)
    ensures r.Some? ==> r.value < |scopes| && x in scopes[r.value]
    ensures r.Some? ==> forall k :: r.value < k < |scopes| ==> x !in scopes[k]
    ensures r.None? ==> forall k :: 0 <= k < |scopes| ==> x !in scopes[k]
  {
    if scopes == [] then None
    else if x in scopes[|scopes| - 1] then Some(|scopes| - 1)
    else FindLevel(scopes[..|scopes| - 1], x)
  }

  function IntResult(c: Computed<I64>, tr: Trace): Res<Val> {
    match c
    case Computed(v) => Ok(VInt(v), tr)
    case Failed(e) => Fail(e, tr)
  }

  function FloatResult(c: Computed<F64>, tr: Trace): Res<Val> {
    match c
    case Computed(v) => Ok(VFloat(v), tr)
    case Failed(e) => Fail(e, tr)
  }

  function ApplyUnary(op: UnaryOp, v: Val, tr: Trace): (r: Res<Val>)
    ensures r.Extends(tr)
  {
    match (op, v)
    case (NEG, VInt(n)) => IntResult(CheckedInt(0 - n), tr)
    case (NEG, VFloat(f)) => Ok(VFloat(Negate(f)), tr)
    case (NOT, VBool(b)) => Ok(VBool(!b), tr)
    case _ => Wrong
  }

  function ApplyInt(op: BinaryOp, a: I64, b: I64, tr: Trace): Res<Val> {
    match op
    case ADD => IntResult(CheckedInt(a + b), tr)
    case SUB => IntResult(CheckedInt(a - b), tr)
    case MUL => IntResult(CheckedInt(a * b), tr)
    case DIV => IntResult(DivideInt(a, b), tr)
    case EQ => Ok(VBool(a == b), tr)
    case NE => Ok(VBool(a != b), tr)
    case LT => Ok(VBool(a < b), tr)
    case LE => Ok(VBool(a <= b), tr)
    case GT => Ok(VBool(a > b), tr)
    case GE => Ok(VBool(a >= b), tr)
  }

  function ApplyFloat(w: World, op: BinaryOp, a: F64, b: F64, tr: Trace): Res<Val> {
    match op
    case ADD => FloatResult(CheckedFloat(w.fadd(a, b)), tr)
    case SUB => FloatResult(CheckedFloat(w.fsub(a, b)), tr)
    case MUL => FloatResult(CheckedFloat(w.fmul(a, b)), tr)
    case DIV => FloatResult(DivideFloat(w, a, b), tr)
    case EQ => Ok(VBool(Equal(a, b)), tr)
    case NE => Ok(VBool(!Equal(a, b)), tr)
    case LT => Ok(VBool(Less(a, b)), tr)
    case LE => Ok(VBool(LessOrEqual(a, b)), tr)
    case GT => Ok(VBool(Less(b, a)), tr)
    case GE => Ok(VBool(LessOrEqual(b, a)), tr)
  }

  function ApplyBinary(w: World, op: BinaryOp, a: Val, b: Val, tr: Trace): (r: Res<Val>)
    ensures r.Extends(tr)
  {
    match (a, b)
    case (VInt(x), VInt(y)) => ApplyInt(op, x, y, tr)
    case (VFloat(x), VFloat(y)) => ApplyFloat(w, op, x, y, tr)
    case (VBool(x), VBool(y)) =>
      if op.EQ? then Ok(VBool(x == y), tr) else if op.NE? then Ok(VBool(x != y), tr) else Wrong
    case (VString(x), VString(y)) =>
      if op.EQ? then Ok(VBool(x == y), tr) else if op.NE? then Ok(VBool(x != y), tr) else Wrong
    case _ => Wrong
  }

  /** A value as it crosses the Runtime boundary; a Float does not. */
  function ToRuntime(v: Val): Option<RuntimeValue> {
    match v
    case VInt(n) => Some(RuntimeInt(n))
    case VBool(b) => Some(RuntimeInt(if b then 1 else 0))
    case VString(t) => Some(RuntimeString(t))
    case VFloat(_) => None
    case VUnit => None
  }

  function AllToRuntime(vs: seq<Val>): (r: Option<seq<RuntimeValue>>)
    ensures r.Some? ==> |r.value| == |vs|
  {
    if vs == [] then Some([])
    else
      var head, tail := ToRuntime(vs[0]), AllToRuntime(vs[1..]);
      if head.None? || tail.None? then None else Some([head.value] + tail.value)
  }

  function FromRuntime(v: RuntimeValue): Val {
    match v
    case RuntimeInt(n) => VInt(n)
    case RuntimeString(t) => VString(t)
  }

  function CallRuntime(w: World, name: Text, args: seq<Val>, tr: Trace): (r: Res<Val>)
    ensures r.Extends(tr)
  {
    var rargs := AllToRuntime(args);
    if rargs.None? then Wrong else
    var ev := Event(name, rargs.value);
    match w.runtime(tr, ev)
    case Returned(v) => Ok(FromRuntime(v), tr + [ev])
    case Threw => Fail(RuntimeFailure, tr + [ev])
  }

  function EvalExpr(fs: seq<FunctionDecl>, w: World, e: Expr, env: Env, tr: Trace, fuel: nat): (r: Res<Val>)
    ensures r.Extends(tr)
    decreases fuel, e
  {
    match e
    case IntLit(n) => Ok(VInt(n), tr)
    case FloatLit(f) => Ok(VFloat(f), tr)
    case BoolLit(b) => Ok(VBool(b), tr)
    case StringLit(t) => Ok(VString(t), tr)
    case VarRef(x, _, _) =>
      var k := FindLevel(env, x);
      if k.None? then Wrong else Ok(env[k.value][x], tr)
    case Unary(op, operand, _) =>
      var (v, tr1) :- EvalExpr(fs, w, operand, env, tr, fuel);
      ApplyUnary(op, v, tr1)
    case Binary(op, left, right, _) =>
      var (a, tr1) :- EvalExpr(fs, w, left, env, tr, fuel);
      var (b, tr2) :- EvalExpr(fs, w, right, env, tr1, fuel);
      ApplyBinary(w, op, a, b, tr2)
    case Call(namespace, name, args, _, _) =>
      var (vs, tr1) :- EvalArgs(fs, w, args, env, tr, fuel);
      if namespace.Some? then
        CallRuntime(w, QualifiedName(namespace.value, name), vs, tr1)
      else
        var i := IndexOf(fs, name);
        if i.None? then Wrong
        else if fuel == 0 then OutOfFuel(tr1)
        else CallFunction(fs, w, fs[i.value], vs, tr1, fuel - 1)
  }

  function EvalArgs(fs: seq<FunctionDecl>, w: World, es: seq<Expr>, env: Env, tr: Trace, fuel: nat): (r: Res<seq<Val>>)
    ensures r.Extends(tr)
    ensures r.Ok? ==> |r.value| == |es|
    decreases fuel, es
  {
    if es == [] then Ok([], tr)
    else
      var (v, tr1) :- EvalExpr(fs, w, es[0], env, tr, fuel);
      var (vs, tr2) :- EvalArgs(fs, w, es[1..], env, tr1, fuel);
      Ok([v] + vs, tr2)
  }

  function BindParams(scope: map<Text, Val>, params: seq<Param>, args: seq<Val>): map<Text, Val>
    requires |params| == |args|
    decreases params
  {
    if params == [] then scope
    else BindParams(scope[params[0].name := args[0]], params[1..], args[1..])
  }

  /** Parameters and the top level of the body share one scope. */
  function CallFunction(fs: seq<FunctionDecl>, w: World, fn: FunctionDecl, args: seq<Val>, tr: Trace, fuel: nat): (r: Res<Val>)
    ensures r.Extends(tr)
    decreases fuel, fn
  {
    if |args| != |fn.params| then Wrong else
    var (flow, tr1) :- ExecStmts(fs, w, fn.body, [BindParams(map[], fn.params, args)], tr, fuel);
    match flow
    case Returns(v) => Ok(v, tr1)
    case Normal(_) => if fn.returnType.None? then Ok(VUnit, tr1) else Wrong
  }

  function LeaveScope(r: Res<Flow>): Res<Flow> {
    if r.Ok? && r.value.Normal? && r.value.env != []
    then Ok(Normal(r.value.env[..|r.value.env| - 1]), r.tr)
    else r
  }

  function ExecStmt(fs: seq<FunctionDecl>, w: World, s: Stmt, env: Env, tr: Trace, fuel: nat): (r: Res<Flow>)
    ensures r.Extends(tr)
    decreases fuel, s
  {
    match s
    case Block(ss) =>
      LeaveScope(ExecStmts(fs, w, ss, env + [map[]], tr, fuel))
    case VarDecl(_, x, _, init, _) =>
      var (v, tr1) :- EvalExpr(fs, w, init, env, tr, fuel);
      if env == [] then Wrong else
      var top := |env| - 1;
      Ok(Normal(env[top := env[top][x := v]]), tr1)
    case Assign(x, value, _) =>
      var (v, tr1) :- EvalExpr(fs, w, value, env, tr, fuel);
      var k := FindLevel(env, x);
      if k.None? then Wrong else
      Ok(Normal(env[k.value := env[k.value][x := v]]), tr1)
    case If(cond, thn, els) =>
      var (c, tr1) :- EvalExpr(fs, w, cond, env, tr, fuel);
      if !c.VBool? then Wrong
      else if c.b then LeaveScope(ExecStmts(fs, w, thn, env + [map[]], tr1, fuel))
      else if els.None? then Ok(Normal(env), tr1)
      else ExecStmt(fs, w, els.value, env, tr1, fuel)
    case While(cond, body) =>
      if fuel == 0 then OutOfFuel(tr) else
      var (c, tr1) :- EvalExpr(fs, w, cond, env, tr, fuel);
      if !c.VBool? then Wrong
      else if !c.b then Ok(Normal(env), tr1)
      else
        var (flow, tr2) :- LeaveScope(ExecStmts(fs, w, body, env + [map[]], tr1, fuel));
        if flow.Returns? then Ok(flow, tr2)
        else ExecStmt(fs, w, s, flow.env, tr2, fuel - 1)
    case Return(result) =>
      if result.None? then Ok(Returns(VUnit), tr) else
      var (v, tr1) :- EvalExpr(fs, w, result.value, env, tr, fuel);
      Ok(Returns(v), tr1)
    case CallStmt(call) =>
      var (_, tr1) :- EvalExpr(fs, w, call, env, tr, fuel);
      Ok(Normal(env), tr1)
  }

  function ExecStmts(fs: seq<FunctionDecl>, w: World, ss: seq<Stmt>, env: Env, tr: Trace, fuel: nat): (r: Res<Flow>)
    ensures r.Extends(tr)
    decreases fuel, ss
  {
    if ss == [] then Ok(Normal(env), tr)
    else
      var (flow, tr1) :- ExecStmt(fs, w, ss[0], env, tr, fuel);
      if flow.Returns? then Ok(flow, tr1)
      else ExecStmts(fs, w, ss[1..], flow.env, tr1, fuel)
  }

  /** A whole run: call `main` with nothing. */
  function RunProgram(fs: seq<FunctionDecl>, w: World, fuel: nat): Res<Val> {
    var i := IndexOf(fs, MAIN);
    if i.None? then Wrong else CallFunction(fs, w, fs[i.value], [], [], fuel)
  }
}
