/** A checked program never goes wrong: every operation meets values of the kinds the checker assigned. */
module TypeSoundness {
  import opened Prelude
  import opened Bytes
  import opened Floats
  import opened Values
  import opened Syntax
  import opened RuntimeApi
  import opened Semantics
  import opened CheckerSpec

  /** A Float in a program is always finite. */
  predicate HasType(v: Val, t: Type) {
    match t
    case TInt => v.VInt?
    case TFloat => v.VFloat? && IsFinite(v.f)
    case TBool => v.VBool?
    case TString => v.VString?
  }

  predicate Yields(v: Val, t: Option<Type>) {
    match t
    case None => v.VUnit? || v.VInt?
    case Some(u) => HasType(v, u)
  }

  ghost predicate ScopeTyped(declared: map<Text, Variable>, bound: map<Text, Val>) {
    && declared.Keys == bound.Keys
    && forall x :: x in declared ==> HasType(bound[x], declared[x].ty)
  }

  /** The run-time scopes bind exactly the declared names, to values of the declared types. */
  ghost predicate EnvTyped(sc: Scopes, env: Env) {
    && |sc| == |env|
    && forall k :: 0 <= k < |sc| ==> ScopeTyped(sc[k], env[k])
  }

  ghost predicate GoodProgram(fs: seq<FunctionDecl>) {
    forall fn :: fn in fs ==> CheckFunction(fs, fn).Success? && AllShaped(fn.body)
  }

  /** The errors a checked program can raise. */
  predicate Legitimate(e: Error) {
    e.Arithmetic() || e.RuntimeFailure?
  }

  ghost predicate ExprOutcome(r: Res<Val>, t: Option<Type>) {
    match r
    case Ok(v, _) => Yields(v, t)
    case Fail(e, _) => Legitimate(e)
    case OutOfFuel(_) => true
    case Wrong => false
  }

  ghost predicate AllTyped(vs: seq<Val>, ts: seq<Type>) {
    |vs| == |ts| && forall i :: 0 <= i < |vs| ==> HasType(vs[i], ts[i])
  }

  ghost predicate ArgsOutcome(r: Res<seq<Val>>, ts: seq<Type>) {
    match r
    case Ok(vs, _) => AllTyped(vs, ts)
    case Fail(e, _) => Legitimate(e)
    case OutOfFuel(_) => true
    case Wrong => false
  }

  ghost predicate FlowOutcome(r: Res<Flow>, sc: Scopes, returnType: Option<Type>, alwaysReturns: bool) {
    match r
    case Ok(Normal(env), _) => EnvTyped(sc, env) && !alwaysReturns
    case Ok(Returns(v), _) => Yields(v, returnType)
    case Fail(e, _) => Legitimate(e)
    case OutOfFuel(_) => true
    case Wrong => false
  }

  lemma SameLevel(sc: Scopes, env: Env, x: Text)
    requires EnvTyped(sc, env)
    ensures FindLevel(sc, x) == FindLevel(env, x)
  {
    if sc != [] {
      var n := |sc| - 1;
      assert ScopeTyped(sc[n], env[n]);
      SameLevel(sc[..n], env[..n], x);
    }
  }

  lemma UnarySound(op: UnaryOp, v: Val, t: Type, tr: Trace)
    requires HasType(v, t) && UnaryType(op, t).Some?
    ensures ExprOutcome(ApplyUnary(op, v, tr), UnaryType(op, t))
  {
    if v.VFloat? {
      NegateFinite(v.f);
    }
  }

  lemma BinarySound(w: World, op: BinaryOp, a: Val, b: Val, s: Type, t: Type, tr: Trace)
    requires HasType(a, s) && HasType(b, t) && BinaryType(op, s, t).Some?
    ensures ExprOutcome(ApplyBinary(w, op, a, b, tr), BinaryType(op, s, t))
  {
  }

  lemma RuntimeArgs(vs: seq<Val>, ts: seq<Type>)
    requires AllTyped(vs, ts)
    requires forall t :: t in ts ==> t == TString
    ensures AllToRuntime(vs).Some?
  {
    if vs != [] {
      assert ts[0] in ts;
      assert AllTyped(vs[1..], ts[1..]);
      assert forall t :: t in ts[1..] ==> t in ts;
      RuntimeArgs(vs[1..], ts[1..]);
    }
  }

  lemma RuntimeCallSound(w: World, name: Text, vs: seq<Val>, tr: Trace)
    requires KeepsSignatures(w)
    requires SignatureOf(name).Some? && AllTyped(vs, SignatureOf(name).value.params)
    ensures ExprOutcome(CallRuntime(w, name, vs, tr), SignatureOf(name).value.result)
  {
    CompilerTableIsImplemented(name);
    RuntimeArgs(vs, SignatureOf(name).value.params);
    var ev := Event(name, AllToRuntime(vs).value);
    assert w.runtime(tr, ev).Returned? ==> ReplyMatches(SignatureOf(ev.name).value.result, w.runtime(tr, ev).value);
  }

  lemma {:induction false} ExprSound(fs: seq<FunctionDecl>, w: World, sc: Scopes, e: Expr, env: Env, tr: Trace, fuel: nat)
    requires GoodProgram(fs) && KeepsSignatures(w)
    requires CheckExpr(fs, sc, e).Success? && EnvTyped(sc, env)
    ensures ExprOutcome(EvalExpr(fs, w, e, env, tr, fuel), TypeOf(CheckExpr(fs, sc, e).value))
    decreases fuel, e
  {
    match e
    case VarRef(x, _, _) =>
      SameLevel(sc, env, x);
      var k := FindLevel(sc, x).value;
      assert ScopeTyped(sc[k], env[k]);
    case Unary(op, operand, _) =>
      ExprSound(fs, w, sc, operand, env, tr, fuel);
      var r := EvalExpr(fs, w, operand, env, tr, fuel);
      if r.Ok? {
        UnarySound(op, r.value, TypeOf(CheckExpr(fs, sc, operand).value).value, r.tr);
      }
    case Binary(op, left, right, _) =>
      ExprSound(fs, w, sc, left, env, tr, fuel);
      var r := EvalExpr(fs, w, left, env, tr, fuel);
      if r.Ok? {
        ExprSound(fs, w, sc, right, env, r.tr, fuel);
        var q := EvalExpr(fs, w, right, env, r.tr, fuel);
        if q.Ok? {
          BinarySound(w, op, r.value, q.value, TypeOf(CheckExpr(fs, sc, left).value).value,
                      TypeOf(CheckExpr(fs, sc, right).value).value, q.tr);
        }
      }
    case Call(ns, name, args, _, _) =>
      CallSound(fs, w, sc, e, env, tr, fuel);
    case _ =>
  }

  lemma {:induction false} CallSound(fs: seq<FunctionDecl>, w: World, sc: Scopes, e: Expr, env: Env, tr: Trace, fuel: nat)
    requires GoodProgram(fs) && KeepsSignatures(w)
    requires e.Call? && CheckExpr(fs, sc, e).Success? && EnvTyped(sc, env)
    ensures ExprOutcome(EvalExpr(fs, w, e, env, tr, fuel), TypeOf(CheckExpr(fs, sc, e).value))
    decreases fuel, e, 0
  {
    hide CheckArgs, EvalArgs, CallRuntime, CallFunction, SignatureOf, EnvTyped;
    var ts := CallParamTypes(fs, e);
    ArgsSound(fs, w, sc, e.args, ts, env, tr, fuel);
    var r := EvalArgs(fs, w, e.args, env, tr, fuel);
    if r.Ok? {
      if e.namespace.Some? {
        RuntimeCallSound(w, QualifiedName(e.namespace.value, e.name), r.value, r.tr);
      } else if fuel > 0 {
        var fn := fs[IndexOf(fs, e.name).value];
        FunctionSound(fs, w, fn, r.value, r.tr, fuel - 1);
      }
    }
  }

  function CallParamTypes(fs: seq<FunctionDecl>, e: Expr): seq<Type>
    requires e.Call?
    requires e.namespace.Some? ==> SignatureOf(QualifiedName(e.namespace.value, e.name)).Some?
    requires e.namespace.None? ==> IndexOf(fs, e.name).Some?
  {
    if e.namespace.Some? then SignatureOf(QualifiedName(e.namespace.value, e.name)).value.params
    else ParamTypes(fs[IndexOf(fs, e.name).value].params)
  }

  lemma {:induction false} ArgsSound(fs: seq<FunctionDecl>, w: World, sc: Scopes, es: seq<Expr>, ts: seq<Type>, env: Env, tr: Trace, fuel: nat)
    requires GoodProgram(fs) && KeepsSignatures(w)
    requires |es| == |ts| && CheckArgs(fs, sc, es, ts).Success? && EnvTyped(sc, env)
    ensures ArgsOutcome(EvalArgs(fs, w, es, env, tr, fuel), ts)
    decreases fuel, es
  {
    if es != [] {
      ExprSound(fs, w, sc, es[0], env, tr, fuel);
      var r := EvalExpr(fs, w, es[0], env, tr, fuel);
      if r.Ok? {
        ArgsSound(fs, w, sc, es[1..], ts[1..], env, r.tr, fuel);
        var q := EvalArgs(fs, w, es[1..], env, r.tr, fuel);
        if q.Ok? {
          assert forall i :: 0 < i < |es| ==> ([r.value] + q.value)[i] == q.value[i - 1] && ts[i] == ts[1..][i - 1];
        }
      }
    }
  }

  lemma {:induction false} ParamsTyped(n: nat, st: State, scope: map<Text, Val>, ps: seq<Param>, args: seq<Val>)
    requires |st.scopes| == 1 && DeclareParams(n, st, ps).Success?
    requires EnvTyped(st.scopes, [scope])
    requires AllTyped(args, ParamTypes(ps))
    ensures EnvTyped(DeclareParams(n, st, ps).value.scopes, [BindParams(scope, ps, args)])
    decreases ps
  {
    if ps != [] {
      var st1 := Declare(n, st, ps[0].name, ps[0].ty, PARAM).value;
      assert ScopeTyped(st.scopes[0], [scope][0]);
      assert HasType(args[0], ParamTypes(ps)[0]);
      assert AllTyped(args[1..], ParamTypes(ps[1..])) by {
        assert forall i :: 0 <= i < |ps| - 1 ==> ParamTypes(ps)[i + 1] == ParamTypes(ps[1..])[i];
      }
      ParamsTyped(n, st1, scope[ps[0].name := args[0]], ps[1..], args[1..]);
    }
  }

  lemma {:induction false} FunctionSound(fs: seq<FunctionDecl>, w: World, fn: FunctionDecl, args: seq<Val>, tr: Trace, fuel: nat)
    requires GoodProgram(fs) && KeepsSignatures(w)
    requires fn in fs && AllTyped(args, ParamTypes(fn.params))
    ensures ExprOutcome(CallFunction(fs, w, fn, args, tr, fuel), fn.returnType)
    decreases fuel, fn
  {
    var st := DeclareParams(|fn.params|, State([map[]], 0), fn.params).value;
    ParamsTyped(|fn.params|, State([map[]], 0), map[], fn.params, args);
    StmtsSound(fs, w, fn, st, fn.body, [BindParams(map[], fn.params, args)], tr, fuel);
  }

  lemma DeclareTyped(n: nat, st: State, env: Env, x: Text, v: Val, t: Type, kind: VarKind)
    requires st.scopes != [] && EnvTyped(st.scopes, env) && HasType(v, t)
    requires Declare(n, st, x, t, kind).Success?
    ensures var top := |env| - 1;
            EnvTyped(Declare(n, st, x, t, kind).value.scopes, env[top := env[top][x := v]])
  {
    assert ScopeTyped(st.scopes[|env| - 1], env[|env| - 1]);
  }

  lemma AssignTyped(sc: Scopes, env: Env, x: Text, v: Val, k: nat)
    requires EnvTyped(sc, env) && k < |sc| && x in sc[k] && HasType(v, sc[k][x].ty)
    ensures EnvTyped(sc, env[k := env[k][x := v]])
  {
    assert ScopeTyped(sc[k], env[k]);
    assert sc[k].Keys == env[k].Keys + {x};
  }

  /** Opening a block around a statement list and closing it again. */
  lemma {:induction false} BlockSound(fs: seq<FunctionDecl>, w: World, fn: FunctionDecl, st: State, ss: seq<Stmt>, env: Env, tr: Trace, fuel: nat)
    requires GoodProgram(fs) && KeepsSignatures(w)
    requires st.scopes != [] && AllShaped(ss)
    requires CheckStmts(fs, fn, OpenScope(st), ss).Success? && EnvTyped(st.scopes, env)
    ensures FlowOutcome(LeaveScope(ExecStmts(fs, w, ss, env + [map[]], tr, fuel)), st.scopes, fn.returnType, AnyReturns(ss))
    decreases fuel, ss, 1
  {
    var open := OpenScope(st);
    assert EnvTyped(open.scopes, env + [map[]]) by {
      assert forall k :: 0 <= k < |env| ==> open.scopes[k] == st.scopes[k] && (env + [map[]])[k] == env[k];
    }
    StmtsSound(fs, w, fn, open, ss, env + [map[]], tr, fuel);
    var after := CheckStmts(fs, fn, open, ss).value.1;
    assert after.scopes[..|st.scopes|] == open.scopes[..|st.scopes|] == st.scopes;
    var r := ExecStmts(fs, w, ss, env + [map[]], tr, fuel);
    if r.Ok? && r.value.Normal? {
      var inner := r.value.env;
      forall k | 0 <= k < |st.scopes| ensures ScopeTyped(st.scopes[k], inner[..|inner| - 1][k]) {
        assert ScopeTyped(after.scopes[k], inner[k]);
        assert after.scopes[k] == after.scopes[..|st.scopes|][k];
      }
    }
  }

  lemma {:induction false} StmtSound(fs: seq<FunctionDecl>, w: World, fn: FunctionDecl, st: State, s: Stmt, env: Env, tr: Trace, fuel: nat)
    requires GoodProgram(fs) && KeepsSignatures(w)
    requires st.scopes != [] && WellShaped(s)
    requires CheckStmt(fs, fn, st, s).Success? && EnvTyped(st.scopes, env)
    ensures FlowOutcome(ExecStmt(fs, w, s, env, tr, fuel), CheckStmt(fs, fn, st, s).value.1.scopes, fn.returnType, AlwaysReturns(s))
    decreases fuel, s
  {
    hide EvalExpr, ExecStmts, CheckExpr, CheckStmts, LeaveScope;
    match s
    case Block(ss) =>
      BlockSound(fs, w, fn, st, ss, env, tr, fuel);
    case VarDecl(isConst, x, _, init, _) =>
      ExprSound(fs, w, st.scopes, init, env, tr, fuel);
      var r := EvalExpr(fs, w, init, env, tr, fuel);
      if r.Ok? {
        var t := TypeOf(CheckExpr(fs, st.scopes, init).value).value;
        DeclareTyped(|fn.params|, st, env, x, r.value, t, if isConst then CONST else LET);
      }
    case Assign(x, value, _) =>
      ExprSound(fs, w, st.scopes, value, env, tr, fuel);
      SameLevel(st.scopes, env, x);
      var r := EvalExpr(fs, w, value, env, tr, fuel);
      if r.Ok? {
        AssignTyped(st.scopes, env, x, r.value, FindLevel(st.scopes, x).value);
      }
    case If(cond, thn, els) =>
      ExprSound(fs, w, st.scopes, cond, env, tr, fuel);
      var r := EvalExpr(fs, w, cond, env, tr, fuel);
      if r.Ok? {
        BlockSound(fs, w, fn, st, thn, env, r.tr, fuel);
        if els.Some? {
          var st1 := CloseScope(CheckStmts(fs, fn, OpenScope(st), thn).value.1);
          assert st1.scopes == st.scopes;
          StmtSound(fs, w, fn, st1, els.value, env, r.tr, fuel);
        }
      }
    case While(cond, body) =>
      WhileSound(fs, w, fn, st, s, env, tr, fuel);
    case Return(result) =>
      if result.Some? {
        ExprSound(fs, w, st.scopes, result.value, env, tr, fuel);
      }
    case CallStmt(call) =>
      ExprSound(fs, w, st.scopes, call, env, tr, fuel);
  }

  lemma {:induction false} WhileSound(fs: seq<FunctionDecl>, w: World, fn: FunctionDecl, st: State, s: Stmt, env: Env, tr: Trace, fuel: nat)
    requires GoodProgram(fs) && KeepsSignatures(w)
    requires st.scopes != [] && s.While? && WellShaped(s)
    requires CheckStmt(fs, fn, st, s).Success? && EnvTyped(st.scopes, env)
    ensures FlowOutcome(ExecStmt(fs, w, s, env, tr, fuel), st.scopes, fn.returnType, false)
    decreases fuel, s, 0
  {
    if fuel > 0 {
      ExprSound(fs, w, st.scopes, s.cond, env, tr, fuel);
      var r := EvalExpr(fs, w, s.cond, env, tr, fuel);
      if r.Ok? && r.value.b {
        BlockSound(fs, w, fn, st, s.body, env, r.tr, fuel);
        var q := LeaveScope(ExecStmts(fs, w, s.body, env + [map[]], r.tr, fuel));
        if q.Ok? && q.value.Normal? {
          WhileSound(fs, w, fn, st, s, q.value.env, q.tr, fuel - 1);
        }
      }
    }
  }

  lemma {:induction false} StmtsSound(fs: seq<FunctionDecl>, w: World, fn: FunctionDecl, st: State, ss: seq<Stmt>, env: Env, tr: Trace, fuel: nat)
    requires GoodProgram(fs) && KeepsSignatures(w)
    requires st.scopes != [] && AllShaped(ss)
    requires CheckStmts(fs, fn, st, ss).Success? && EnvTyped(st.scopes, env)
    ensures FlowOutcome(ExecStmts(fs, w, ss, env, tr, fuel), CheckStmts(fs, fn, st, ss).value.1.scopes, fn.returnType, AnyReturns(ss))
    decreases fuel, ss, 0
  {
    if ss != [] {
      StmtSound(fs, w, fn, st, ss[0], env, tr, fuel);
      var r := ExecStmt(fs, w, ss[0], env, tr, fuel);
      if r.Ok? && r.value.Normal? {
        StmtsSound(fs, w, fn, CheckStmt(fs, fn, st, ss[0]).value.1, ss[1..], r.value.env, r.tr, fuel);
      }
    }
  }

  /** No checked program goes wrong, with any fuel: a run yields a value of main's type or a legitimate error. */
  lemma CheckedProgramsDoNotGoWrong(fs: seq<FunctionDecl>, w: World, fuel: nat)
    requires CheckProgram(fs).Success? && KeepsSignatures(w)
    requires forall fn :: fn in fs ==> AllShaped(fn.body)
    ensures GoodProgram(fs)
    ensures ExprOutcome(RunProgram(fs, w, fuel), fs[IndexOf(fs, MAIN).value].returnType)
  {
    forall fn | fn in fs ensures CheckFunction(fs, fn).Success? {
      var i :| 0 <= i < |fs| && fs[i] == fn;
      assert CheckFunction(fs, fs[i]) == Success(CheckFunctions(fs, fs).value[i]);
    }
    FunctionSound(fs, w, fs[IndexOf(fs, MAIN).value], [], [], fuel);
  }
}
