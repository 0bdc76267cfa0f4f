/** Constants and parameters: in every run they keep the value they were bound to until their scope ends. */
module Constants {
  import opened Prelude
  import opened Bytes
  import opened Values
  import opened Syntax
  import opened RuntimeApi
  import opened Semantics
  import opened CheckerSpec
  import opened TypeSoundness

  /** What is declared as a constant or a parameter has the same value in both environments. */
  ghost predicate Kept(sc: Scopes, env: Env, env': Env) {
    |env| >= |sc| && |env'| >= |sc|
    && forall k, x :: 0 <= k < |sc| && x in sc[k] && sc[k][x].kind != LET ==> x in env[k] && x in env'[k] && env'[k][x] == env[k][x]
  }

  /** Every variable that was visible is still declared as it was. */
  ghost predicate Extended(sc: Scopes, sc': Scopes) {
    |sc| == |sc'| && forall k, x :: 0 <= k < |sc| && x in sc[k] ==> x in sc'[k] && sc'[k][x] == sc[k][x]
  }

  lemma KeptHere(sc: Scopes, env: Env)
    requires EnvTyped(sc, env)
    ensures Kept(sc, env, env)
  {
    forall k, x | 0 <= k < |sc| && x in sc[k] ensures x in env[k] {
      assert ScopeTyped(sc[k], env[k]);
    }
  }

  lemma KeptOn(sc: Scopes, sc1: Scopes, a: Env, b: Env, c: Env)
    requires Extended(sc, sc1) && Kept(sc, a, b) && Kept(sc1, b, c)
    ensures Kept(sc, a, c)
  {
    forall k, x | 0 <= k < |sc| && x in sc[k] && sc[k][x].kind != LET ensures x in a[k] && x in c[k] && c[k][x] == a[k][x] {
      assert sc1[k][x] == sc[k][x];
    }
  }

  lemma StmtExtends(fs: seq<FunctionDecl>, fn: FunctionDecl, st: State, s: Stmt)
    requires st.scopes != [] && WellShaped(s) && CheckStmt(fs, fn, st, s).Success?
    ensures Extended(st.scopes, CheckStmt(fs, fn, st, s).value.1.scopes)
  {
    hide CheckStmts, CheckExpr;
  }

  /** A new name in the innermost scope disturbs nothing. */
  lemma DeclareKeeps(sc: Scopes, env: Env, x: Text, v: Val)
    requires sc != [] && EnvTyped(sc, env) && x !in sc[|sc| - 1]
    ensures var top := |env| - 1; Kept(sc, env, env[top := env[top][x := v]])
  {
    hide EnvTyped;
    KeptHere(sc, env);
    SameCount(sc, env);
  }

  lemma SameCount(sc: Scopes, env: Env)
    requires EnvTyped(sc, env)
    ensures |sc| == |env|
  {
  }

  /** Only a `let` variable is assigned to. */
  lemma AssignKeeps(sc: Scopes, env: Env, x: Text, v: Val, k: nat)
    requires EnvTyped(sc, env) && k < |sc| && x in sc[k] && sc[k][x].kind == LET
    ensures Kept(sc, env, env[k := env[k][x := v]])
  {
    hide EnvTyped;
    KeptHere(sc, env);
    SameCount(sc, env);
  }

  lemma {:induction false} StmtKeeps(fs: seq<FunctionDecl>, w: World, fn: FunctionDecl, st: State, s: Stmt, env: Env, tr: Trace, fuel: nat)
    requires GoodProgram(fs) && KeepsSignatures(w)
    requires st.scopes != [] && WellShaped(s)
    requires CheckStmt(fs, fn, st, s).Success? && EnvTyped(st.scopes, env)
    ensures var r := ExecStmt(fs, w, s, env, tr, fuel); r.Ok? && r.value.Normal? ==> Kept(st.scopes, env, r.value.env)
    decreases fuel, s
  {
    hide EvalExpr, ExecStmts, CheckExpr, CheckStmts, LeaveScope, Kept, EnvTyped, KeepsSignatures, GoodProgram, FindLevel;
    KeptHere(st.scopes, env);
    match s
    case Block(ss) => BlockKeeps(fs, w, fn, st, ss, env, tr, fuel);
    case VarDecl(_, x, _, init, _) =>
      var r := EvalExpr(fs, w, init, env, tr, fuel);
      if r.Ok? {
        DeclareKeeps(st.scopes, env, x, r.value);
      }
    case Assign(x, value, _) =>
      SameLevel(st.scopes, env, x);
      var r := EvalExpr(fs, w, value, env, tr, fuel);
      if r.Ok? {
        AssignKeeps(st.scopes, env, x, r.value, FindLevel(st.scopes, x).value);
      }
    case If(cond, thn, els) =>
      var r := EvalExpr(fs, w, cond, env, tr, fuel);
      if r.Ok? {
        BlockKeeps(fs, w, fn, st, thn, env, r.tr, fuel);
        if els.Some? {
          var inner := CheckStmts(fs, fn, OpenScope(st), thn).value.1;
          BlockCloses(st, inner);
          StmtKeeps(fs, w, fn, CloseScope(inner), els.value, env, r.tr, fuel);
        }
      }
    case While(_, _) => WhileKeeps(fs, w, fn, st, s, env, tr, fuel);
    case _ =>
  }

  lemma {:induction false} WhileKeeps(fs: seq<FunctionDecl>, w: World, fn: FunctionDecl, st: State, s: Stmt, env: Env, tr: Trace, fuel: nat)
    requires GoodProgram(fs) && KeepsSignatures(w)
    requires st.scopes != [] && s.While? && WellShaped(s)
    requires CheckStmt(fs, fn, st, s).Success? && EnvTyped(st.scopes, env)
    ensures var r := ExecStmt(fs, w, s, env, tr, fuel); r.Ok? && r.value.Normal? ==> Kept(st.scopes, env, r.value.env)
    decreases fuel, s, 0
  {
    hide EvalExpr, ExecStmts, CheckExpr, CheckStmts, LeaveScope, Kept, EnvTyped, KeepsSignatures, GoodProgram;
    KeptHere(st.scopes, env);
    if fuel > 0 {
      var r := EvalExpr(fs, w, s.cond, env, tr, fuel);
      if r.Ok? && r.value.VBool? && r.value.b {
        BlockKeeps(fs, w, fn, st, s.body, env, r.tr, fuel);
        BlockSound(fs, w, fn, st, s.body, env, r.tr, fuel);
        var q := LeaveScope(ExecStmts(fs, w, s.body, env + [map[]], r.tr, fuel));
        if q.Ok? && q.value.Normal? {
          WhileKeeps(fs, w, fn, st, s, q.value.env, q.tr, fuel - 1);
          var z := ExecStmt(fs, w, s, q.value.env, q.tr, fuel - 1);
          if z.Ok? && z.value.Normal? {
            ExtendedSame(st.scopes);
            KeptOn(st.scopes, st.scopes, env, q.value.env, z.value.env);
          }
        }
      }
    }
  }

  lemma ExtendedSame(sc: Scopes)
    ensures Extended(sc, sc)
  {
  }

  lemma {:induction false} BlockKeeps(fs: seq<FunctionDecl>, w: World, fn: FunctionDecl, st: State, ss: seq<Stmt>, env: Env, tr: Trace, fuel: nat)
    requires GoodProgram(fs) && KeepsSignatures(w)
    requires st.scopes != [] && AllShaped(ss)
    requires CheckStmts(fs, fn, OpenScope(st), ss).Success? && EnvTyped(st.scopes, env)
    ensures var r := LeaveScope(ExecStmts(fs, w, ss, env + [map[]], tr, fuel)); r.Ok? && r.value.Normal? ==> Kept(st.scopes, env, r.value.env)
    decreases fuel, ss, 1
  {
    hide CheckStmts, ExecStmts, KeepsSignatures, GoodProgram;
    var open := OpenScope(st);
    OpenTyped(st, env);
    StmtsKeep(fs, w, fn, open, ss, env + [map[]], tr, fuel);
    StmtsSound(fs, w, fn, open, ss, env + [map[]], tr, fuel);
    var r := ExecStmts(fs, w, ss, env + [map[]], tr, fuel);
    if r.Ok? && r.value.Normal? {
      SameCount(st.scopes, env);
      SameCount(CheckStmts(fs, fn, open, ss).value.1.scopes, r.value.env);
      InnerKept(st.scopes, env, r.value.env);
    }
  }

  lemma OpenTyped(st: State, env: Env)
    requires EnvTyped(st.scopes, env)
    ensures EnvTyped(OpenScope(st).scopes, env + [map[]])
  {
    var open := OpenScope(st);
    forall k | 0 <= k < |open.scopes| ensures ScopeTyped(open.scopes[k], (env + [map[]])[k]) {
      if k < |env| {
        assert ScopeTyped(st.scopes[k], env[k]);
      }
    }
  }

  lemma InnerKept(sc: Scopes, env: Env, inner: Env)
    requires |env| == |sc| && |inner| == |sc| + 1 && Kept(sc + [map[]], env + [map[]], inner)
    ensures Kept(sc, env, inner[..|inner| - 1])
  {
    forall k, x | 0 <= k < |sc| && x in sc[k] && sc[k][x].kind != LET ensures x in env[k] && x in inner[k] && inner[k][x] == env[k][x] {
      assert (sc + [map[]])[k] == sc[k] && (env + [map[]])[k] == env[k];
    }
  }

  lemma {:induction false} StmtsKeep(fs: seq<FunctionDecl>, w: World, fn: FunctionDecl, st: State, ss: seq<Stmt>, env: Env, tr: Trace, fuel: nat)
    requires GoodProgram(fs) && KeepsSignatures(w)
    requires st.scopes != [] && AllShaped(ss)
    requires CheckStmts(fs, fn, st, ss).Success? && EnvTyped(st.scopes, env)
    ensures var r := ExecStmts(fs, w, ss, env, tr, fuel); r.Ok? && r.value.Normal? ==> Kept(st.scopes, env, r.value.env)
    decreases fuel, ss, 0
  {
    hide CheckStmt, ExecStmt, Kept, Extended, EnvTyped, KeepsSignatures, GoodProgram;
    if ss == [] {
      KeptHere(st.scopes, env);
    } else {
      StmtKeeps(fs, w, fn, st, ss[0], env, tr, fuel);
      StmtSound(fs, w, fn, st, ss[0], env, tr, fuel);
      StmtExtends(fs, fn, st, ss[0]);
      var r := ExecStmt(fs, w, ss[0], env, tr, fuel);
      if r.Ok? && r.value.Normal? {
        var st1 := CheckStmt(fs, fn, st, ss[0]).value.1;
        StmtsKeep(fs, w, fn, st1, ss[1..], r.value.env, r.tr, fuel);
        var q := ExecStmts(fs, w, ss[1..], r.value.env, r.tr, fuel);
        if q.Ok? && q.value.Normal? {
          KeptOn(st.scopes, st1.scopes, env, r.value.env, q.value.env);
        }
      }
    }
  }

  // ---- In the terms of the source ----

  lemma {:induction false} PrefixChecked(fs: seq<FunctionDecl>, fn: FunctionDecl, st: State, ss: seq<Stmt>, i: nat)
    requires st.scopes != [] && CheckStmts(fs, fn, st, ss).Success? && AllShaped(ss) && i <= |ss|
    ensures CheckStmts(fs, fn, st, ss[..i]).Success? && AllShaped(ss[..i])
    decreases ss
  {
    hide CheckStmt, WellShaped;
    if i > 0 {
      var st1 := CheckStmt(fs, fn, st, ss[0]).value.1;
      PrefixChecked(fs, fn, st1, ss[1..], i - 1);
      assert ss[..i][0] == ss[0] && ss[..i][1..] == ss[1..][..i - 1];
    }
  }

  /**
    A `const` keeps its value: in a checked list of statements that starts with its declaration, after any
    number of the statements behind it, whatever they are, it is bound to what it was declared with.
   */
  lemma ConstantsStay(fs: seq<FunctionDecl>, w: World, fn: FunctionDecl, st: State, ss: seq<Stmt>, i: nat, env: Env, tr: Trace, fuel: nat)
    requires GoodProgram(fs) && KeepsSignatures(w)
    requires st.scopes != [] && AllShaped(ss) && CheckStmts(fs, fn, st, ss).Success? && EnvTyped(st.scopes, env)
    requires ss != [] && ss[0].VarDecl? && ss[0].isConst && 0 < i <= |ss|
    ensures var v, r := EvalExpr(fs, w, ss[0].init, env, tr, fuel), ExecStmts(fs, w, ss[..i], env, tr, fuel);
            r.Ok? && r.value.Normal? ==>
              v.Ok? && |r.value.env| == |env| && ss[0].name in r.value.env[|env| - 1] && r.value.env[|env| - 1][ss[0].name] == v.value
  {
    hide EvalExpr, CheckExpr, KeepsSignatures, GoodProgram;
    PrefixChecked(fs, fn, st, ss, i);
    var d, rest := ss[0], ss[..i][1..];
    assert ss[..i][0] == d;
    SameCount(st.scopes, env);
    StmtSound(fs, w, fn, st, d, env, tr, fuel);
    var st1, r := CheckStmt(fs, fn, st, d).value.1, ExecStmt(fs, w, d, env, tr, fuel);
    if r.Ok? && r.value.Normal? {
      StmtsKeep(fs, w, fn, st1, rest, r.value.env, r.tr, fuel);
      StmtsSound(fs, w, fn, st1, rest, r.value.env, r.tr, fuel);
      var q := ExecStmts(fs, w, rest, r.value.env, r.tr, fuel);
      if q.Ok? && q.value.Normal? {
        SameCount(CheckStmts(fs, fn, st1, rest).value.1.scopes, q.value.env);
        assert st1.scopes[|env| - 1][d.name].kind == CONST;
      }
    }
  }

  lemma {:induction false} ParamsBound(scope: map<Text, Val>, ps: seq<Param>, args: seq<Val>, j: nat)
    requires |ps| == |args| && j < |ps| && forall i, k :: 0 <= i < k < |ps| ==> ps[i].name != ps[k].name
    ensures ps[j].name in BindParams(scope, ps, args) && BindParams(scope, ps, args)[ps[j].name] == args[j]
    decreases ps
  {
    if j > 0 {
      ParamsBound(scope[ps[0].name := args[0]], ps[1..], args[1..], j - 1);
    } else {
      BoundBefore(scope[ps[0].name := args[0]], ps[1..], args[1..], ps[0].name);
    }
  }

  lemma {:induction false} BoundBefore(scope: map<Text, Val>, ps: seq<Param>, args: seq<Val>, x: Text)
    requires |ps| == |args| && x in scope && forall i :: 0 <= i < |ps| ==> ps[i].name != x
    ensures x in BindParams(scope, ps, args) && BindParams(scope, ps, args)[x] == scope[x]
    decreases ps
  {
    if ps != [] {
      BoundBefore(scope[ps[0].name := args[0]], ps[1..], args[1..], x);
    }
  }

  /** Declared parameters have different names, and are parameters. */
  lemma {:induction false} ParamsDeclared(n: nat, st: State, ps: seq<Param>)
    requires |st.scopes| == 1 && DeclareParams(n, st, ps).Success?
    ensures |DeclareParams(n, st, ps).value.scopes| == 1
    ensures forall x :: x in st.scopes[0] ==> x in DeclareParams(n, st, ps).value.scopes[0] && DeclareParams(n, st, ps).value.scopes[0][x] == st.scopes[0][x]
    ensures forall i :: 0 <= i < |ps| ==> ps[i].name !in st.scopes[0] && ps[i].name in DeclareParams(n, st, ps).value.scopes[0]
                                          && DeclareParams(n, st, ps).value.scopes[0][ps[i].name].kind == PARAM
    ensures forall i, j :: 0 <= i < j < |ps| ==> ps[i].name != ps[j].name
    decreases ps
  {
    if ps != [] {
      var st1 := Declare(n, st, ps[0].name, ps[0].ty, PARAM).value;
      ParamsDeclared(n, st1, ps[1..]);
      assert ps[0].name in st1.scopes[0] && st1.scopes[0][ps[0].name].kind == PARAM;
      forall i, j | 0 <= i < j < |ps| ensures ps[i].name != ps[j].name {
        assert ps[j] == ps[1..][j - 1] && (i > 0 ==> ps[i] == ps[1..][i - 1]);
      }
      forall i | 0 <= i < |ps| ensures ps[i].name !in st.scopes[0] && ps[i].name in DeclareParams(n, st, ps).value.scopes[0]
                                       && DeclareParams(n, st, ps).value.scopes[0][ps[i].name].kind == PARAM {
        assert i > 0 ==> ps[i] == ps[1..][i - 1];
      }
    }
  }

  /** A parameter is bound to its argument wherever the body has got to. */
  lemma ParametersStay(fs: seq<FunctionDecl>, w: World, fn: FunctionDecl, args: seq<Val>, i: nat, j: nat, tr: Trace, fuel: nat)
    requires GoodProgram(fs) && KeepsSignatures(w) && fn in fs && AllTyped(args, ParamTypes(fn.params))
    requires i <= |fn.body| && j < |args|
    ensures var r := ExecStmts(fs, w, fn.body[..i], [BindParams(map[], fn.params, args)], tr, fuel);
            r.Ok? && r.value.Normal? ==> |r.value.env| >= 1 && fn.params[j].name in r.value.env[0] && r.value.env[0][fn.params[j].name] == args[j]
  {
    hide ExecStmts, CheckStmts, KeepsSignatures, DeclareParams, BindParams;
    var st0 := State([map[]], 0);
    var st, env := DeclareParams(|fn.params|, st0, fn.params).value, [BindParams(map[], fn.params, args)];
    ParamsDeclared(|fn.params|, st0, fn.params);
    ParamsTyped(|fn.params|, st0, map[], fn.params, args);
    ParamsBound(map[], fn.params, args, j);
    PrefixChecked(fs, fn, st, fn.body, i);
    StmtsKeep(fs, w, fn, st, fn.body[..i], env, tr, fuel);
  }

  // ---- What the checker says ----

  /** An assignment to a constant behind its declaration is refused as such, whatever is assigned. */
  lemma AssignToConstRefused(fs: seq<FunctionDecl>, fn: FunctionDecl, st: State, d: Stmt, value: Expr, slot: int)
    requires st.scopes != [] && d.VarDecl? && d.isConst && CheckStmt(fs, fn, st, d).Success?
    ensures CheckStmt(fs, fn, CheckStmt(fs, fn, st, d).value.1, Assign(d.name, value, slot)) == Failure(AssignToConst)
  {
    hide CheckExpr;
    var sc := CheckStmt(fs, fn, st, d).value.1.scopes;
    assert d.name in sc[|sc| - 1];
    assert Lookup(sc, d.name) == Some(sc[|sc| - 1][d.name]);
  }

  /** And so is an assignment to a parameter. */
  lemma AssignToParameterRefused(fs: seq<FunctionDecl>, fn: FunctionDecl, j: nat, value: Expr, slot: int)
    requires DeclareParams(|fn.params|, State([map[]], 0), fn.params).Success? && j < |fn.params|
    ensures CheckStmt(fs, fn, DeclareParams(|fn.params|, State([map[]], 0), fn.params).value, Assign(fn.params[j].name, value, slot)) == Failure(AssignToParameter)
  {
    hide CheckExpr, DeclareParams;
    ParamsDeclared(|fn.params|, State([map[]], 0), fn.params);
    var sc := DeclareParams(|fn.params|, State([map[]], 0), fn.params).value.scopes;
    assert Lookup(sc, fn.params[j].name) == Some(sc[0][fn.params[j].name]);
  }
}
