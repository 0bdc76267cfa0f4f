/** The result of a source run does not depend on the fuel, once there is enough. */
module Fuel {
  import opened Prelude
  import opened Bytes
  import opened Values
  import opened Syntax
  import opened RuntimeApi
  import opened Semantics

  lemma {:induction false} ExprFuel(fs: seq<FunctionDecl>, w: World, e: Expr, env: Env, tr: Trace, n: nat)
    requires !EvalExpr(fs, w, e, env, tr, n).OutOfFuel?
    ensures EvalExpr(fs, w, e, env, tr, n + 1) == EvalExpr(fs, w, e, env, tr, n)
    decreases n, e
  {
    hide ApplyUnary, ApplyBinary, CallRuntime, CallFunction;
    match e
    case Unary(_, operand, _) =>
      ExprFuel(fs, w, operand, env, tr, n);
    case Binary(_, left, right, _) =>
      ExprFuel(fs, w, left, env, tr, n);
      var a := EvalExpr(fs, w, left, env, tr, n);
      if a.Ok? {
        ExprFuel(fs, w, right, env, a.tr, n);
      }
    case Call(namespace, name, args, _, _) =>
      ArgsFuel(fs, w, args, env, tr, n);
      var a := EvalArgs(fs, w, args, env, tr, n);
      if a.Ok? && namespace.None? && IndexOf(fs, name).Some? && n > 0 {
        CallFuel(fs, w, fs[IndexOf(fs, name).value], a.value, a.tr, n - 1);
      }
    case _ =>
  }

  lemma {:induction false} ArgsFuel(fs: seq<FunctionDecl>, w: World, es: seq<Expr>, env: Env, tr: Trace, n: nat)
    requires !EvalArgs(fs, w, es, env, tr, n).OutOfFuel?
    ensures EvalArgs(fs, w, es, env, tr, n + 1) == EvalArgs(fs, w, es, env, tr, n)
    decreases n, es
  {
    hide EvalExpr;
    if es != [] {
      ExprFuel(fs, w, es[0], env, tr, n);
      var a := EvalExpr(fs, w, es[0], env, tr, n);
      if a.Ok? {
        ArgsFuel(fs, w, es[1..], env, a.tr, n);
      }
    }
  }

  lemma {:induction false} CallFuel(fs: seq<FunctionDecl>, w: World, fn: FunctionDecl, args: seq<Val>, tr: Trace, n: nat)
    requires !CallFunction(fs, w, fn, args, tr, n).OutOfFuel?
    ensures CallFunction(fs, w, fn, args, tr, n + 1) == CallFunction(fs, w, fn, args, tr, n)
    decreases n, fn
  {
    hide ExecStmts;
    if |args| == |fn.params| {
      StmtsFuel(fs, w, fn.body, [BindParams(map[], fn.params, args)], tr, n);
    }
  }

  lemma {:induction false} StmtFuel(fs: seq<FunctionDecl>, w: World, s: Stmt, env: Env, tr: Trace, n: nat)
    requires !ExecStmt(fs, w, s, env, tr, n).OutOfFuel?
    ensures ExecStmt(fs, w, s, env, tr, n + 1) == ExecStmt(fs, w, s, env, tr, n)
    decreases n, s
  {
    hide EvalExpr, ExecStmts;
    match s
    case Block(ss) =>
      StmtsFuel(fs, w, ss, env + [map[]], tr, n);
    case VarDecl(_, _, _, init, _) =>
      ExprFuel(fs, w, init, env, tr, n);
    case Assign(_, value, _) =>
      ExprFuel(fs, w, value, env, tr, n);
    case If(cond, thn, els) =>
      ExprFuel(fs, w, cond, env, tr, n);
      var c := EvalExpr(fs, w, cond, env, tr, n);
      if c.Ok? && c.value.VBool? {
        if c.value.b {
          StmtsFuel(fs, w, thn, env + [map[]], c.tr, n);
        } else if els.Some? {
          StmtFuel(fs, w, els.value, env, c.tr, n);
        }
      }
    case While(cond, body) =>
      ExprFuel(fs, w, cond, env, tr, n);
      var c := EvalExpr(fs, w, cond, env, tr, n);
      if c.Ok? && c.value.VBool? && c.value.b {
        StmtsFuel(fs, w, body, env + [map[]], c.tr, n);
        var b := LeaveScope(ExecStmts(fs, w, body, env + [map[]], c.tr, n));
        if b.Ok? && b.value.Normal? {
          StmtFuel(fs, w, s, b.value.env, b.tr, n - 1);
        }
      }
    case Return(result) =>
      if result.Some? {
        ExprFuel(fs, w, result.value, env, tr, n);
      }
    case CallStmt(call) =>
      ExprFuel(fs, w, call, env, tr, n);
  }

  lemma {:induction false} StmtsFuel(fs: seq<FunctionDecl>, w: World, ss: seq<Stmt>, env: Env, tr: Trace, n: nat)
    requires !ExecStmts(fs, w, ss, env, tr, n).OutOfFuel?
    ensures ExecStmts(fs, w, ss, env, tr, n + 1) == ExecStmts(fs, w, ss, env, tr, n)
    decreases n, ss
  {
    hide ExecStmt;
    if ss != [] {
      StmtFuel(fs, w, ss[0], env, tr, n);
      var a := ExecStmt(fs, w, ss[0], env, tr, n);
      if a.Ok? && a.value.Normal? {
        StmtsFuel(fs, w, ss[1..], a.value.env, a.tr, n);
      }
    }
  }

  /** Two fuels that are both enough give the same result. */
  lemma {:induction false} ResultIndependentOfFuel(fs: seq<FunctionDecl>, w: World, n: nat, m: nat)
    requires n <= m && !RunProgram(fs, w, n).OutOfFuel?
    ensures RunProgram(fs, w, m) == RunProgram(fs, w, n)
    decreases m
  {
    hide CallFunction;
    if n < m {
      ResultIndependentOfFuel(fs, w, n, m - 1);
      if IndexOf(fs, MAIN).Some? {
        CallFuel(fs, w, fs[IndexOf(fs, MAIN).value], [], [], m - 1);
      }
    }
  }
}
