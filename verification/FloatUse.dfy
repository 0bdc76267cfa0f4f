/** Which bytecode version a program gets: version 2 exactly if its source says `Float` or has a Float literal. */
module FloatUse {
  import opened Prelude
  import opened Bytes
  import opened Syntax
  import opened RuntimeApi
  import opened CheckerSpec
  import opened CodeGenSpec
  import opened FileFormat
  import opened Toolchain
  import B = Bytecode

  // ---- What the source says ----

  predicate Literal(e: Expr) {
    match e
    case FloatLit(_) => true
    case Unary(_, operand, _) => Literal(operand)
    case Binary(_, left, right, _) => Literal(left) || Literal(right)
    case Call(_, _, args, _, _) => AnyLiteral(args)
    case _ => false
  }

  predicate AnyLiteral(es: seq<Expr>) {
    es != [] && (Literal(es[0]) || AnyLiteral(es[1..]))
  }

  predicate Mentions(s: Stmt) {
    match s
    case Block(ss) => AnyMentions(ss)
    case VarDecl(_, _, declared, init, _) => declared == Some(TFloat) || Literal(init)
    case Assign(_, value, _) => Literal(value)
    case If(cond, thn, els) => Literal(cond) || AnyMentions(thn) || (els.Some? && Mentions(els.value))
    case While(cond, body) => Literal(cond) || AnyMentions(body)
    case Return(result) => result.Some? && Literal(result.value)
    case CallStmt(call) => Literal(call)
  }

  predicate AnyMentions(ss: seq<Stmt>) {
    ss != [] && (Mentions(ss[0]) || AnyMentions(ss[1..]))
  }

  predicate FunctionMentions(fn: FunctionDecl) {
    fn.returnType == Some(TFloat) || (exists i :: 0 <= i < |fn.params| && fn.params[i].ty == TFloat) || AnyMentions(fn.body)
  }

  // ---- Where Floats come from ----

  /** No function yields a Float. */
  predicate NoneYields(fs: seq<FunctionDecl>) {
    forall i :: 0 <= i < |fs| ==> fs[i].returnType != Some(TFloat)
  }

  predicate NoneVisible(sc: Scopes) {
    forall k, x :: 0 <= k < |sc| && x in sc[k] ==> sc[k][x].ty != TFloat
  }

  /** An expression is of type Float, or has a part that is, only if it has a Float literal, a Float variable or a Float call. */
  lemma {:induction false} ExprFloats(fs: seq<FunctionDecl>, sc: Scopes, e: Expr)
    requires CheckExpr(fs, sc, e).Success?
    ensures Literal(e) ==> ExprContainsFloat(CheckExpr(fs, sc, e).value)
    ensures NoneYields(fs) && NoneVisible(sc) && !Literal(e) ==>
              TypeOf(CheckExpr(fs, sc, e).value) != Some(TFloat) && !ExprContainsFloat(CheckExpr(fs, sc, e).value)
    decreases e, 1
  {
    hide NoneYields, NoneVisible, SignatureOf;
    match e
    case VarRef(x, _, _) => FloatVariable(sc, x);
    case Unary(_, operand, _) => ExprFloats(fs, sc, operand);
    case Binary(_, left, right, _) =>
      ExprFloats(fs, sc, left);
      ExprFloats(fs, sc, right);
    case Call(_, _, _, _, _) => CallFloats(fs, sc, e);
    case _ =>
  }

  lemma FloatVariable(sc: Scopes, x: Text)
    requires Lookup(sc, x).Some?
    ensures NoneVisible(sc) ==> Lookup(sc, x).value.ty != TFloat
  {
  }

  lemma {:induction false} CallFloats(fs: seq<FunctionDecl>, sc: Scopes, e: Expr)
    requires e.Call? && CheckExpr(fs, sc, e).Success?
    ensures Literal(e) ==> ExprContainsFloat(CheckExpr(fs, sc, e).value)
    ensures NoneYields(fs) && NoneVisible(sc) && !Literal(e) ==>
              TypeOf(CheckExpr(fs, sc, e).value) != Some(TFloat) && !ExprContainsFloat(CheckExpr(fs, sc, e).value)
    decreases e, 0
  {
    hide NoneVisible, SignatureOf, CheckArgs, IndexOf;
    if e.namespace.Some? {
      var name := QualifiedName(e.namespace.value, e.name);
      CompilerTableIsImplemented(name);
      ArgsFloats(fs, sc, e.args, SignatureOf(name).value.params);
    } else {
      ArgsFloats(fs, sc, e.args, ParamTypes(fs[IndexOf(fs, e.name).value].params));
    }
  }

  lemma {:induction false} ArgsFloats(fs: seq<FunctionDecl>, sc: Scopes, es: seq<Expr>, ts: seq<Type>)
    requires |es| == |ts| && CheckArgs(fs, sc, es, ts).Success?
    ensures AnyLiteral(es) ==> ArgsContainFloat(CheckArgs(fs, sc, es, ts).value)
    ensures NoneYields(fs) && NoneVisible(sc) && !AnyLiteral(es) ==> !ArgsContainFloat(CheckArgs(fs, sc, es, ts).value)
    decreases es
  {
    hide NoneYields, NoneVisible, CheckExpr;
    if es != [] {
      ExprFloats(fs, sc, es[0]);
      ArgsFloats(fs, sc, es[1..], ts[1..]);
      var rest := CheckArgs(fs, sc, es[1..], ts[1..]).value;
      assert ([CheckExpr(fs, sc, es[0]).value] + rest)[1..] == rest;
    }
  }

  lemma DeclaredVisible(sc: Scopes, x: Text, v: Variable)
    requires sc != [] && v.ty != TFloat && NoneVisible(sc)
    ensures NoneVisible(sc[|sc| - 1 := sc[|sc| - 1][x := v]])
  {
  }

  lemma OpenedVisible(sc: Scopes)
    ensures NoneVisible(sc) ==> NoneVisible(sc + [map[]])
  {
  }

  lemma {:induction false} StmtFloats(fs: seq<FunctionDecl>, fn: FunctionDecl, st: State, s: Stmt)
    requires st.scopes != [] && WellShaped(s) && CheckStmt(fs, fn, st, s).Success?
    ensures Mentions(s) ==> StmtContainsFloat(CheckStmt(fs, fn, st, s).value.0)
    ensures NoneYields(fs) && NoneVisible(st.scopes) && !Mentions(s) ==>
              !StmtContainsFloat(CheckStmt(fs, fn, st, s).value.0) && NoneVisible(CheckStmt(fs, fn, st, s).value.1.scopes)
    decreases s, 1
  {
    hide NoneYields, NoneVisible, CheckExpr, CheckStmts, Literal, ExprContainsFloat, StmtsContainFloat, AnyMentions;
    match s
    case Block(ss) => BlockFloats(fs, fn, st, ss);
    case VarDecl(_, x, declared, init, _) =>
      ExprFloats(fs, st.scopes, init);
      var t := TypeOf(CheckExpr(fs, st.scopes, init).value).value;
      if NoneYields(fs) && NoneVisible(st.scopes) && !Mentions(s) {
        DeclaredVisible(st.scopes, x, Variable(t, if s.isConst then CONST else LET, st.next));
      }
    case Assign(_, value, _) => ExprFloats(fs, st.scopes, value);
    case If(cond, thn, els) =>
      ExprFloats(fs, st.scopes, cond);
      BlockFloats(fs, fn, st, thn);
      if els.Some? {
        var inner := CheckStmts(fs, fn, OpenScope(st), thn).value.1;
        BlockCloses(st, inner);
        StmtFloats(fs, fn, CloseScope(inner), els.value);
      }
    case While(cond, body) =>
      ExprFloats(fs, st.scopes, cond);
      BlockFloats(fs, fn, st, body);
    case Return(result) =>
      if result.Some? {
        ExprFloats(fs, st.scopes, result.value);
      }
    case CallStmt(call) => ExprFloats(fs, st.scopes, call);
  }

  lemma {:induction false} BlockFloats(fs: seq<FunctionDecl>, fn: FunctionDecl, st: State, ss: seq<Stmt>)
    requires st.scopes != [] && AllShaped(ss) && CheckStmts(fs, fn, OpenScope(st), ss).Success?
    ensures AnyMentions(ss) ==> StmtsContainFloat(CheckStmts(fs, fn, OpenScope(st), ss).value.0)
    ensures NoneYields(fs) && NoneVisible(st.scopes) && !AnyMentions(ss) ==> !StmtsContainFloat(CheckStmts(fs, fn, OpenScope(st), ss).value.0)
    ensures CloseScope(CheckStmts(fs, fn, OpenScope(st), ss).value.1).scopes == st.scopes
    decreases ss, 1
  {
    hide NoneYields, NoneVisible, CheckStmts, StmtsContainFloat, AnyMentions;
    OpenedVisible(st.scopes);
    StmtsFloats(fs, fn, OpenScope(st), ss);
    BlockCloses(st, CheckStmts(fs, fn, OpenScope(st), ss).value.1);
  }

  lemma {:induction false} StmtsFloats(fs: seq<FunctionDecl>, fn: FunctionDecl, st: State, ss: seq<Stmt>)
    requires st.scopes != [] && AllShaped(ss) && CheckStmts(fs, fn, st, ss).Success?
    ensures AnyMentions(ss) ==> StmtsContainFloat(CheckStmts(fs, fn, st, ss).value.0)
    ensures NoneYields(fs) && NoneVisible(st.scopes) && !AnyMentions(ss) ==> !StmtsContainFloat(CheckStmts(fs, fn, st, ss).value.0)
    decreases ss, 0
  {
    hide NoneYields, NoneVisible, CheckStmt, StmtContainsFloat, Mentions;
    if ss != [] {
      StmtFloats(fs, fn, st, ss[0]);
      var head := CheckStmt(fs, fn, st, ss[0]).value;
      StmtsFloats(fs, fn, head.1, ss[1..]);
      var rest := CheckStmts(fs, fn, head.1, ss[1..]).value.0;
      assert ([head.0] + rest)[1..] == rest;
    }
  }

  lemma {:induction false} ParamsVisible(n: nat, st: State, ps: seq<Param>)
    requires st.scopes != [] && DeclareParams(n, st, ps).Success? && NoneVisible(st.scopes) && forall i :: 0 <= i < |ps| ==> ps[i].ty != TFloat
    ensures NoneVisible(DeclareParams(n, st, ps).value.scopes)
    decreases ps
  {
    hide NoneVisible;
    if ps != [] {
      DeclaredVisible(st.scopes, ps[0].name, Variable(ps[0].ty, PARAM, st.next));
      ParamsVisible(n, Declare(n, st, ps[0].name, ps[0].ty, PARAM).value, ps[1..]);
    }
  }

  /** One function: what it mentions shows, and without any mention in the program nothing shows. */
  lemma FunctionFloats(fs: seq<FunctionDecl>, fn: FunctionDecl)
    requires AllShaped(fn.body) && CheckFunction(fs, fn).Success?
    ensures FunctionMentions(fn) ==> FunctionUsesFloat(CheckFunction(fs, fn).value)
    ensures NoneYields(fs) && fn.returnType != Some(TFloat) && !FunctionMentions(fn) ==> !FunctionUsesFloat(CheckFunction(fs, fn).value)
  {
    hide NoneYields, NoneVisible, CheckStmts, StmtsContainFloat, AnyMentions, DeclareParams;
    var st := DeclareParams(|fn.params|, State([map[]], 0), fn.params).value;
    StmtsFloats(fs, fn, st, fn.body);
    if i :| 0 <= i < |fn.params| && fn.params[i].ty == TFloat {
      assert fn.params[i] in fn.params;
    }
    if !FunctionMentions(fn) {
      assert NoneVisible([map[]]) by { NothingVisible(); }
      ParamsVisible(|fn.params|, State([map[]], 0), fn.params);
    }
  }

  lemma NothingVisible()
    ensures NoneVisible([map[]])
  {
  }

  /** A compiled program is written as version 2 exactly if some function of its source mentions Float, and as version 1 otherwise. */
  lemma VersionExactly(fs: seq<FunctionDecl>, m: B.Module)
    requires Compiles(fs, m)
    ensures Version(m) == if exists i :: 0 <= i < |fs| && FunctionMentions(fs[i]) then 2 else 1
  {
    hide CheckFunction, FunctionUsesFloat, FunctionMentions, AllShaped, GenFunctions, IndexOf;
    var checked := CheckProgram(fs).value;
    forall i | 0 <= i < |fs| ensures CheckFunction(fs, fs[i]) == Success(checked[i]) && AllShaped(fs[i].body) {
      assert fs[i] in fs;
    }
    if i :| 0 <= i < |fs| && FunctionMentions(fs[i]) {
      FunctionFloats(fs, fs[i]);
      assert checked[i] in checked && FunctionUsesFloat(checked[i]);
    } else {
      NoMentionNoYield(fs);
      forall fn | fn in checked ensures !FunctionUsesFloat(fn) {
        var i :| 0 <= i < |checked| && checked[i] == fn;
        FunctionFloats(fs, fs[i]);
      }
    }
  }

  lemma NoMentionNoYield(fs: seq<FunctionDecl>)
    requires forall i :: 0 <= i < |fs| ==> !FunctionMentions(fs[i])
    ensures NoneYields(fs)
  {
    hide AnyMentions;
  }
}
