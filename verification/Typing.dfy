/**
  The typing rules of `.tc` as a relation on the source tree, and why the checker accepts exactly the programs
  that have a typing. Declarations are a list in the order they are met; the last one of a name is in force.
 */
module Typing {
  import opened Prelude
  import opened Bytes
  import opened Syntax
  import opened RuntimeApi
  import opened CheckerSpec
  import Semantics

  /** A declaration, and how many blocks are open around it. */
  datatype Declared = Declared(name: Text, ty: Type, assignable: bool, block: nat)

  type Context = seq<Declared>

  /** The declaration in force: the last one of that name. */
  function InForce(g: Context, x: Text): Option<Declared> {
    if g == [] then None
    else if g[|g| - 1].name == x then Some(g[|g| - 1])
    else InForce(g[..|g| - 1], x)
  }

  /** Which operand type an operator takes, and what it then yields. */
  predicate Operates(op: BinaryOp, operand: Type, result: Type) {
    match op
    case ADD => operand != TBool && operand != TString && result == operand
    case SUB => operand != TBool && operand != TString && result == operand
    case MUL => operand != TBool && operand != TString && result == operand
    case DIV => operand != TBool && operand != TString && result == operand
    case LT => operand != TBool && operand != TString && result == TBool
    case LE => operand != TBool && operand != TString && result == TBool
    case GT => operand != TBool && operand != TString && result == TBool
    case GE => operand != TBool && operand != TString && result == TBool
    case EQ => result == TBool
    case NE => result == TBool
  }

  /** The expression has the type; `None` is the type of a call that yields nothing. */
  ghost predicate Typed(fs: seq<FunctionDecl>, g: Context, e: Expr, t: Option<Type>)
    decreases e
  {
    match e
    case IntLit(_) => t == Some(TInt)
    case FloatLit(_) => t == Some(TFloat)
    case BoolLit(_) => t == Some(TBool)
    case StringLit(_) => t == Some(TString)
    case VarRef(x, _, _) => InForce(g, x).Some? && t == Some(InForce(g, x).value.ty)
    case Unary(NEG, operand, _) => (t == Some(TInt) || t == Some(TFloat)) && Typed(fs, g, operand, t)
    case Unary(NOT, operand, _) => t == Some(TBool) && Typed(fs, g, operand, t)
    case Binary(op, left, right, _) =>
      t.Some? && exists u :: Operates(op, u, t.value) && Typed(fs, g, left, Some(u)) && Typed(fs, g, right, Some(u))
    case Call(None, name, args, _, _) =>
      exists i :: 0 <= i < |fs| && fs[i].name == name && t == fs[i].returnType && TypedArgs(fs, g, args, TypesOf(fs[i].params))
    case Call(Some(ns), name, args, _, _) =>
      var sig := SignatureOf(QualifiedName(ns, name));
      sig.Some? && t == sig.value.result && TypedArgs(fs, g, args, sig.value.params)
  }

  ghost predicate TypedArgs(fs: seq<FunctionDecl>, g: Context, es: seq<Expr>, ts: seq<Type>)
    decreases es
  {
    |es| == |ts| && forall i :: 0 <= i < |es| ==> Typed(fs, g, es[i], Some(ts[i]))
  }

  function TypesOf(ps: seq<Param>): seq<Type> {
    seq(|ps|, i requires 0 <= i < |ps| => ps[i].ty)
  }

  /** The name is not yet declared in the innermost block. */
  predicate Fresh(g: Context, x: Text, block: nat) {
    forall i :: 0 <= i < |g| ==> !(g[i].name == x && g[i].block == block)
  }

  /** The statement is allowed where `g` is declared, and leaves `g'` declared. */
  ghost predicate Allowed(fs: seq<FunctionDecl>, result: Option<Type>, g: Context, block: nat, s: Stmt, g': Context)
    decreases s
  {
    match s
    case Block(ss) => g' == g && AllowedBlock(fs, result, g, block + 1, ss)
    case VarDecl(isConst, x, declared, init, _) =>
      exists t :: Typed(fs, g, init, Some(t)) && (declared.None? || declared == Some(t)) && Fresh(g, x, block)
                  && g' == g + [Declared(x, t, !isConst, block)]
    case Assign(x, value, _) =>
      g' == g && InForce(g, x).Some? && InForce(g, x).value.assignable && Typed(fs, g, value, Some(InForce(g, x).value.ty))
    case If(cond, thn, els) =>
      && g' == g && Typed(fs, g, cond, Some(TBool)) && AllowedBlock(fs, result, g, block + 1, thn)
      && (els.Some? ==> Allowed(fs, result, g, block, els.value, g))
    case While(cond, body) => g' == g && Typed(fs, g, cond, Some(TBool)) && AllowedBlock(fs, result, g, block + 1, body)
    case Return(value) =>
      g' == g && if value.None? then result.None? else result.Some? && Typed(fs, g, value.value, result)
    case CallStmt(call) => g' == g && exists t :: Typed(fs, g, call, t)
  }

  /** A block of its own: what it declares is gone at its end. */
  ghost predicate AllowedBlock(fs: seq<FunctionDecl>, result: Option<Type>, g: Context, block: nat, ss: seq<Stmt>)
    decreases ss, 1
  {
    exists inner :: AllAllowed(fs, result, g, block, ss, inner)
  }

  ghost predicate AllAllowed(fs: seq<FunctionDecl>, result: Option<Type>, g: Context, block: nat, ss: seq<Stmt>, g': Context)
    decreases ss, 0
  {
    if ss == [] then g' == g
    else exists mid :: Allowed(fs, result, g, block, ss[0], mid) && AllAllowed(fs, result, mid, block, ss[1..], g')
  }

  /** The number of declarations in a statement, nested ones included. */
  function Declarations(s: Stmt): nat {
    match s
    case Block(ss) => AllDeclarations(ss)
    case VarDecl(_, _, _, _, _) => 1
    case If(_, thn, els) => AllDeclarations(thn) + if els.None? then 0 else Declarations(els.value)
    case While(_, body) => AllDeclarations(body)
    case _ => 0
  }

  function AllDeclarations(ss: seq<Stmt>): nat {
    if ss == [] then 0 else Declarations(ss[0]) + AllDeclarations(ss[1..])
  }

  /** Some path leads through the statement to what follows it. */
  predicate Falls(s: Stmt) {
    match s
    case Return(_) => false
    case Block(ss) => AllFall(ss)
    case If(_, thn, els) => els.None? || AllFall(thn) || Falls(els.value)
    case _ => true
  }

  predicate AllFall(ss: seq<Stmt>) {
    ss == [] || (Falls(ss[0]) && AllFall(ss[1..]))
  }

  function ParamContext(ps: seq<Param>): (g: Context)
    ensures |g| == |ps|
  {
    seq(|ps|, i requires 0 <= i < |ps| => Declared(ps[i].name, ps[i].ty, false, 0))
  }

  /**
    At most 255 parameters with different names, 255 other variables, 256 in all; a body that is allowed with
    the parameters declared and not assignable; and no way out of a value-returning function but `return`.
   */
  ghost predicate FunctionTyped(fs: seq<FunctionDecl>, fn: FunctionDecl) {
    && |fn.params| <= 255 && AllDeclarations(fn.body) <= 255 && |fn.params| + AllDeclarations(fn.body) <= 256
    && (forall i, j :: 0 <= i < j < |fn.params| ==> fn.params[i].name != fn.params[j].name)
    && (exists g :: AllAllowed(fs, fn.returnType, ParamContext(fn.params), 0, fn.body, g))
    && (fn.returnType.Some? ==> !AllFall(fn.body))
  }

  ghost predicate ProgramTyped(fs: seq<FunctionDecl>) {
    && (forall i, j :: 0 <= i < j < |fs| ==> fs[i].name != fs[j].name)
    && (exists i :: 0 <= i < |fs| && fs[i].name == MAIN && fs[i].params == [])
    && (forall i :: 0 <= i < |fs| ==> FunctionTyped(fs, fs[i]))
  }

  // ---- Declarations and scopes ----

  function Describes(d: Declared, v: Variable): bool {
    d.ty == v.ty && d.assignable == v.kind.LET?
  }

  /** The open scopes hold the declarations of the list, block by block. */
  ghost predicate Models(g: Context, sc: Scopes) {
    && |sc| > 0
    && (forall i :: 0 <= i < |g| ==> g[i].block < |sc| && g[i].name in sc[g[i].block] && Describes(g[i], sc[g[i].block][g[i].name]))
    && (forall i, j :: 0 <= i < j < |g| ==> g[i].block <= g[j].block)
    && (forall k, x :: 0 <= k < |sc| && x in sc[k] ==> exists i :: 0 <= i < |g| && g[i].name == x && g[i].block == k)
  }

  lemma {:induction false} InForceIsLast(g: Context, x: Text)
    ensures InForce(g, x).None? ==> forall i :: 0 <= i < |g| ==> g[i].name != x
    ensures InForce(g, x).Some? ==> exists i :: 0 <= i < |g| && g[i] == InForce(g, x).value && g[i].name == x && forall j :: i < j < |g| ==> g[j].name != x
  {
    if g != [] {
      var n := |g| - 1;
      if g[n].name != x {
        InForceIsLast(g[..n], x);
        if InForce(g, x).Some? {
          var i :| 0 <= i < n && g[..n][i] == InForce(g, x).value && g[..n][i].name == x && forall j :: i < j < n ==> g[..n][j].name != x;
          assert g[i] == InForce(g, x).value;
        } else {
          forall i | 0 <= i < |g| ensures g[i].name != x {
            if i < n {
              assert g[..n][i] == g[i];
            }
          }
        }
      }
    }
  }

  /** The list and the scopes agree on what a name means. */
  lemma SameVariable(g: Context, sc: Scopes, x: Text)
    requires Models(g, sc)
    ensures InForce(g, x).Some? <==> Lookup(sc, x).Some?
    ensures InForce(g, x).Some? ==> Describes(InForce(g, x).value, Lookup(sc, x).value)
  {
    hide InForce, Models, Semantics.FindLevel;
    InForceIsLast(g, x);
    var k := Semantics.FindLevel(sc, x);
    if k.Some? {
      var j := DeclaredAt(g, sc, x, k.value);
    }
    if InForce(g, x).Some? {
      var i :| 0 <= i < |g| && g[i] == InForce(g, x).value && g[i].name == x && forall j :: i < j < |g| ==> g[j].name != x;
      HeldAt(g, sc, i);
      LastIsInnermost(g, sc, x, i, k.value);
    }
  }

  lemma HeldAt(g: Context, sc: Scopes, i: nat)
    requires Models(g, sc) && i < |g|
    ensures g[i].block < |sc| && g[i].name in sc[g[i].block] && Describes(g[i], sc[g[i].block][g[i].name])
  {
  }

  lemma DeclaredAt(g: Context, sc: Scopes, x: Text, k: nat) returns (i: nat)
    requires Models(g, sc) && k < |sc| && x in sc[k]
    ensures i < |g| && g[i].name == x && g[i].block == k
  {
    i :| i < |g| && g[i].name == x && g[i].block == k;
  }

  lemma LastIsInnermost(g: Context, sc: Scopes, x: Text, i: nat, k: nat)
    requires Models(g, sc) && i < |g| && g[i].name == x && forall j :: i < j < |g| ==> g[j].name != x
    requires k < |sc| && x in sc[k] && forall j :: k < j < |sc| ==> x !in sc[j]
    ensures k == g[i].block
  {
    var j := DeclaredAt(g, sc, x, k);
    HeldAt(g, sc, i);
    assert j == i || j < i;
    assert g[j].block <= g[i].block;
  }

  lemma FreshInScope(g: Context, sc: Scopes, x: Text)
    requires Models(g, sc) && sc != []
    ensures Fresh(g, x, |sc| - 1) <==> x !in sc[|sc| - 1]
  {
    hide Models;
    if x in sc[|sc| - 1] {
      var i := DeclaredAt(g, sc, x, |sc| - 1);
    }
    if i :| 0 <= i < |g| && g[i].name == x && g[i].block == |sc| - 1 {
      HeldAt(g, sc, i);
    }
  }

  lemma ModelsOpened(g: Context, sc: Scopes)
    requires Models(g, sc)
    ensures Models(g, sc + [map[]])
  {
    var sc' := sc + [map[]];
    forall i | 0 <= i < |g| ensures g[i].block < |sc'| && g[i].name in sc'[g[i].block] && Describes(g[i], sc'[g[i].block][g[i].name]) {
      assert sc'[g[i].block] == sc[g[i].block];
    }
    forall k, x | 0 <= k < |sc'| && x in sc'[k] ensures exists i :: 0 <= i < |g| && g[i].name == x && g[i].block == k {
      assert k < |sc| && x in sc[k];
    }
  }

  lemma ModelsDeclared(g: Context, sc: Scopes, x: Text, v: Variable, d: Declared)
    requires Models(g, sc) && d.name == x && d.block == |sc| - 1 && Describes(d, v) && x !in sc[|sc| - 1]
    ensures Models(g + [d], sc[|sc| - 1 := sc[|sc| - 1][x := v]])
  {
    var top := |sc| - 1;
    var sc', g' := sc[top := sc[top][x := v]], g + [d];
    forall i | 0 <= i < |g'| ensures g'[i].block < |sc'| && g'[i].name in sc'[g'[i].block] && Describes(g'[i], sc'[g'[i].block][g'[i].name]) {
      if i < |g| {
        assert g'[i] == g[i];
      }
    }
    forall i, j | 0 <= i < j < |g'| ensures g'[i].block <= g'[j].block {
      assert g'[i] == g[i];
      assert j < |g| ==> g'[j] == g[j];
    }
    forall k, y | 0 <= k < |sc'| && y in sc'[k] ensures exists i :: 0 <= i < |g'| && g'[i].name == y && g'[i].block == k {
      if k == top && y == x {
        assert g'[|g|] == d;
      } else {
        assert y in sc[k];
        var i :| 0 <= i < |g| && g[i].name == y && g[i].block == k;
        assert g'[i] == g[i];
      }
    }
  }

  // ---- Expressions ----

  /** The result of the checker has the type. */
  ghost predicate Gives(r: Result<Expr, CheckError>, t: Option<Type>) {
    r.Success? && TypeOf(r.value) == t
  }

  /** The rules of the operators agree. */
  lemma OperatorRules(op: BinaryOp, a: Type, b: Type, t: Type)
    ensures BinaryType(op, a, b) == Some(t) <==> a == b && Operates(op, a, t)
  {
  }

  lemma ParamTypesAre(ps: seq<Param>)
    ensures ParamTypes(ps) == TypesOf(ps)
  {
  }

  lemma FirstIsOnly(fs: seq<FunctionDecl>, i: nat)
    requires DistinctNames(fs) && i < |fs|
    ensures IndexOf(fs, fs[i].name) == Some(i)
  {
    var r := IndexOf(fs, fs[i].name);
    assert fs[i] in fs;
  }

  /** An expression has a type exactly if the checker accepts it with that type. */
  lemma {:induction false} TypedIffChecked(fs: seq<FunctionDecl>, g: Context, sc: Scopes, e: Expr, t: Option<Type>)
    requires DistinctNames(fs) && Models(g, sc)
    ensures Typed(fs, g, e, t) <==> Gives(CheckExpr(fs, sc, e), t)
    decreases e, 1
  {
    hide Models, DistinctNames, InForce, Operates, SignatureOf, UnaryType;
    match e
    case VarRef(x, _, _) => SameVariable(g, sc, x);
    case Unary(op, operand, _) => UnaryIff(fs, g, sc, e, t);
    case Binary(op, left, right, _) => BinaryIff(fs, g, sc, e, t);
    case Call(ns, name, args, _, _) => CallIff(fs, g, sc, e, t);
    case _ =>
  }

  lemma {:induction false} UnaryIff(fs: seq<FunctionDecl>, g: Context, sc: Scopes, e: Expr, t: Option<Type>)
    requires DistinctNames(fs) && Models(g, sc) && e.Unary?
    ensures Typed(fs, g, e, t) <==> Gives(CheckExpr(fs, sc, e), t)
    decreases e, 0
  {
    hide Models, DistinctNames;
    TypedIffChecked(fs, g, sc, e.operand, t);
    var a := CheckExpr(fs, sc, e.operand);
    if a.Success? {
      TypedIffChecked(fs, g, sc, e.operand, TypeOf(a.value));
    }
  }

  lemma {:induction false} BinaryIff(fs: seq<FunctionDecl>, g: Context, sc: Scopes, e: Expr, t: Option<Type>)
    requires DistinctNames(fs) && Models(g, sc) && e.Binary?
    ensures Typed(fs, g, e, t) <==> Gives(CheckExpr(fs, sc, e), t)
    decreases e, 0
  {
    hide Models, DistinctNames, Operates, BinaryType;
    var a, b := CheckExpr(fs, sc, e.left), CheckExpr(fs, sc, e.right);
    if Typed(fs, g, e, t) {
      var u :| Operates(e.op, u, t.value) && Typed(fs, g, e.left, Some(u)) && Typed(fs, g, e.right, Some(u));
      TypedIffChecked(fs, g, sc, e.left, Some(u));
      TypedIffChecked(fs, g, sc, e.right, Some(u));
      OperatorRules(e.op, u, u, t.value);
    }
    if Gives(CheckExpr(fs, sc, e), t) {
      var u, v := TypeOf(a.value).value, TypeOf(b.value).value;
      OperatorRules(e.op, u, v, t.value);
      TypedIffChecked(fs, g, sc, e.left, Some(u));
      TypedIffChecked(fs, g, sc, e.right, Some(u));
    }
  }

  lemma {:induction false} CallIff(fs: seq<FunctionDecl>, g: Context, sc: Scopes, e: Expr, t: Option<Type>)
    requires DistinctNames(fs) && Models(g, sc) && e.Call?
    ensures Typed(fs, g, e, t) <==> Gives(CheckExpr(fs, sc, e), t)
    decreases e, 0
  {
    hide Models, DistinctNames, SignatureOf, CheckArgs, TypedArgs, TypesOf, IndexOf;
    if e.namespace.Some? {
      var sig := SignatureOf(QualifiedName(e.namespace.value, e.name));
      if sig.Some? {
        ArgsIff(fs, g, sc, e.args, sig.value.params);
      }
    } else {
      if Typed(fs, g, e, t) {
        var i :| 0 <= i < |fs| && fs[i].name == e.name && t == fs[i].returnType && TypedArgs(fs, g, e.args, TypesOf(fs[i].params));
        FirstIsOnly(fs, i);
        ParamTypesAre(fs[i].params);
        ArgsIff(fs, g, sc, e.args, ParamTypes(fs[i].params));
      }
      if Gives(CheckExpr(fs, sc, e), t) {
        var i := IndexOf(fs, e.name).value;
        ParamTypesAre(fs[i].params);
        ArgsIff(fs, g, sc, e.args, ParamTypes(fs[i].params));
      }
    }
  }

  lemma {:induction false} ArgsIff(fs: seq<FunctionDecl>, g: Context, sc: Scopes, es: seq<Expr>, ts: seq<Type>)
    requires DistinctNames(fs) && Models(g, sc)
    ensures TypedArgs(fs, g, es, ts) <==> |es| == |ts| && CheckArgs(fs, sc, es, ts).Success?
    decreases es
  {
    hide Models, DistinctNames, Typed, CheckExpr;
    if es != [] && |es| == |ts| {
      TypedIffChecked(fs, g, sc, es[0], Some(ts[0]));
      ArgsIff(fs, g, sc, es[1..], ts[1..]);
      ArgsSplit(fs, g, es, ts);
    }
  }

  lemma ArgsSplit(fs: seq<FunctionDecl>, g: Context, es: seq<Expr>, ts: seq<Type>)
    requires es != [] && |es| == |ts|
    ensures TypedArgs(fs, g, es, ts) <==> Typed(fs, g, es[0], Some(ts[0])) && TypedArgs(fs, g, es[1..], ts[1..])
  {
    hide Typed;
    if Typed(fs, g, es[0], Some(ts[0])) && TypedArgs(fs, g, es[1..], ts[1..]) {
      forall i | 0 <= i < |es| ensures Typed(fs, g, es[i], Some(ts[i])) {
        if i > 0 {
          assert es[i] == es[1..][i - 1] && ts[i] == ts[1..][i - 1];
        }
      }
    }
  }

  // ---- Statements ----

  /** There is room for `count` more variables. */
  predicate Room(st: State, params: nat, count: nat) {
    st.next + count <= 256 && st.next - params + count <= 255
  }

  ghost predicate Possible(fs: seq<FunctionDecl>, result: Option<Type>, g: Context, block: nat, s: Stmt) {
    exists g' :: Allowed(fs, result, g, block, s, g')
  }

  ghost predicate AllPossible(fs: seq<FunctionDecl>, result: Option<Type>, g: Context, block: nat, ss: seq<Stmt>) {
    exists g' :: AllAllowed(fs, result, g, block, ss, g')
  }

  /** What the checker leaves behind is what is then declared. */
  ghost predicate Follows(g': Context, before: State, after: State, count: nat) {
    after.next == before.next + count && |after.scopes| == |before.scopes| && Models(g', after.scopes)
  }

  /** A statement is allowed, and there is room for its variables, exactly if the checker accepts it. */
  lemma {:induction false} AllowedIffChecked(fs: seq<FunctionDecl>, fn: FunctionDecl, g: Context, st: State, s: Stmt)
    requires DistinctNames(fs) && Models(g, st.scopes) && WellShaped(s) && Room(st, |fn.params|, 0)
    ensures CheckStmt(fs, fn, st, s).Success?
            <==> Possible(fs, fn.returnType, g, |st.scopes| - 1, s) && Room(st, |fn.params|, Declarations(s))
    ensures CheckStmt(fs, fn, st, s).Success? ==>
              forall g' :: Allowed(fs, fn.returnType, g, |st.scopes| - 1, s, g') ==> Follows(g', st, CheckStmt(fs, fn, st, s).value.1, Declarations(s))
    decreases s, 1
  {
    hide Models, DistinctNames, CheckStmts, CheckExpr, Typed, AllAllowed, AllDeclarations, InForce;
    ScopesOpen(g, st.scopes);
    var block := |st.scopes| - 1;
    match s
    case Block(ss) =>
      BlockIff(fs, fn, g, st, ss);
      assert Allowed(fs, fn.returnType, g, block, s, g) <==> AllowedBlock(fs, fn.returnType, g, block + 1, ss);
    case VarDecl(_, _, _, _, _) => DeclarationIff(fs, fn, g, st, s);
    case Assign(_, _, _) => AssignIff(fs, fn, g, st, s);
    case If(_, _, _) => IfIff(fs, fn, g, st, s);
    case While(cond, body) =>
      TypedIffChecked(fs, g, st.scopes, cond, Some(TBool));
      BlockIff(fs, fn, g, st, body);
      assert Allowed(fs, fn.returnType, g, block, s, g) <==> Typed(fs, g, cond, Some(TBool)) && AllowedBlock(fs, fn.returnType, g, block + 1, body);
    case Return(value) =>
      if value.Some? {
        TypedIffChecked(fs, g, st.scopes, value.value, fn.returnType);
      }
      assert Possible(fs, fn.returnType, g, block, s) <==> Allowed(fs, fn.returnType, g, block, s, g);
    case CallStmt(call) => CallStmtIff(fs, fn, g, st, s);
  }

  lemma CallStmtIff(fs: seq<FunctionDecl>, fn: FunctionDecl, g: Context, st: State, s: Stmt)
    requires DistinctNames(fs) && Models(g, st.scopes) && s.CallStmt? && Room(st, |fn.params|, 0)
    ensures CheckStmt(fs, fn, st, s).Success?
            <==> Possible(fs, fn.returnType, g, |st.scopes| - 1, s) && Room(st, |fn.params|, Declarations(s))
    ensures CheckStmt(fs, fn, st, s).Success? ==>
              forall g' :: Allowed(fs, fn.returnType, g, |st.scopes| - 1, s, g') ==> Follows(g', st, CheckStmt(fs, fn, st, s).value.1, Declarations(s))
  {
    hide Models, DistinctNames, CheckExpr, Typed;
    ScopesOpen(g, st.scopes);
    var a := CheckExpr(fs, st.scopes, s.call);
    forall t ensures Typed(fs, g, s.call, t) <==> Gives(a, t) {
      TypedIffChecked(fs, g, st.scopes, s.call, t);
    }
    if a.Success? {
      assert Gives(a, TypeOf(a.value));
      assert Allowed(fs, fn.returnType, g, |st.scopes| - 1, s, g);
    }
  }

  lemma AssignIff(fs: seq<FunctionDecl>, fn: FunctionDecl, g: Context, st: State, s: Stmt)
    requires DistinctNames(fs) && Models(g, st.scopes) && s.Assign? && Room(st, |fn.params|, 0)
    ensures CheckStmt(fs, fn, st, s).Success?
            <==> Possible(fs, fn.returnType, g, |st.scopes| - 1, s) && Room(st, |fn.params|, Declarations(s))
    ensures CheckStmt(fs, fn, st, s).Success? ==>
              forall g' :: Allowed(fs, fn.returnType, g, |st.scopes| - 1, s, g') ==> Follows(g', st, CheckStmt(fs, fn, st, s).value.1, Declarations(s))
  {
    hide Models, DistinctNames, CheckExpr, Typed, InForce, Lookup;
    ScopesOpen(g, st.scopes);
    SameVariable(g, st.scopes, s.name);
    if InForce(g, s.name).Some? {
      TypedIffChecked(fs, g, st.scopes, s.value, Some(InForce(g, s.name).value.ty));
    }
    assert Possible(fs, fn.returnType, g, |st.scopes| - 1, s) <==> Allowed(fs, fn.returnType, g, |st.scopes| - 1, s, g);
  }

  lemma DeclarationIff(fs: seq<FunctionDecl>, fn: FunctionDecl, g: Context, st: State, s: Stmt)
    requires DistinctNames(fs) && Models(g, st.scopes) && s.VarDecl? && Room(st, |fn.params|, 0)
    ensures CheckStmt(fs, fn, st, s).Success?
            <==> Possible(fs, fn.returnType, g, |st.scopes| - 1, s) && Room(st, |fn.params|, Declarations(s))
    ensures CheckStmt(fs, fn, st, s).Success? ==>
              forall g' :: Allowed(fs, fn.returnType, g, |st.scopes| - 1, s, g') ==> Follows(g', st, CheckStmt(fs, fn, st, s).value.1, Declarations(s))
  {
    hide Models, DistinctNames, CheckExpr, Typed, Fresh;
    var a, block := CheckExpr(fs, st.scopes, s.init), |st.scopes| - 1;
    forall t ensures Typed(fs, g, s.init, t) <==> Gives(a, t) {
      TypedIffChecked(fs, g, st.scopes, s.init, t);
    }
    ScopesOpen(g, st.scopes);
    FreshInScope(g, st.scopes, s.name);
    if a.Success? && TypeOf(a.value).Some? && s.name !in st.scopes[block] {
      var t := TypeOf(a.value).value;
      var d := Declared(s.name, t, !s.isConst, block);
      assert Gives(a, Some(t));
      ModelsDeclared(g, st.scopes, s.name, Variable(t, if s.isConst then CONST else LET, st.next), d);
      if s.declared.None? || s.declared == Some(t) {
        assert Allowed(fs, fn.returnType, g, block, s, g + [d]);
      }
    }
  }

  lemma ScopesOpen(g: Context, sc: Scopes)
    requires Models(g, sc)
    ensures sc != []
  {
  }

  lemma {:induction false} IfIff(fs: seq<FunctionDecl>, fn: FunctionDecl, g: Context, st: State, s: Stmt)
    requires DistinctNames(fs) && Models(g, st.scopes) && s.If? && WellShaped(s) && Room(st, |fn.params|, 0)
    ensures CheckStmt(fs, fn, st, s).Success?
            <==> Possible(fs, fn.returnType, g, |st.scopes| - 1, s) && Room(st, |fn.params|, Declarations(s))
    ensures CheckStmt(fs, fn, st, s).Success? ==>
              forall g' :: Allowed(fs, fn.returnType, g, |st.scopes| - 1, s, g') ==> Follows(g', st, CheckStmt(fs, fn, st, s).value.1, Declarations(s))
    decreases s, 0
  {
    hide Models, DistinctNames, CheckStmts, CheckExpr, Typed, AllAllowed, AllDeclarations;
    var block, result := |st.scopes| - 1, fn.returnType;
    ScopesOpen(g, st.scopes);
    TypedIffChecked(fs, g, st.scopes, s.cond, Some(TBool));
    BlockIff(fs, fn, g, st, s.thn);
    assert Possible(fs, result, g, block, s) <==> Allowed(fs, result, g, block, s, g);
    var then' := CheckStmts(fs, fn, OpenScope(st), s.thn);
    if then'.Success? && s.els.Some? {
      var st1 := CloseScope(then'.value.1);
      AllowedIffChecked(fs, fn, g, st1, s.els.value);
      assert Possible(fs, result, g, block, s.els.value) <==> Allowed(fs, result, g, block, s.els.value, g) by {
        ElseKeeps(fs, result, g, block, s.els.value);
      }
      if CheckStmt(fs, fn, st1, s.els.value).Success? {
        assert Follows(g, st1, CheckStmt(fs, fn, st1, s.els.value).value.1, Declarations(s.els.value));
      }
    }
  }

  /** What follows `else` declares nothing for what comes behind it. */
  lemma ElseKeeps(fs: seq<FunctionDecl>, result: Option<Type>, g: Context, block: nat, s: Stmt)
    requires s.Block? || s.If?
    ensures forall g' :: Allowed(fs, result, g, block, s, g') ==> g' == g
  {
  }

  lemma {:induction false} BlockIff(fs: seq<FunctionDecl>, fn: FunctionDecl, g: Context, st: State, ss: seq<Stmt>)
    requires DistinctNames(fs) && Models(g, st.scopes) && AllShaped(ss) && Room(st, |fn.params|, 0)
    ensures CheckStmts(fs, fn, OpenScope(st), ss).Success?
            <==> AllowedBlock(fs, fn.returnType, g, |st.scopes|, ss) && Room(st, |fn.params|, AllDeclarations(ss))
    ensures CheckStmts(fs, fn, OpenScope(st), ss).Success? ==>
              var after := CheckStmts(fs, fn, OpenScope(st), ss).value.1;
              after.scopes != [] && CloseScope(after) == State(st.scopes, st.next + AllDeclarations(ss))
    decreases ss, 1
  {
    hide Models, DistinctNames, CheckStmts, AllAllowed, AllDeclarations;
    var open := OpenScope(st);
    ScopesOpen(g, st.scopes);
    ModelsOpened(g, st.scopes);
    AllAllowedIffChecked(fs, fn, g, open, ss);
    if CheckStmts(fs, fn, open, ss).Success? {
      var g' :| AllAllowed(fs, fn.returnType, g, |st.scopes|, ss, g');
      BlockCloses(st, CheckStmts(fs, fn, open, ss).value.1);
      assert Follows(g', open, CheckStmts(fs, fn, open, ss).value.1, AllDeclarations(ss));
    }
  }

  lemma {:induction false} AllAllowedIffChecked(fs: seq<FunctionDecl>, fn: FunctionDecl, g: Context, st: State, ss: seq<Stmt>)
    requires DistinctNames(fs) && Models(g, st.scopes) && AllShaped(ss) && Room(st, |fn.params|, 0)
    ensures CheckStmts(fs, fn, st, ss).Success?
            <==> AllPossible(fs, fn.returnType, g, |st.scopes| - 1, ss) && Room(st, |fn.params|, AllDeclarations(ss))
    ensures CheckStmts(fs, fn, st, ss).Success? ==>
              forall g' :: AllAllowed(fs, fn.returnType, g, |st.scopes| - 1, ss, g') ==> Follows(g', st, CheckStmts(fs, fn, st, ss).value.1, AllDeclarations(ss))
    decreases ss, 0
  {
    hide Models, DistinctNames, CheckStmt, CheckStmts, Allowed, AllAllowed, Declarations, AllDeclarations, Follows;
    ScopesOpen(g, st.scopes);
    var block, result := |st.scopes| - 1, fn.returnType;
    StmtsStep(fs, fn, st, ss);
    if ss == [] {
      NothingFollows(fs, result, g, block, st);
    } else {
      AllowedIffChecked(fs, fn, g, st, ss[0]);
      var head, rest, n := CheckStmt(fs, fn, st, ss[0]), AllDeclarations(ss[1..]), |fn.params|;
      if AllPossible(fs, result, g, block, ss) {
        var g' :| AllAllowed(fs, result, g, block, ss, g');
        var mid := FirstAllowed(fs, result, g, block, ss, g');
        if Room(st, n, AllDeclarations(ss)) {
          FollowsFacts(mid, st, head.value.1, Declarations(ss[0]));
          AllAllowedIffChecked(fs, fn, mid, head.value.1, ss[1..]);
        }
      }
      if CheckStmts(fs, fn, st, ss).Success? {
        var mid :| Allowed(fs, result, g, block, ss[0], mid);
        FollowsFacts(mid, st, head.value.1, Declarations(ss[0]));
        AllAllowedIffChecked(fs, fn, mid, head.value.1, ss[1..]);
        var g' :| AllAllowed(fs, result, mid, block, ss[1..], g');
        ThenAllowed(fs, result, g, block, ss, mid, g');
        forall g' | AllAllowed(fs, result, g, block, ss, g') ensures Follows(g', st, CheckStmts(fs, fn, st, ss).value.1, AllDeclarations(ss)) {
          var mid := FirstAllowed(fs, result, g, block, ss, g');
          FollowsFacts(mid, st, head.value.1, Declarations(ss[0]));
          AllAllowedIffChecked(fs, fn, mid, head.value.1, ss[1..]);
          FollowsBoth(mid, g', st, head.value.1, CheckStmts(fs, fn, st, ss).value.1, Declarations(ss[0]), rest);
        }
      }
    }
  }

  lemma StmtsStep(fs: seq<FunctionDecl>, fn: FunctionDecl, st: State, ss: seq<Stmt>)
    requires st.scopes != []
    ensures AllDeclarations(ss) == if ss == [] then 0 else Declarations(ss[0]) + AllDeclarations(ss[1..])
    ensures ss == [] ==> CheckStmts(fs, fn, st, ss) == Success(([], st))
    ensures ss != [] ==>
              var head := CheckStmt(fs, fn, st, ss[0]);
              && (CheckStmts(fs, fn, st, ss).Success? <==> head.Success? && CheckStmts(fs, fn, head.value.1, ss[1..]).Success?)
              && (CheckStmts(fs, fn, st, ss).Success? ==> CheckStmts(fs, fn, st, ss).value.1 == CheckStmts(fs, fn, head.value.1, ss[1..]).value.1)
  {
    hide CheckStmt;
  }

  lemma NothingFollows(fs: seq<FunctionDecl>, result: Option<Type>, g: Context, block: nat, st: State)
    requires Models(g, st.scopes)
    ensures AllAllowed(fs, result, g, block, [], g) && AllPossible(fs, result, g, block, [])
    ensures forall g' :: AllAllowed(fs, result, g, block, [], g') ==> Follows(g', st, st, 0)
  {
    hide Models;
    assert AllAllowed(fs, result, g, block, [], g);
  }

  lemma FirstAllowed(fs: seq<FunctionDecl>, result: Option<Type>, g: Context, block: nat, ss: seq<Stmt>, g': Context) returns (mid: Context)
    requires ss != [] && AllAllowed(fs, result, g, block, ss, g')
    ensures Allowed(fs, result, g, block, ss[0], mid) && AllAllowed(fs, result, mid, block, ss[1..], g')
    ensures Possible(fs, result, g, block, ss[0])
  {
    hide Allowed;
    mid :| Allowed(fs, result, g, block, ss[0], mid) && AllAllowed(fs, result, mid, block, ss[1..], g');
  }

  lemma ThenAllowed(fs: seq<FunctionDecl>, result: Option<Type>, g: Context, block: nat, ss: seq<Stmt>, mid: Context, g': Context)
    requires ss != [] && Allowed(fs, result, g, block, ss[0], mid) && AllAllowed(fs, result, mid, block, ss[1..], g')
    ensures AllAllowed(fs, result, g, block, ss, g')
  {
    hide Allowed;
  }

  lemma FollowsFacts(g: Context, before: State, after: State, count: nat)
    requires Follows(g, before, after, count)
    ensures after.next == before.next + count && |after.scopes| == |before.scopes| && Models(g, after.scopes)
  {
  }

  lemma FollowsBoth(mid: Context, g: Context, before: State, between: State, after: State, m: nat, n: nat)
    requires Follows(mid, before, between, m) && Follows(g, between, after, n)
    ensures Follows(g, before, after, m + n)
  {
    hide Models;
  }

  // ---- Functions and programs ----

  lemma {:induction false} ParamsIff(n: nat, g: Context, st: State, ps: seq<Param>)
    requires Models(g, st.scopes) && |st.scopes| == 1 && st.next + |ps| <= 256
    ensures DeclareParams(n, st, ps).Success?
            <==> (forall i :: 0 <= i < |ps| ==> ps[i].name !in st.scopes[0]) && forall i, j :: 0 <= i < j < |ps| ==> ps[i].name != ps[j].name
    ensures DeclareParams(n, st, ps).Success? ==>
              |DeclareParams(n, st, ps).value.scopes| == 1 && Models(g + ParamContext(ps), DeclareParams(n, st, ps).value.scopes)
    decreases ps
  {
    hide Models;
    if ps == [] {
      assert g + ParamContext(ps) == g;
    } else {
      var p := ps[0];
      if p.name !in st.scopes[0] {
        var d, v := Declared(p.name, p.ty, false, 0), Variable(p.ty, PARAM, st.next);
        ModelsDeclared(g, st.scopes, p.name, v, d);
        var st1 := Declare(n, st, p.name, p.ty, PARAM).value;
        ParamsIff(n, g + [d], st1, ps[1..]);
        assert g + ParamContext(ps) == g + [d] + ParamContext(ps[1..]);
        NamesSplit(ps, st.scopes[0], st1.scopes[0]);
      }
    }
  }

  lemma NamesSplit(ps: seq<Param>, sc: map<Text, Variable>, sc': map<Text, Variable>)
    requires ps != [] && ps[0].name !in sc && sc'.Keys == sc.Keys + {ps[0].name}
    ensures ((forall i :: 0 <= i < |ps| ==> ps[i].name !in sc) && forall i, j :: 0 <= i < j < |ps| ==> ps[i].name != ps[j].name)
       <==> ((forall i :: 0 <= i < |ps[1..]| ==> ps[1..][i].name !in sc') && forall i, j :: 0 <= i < j < |ps[1..]| ==> ps[1..][i].name != ps[1..][j].name)
  {
    var qs := ps[1..];
    if (forall i :: 0 <= i < |qs| ==> qs[i].name !in sc') && forall i, j :: 0 <= i < j < |qs| ==> qs[i].name != qs[j].name {
      forall i | 0 <= i < |ps| ensures ps[i].name !in sc {
        assert i > 0 ==> ps[i] == qs[i - 1];
      }
      forall i, j | 0 <= i < j < |ps| ensures ps[i].name != ps[j].name {
        assert ps[j] == qs[j - 1] && (i > 0 ==> ps[i] == qs[i - 1]);
      }
    }
  }

  lemma {:induction false} FallsUnlessReturns(s: Stmt)
    ensures AlwaysReturns(s) <==> !Falls(s)
    decreases s
  {
    match s
    case Block(ss) => AllFallUnlessReturns(ss);
    case If(_, thn, els) =>
      AllFallUnlessReturns(thn);
      if els.Some? {
        FallsUnlessReturns(els.value);
      }
    case _ =>
  }

  lemma {:induction false} AllFallUnlessReturns(ss: seq<Stmt>)
    ensures AnyReturns(ss) <==> !AllFall(ss)
    decreases ss
  {
    if ss != [] {
      FallsUnlessReturns(ss[0]);
      AllFallUnlessReturns(ss[1..]);
    }
  }

  lemma FunctionIff(fs: seq<FunctionDecl>, fn: FunctionDecl)
    requires DistinctNames(fs) && AllShaped(fn.body)
    ensures CheckFunction(fs, fn).Success? <==> FunctionTyped(fs, fn)
  {
    hide Models, DistinctNames, CheckStmts, AllAllowed, AllDeclarations, AllFall, AnyReturns, DeclareParams;
    if |fn.params| <= 255 {
      var st := State([map[]], 0);
      assert Models([], st.scopes) by { NothingDeclared(); }
      ParamsIff(|fn.params|, [], st, fn.params);
      assert [] + ParamContext(fn.params) == ParamContext(fn.params);
      AllFallUnlessReturns(fn.body);
      var ps := DeclareParams(|fn.params|, st, fn.params);
      if ps.Success? {
        AllAllowedIffChecked(fs, fn, ParamContext(fn.params), ps.value, fn.body);
      }
    }
  }

  lemma NothingDeclared()
    ensures Models([], [map[]])
  {
  }

  lemma {:induction false} FunctionsIff(fs: seq<FunctionDecl>, rest: seq<FunctionDecl>)
    ensures CheckFunctions(fs, rest).Success? <==> forall i :: 0 <= i < |rest| ==> CheckFunction(fs, rest[i]).Success?
    decreases rest
  {
    hide CheckFunction;
    if rest != [] {
      FunctionsIff(fs, rest[1..]);
      if CheckFunction(fs, rest[0]).Success? && CheckFunctions(fs, rest[1..]).Success? {
        forall i | 0 <= i < |rest| ensures CheckFunction(fs, rest[i]).Success? {
          assert i > 0 ==> rest[i] == rest[1..][i - 1];
        }
      }
    }
  }

  /** The checker accepts exactly the programs that have a typing. */
  lemma AcceptedIffTyped(fs: seq<FunctionDecl>)
    requires forall fn :: fn in fs ==> AllShaped(fn.body)
    ensures CheckProgram(fs).Success? <==> ProgramTyped(fs)
  {
    hide CheckFunction, FunctionTyped, AllShaped, CheckFunctions, IndexOf;
    if DistinctNames(fs) {
      forall i | 0 <= i < |fs| ensures CheckFunction(fs, fs[i]).Success? <==> FunctionTyped(fs, fs[i]) {
        assert fs[i] in fs;
        FunctionIff(fs, fs[i]);
      }
      FunctionsIff(fs, fs);
      if i :| 0 <= i < |fs| && fs[i].name == MAIN {
        FirstIsOnly(fs, i);
      }
      var main := IndexOf(fs, MAIN);
      assert main.Some? ==> fs[main.value].name == MAIN;
    }
  }
}
