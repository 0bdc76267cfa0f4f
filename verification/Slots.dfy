/** Slot allocation: every declaration of a function has a slot of its own, in 0..255. */
module Slots {
  import opened Prelude
  import opened Bytes
  import opened Syntax
  import opened CheckerSpec
  import Semantics

  /** Visible variables have slots below `next`, and no two of them share one. */
  ghost predicate SlotsOk(st: State) {
    && st.next <= MAX_SLOT + 1
    && (forall k, x :: 0 <= k < |st.scopes| && x in st.scopes[k] ==> st.scopes[k][x].slot < st.next)
    && (forall k, x, l, y | 0 <= k < |st.scopes| && x in st.scopes[k] && 0 <= l < |st.scopes| && y in st.scopes[l] ::
          st.scopes[k][x].slot == st.scopes[l][y].slot ==> k == l && x == y)
  }

  lemma DeclareSlots(n: nat, st: State, x: Text, t: Type, kind: VarKind)
    requires SlotsOk(st) && st.scopes != [] && Declare(n, st, x, t, kind).Success?
    ensures SlotsOk(Declare(n, st, x, t, kind).value)
  {
    var st', top := Declare(n, st, x, t, kind).value, |st.scopes| - 1;
    assert forall k, y :: 0 <= k < |st.scopes| && y in st'.scopes[k] && !(k == top && y == x)
             ==> y in st.scopes[k] && st'.scopes[k][y] == st.scopes[k][y];
    assert st'.scopes[top][x].slot == st.next;
  }

  lemma OpenSlots(st: State)
    requires SlotsOk(st)
    ensures SlotsOk(OpenScope(st))
  {
    var open := OpenScope(st);
    assert forall k :: 0 <= k < |st.scopes| ==> open.scopes[k] == st.scopes[k];
  }

  lemma CloseSlots(st: State)
    requires SlotsOk(st) && st.scopes != []
    ensures SlotsOk(CloseScope(st))
  {
    var closed := CloseScope(st);
    assert forall k :: 0 <= k < |closed.scopes| ==> closed.scopes[k] == st.scopes[k];
  }

  lemma {:induction false} StmtSlots(fs: seq<FunctionDecl>, fn: FunctionDecl, st: State, s: Stmt)
    requires SlotsOk(st) && st.scopes != [] && CheckStmt(fs, fn, st, s).Success?
    ensures SlotsOk(CheckStmt(fs, fn, st, s).value.1)
    decreases s
  {
    match s
    case Block(ss) =>
      BlockSlots(fs, fn, st, ss);
    case VarDecl(isConst, x, _, init, _) =>
      var t := TypeOf(CheckExpr(fs, st.scopes, init).value).value;
      DeclareSlots(|fn.params|, st, x, t, if isConst then CONST else LET);
    case If(_, thn, els) =>
      BlockSlots(fs, fn, st, thn);
      if els.Some? {
        StmtSlots(fs, fn, CloseScope(CheckStmts(fs, fn, OpenScope(st), thn).value.1), els.value);
      }
    case While(_, body) =>
      BlockSlots(fs, fn, st, body);
    case _ =>
  }

  lemma {:induction false} BlockSlots(fs: seq<FunctionDecl>, fn: FunctionDecl, st: State, ss: seq<Stmt>)
    requires SlotsOk(st) && CheckStmts(fs, fn, OpenScope(st), ss).Success?
    ensures SlotsOk(CloseScope(CheckStmts(fs, fn, OpenScope(st), ss).value.1))
    decreases ss, 1
  {
    OpenSlots(st);
    StmtsSlots(fs, fn, OpenScope(st), ss);
    CloseSlots(CheckStmts(fs, fn, OpenScope(st), ss).value.1);
  }

  lemma {:induction false} StmtsSlots(fs: seq<FunctionDecl>, fn: FunctionDecl, st: State, ss: seq<Stmt>)
    requires SlotsOk(st) && st.scopes != [] && CheckStmts(fs, fn, st, ss).Success?
    ensures SlotsOk(CheckStmts(fs, fn, st, ss).value.1)
    decreases ss, 0
  {
    if ss != [] {
      StmtSlots(fs, fn, st, ss[0]);
      StmtsSlots(fs, fn, CheckStmt(fs, fn, st, ss[0]).value.1, ss[1..]);
    }
  }

  lemma {:induction false} ParamSlots(n: nat, st: State, ps: seq<Param>)
    requires SlotsOk(st) && st.scopes != [] && DeclareParams(n, st, ps).Success?
    ensures SlotsOk(DeclareParams(n, st, ps).value)
    decreases ps
  {
    if ps != [] {
      DeclareSlots(n, st, ps[0].name, ps[0].ty, PARAM);
      ParamSlots(n, Declare(n, st, ps[0].name, ps[0].ty, PARAM).value, ps[1..]);
    }
  }

  /** At most 256 slots, at most 255 of them locals, and the count is what the function reports. */
  lemma FunctionSlots(fs: seq<FunctionDecl>, fn: FunctionDecl)
    requires CheckFunction(fs, fn).Success?
    ensures var a := CheckFunction(fs, fn).value;
            0 <= a.localCount && |fn.params| + a.localCount <= 256 && a.params == fn.params
  {
    var st := State([map[]], 0);
    ParamSlots(|fn.params|, st, fn.params);
    StmtsSlots(fs, fn, DeclareParams(|fn.params|, st, fn.params).value, fn.body);
  }

  // ---- Every declaration ----

  /** The slots of all declarations of a checked statement, in program order. */
  function DeclaredSlots(s: Stmt): seq<int> {
    match s
    case Block(ss) => AllDeclaredSlots(ss)
    case VarDecl(_, _, _, _, slot) => [slot]
    case If(_, thn, els) => AllDeclaredSlots(thn) + (if els.Some? then DeclaredSlots(els.value) else [])
    case While(_, ss) => AllDeclaredSlots(ss)
    case _ => []
  }

  function AllDeclaredSlots(ss: seq<Stmt>): seq<int> {
    if ss == [] then [] else DeclaredSlots(ss[0]) + AllDeclaredSlots(ss[1..])
  }

  function Range(a: int, b: int): seq<int>
    requires a <= b
  {
    seq(b - a, i => a + i)
  }

  lemma RangeParts(a: int, b: int, c: int)
    requires a <= b <= c
    ensures Range(a, a) == [] && Range(a, a + 1) == [a] && Range(a, b) + Range(b, c) == Range(a, c)
  {
  }

  lemma {:induction false} StmtDeclares(fs: seq<FunctionDecl>, fn: FunctionDecl, st: State, s: Stmt)
    requires st.scopes != [] && CheckStmt(fs, fn, st, s).Success?
    ensures DeclaredSlots(CheckStmt(fs, fn, st, s).value.0) == Range(st.next, CheckStmt(fs, fn, st, s).value.1.next)
    decreases s
  {
    hide CheckExpr, Declare, Range, CheckCondition, CheckReturn, CheckStmts, AllDeclaredSlots;
    RangeParts(st.next, st.next, st.next);
    match s
    case Block(ss) =>
      StmtsDeclare(fs, fn, OpenScope(st), ss);
    case VarDecl(isConst, x, _, init, _) =>
      DeclareNext(|fn.params|, st, x, TypeOf(CheckExpr(fs, st.scopes, init).value).value, if isConst then CONST else LET);
    case If(_, thn, els) =>
      StmtsDeclare(fs, fn, OpenScope(st), thn);
      if els.Some? {
        var mid := CloseScope(CheckStmts(fs, fn, OpenScope(st), thn).value.1);
        StmtDeclares(fs, fn, mid, els.value);
        RangeParts(st.next, mid.next, CheckStmt(fs, fn, mid, els.value).value.1.next);
      }
    case While(_, body) =>
      StmtsDeclare(fs, fn, OpenScope(st), body);
    case _ =>
  }

  lemma DeclareNext(n: nat, st: State, x: Text, t: Type, kind: VarKind)
    requires st.scopes != [] && Declare(n, st, x, t, kind).Success?
    ensures Declare(n, st, x, t, kind).value.next == st.next + 1
  {
  }

  lemma {:induction false} StmtsDeclare(fs: seq<FunctionDecl>, fn: FunctionDecl, st: State, ss: seq<Stmt>)
    requires st.scopes != [] && CheckStmts(fs, fn, st, ss).Success?
    ensures AllDeclaredSlots(CheckStmts(fs, fn, st, ss).value.0) == Range(st.next, CheckStmts(fs, fn, st, ss).value.1.next)
    decreases ss
  {
    hide CheckStmt, Range;
    if ss == [] {
      RangeParts(st.next, st.next, st.next);
    } else {
      var mid := CheckStmt(fs, fn, st, ss[0]).value.1;
      StmtDeclares(fs, fn, st, ss[0]);
      StmtsDeclare(fs, fn, mid, ss[1..]);
      RangeParts(st.next, mid.next, CheckStmts(fs, fn, mid, ss[1..]).value.1.next);
    }
  }

  /**
    Shadowing, sibling blocks and loops make no difference: the declarations of a function have the slots
    behind its parameters, one each, and there are as many as the function reports.
   */
  lemma EveryDeclarationHasItsOwnSlot(fs: seq<FunctionDecl>, fn: FunctionDecl)
    requires CheckFunction(fs, fn).Success?
    ensures var a := CheckFunction(fs, fn).value;
            && 0 <= a.localCount && |fn.params| + a.localCount <= 256
            && AllDeclaredSlots(a.body) == Range(|fn.params|, |fn.params| + a.localCount)
  {
    hide CheckStmts;
    FunctionSlots(fs, fn);
    StmtsDeclare(fs, fn, DeclareParams(|fn.params|, State([map[]], 0), fn.params).value, fn.body);
  }
}
