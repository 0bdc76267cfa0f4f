/** What the checker accepts and how it annotates the tree: names become flat slots, expressions get types. */
module CheckerSpec {
  import opened Prelude
  import opened Bytes
  import opened Syntax
  import opened RuntimeApi
  import Semantics

  datatype CheckError =
    | DuplicateFunction
    | MissingMain
    | MainHasParameters
    | TooManyParameters
    | MissingReturn
    | TypeMismatch
    | UndefinedVariable
    | AssignToConst
    | AssignToParameter
    | ConditionNotBool
    | UnexpectedReturnValue
    | ExpectedReturnValue
    | NoValue
    | BadOperand
    | UndefinedFunction
    | UnknownRuntimeFunction
    | ArgumentCount
    | DuplicateName
    | TooManyVariables

  datatype VarKind = LET | CONST | PARAM

  datatype Variable = Variable(ty: Type, kind: VarKind, slot: nat)

  type Scopes = seq<map<Text, Variable>>

  /** The open scopes, outermost first, and the next free slot. Slots are never given back. */
  datatype State = State(scopes: Scopes, next: nat)

  const MAX_U8 := 255
  const MAX_SLOT := 255

  function Lookup(sc: Scopes, x: Text): Option<Variable> {
    var k := Semantics.FindLevel(sc, x);
    if k.None? then None else Some(sc[k.value][x])
  }

  /** Only the innermost scope may have changed, and slots have only been handed out. */
  ghost predicate Nested(before: State, after: State) {
    && |after.scopes| == |before.scopes| > 0
    && after.scopes[..|before.scopes| - 1] == before.scopes[..|before.scopes| - 1]
    && before.next <= after.next
  }

  function Declare(paramCount: nat, st: State, x: Text, ty: Type, kind: VarKind): (r: Result<State, CheckError>)
    requires st.scopes != []
    ensures r.Success? ==> Nested(st, r.value)
  {
    var top := |st.scopes| - 1;
    if x in st.scopes[top] then Failure(DuplicateName)
    else if st.next > MAX_SLOT || (kind != PARAM && st.next - paramCount >= MAX_U8) then Failure(TooManyVariables)
    else Success(State(st.scopes[top := st.scopes[top][x := Variable(ty, kind, st.next)]], st.next + 1))
  }

  // ---- Expressions ----

  /** The value of the expression is needed. */
  function ValueOf(r: Result<Expr, CheckError>): Result<Expr, CheckError> {
    if r.Success? && TypeOf(r.value).None? then Failure(NoValue) else r
  }

  function CheckExpr(fs: seq<FunctionDecl>, sc: Scopes, e: Expr): Result<Expr, CheckError>
    decreases e
  {
    match e
    case IntLit(_) => Success(e)
    case FloatLit(_) => Success(e)
    case BoolLit(_) => Success(e)
    case StringLit(_) => Success(e)
    case VarRef(x, _, _) =>
      var v := Lookup(sc, x);
      if v.None? then Failure(UndefinedVariable) else Success(VarRef(x, Some(v.value.ty), v.value.slot))
    case Unary(op, operand, _) =>
      var a :- ValueOf(CheckExpr(fs, sc, operand));
      var t := UnaryType(op, TypeOf(a).value);
      if t.None? then Failure(BadOperand) else Success(Unary(op, a, t))
    case Binary(op, left, right, _) =>
      var a :- ValueOf(CheckExpr(fs, sc, left));
      var b :- ValueOf(CheckExpr(fs, sc, right));
      var t := BinaryType(op, TypeOf(a).value, TypeOf(b).value);
      if t.None? then Failure(BadOperand) else Success(Binary(op, a, b, t))
    case Call(None, name, args, _, _) =>
      var i := IndexOf(fs, name);
      if i.None? then Failure(UndefinedFunction) else
      var fn := fs[i.value];
      if |args| != |fn.params| then Failure(ArgumentCount) else
      var as' :- CheckArgs(fs, sc, args, ParamTypes(fn.params));
      Success(Call(None, name, as', fn.returnType, i.value))
    case Call(Some(ns), name, args, _, index) =>
      var sig := SignatureOf(QualifiedName(ns, name));
      if sig.None? then Failure(UnknownRuntimeFunction)
      else if |args| != |sig.value.params| then Failure(ArgumentCount) else
      var as' :- CheckArgs(fs, sc, args, sig.value.params);
      Success(Call(Some(ns), name, as', sig.value.result, index))
  }

  function CheckArgs(fs: seq<FunctionDecl>, sc: Scopes, es: seq<Expr>, ts: seq<Type>): (r: Result<seq<Expr>, CheckError>)
    requires |es| == |ts|
    ensures r.Success? ==> |r.value| == |es|
    decreases es
  {
    if es == [] then Success([])
    else
      var a :- ValueOf(CheckExpr(fs, sc, es[0]));
      if TypeOf(a) != Some(ts[0]) then Failure(TypeMismatch) else
      var rest :- CheckArgs(fs, sc, es[1..], ts[1..]);
      Success([a] + rest)
  }

  function ParamTypes(ps: seq<Param>): (ts: seq<Type>)
    ensures |ts| == |ps|
    ensures forall i :: 0 <= i < |ps| ==> ts[i] == ps[i].ty
  {
    if ps == [] then [] else [ps[0].ty] + ParamTypes(ps[1..])
  }

  function UnaryType(op: UnaryOp, t: Type): Option<Type> {
    if op.NEG? && (t.TInt? || t.TFloat?) then Some(t)
    else if op.NOT? && t.TBool? then Some(TBool)
    else None
  }

  function BinaryType(op: BinaryOp, a: Type, b: Type): Option<Type> {
    var numeric := a == b && (a.TInt? || a.TFloat?);
    match op
    case ADD => if numeric then Some(a) else None
    case SUB => if numeric then Some(a) else None
    case MUL => if numeric then Some(a) else None
    case DIV => if numeric then Some(a) else None
    case LT => if numeric then Some(TBool) else None
    case LE => if numeric then Some(TBool) else None
    case GT => if numeric then Some(TBool) else None
    case GE => if numeric then Some(TBool) else None
    case EQ => if a == b then Some(TBool) else None
    case NE => if a == b then Some(TBool) else None
  }

  // ---- Statements ----

  function CheckCondition(fs: seq<FunctionDecl>, sc: Scopes, e: Expr): Result<Expr, CheckError> {
    var a :- ValueOf(CheckExpr(fs, sc, e));
    if TypeOf(a) != Some(TBool) then Failure(ConditionNotBool) else Success(a)
  }

  function CheckReturn(fs: seq<FunctionDecl>, fn: FunctionDecl, sc: Scopes, result: Option<Expr>): Result<Option<Expr>, CheckError> {
    if fn.returnType.None? then
      if result.Some? then Failure(UnexpectedReturnValue) else Success(None)
    else if result.None? then Failure(ExpectedReturnValue)
    else
      var a :- ValueOf(CheckExpr(fs, sc, result.value));
      if TypeOf(a) != fn.returnType then Failure(TypeMismatch) else Success(Some(a))
  }

  function OpenScope(st: State): State {
    st.(scopes := st.scopes + [map[]])
  }

  function CloseScope(st: State): State
    requires st.scopes != []
  {
    st.(scopes := st.scopes[..|st.scopes| - 1])
  }

  /** Leaving a block restores the scopes around it and keeps the slots handed out in it. */
  lemma BlockCloses(st: State, inner: State)
    requires st.scopes != [] && Nested(OpenScope(st), inner)
    ensures CloseScope(inner).scopes == st.scopes && Nested(st, CloseScope(inner))
  {
    assert OpenScope(st).scopes[..|st.scopes|] == st.scopes;
  }

  /** `fn` is the function being checked; the annotated statement comes with the state after it. */
  function CheckStmt(fs: seq<FunctionDecl>, fn: FunctionDecl, st: State, s: Stmt): (r: Result<(Stmt, State), CheckError>)
    requires st.scopes != []
    ensures r.Success? ==> Nested(st, r.value.1)
    ensures r.Success? && !s.VarDecl? && WellShaped(s) ==> r.value.1.scopes == st.scopes
    decreases s
  {
    match s
    case Block(ss) =>
      var r :- CheckStmts(fs, fn, OpenScope(st), ss);
      BlockCloses(st, r.1);
      Success((Block(r.0), CloseScope(r.1)))
    case VarDecl(isConst, x, declared, init, _) =>
      var a :- ValueOf(CheckExpr(fs, st.scopes, init));
      if declared.Some? && declared != TypeOf(a) then Failure(TypeMismatch) else
      var st1 :- Declare(|fn.params|, st, x, TypeOf(a).value, if isConst then CONST else LET);
      Success((VarDecl(isConst, x, declared, a, st.next), st1))
    case Assign(x, value, _) =>
      var v := Lookup(st.scopes, x);
      if v.None? then Failure(UndefinedVariable)
      else if v.value.kind.CONST? then Failure(AssignToConst)
      else if v.value.kind.PARAM? then Failure(AssignToParameter) else
      var a :- ValueOf(CheckExpr(fs, st.scopes, value));
      if TypeOf(a) != Some(v.value.ty) then Failure(TypeMismatch) else
      Success((Assign(x, a, v.value.slot), st))
    case If(cond, thn, els) =>
      var c :- CheckCondition(fs, st.scopes, cond);
      var t :- CheckStmts(fs, fn, OpenScope(st), thn);
      BlockCloses(st, t.1);
      var st1 := CloseScope(t.1);
      if els.None? then Success((If(c, t.0, None), st1)) else
      var e :- CheckStmt(fs, fn, st1, els.value);
      Success((If(c, t.0, Some(e.0)), e.1))
    case While(cond, body) =>
      var c :- CheckCondition(fs, st.scopes, cond);
      var b :- CheckStmts(fs, fn, OpenScope(st), body);
      BlockCloses(st, b.1);
      Success((While(c, b.0), CloseScope(b.1)))
    case Return(result) =>
      var r :- CheckReturn(fs, fn, st.scopes, result);
      Success((Return(r), st))
    case CallStmt(call) =>
      var a :- CheckExpr(fs, st.scopes, call);
      Success((CallStmt(a), st))
  }

  function CheckStmts(fs: seq<FunctionDecl>, fn: FunctionDecl, st: State, ss: seq<Stmt>): (r: Result<(seq<Stmt>, State), CheckError>)
    requires st.scopes != []
    ensures r.Success? ==> |r.value.0| == |ss|
    ensures r.Success? ==> Nested(st, r.value.1)
    decreases ss
  {
    if ss == [] then Success(([], st))
    else
      var head :- CheckStmt(fs, fn, st, ss[0]);
      var rest :- CheckStmts(fs, fn, head.1, ss[1..]);
      Success(([head.0] + rest.0, rest.1))
  }

  // ---- Functions ----

  function DeclareParams(paramCount: nat, st: State, ps: seq<Param>): (r: Result<State, CheckError>)
    requires st.scopes != []
    ensures r.Success? ==> Nested(st, r.value) && r.value.next == st.next + |ps|
    decreases ps
  {
    if ps == [] then Success(st)
    else
      var st1 :- Declare(paramCount, st, ps[0].name, ps[0].ty, PARAM);
      DeclareParams(paramCount, st1, ps[1..])
  }

  function CheckFunction(fs: seq<FunctionDecl>, fn: FunctionDecl): Result<FunctionDecl, CheckError> {
    if |fn.params| > MAX_U8 then Failure(TooManyParameters) else
    var st :- DeclareParams(|fn.params|, State([map[]], 0), fn.params);
    var body :- CheckStmts(fs, fn, st, fn.body);
    if fn.returnType.Some? && !AnyReturns(fn.body) then Failure(MissingReturn)
    else Success(fn.(body := body.0, localCount := body.1.next - |fn.params|))
  }

  function CheckFunctions(fs: seq<FunctionDecl>, rest: seq<FunctionDecl>): (r: Result<seq<FunctionDecl>, CheckError>)
    ensures r.Success? ==> |r.value| == |rest|
    ensures r.Success? ==> forall i :: 0 <= i < |rest| ==> CheckFunction(fs, rest[i]) == Success(r.value[i])
  {
    if rest == [] then Success([])
    else
      var head :- CheckFunction(fs, rest[0]);
      var tail :- CheckFunctions(fs, rest[1..]);
      Success([head] + tail)
  }

  predicate DistinctNames(fs: seq<FunctionDecl>) {
    forall i, j :: 0 <= i < j < |fs| ==> fs[i].name != fs[j].name
  }

  function CheckProgram(fs: seq<FunctionDecl>): Result<seq<FunctionDecl>, CheckError> {
    if !DistinctNames(fs) then Failure(DuplicateFunction) else
    var main := IndexOf(fs, MAIN);
    if main.None? then Failure(MissingMain)
    else if fs[main.value].params != [] then Failure(MainHasParameters)
    else CheckFunctions(fs, fs)
  }
}
