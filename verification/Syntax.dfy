/** The syntax tree of `.tc`. Fields named `ty`, `slot`, `index` and `localCount` are filled in by the checker. */
module Syntax {
  import opened Prelude
  import opened Bytes
  import opened Floats

  datatype Type = TInt | TFloat | TBool | TString

  datatype UnaryOp = NEG | NOT

  datatype BinaryOp = ADD | SUB | MUL | DIV | EQ | NE | LT | LE | GT | GE

  datatype Expr =
    | IntLit(n: I64)
    | FloatLit(f: Finite)
    | BoolLit(b: bool)
    | StringLit(t: Text)
    | VarRef(name: Text, ty: Option<Type>, slot: int)
    | Unary(uop: UnaryOp, operand: Expr, ty: Option<Type>)
    | Binary(op: BinaryOp, left: Expr, right: Expr, ty: Option<Type>)
    | Call(namespace: Option<Text>, name: Text, args: seq<Expr>, ty: Option<Type>, index: int)

  /** The static type of a checked expression; `None` for a call that yields no value. */
  function TypeOf(e: Expr): Option<Type> {
    match e
    case IntLit(_) => Some(TInt)
    case FloatLit(_) => Some(TFloat)
    case BoolLit(_) => Some(TBool)
    case StringLit(_) => Some(TString)
    case VarRef(_, ty, _) => ty
    case Unary(_, _, ty) => ty
    case Binary(_, _, _, ty) => ty
    case Call(_, _, _, ty, _) => ty
  }

  function QualifiedName(namespace: Text, name: Text): Text {
    namespace + Ascii(".") + name
  }

  datatype Stmt =
    | Block(body: seq<Stmt>)
    | VarDecl(isConst: bool, name: Text, declared: Option<Type>, init: Expr, slot: int)
    | Assign(name: Text, value: Expr, slot: int)
    | If(cond: Expr, thn: seq<Stmt>, els: Option<Stmt>)
    | While(cond: Expr, body: seq<Stmt>)
    | Return(result: Option<Expr>)
    | CallStmt(call: Expr)

  /** True if every path through the statement ends in `return`. A loop never counts: its body may not run. */
  predicate AlwaysReturns(s: Stmt) {
    match s
    case Return(_) => true
    case Block(ss) => AnyReturns(ss)
    case If(_, thn, els) => els.Some? && AnyReturns(thn) && AlwaysReturns(els.value)
    case _ => false
  }

  predicate AnyReturns(ss: seq<Stmt>) {
    ss != [] && (AlwaysReturns(ss[0]) || AnyReturns(ss[1..]))
  }

  /** The grammar puts only a block or another `if` after `else`. */
  predicate WellShaped(s: Stmt) {
    match s
    case Block(ss) => AllShaped(ss)
    case If(_, thn, els) =>
      && AllShaped(thn)
      && (els.Some? ==> (els.value.Block? || els.value.If?) && WellShaped(els.value))
    case While(_, ss) => AllShaped(ss)
    case _ => true
  }

  predicate AllShaped(ss: seq<Stmt>) {
    ss == [] || (WellShaped(ss[0]) && AllShaped(ss[1..]))
  }

  datatype Param = Param(name: Text, ty: Type)

  datatype FunctionDecl = FunctionDecl(
    name: Text,
    params: seq<Param>,
    returnType: Option<Type>,
    body: seq<Stmt>,
    localCount: int)

  /** The first function with the given name. */
  function IndexOf(fs: seq<FunctionDecl>, name: Text): (r: Option<nat>)
    ensures r.Some? ==> r.value < |fs| && fs[r.value].name == name
    ensures r.None? ==> forall f :: f in fs ==> f.name != name
  {
    if fs == [] then None
    else if fs[0].name == name then Some(0)
    else
      var r := IndexOf(fs[1..], name);
      assert fs == [fs[0]] + fs[1..];
      if r.None? then None else Some(r.value + 1)
  }

  const MAIN: Text := Ascii("main")
}
