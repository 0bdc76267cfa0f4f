/** The byte code of a checked tree, as a function of the tree, the constant pool so far and the start offset. */
module CodeGenSpec {
  import opened Prelude
  import opened Bytes
  import opened Values
  import opened Syntax
  import opened Bytecode

  datatype GenError =
    | TooManyFunctions
    | TooManyConstants
    | TooManyTemporaries
    | TooManyLocals
    | CodeTooLarge   // the JVM holds at most 2^31 - 1 bytes in one list

  const MAX_CODE := 0x7FFF_FFFF

  /** What code generation carries along: the constant pool and the deepest temporary of the function. */
  datatype Gen = Gen(pool: seq<Value>, maxTemp: nat) {
    ghost predicate GrowsTo(after: Gen) {
      pool <= after.pool && maxTemp <= after.maxTemp
    }
  }

  datatype Emitted = Emitted(code: seq<Byte>, g: Gen)

  function Max(a: nat, b: nat): nat {
    if a < b then b else a
  }

  // ---- Constant pool ----

  /** Where a constant is in the pool, or the pool's length if it is not there. */
  function PoolIndex(pool: seq<Value>, c: Value): (i: nat)
    ensures i <= |pool|
    ensures i < |pool| ==> pool[i] == c
    ensures c !in pool[..i]
  {
    if pool == [] then 0
    else if pool[0] == c then 0
    else 1 + PoolIndex(pool[1..], c)
  }

  /** Equal constants share one index. */
  function Intern(g: Gen, c: Value): (r: Result<(nat, Gen), GenError>)
    ensures r.Success? ==> g.GrowsTo(r.value.1) && r.value.1.maxTemp == g.maxTemp
    ensures r.Success? ==> r.value.0 < |r.value.1.pool| && r.value.1.pool[r.value.0] == c && r.value.0 <= MAX_U16
  {
    var i := PoolIndex(g.pool, c);
    if i > MAX_U16 then Failure(TooManyConstants)
    else if i < |g.pool| then Success((i, g))
    else Success((i, g.(pool := g.pool + [c])))
  }

  function GenConst(g: Gen, c: Value): (r: Result<Emitted, GenError>)
    ensures r.Success? ==> g.GrowsTo(r.value.g)
  {
    var k :- Intern(g, c);
    Success(Emitted(Encode(PushConst(k.0)), k.1))
  }

  // ---- Expressions ----

  predicate Swapped(op: BinaryOp) {
    op.GT? || op.LE?
  }

  function OperatorCode(op: BinaryOp, float: bool): seq<Byte> {
    match op
    case ADD => Encode(if float then FAdd else Add)
    case SUB => Encode(if float then FSub else Sub)
    case MUL => Encode(if float then FMul else Mul)
    case DIV => Encode(if float then FDiv else Div)
    case EQ => Encode(if float then FCmpEq else CmpEq)
    case NE => Encode(if float then FCmpEq else CmpEq) + Encode(Not)
    case LT => Encode(if float then FCmpLt else CmpLt)
    case GT => Encode(if float then FCmpLt else CmpLt)
    case LE => Encode(if float then FCmpLt else CmpLt) + Encode(Not)
    case GE => Encode(if float then FCmpLt else CmpLt) + Encode(Not)
  }

  /** `base` is the first temporary slot of the function and `depth` the number of temporaries in use. */
  function GenExpr(e: Expr, g: Gen, base: int, depth: nat): (r: Result<Emitted, GenError>)
    ensures r.Success? ==> g.GrowsTo(r.value.g)
    decreases e
  {
    match e
    case IntLit(n) => GenConst(g, IntV(n))
    case FloatLit(f) => GenConst(g, FloatV(f))
    case BoolLit(b) => GenConst(g, IntV(if b then 1 else 0))
    case StringLit(t) => GenConst(g, StringV(t))
    case VarRef(_, _, slot) => Success(Emitted(Encode(Load(slot)), g))
    case Unary(NEG, operand, ty) =>
      if ty == Some(TFloat) then
        var x :- GenExpr(operand, g, base, depth);
        Success(Emitted(x.code + Encode(FNeg), x.g))
      else
        var zero :- GenConst(g, IntV(0));
        var x :- GenExpr(operand, zero.g, base, depth);
        Success(Emitted(zero.code + x.code + Encode(Sub), x.g))
    case Unary(NOT, operand, _) =>
      var x :- GenExpr(operand, g, base, depth);
      Success(Emitted(x.code + Encode(Not), x.g))
    case Binary(op, left, right, _) =>
      var float := TypeOf(left) == Some(TFloat);
      if Swapped(op) then
        var slot := base + depth;
        if slot > 255 then Failure(TooManyTemporaries) else
        var l :- GenExpr(left, g.(maxTemp := Max(g.maxTemp, depth + 1)), base, depth + 1);
        var r :- GenExpr(right, l.g, base, depth + 1);
        Success(Emitted(l.code + Encode(Store(slot)) + r.code + Encode(Load(slot)) + OperatorCode(op, float), r.g))
      else
        var l :- GenExpr(left, g, base, depth);
        var r :- GenExpr(right, l.g, base, depth);
        Success(Emitted(l.code + r.code + OperatorCode(op, float), r.g))
    case Call(namespace, name, args, _, index) =>
      var a :- GenArgs(args, g, base, depth);
      if namespace.None? then
        Success(Emitted(a.code + Encode(Bytecode.Call(index, |args|)), a.g))
      else
        var k :- Intern(a.g, StringV(QualifiedName(namespace.value, name)));
        Success(Emitted(a.code + Encode(CallRuntime(k.0, |args|)), k.1))
  }

  function GenArgs(es: seq<Expr>, g: Gen, base: int, depth: nat): (r: Result<Emitted, GenError>)
    ensures r.Success? ==> g.GrowsTo(r.value.g)
    decreases es
  {
    if es == [] then Success(Emitted([], g))
    else
      var head :- GenExpr(es[0], g, base, depth);
      var rest :- GenArgs(es[1..], head.g, base, depth);
      Success(Emitted(head.code + rest.code, rest.g))
  }

  // ---- Statements ----

  function ReturnZero(g: Gen): (r: Result<Emitted, GenError>)
    ensures r.Success? ==> g.GrowsTo(r.value.g)
  {
    var zero :- GenConst(g, IntV(0));
    Success(Emitted(zero.code + Encode(Ret), zero.g))
  }

  /** `at` is the offset of the first byte; jump targets are absolute. */
  function GenStmt(s: Stmt, g: Gen, base: int, at: nat): (r: Result<Emitted, GenError>)
    ensures r.Success? ==> g.GrowsTo(r.value.g)
    decreases s
  {
    match s
    case Block(ss) => GenStmts(ss, g, base, at)
    case VarDecl(_, _, _, init, slot) =>
      var x :- GenExpr(init, g, base, 0);
      Success(Emitted(x.code + Encode(Store(slot)), x.g))
    case Assign(_, value, slot) =>
      var x :- GenExpr(value, g, base, 0);
      Success(Emitted(x.code + Encode(Store(slot)), x.g))
    case If(cond, thn, els) =>
      var c :- GenExpr(cond, g, base, 0);
      var thenAt := at + |c.code| + 5;
      var t :- GenStmts(thn, c.g, base, thenAt);
      var thenEnd := thenAt + |t.code|;
      if els.None? then
        Success(Emitted(c.code + Encode(JmpIfFalse(thenEnd)) + t.code, t.g))
      else if AnyReturns(thn) then
        var e :- GenStmt(els.value, t.g, base, thenEnd);
        Success(Emitted(c.code + Encode(JmpIfFalse(thenEnd)) + t.code + e.code, e.g))
      else
        var elseAt := thenEnd + 5;
        var e :- GenStmt(els.value, t.g, base, elseAt);
        Success(Emitted(c.code + Encode(JmpIfFalse(elseAt)) + t.code + Encode(Jmp(elseAt + |e.code|)) + e.code, e.g))
    case While(cond, body) =>
      var c :- GenExpr(cond, g, base, 0);
      var bodyAt := at + |c.code| + 5;
      var b :- GenStmts(body, c.g, base, bodyAt);
      var end := bodyAt + |b.code| + 5;
      Success(Emitted(c.code + Encode(JmpIfFalse(end)) + b.code + Encode(Jmp(at)), b.g))
    case Return(result) =>
      if result.None? then ReturnZero(g) else
      var x :- GenExpr(result.value, g, base, 0);
      Success(Emitted(x.code + Encode(Ret), x.g))
    case CallStmt(call) =>
      var x :- GenExpr(call, g, base, 0);
      Success(Emitted(x.code + Encode(Bytecode.Pop), x.g))
  }

  function GenStmts(ss: seq<Stmt>, g: Gen, base: int, at: nat): (r: Result<Emitted, GenError>)
    ensures r.Success? ==> g.GrowsTo(r.value.g)
    decreases ss
  {
    if ss == [] then Success(Emitted([], g))
    else
      var head :- GenStmt(ss[0], g, base, at);
      var rest :- GenStmts(ss[1..], head.g, base, at + |head.code|);
      Success(Emitted(head.code + rest.code, rest.g))
  }

  // ---- Functions ----

  /** The body, and for a function without a return type the code that returns zero at its end. */
  function GenBody(fn: FunctionDecl, g: Gen): (r: Result<Emitted, GenError>)
    ensures r.Success? ==> g.GrowsTo(r.value.g)
  {
    var body :- GenStmts(fn.body, g, |fn.params| + fn.localCount, 0);
    if fn.returnType.Some? then Success(body) else
    var tail :- ReturnZero(body.g);
    Success(Emitted(body.code + tail.code, tail.g))
  }

  function GenFunction(fn: FunctionDecl, pool: seq<Value>): (r: Result<(Function, seq<Value>), GenError>)
    ensures r.Success? ==> pool <= r.value.1
  {
    var b :- GenBody(fn, Gen(pool, 0));
    if |b.code| > MAX_CODE then Failure(CodeTooLarge)
    else if fn.localCount + b.g.maxTemp > 255 || |fn.params| + fn.localCount + b.g.maxTemp > 256 then Failure(TooManyLocals)
    else Success((Function(fn.name, |fn.params|, fn.localCount + b.g.maxTemp, b.code), b.g.pool))
  }

  function GenFunctions(fns: seq<FunctionDecl>, pool: seq<Value>): (r: Result<(seq<Function>, seq<Value>), GenError>)
    ensures r.Success? ==> pool <= r.value.1 && |r.value.0| == |fns|
    decreases fns
  {
    if fns == [] then Success(([], pool))
    else
      var head :- GenFunction(fns[0], pool);
      var rest :- GenFunctions(fns[1..], head.1);
      Success(([head.0] + rest.0, rest.1))
  }

  // ---- Bytecode version ----

  predicate ExprContainsFloat(e: Expr) {
    match e
    case FloatLit(_) => true
    case Unary(_, operand, ty) => ty == Some(TFloat) || ExprContainsFloat(operand)
    case Binary(_, left, right, ty) => ty == Some(TFloat) || ExprContainsFloat(left) || ExprContainsFloat(right)
    case Call(_, _, args, ty, _) => ty == Some(TFloat) || ArgsContainFloat(args)
    case _ => TypeOf(e) == Some(TFloat)
  }

  predicate ArgsContainFloat(es: seq<Expr>) {
    es != [] && (ExprContainsFloat(es[0]) || ArgsContainFloat(es[1..]))
  }

  predicate StmtContainsFloat(s: Stmt) {
    match s
    case Block(ss) => StmtsContainFloat(ss)
    case VarDecl(_, _, declared, init, _) => declared == Some(TFloat) || ExprContainsFloat(init)
    case Assign(_, value, _) => ExprContainsFloat(value)
    case If(cond, thn, els) =>
      ExprContainsFloat(cond) || StmtsContainFloat(thn) || (els.Some? && StmtContainsFloat(els.value))
    case While(cond, body) => ExprContainsFloat(cond) || StmtsContainFloat(body)
    case Return(result) => result.Some? && ExprContainsFloat(result.value)
    case CallStmt(call) => ExprContainsFloat(call)
  }

  predicate StmtsContainFloat(ss: seq<Stmt>) {
    ss != [] && (StmtContainsFloat(ss[0]) || StmtsContainFloat(ss[1..]))
  }

  predicate FunctionUsesFloat(fn: FunctionDecl) {
    || fn.returnType == Some(TFloat)
    || (exists p :: p in fn.params && p.ty == TFloat)
    || StmtsContainFloat(fn.body)
  }

  /** The program has a `main`: the checker saw to it. */
  function Generate(fns: seq<FunctionDecl>): Result<Module, GenError>
    requires IndexOf(fns, MAIN).Some?
  {
    if |fns| > MAX_U16 + 1 then Failure(TooManyFunctions) else
    var r :- GenFunctions(fns, []);
    Success(Module(r.1, r.0, IndexOf(fns, MAIN).value, exists fn :: fn in fns && FunctionUsesFloat(fn)))
  }
}
