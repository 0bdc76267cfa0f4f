/** The code generator as it runs: it appends to the code of the current function and patches forward jumps. */
module CodeGenerator {
  import opened Prelude
  import opened Bytes
  import opened Values
  import opened Syntax
  import opened Bytecode
  import opened Builders
  import Spec = CodeGenSpec

  type Emitted = Spec.Emitted
  type GenError = Spec.GenError

  /** The code was appended as specified, or the specified error was raised. */
  ghost predicate Does(r: Result<Emitted, GenError>, err: Option<GenError>, before: seq<Byte>, after: seq<Byte>, g: Spec.Gen) {
    match r
    case Success(x) => err.None? && after == before + x.code && g == x.g
    case Failure(e) => err == Some(e)
  }

  /** What was emitted so far, in front of the rest. */
  ghost function Behind(done: seq<Byte>, rest: Result<Emitted, GenError>): Result<Emitted, GenError> {
    if rest.Failure? then rest else Success(Spec.Emitted(done + rest.value.code, rest.value.g))
  }

  lemma BehindNothing(rest: Result<Emitted, GenError>)
    ensures Behind([], rest) == rest
  {
    if rest.Success? {
      assert [] + rest.value.code == rest.value.code;
    }
  }

  /** One statement of a list, and then the others. */
  lemma StmtsStep(ss: seq<Stmt>, i: nat, g: Spec.Gen, base: int, at: nat, done: seq<Byte>)
    requires i < |ss|
    ensures var head := Spec.GenStmt(ss[i], g, base, at);
            Behind(done, Spec.GenStmts(ss[i..], g, base, at)) ==
            if head.Failure? then head
            else Behind(done + head.value.code, Spec.GenStmts(ss[i + 1..], head.value.g, base, at + |head.value.code|))
  {
    hide Spec.GenStmt;
    assert ss[i..][0] == ss[i] && ss[i..][1..] == ss[i + 1..];
    var head := Spec.GenStmt(ss[i], g, base, at);
    if head.Success? {
      var rest := Spec.GenStmts(ss[i + 1..], head.value.g, base, at + |head.value.code|);
      if rest.Success? {
        assert done + (head.value.code + rest.value.code) == done + head.value.code + rest.value.code;
      }
    }
  }

  lemma StmtsEnd(ss: seq<Stmt>, g: Spec.Gen, base: int, at: nat, done: seq<Byte>)
    ensures Behind(done, Spec.GenStmts(ss[|ss|..], g, base, at)) == Success(Spec.Emitted(done, g))
  {
    assert done + [] == done;
  }

  /** The instructions without operands that are emitted by their opcode. */
  lemma PlainCodes()
    ensures Encode(Add) == [0x04] && Encode(Sub) == [0x05] && Encode(Mul) == [0x06] && Encode(Div) == [0x07]
    ensures Encode(CmpEq) == [0x08] && Encode(CmpLt) == [0x09] && Encode(Ret) == [0x0E] && Encode(Pop) == [0x0F] && Encode(Not) == [0x10]
    ensures Encode(FAdd) == [0x11] && Encode(FSub) == [0x12] && Encode(FMul) == [0x13] && Encode(FDiv) == [0x14] && Encode(FNeg) == [0x15]
    ensures Encode(FCmpEq) == [0x16] && Encode(FCmpLt) == [0x17]
  {
  }

  class CodeGen {
    const pool: ConstantPool
    var code: CodeBuilder
    var tempBase: int
    var tempDepth: nat
    var maxTempDepth: nat

    constructor ()
      ensures Valid() && fresh(pool) && fresh(code) && pool.constants == []
    {
      pool := new ConstantPool();
      code := new CodeBuilder();
      tempBase, tempDepth, maxTempDepth := 0, 0, 0;
    }

    ghost predicate Valid()
      reads this, pool
    {
      pool.Valid()
    }

    ghost function Progress(): Spec.Gen
      reads this, pool
    {
      Spec.Gen(pool.constants, maxTempDepth)
    }

    method PushConstant(c: Value) returns (err: Option<GenError>)
      requires Valid()
      modifies pool, code
      ensures Valid() && Does(Spec.GenConst(old(Progress()), c), err, old(code.bytes), code.bytes, Progress())
    {
      hide ConstantPool.Valid, Spec.PoolIndex;
      var k: nat;
      k, err := Constant(c);
      if err.Some? {
        return;
      }
      code.PushConst(k);
    }

    /** The index of a constant, which has to fit 16 bits. */
    method Constant(c: Value) returns (k: nat, err: Option<GenError>)
      requires Valid()
      modifies pool
      ensures Valid()
      ensures match Spec.Intern(old(Progress()), c)
              case Success((i, g)) => err.None? && k == i && Progress() == g
              case Failure(e) => err == Some(e)
    {
      hide ConstantPool.Valid, Spec.PoolIndex;
      ghost var constants := pool.constants;
      assert constants + [] == constants;
      match c {
        case IntV(n) => k := pool.IntConstant(n);
        case FloatV(f) => k := pool.FloatConstant(f);
        case StringV(t) => k := pool.StringConstant(t);
      }
      err := if k > MAX_U16 then Some(Spec.TooManyConstants) else None;
    }

    method EmitReturnZero() returns (err: Option<GenError>)
      requires Valid()
      modifies pool, code
      ensures Valid() && Does(Spec.ReturnZero(old(Progress())), err, old(code.bytes), code.bytes, Progress())
    {
      hide Encode, Bytes.LE, ConstantPool.Valid, Spec.Intern, Spec.GenConst, Spec.PoolIndex;
      PlainCodes();
      err := PushConstant(IntV(0));
      if err.Some? {
        return;
      }
      code.Op(0x0E);
    }

    // ---- Expressions ----

    method GenExpr(e: Expr) returns (err: Option<GenError>)
      requires Valid()
      modifies this`tempDepth, this`maxTempDepth, pool, code
      ensures Valid() && Does(Spec.GenExpr(e, old(Progress()), tempBase, old(tempDepth)), err, old(code.bytes), code.bytes, Progress())
      ensures err.None? ==> tempDepth == old(tempDepth)
      decreases e, 1
    {
      hide ConstantPool.Valid, Spec.GenConst, Spec.Intern, Spec.PoolIndex;
      match e {
        case IntLit(n) => err := PushConstant(IntV(n));
        case FloatLit(f) => err := PushConstant(FloatV(f));
        case BoolLit(b) => err := PushConstant(IntV(if b then 1 else 0));
        case StringLit(t) => err := PushConstant(StringV(t));
        case VarRef(_, _, slot) =>
          code.Load(slot);
          err := None;
        case Unary(op, operand, ty) =>
          err := GenUnary(e);
        case Binary(_, _, _, _) =>
          err := GenBinary(e);
        case Call(namespace, name, args, _, index) =>
          err := GenCall(e);
      }
    }

    method GenUnary(e: Expr) returns (err: Option<GenError>)
      requires Valid() && e.Unary?
      modifies this`tempDepth, this`maxTempDepth, pool, code
      ensures Valid() && Does(Spec.GenExpr(e, old(Progress()), tempBase, old(tempDepth)), err, old(code.bytes), code.bytes, Progress())
      ensures err.None? ==> tempDepth == old(tempDepth)
      decreases e, 0
    {
      hide Encode, Bytes.LE, ConstantPool.Valid, Spec.Intern, Spec.GenConst, Spec.PoolIndex;
      PlainCodes();
      if e.uop.NEG? && e.ty != Some(TFloat) {
        err := PushConstant(IntV(0));
        if err.Some? { return; }
        err := GenExpr(e.operand);
        if err.Some? { return; }
        code.Op(0x05);
      } else {
        err := GenExpr(e.operand);
        if err.Some? { return; }
        code.Op(if e.uop.NEG? then 0x15 else 0x10);
      }
    }

    method GenBinary(e: Expr) returns (err: Option<GenError>)
      requires Valid() && e.Binary?
      modifies this`tempDepth, this`maxTempDepth, pool, code
      ensures Valid() && Does(Spec.GenExpr(e, old(Progress()), tempBase, old(tempDepth)), err, old(code.bytes), code.bytes, Progress())
      ensures err.None? ==> tempDepth == old(tempDepth)
      decreases e, 0
    {
      hide Encode, Bytes.LE, ConstantPool.Valid, Spec.GenExpr, Spec.OperatorCode;
      ghost var start, g := code.bytes, Progress();
      if e.op.GT? || e.op.LE? {
        // Evaluate left first, then compare right < left.
        SwappedBinary(e, g, tempBase, tempDepth);
        var slot := tempBase + tempDepth;
        if slot > 255 {
          return Some(Spec.TooManyTemporaries);
        }
        tempDepth := tempDepth + 1;
        maxTempDepth := Spec.Max(maxTempDepth, tempDepth);
        err := GenExpr(e.left);
        if err.Some? { return; }
        code.Store(slot);
        err := GenExpr(e.right);
        if err.Some? { return; }
        code.Load(slot);
        tempDepth := tempDepth - 1;
        ghost var l := Spec.GenExpr(e.left, g.(maxTemp := Spec.Max(g.maxTemp, tempDepth + 1)), tempBase, tempDepth + 1).value;
        ghost var r := Spec.GenExpr(e.right, l.g, tempBase, tempDepth + 1).value;
        Regroup(start, l.code, Encode(Store(slot)), r.code, Encode(Load(slot)), Spec.OperatorCode(e.op, TypeOf(e.left) == Some(TFloat)));
      } else {
        PlainBinary(e, g, tempBase, tempDepth);
        err := GenExpr(e.left);
        if err.Some? { return; }
        err := GenExpr(e.right);
        if err.Some? { return; }
      }
      Operator(e.op, TypeOf(e.left) == Some(TFloat));
    }

    method Operator(op: BinaryOp, float: bool)
      modifies code
      ensures code.bytes == old(code.bytes) + Spec.OperatorCode(op, float)
    {
      hide Encode;
      PlainCodes();
      match op {
        case ADD => code.Op(if float then 0x11 else 0x04);
        case SUB => code.Op(if float then 0x12 else 0x05);
        case MUL => code.Op(if float then 0x13 else 0x06);
        case DIV => code.Op(if float then 0x14 else 0x07);
        case EQ => code.Op(if float then 0x16 else 0x08);
        case NE => code.Op(if float then 0x16 else 0x08); code.Op(0x10);
        case LT => code.Op(if float then 0x17 else 0x09);
        case GT => code.Op(if float then 0x17 else 0x09);
        case LE => code.Op(if float then 0x17 else 0x09); code.Op(0x10);
        case GE => code.Op(if float then 0x17 else 0x09); code.Op(0x10);
      }
    }

    method GenCall(e: Expr) returns (err: Option<GenError>)
      requires Valid() && e.Call?
      modifies this`tempDepth, this`maxTempDepth, pool, code
      ensures Valid() && Does(Spec.GenExpr(e, old(Progress()), tempBase, old(tempDepth)), err, old(code.bytes), code.bytes, Progress())
      ensures err.None? ==> tempDepth == old(tempDepth)
      decreases e, 0
    {
      hide Encode, Bytes.LE, ConstantPool.Valid, Spec.GenConst, Spec.PoolIndex;
      PlainCodes();
      err := GenArgs(e.args);
      if err.Some? { return; }
      if e.namespace.None? {
        code.Call(e.index, |e.args|);
      } else {
        var k: nat;
        k, err := Constant(StringV(QualifiedName(e.namespace.value, e.name)));
        if err.Some? { return; }
        code.CallRuntime(k, |e.args|);
      }
    }

    /** Left to right. */
    method GenArgs(es: seq<Expr>) returns (err: Option<GenError>)
      requires Valid()
      modifies this`tempDepth, this`maxTempDepth, pool, code
      ensures Valid() && Does(Spec.GenArgs(es, old(Progress()), tempBase, old(tempDepth)), err, old(code.bytes), code.bytes, Progress())
      ensures err.None? ==> tempDepth == old(tempDepth)
      decreases es
    {
      hide Encode, Bytes.LE, ConstantPool.Valid, Spec.Intern, Spec.GenConst, Spec.PoolIndex, Spec.GenExpr;
      PlainCodes();
      ghost var whole := Spec.GenArgs(es, Progress(), tempBase, tempDepth);
      ghost var done: seq<Byte> := [];
      assert es[0..] == es && (whole.Success? ==> [] + whole.value.code == whole.value.code);
      for i := 0 to |es|
        invariant Valid() && tempDepth == old(tempDepth)
        invariant code.bytes == old(code.bytes) + done
        invariant match Spec.GenArgs(es[i..], Progress(), tempBase, tempDepth)
                  case Success(x) => whole == Success(Spec.Emitted(done + x.code, x.g))
                  case Failure(f) => whole == Failure(f)
      {
        ghost var g := Progress();
        assert es[i..][0] == es[i] && es[i..][1..] == es[i + 1..];
        err := GenExpr(es[i]);
        if err.Some? { return; }
        ghost var head, rest := Spec.GenExpr(es[i], g, tempBase, tempDepth).value, Spec.GenArgs(es[i + 1..], Progress(), tempBase, tempDepth);
        assert rest.Success? ==> done + (head.code + rest.value.code) == done + head.code + rest.value.code;
        done := done + head.code;
      }
      err := None;
    }

    // ---- Statements ----

    method GenStatements(ss: seq<Stmt>) returns (err: Option<GenError>)
      requires Valid() && tempDepth == 0
      modifies this`tempDepth, this`maxTempDepth, pool, code
      ensures Valid() && Does(Spec.GenStmts(ss, old(Progress()), tempBase, |old(code.bytes)|), err, old(code.bytes), code.bytes, Progress())
      ensures err.None? ==> tempDepth == 0
      decreases ss
    {
      hide ConstantPool.Valid, Spec.GenStmt, Spec.GenStmts, Behind;
      ghost var whole := Spec.GenStmts(ss, Progress(), tempBase, |code.bytes|);
      ghost var done: seq<Byte> := [];
      assert ss[0..] == ss;
      BehindNothing(whole);
      for i := 0 to |ss|
        invariant Valid() && tempDepth == 0
        invariant code.bytes == old(code.bytes) + done
        invariant whole == Behind(done, Spec.GenStmts(ss[i..], Progress(), tempBase, |code.bytes|))
      {
        ghost var head := Spec.GenStmt(ss[i], Progress(), tempBase, |code.bytes|);
        StmtsStep(ss, i, Progress(), tempBase, |code.bytes|, done);
        err := GenStmt(ss[i]);
        if err.Some? { return; }
        done := done + head.value.code;
      }
      StmtsEnd(ss, Progress(), tempBase, |code.bytes|, done);
      err := None;
    }

    method GenStmt(s: Stmt) returns (err: Option<GenError>)
      requires Valid() && tempDepth == 0
      modifies this`tempDepth, this`maxTempDepth, pool, code
      ensures Valid() && Does(Spec.GenStmt(s, old(Progress()), tempBase, |old(code.bytes)|), err, old(code.bytes), code.bytes, Progress())
      ensures err.None? ==> tempDepth == 0
      decreases s, 1
    {
      hide Encode, Bytes.LE, ConstantPool.Valid, Spec.Intern, Spec.GenConst, Spec.PoolIndex, Spec.GenExpr, Spec.GenStmts;
      PlainCodes();
      match s {
        case Block(ss) => err := GenStatements(ss);
        case VarDecl(_, _, _, init, slot) =>
          err := GenExpr(init);
          if err.Some? { return; }
          code.Store(slot);
        case Assign(_, value, slot) =>
          err := GenExpr(value);
          if err.Some? { return; }
          code.Store(slot);
        case If(_, _, _) => err := GenIf(s);
        case While(_, _) => err := GenWhile(s);
        case Return(result) =>
          if result.None? {
            err := EmitReturnZero();
          } else {
            err := GenExpr(result.value);
            if err.Some? { return; }
            code.Op(0x0E);
          }
        case CallStmt(call) =>
          err := GenExpr(call);
          if err.Some? { return; }
          code.Op(0x0F); // discard the one value every call leaves on the stack
      }
    }

    method GenIf(s: Stmt) returns (err: Option<GenError>)
      requires Valid() && tempDepth == 0 && s.If?
      modifies this`tempDepth, this`maxTempDepth, pool, code
      ensures Valid() && Does(Spec.GenStmt(s, old(Progress()), tempBase, |old(code.bytes)|), err, old(code.bytes), code.bytes, Progress())
      ensures err.None? ==> tempDepth == 0
      decreases s, 0
    {
      hide Encode, Bytes.LE, ConstantPool.Valid, Spec.GenExpr, Spec.GenStmts, Spec.GenStmt, AnyReturns;
      ghost var start, g := code.bytes, Progress();
      IfFails(s, g, tempBase, |start|);
      err := GenExpr(s.cond);
      if err.Some? { return; }
      ghost var c := Spec.GenExpr(s.cond, g, tempBase, 0).value;
      var toElse := code.JumpForward(0x0B);
      err := GenStatements(s.thn);
      if err.Some? { return; }
      ghost var t := Spec.GenStmts(s.thn, c.g, tempBase, |start| + |c.code| + 5).value;
      if s.els.None? {
        ghost var open := code.bytes;
        code.Patch(toElse, |code.bytes|);
        assert open == start + c.code + [0x0B] + Bytes.LE(0, 4) + t.code + [];
        ElseOpened(start, c.code, t.code, [], |open|, open, code.bytes);
        IfCode(s, g, tempBase, |start|, c, t);
        return;
      }
      err := GenElse(s, start, g, c, t, toElse);
    }

    /** The `else` branch: `toElse` still waits for its target. */
    method GenElse(s: Stmt, ghost start: seq<Byte>, ghost g: Spec.Gen, ghost c: Emitted, ghost t: Emitted, toElse: nat) returns (err: Option<GenError>)
      requires Valid() && tempDepth == 0 && s.If? && s.els.Some?
      requires Spec.GenExpr(s.cond, g, tempBase, 0) == Success(c)
      requires Spec.GenStmts(s.thn, c.g, tempBase, |start| + |c.code| + 5) == Success(t) && Progress() == t.g
      requires code.bytes == start + c.code + [0x0B] + Bytes.LE(0, 4) + t.code && toElse == |start| + |c.code| + 1
      modifies this`tempDepth, this`maxTempDepth, pool, code
      ensures Valid() && Does(Spec.GenStmt(s, g, tempBase, |start|), err, start, code.bytes, Progress())
      ensures err.None? ==> tempDepth == 0
      decreases s.els.value, 2
    {
      hide Encode, Bytes.LE, ConstantPool.Valid, Spec.GenExpr, Spec.GenStmts, Spec.GenStmt, AnyReturns;
      var over := !AnyReturns(s.thn);
      var toEnd := OpenElse(over, start, c.code, t.code, toElse);
      ghost var from := |code.bytes|;
      ghost var front := c.code + Encode(JmpIfFalse(from)) + t.code;
      err := GenStmt(s.els.value);
      ElseFails(s, g, tempBase, |start|, c, t, from);
      if err.Some? { return; }
      ghost var e := Spec.GenStmt(s.els.value, t.g, tempBase, from).value;
      ElseCode(s, g, tempBase, |start|, c, t, e, from);
      CloseElse(over, start, front, e.code, toEnd);
    }

    /** The jump over `else`, if the end of `then` can be reached, and the target of the jump to `else`. */
    method OpenElse(over: bool, ghost start: seq<Byte>, ghost c: seq<Byte>, ghost t: seq<Byte>, toElse: nat) returns (toEnd: nat)
      requires code.bytes == start + c + [0x0B] + Bytes.LE(0, 4) + t && toElse == |start| + |c| + 1
      modifies code
      ensures |code.bytes| == |start| + |c| + 5 + |t| + if over then 5 else 0
      ensures code.bytes == start + (c + Encode(JmpIfFalse(|code.bytes|)) + t) + if over then [0x0A] + Bytes.LE(0, 4) else []
      ensures over ==> toEnd == |start| + |c + Encode(JmpIfFalse(|code.bytes|)) + t| + 1
    {
      hide Encode, Bytes.LE;
      toEnd := 0;
      if over {
        toEnd := code.JumpForward(0x0A);
      }
      ghost var jump: seq<Byte> := if over then [0x0A] + Bytes.LE(0, 4) else [];
      ghost var open := code.bytes;
      assert open == start + c + [0x0B] + Bytes.LE(0, 4) + t + jump;
      code.Patch(toElse, |code.bytes|);
      ElseOpened(start, c, t, jump, |open|, open, code.bytes);
      JumpLength(|open|);
    }

    /** The target of the jump over `else`. */
    method CloseElse(over: bool, ghost start: seq<Byte>, ghost front: seq<Byte>, ghost e: seq<Byte>, toEnd: nat)
      requires code.bytes == start + front + (if over then [0x0A] + Bytes.LE(0, 4) else []) + e
      requires over ==> toEnd == |start| + |front| + 1
      modifies code
      ensures code.bytes == start + (front + (if over then Encode(Jmp(|old(code.bytes)|)) else []) + e)
    {
      hide Encode, Bytes.LE;
      if over {
        ghost var closed := code.bytes;
        code.Patch(toEnd, |code.bytes|);
        ElseClosed(start, front, e, |closed|, closed, code.bytes);
      } else {
        assert start + front + [] + e == start + (front + [] + e);
      }
    }

    method GenWhile(s: Stmt) returns (err: Option<GenError>)
      requires Valid() && tempDepth == 0 && s.While?
      modifies this`tempDepth, this`maxTempDepth, pool, code
      ensures Valid() && Does(Spec.GenStmt(s, old(Progress()), tempBase, |old(code.bytes)|), err, old(code.bytes), code.bytes, Progress())
      ensures err.None? ==> tempDepth == 0
      decreases s, 0
    {
      hide Encode, Bytes.LE, ConstantPool.Valid, Spec.GenExpr, Spec.GenStmts, Spec.GenStmt;
      ghost var before, g := code.bytes, Progress();
      var start := |code.bytes|;
      WhileFails(s, g, tempBase, start);
      err := GenExpr(s.cond);
      if err.Some? { return; }
      ghost var c := Spec.GenExpr(s.cond, g, tempBase, 0).value;
      var toEnd := code.JumpForward(0x0B);
      err := GenStatements(s.body);
      if err.Some? { return; }
      ghost var b := Spec.GenStmts(s.body, c.g, tempBase, start + |c.code| + 5).value;
      WhileCode(s, g, tempBase, start, c, b);
      CloseWhile(start, toEnd, before, c.code, b.code);
    }

    /** The jump back, and the target of the jump out of the loop. */
    method CloseWhile(start: nat, toEnd: nat, ghost before: seq<Byte>, ghost c: seq<Byte>, ghost b: seq<Byte>)
      requires code.bytes == before + c + [0x0B] + Bytes.LE(0, 4) + b && toEnd == |before| + |c| + 1
      modifies code
      ensures code.bytes == before + (c + Encode(JmpIfFalse(|before| + |c| + |b| + 10)) + b + Encode(Jmp(start)))
    {
      hide Encode, Bytes.LE;
      code.Jump(start);
      JumpLength(start);
      ghost var open := code.bytes;
      code.Patch(toEnd, |code.bytes|);
      ElseOpened(before, c, b, Encode(Jmp(start)), |open|, open, code.bytes);
      ghost var front := c + Encode(JmpIfFalse(|open|)) + b;
      assert before + front + Encode(Jmp(start)) == before + (front + Encode(Jmp(start)));
    }

    // ---- Functions ----

    method GenFunction(fn: FunctionDecl) returns (r: Result<Function, GenError>)
      requires Valid()
      modifies this, pool
      ensures Valid()
      ensures match Spec.GenFunction(fn, old(pool.constants))
              case Success((f, constants)) => r == Success(f) && pool.constants == constants
              case Failure(e) => r == Failure(e)
    {
      hide ConstantPool.Valid, Spec.GenStmts, Spec.ReturnZero;
      ghost var g := Spec.Gen(pool.constants, 0);
      code := new CodeBuilder();
      tempBase, tempDepth, maxTempDepth := |fn.params| + fn.localCount, 0, 0;
      var err := GenStatements(fn.body);
      if err.Some? {
        return Failure(err.value);
      }
      ghost var body := Spec.GenStmts(fn.body, g, tempBase, 0).value;
      assert [] + body.code == body.code;
      if fn.returnType.None? {
        err := EmitReturnZero();
        if err.Some? {
          return Failure(err.value);
        }
      }
      assert Spec.GenBody(fn, g) == Success(Spec.Emitted(code.bytes, Progress()));
      if |code.bytes| > Spec.MAX_CODE {
        return Failure(Spec.CodeTooLarge);
      }
      if fn.localCount + maxTempDepth > 255 || tempBase + maxTempDepth > 256 {
        return Failure(Spec.TooManyLocals);
      }
      r := Success(Function(fn.name, |fn.params|, fn.localCount + maxTempDepth, code.bytes));
    }
  }

  lemma JumpLength(target: int)
    ensures |Encode(JmpIfFalse(target))| == 5 == |Encode(Jmp(target))|
  {
  }

  lemma Regroup(s: seq<Byte>, a: seq<Byte>, b: seq<Byte>, c: seq<Byte>, d: seq<Byte>, e: seq<Byte>)
    ensures s + a + b + c + d + e == s + (a + b + c + d + e)
  {
  }

  // ---- The specification of operators and control flow, piece by piece ----

  lemma SwappedBinary(e: Expr, g: Spec.Gen, base: int, depth: nat)
    requires e.Binary? && Spec.Swapped(e.op)
    ensures var whole := Spec.GenExpr(e, g, base, depth);
            if base + depth > 255 then whole == Failure(Spec.TooManyTemporaries) else
            match Spec.GenExpr(e.left, g.(maxTemp := Spec.Max(g.maxTemp, depth + 1)), base, depth + 1)
            case Failure(f) => whole == Failure(f)
            case Success(l) =>
              match Spec.GenExpr(e.right, l.g, base, depth + 1)
              case Failure(f) => whole == Failure(f)
              case Success(r) => whole == Success(Spec.Emitted(
                l.code + Encode(Store(base + depth)) + r.code + Encode(Load(base + depth)) + Spec.OperatorCode(e.op, TypeOf(e.left) == Some(TFloat)), r.g))
  {
    hide Encode, Spec.OperatorCode;
  }

  lemma PlainBinary(e: Expr, g: Spec.Gen, base: int, depth: nat)
    requires e.Binary? && !Spec.Swapped(e.op)
    ensures var whole := Spec.GenExpr(e, g, base, depth);
            match Spec.GenExpr(e.left, g, base, depth)
            case Failure(f) => whole == Failure(f)
            case Success(l) =>
              match Spec.GenExpr(e.right, l.g, base, depth)
              case Failure(f) => whole == Failure(f)
              case Success(r) => whole == Success(Spec.Emitted(
                l.code + r.code + Spec.OperatorCode(e.op, TypeOf(e.left) == Some(TFloat)), r.g))
  {
    hide Encode, Spec.OperatorCode;
  }

  lemma IfFails(s: Stmt, g: Spec.Gen, base: int, at: nat)
    requires s.If?
    ensures var c := Spec.GenExpr(s.cond, g, base, 0);
            && (c.Failure? ==> Spec.GenStmt(s, g, base, at) == c)
            && (c.Success? ==> var t := Spec.GenStmts(s.thn, c.value.g, base, at + |c.value.code| + 5);
                               t.Failure? ==> Spec.GenStmt(s, g, base, at) == t)
  {
    hide Encode, Spec.GenExpr, Spec.GenStmts, AnyReturns;
  }

  lemma IfCode(s: Stmt, g: Spec.Gen, base: int, at: nat, c: Emitted, t: Emitted)
    requires s.If? && s.els.None? && Spec.GenExpr(s.cond, g, base, 0) == Success(c)
    requires Spec.GenStmts(s.thn, c.g, base, at + |c.code| + 5) == Success(t)
    ensures Spec.GenStmt(s, g, base, at) == Success(Spec.Emitted(c.code + Encode(JmpIfFalse(at + |c.code| + 5 + |t.code|)) + t.code, t.g))
  {
    hide Encode, Spec.GenExpr, Spec.GenStmts, AnyReturns;
  }

  lemma ElseFails(s: Stmt, g: Spec.Gen, base: int, at: nat, c: Emitted, t: Emitted, from: nat)
    requires s.If? && s.els.Some? && Spec.GenExpr(s.cond, g, base, 0) == Success(c)
    requires Spec.GenStmts(s.thn, c.g, base, at + |c.code| + 5) == Success(t)
    requires from == at + |c.code| + 5 + |t.code| + (if AnyReturns(s.thn) then 0 else 5)
    ensures var e := Spec.GenStmt(s.els.value, t.g, base, from); e.Failure? ==> Spec.GenStmt(s, g, base, at) == e
  {
    hide Encode, Spec.GenExpr, Spec.GenStmts, AnyReturns;
  }

  lemma ElseCode(s: Stmt, g: Spec.Gen, base: int, at: nat, c: Emitted, t: Emitted, e: Emitted, from: nat)
    requires s.If? && s.els.Some? && Spec.GenExpr(s.cond, g, base, 0) == Success(c)
    requires Spec.GenStmts(s.thn, c.g, base, at + |c.code| + 5) == Success(t)
    requires from == at + |c.code| + 5 + |t.code| + (if AnyReturns(s.thn) then 0 else 5)
    requires Spec.GenStmt(s.els.value, t.g, base, from) == Success(e)
    ensures Spec.GenStmt(s, g, base, at) == Success(Spec.Emitted(
              c.code + Encode(JmpIfFalse(from)) + t.code + (if AnyReturns(s.thn) then [] else Encode(Jmp(from + |e.code|))) + e.code, e.g))
  {
    hide Encode, Spec.GenExpr, Spec.GenStmts, AnyReturns;
    var front := c.code + Encode(JmpIfFalse(from)) + t.code;
    assert front + [] == front;
  }

  lemma WhileFails(s: Stmt, g: Spec.Gen, base: int, at: nat)
    requires s.While?
    ensures var c := Spec.GenExpr(s.cond, g, base, 0);
            && (c.Failure? ==> Spec.GenStmt(s, g, base, at) == c)
            && (c.Success? ==> var b := Spec.GenStmts(s.body, c.value.g, base, at + |c.value.code| + 5);
                               b.Failure? ==> Spec.GenStmt(s, g, base, at) == b)
  {
    hide Encode, Spec.GenExpr, Spec.GenStmts, AnyReturns;
  }

  lemma WhileCode(s: Stmt, g: Spec.Gen, base: int, at: nat, c: Emitted, b: Emitted)
    requires s.While? && Spec.GenExpr(s.cond, g, base, 0) == Success(c)
    requires Spec.GenStmts(s.body, c.g, base, at + |c.code| + 5) == Success(b)
    ensures Spec.GenStmt(s, g, base, at) == Success(Spec.Emitted(
              c.code + Encode(JmpIfFalse(at + |c.code| + |b.code| + 10)) + b.code + Encode(Jmp(at)), b.g))
  {
    hide Encode, Spec.GenExpr, Spec.GenStmts, AnyReturns;
  }

  /** A patched forward jump is the jump it stands for. */
  lemma Patched(front: seq<Byte>, opcode: Byte, target: int, back: seq<Byte>, after: seq<Byte>)
    requires opcode == 0x0A || opcode == 0x0B
    requires var before := front + [opcode] + Bytes.LE(0, 4) + back;
             after == before[..|front| + 1] + Bytes.LE(target, 4) + before[|front| + 5..]
    ensures after == front + Encode(if opcode == 0x0A then Jmp(target) else JmpIfFalse(target)) + back
  {
    hide Bytes.LE;
    var head, zero := front + [opcode], Bytes.LE(0, 4);
    var before := front + [opcode] + zero + back;
    assert |zero| == 4 && |head| == |front| + 1;
    assert before == head + zero + back;
    assert before[..|head|] == head && before[|head| + 4..] == back;
  }

  /** The jump to `else` gets its target; a jump that may follow the `then` branch still waits. */
  lemma ElseOpened(start: seq<Byte>, c: seq<Byte>, t: seq<Byte>, jump: seq<Byte>, target: int, before: seq<Byte>, after: seq<Byte>)
    requires before == start + c + [0x0B] + Bytes.LE(0, 4) + t + jump
    requires after == before[..|start| + |c| + 1] + Bytes.LE(target, 4) + before[|start| + |c| + 5..]
    ensures after == start + (c + Encode(JmpIfFalse(target)) + t) + jump && |after| == |before|
  {
    hide Bytes.LE, Encode;
    assert before == (start + c) + [0x0B] + Bytes.LE(0, 4) + (t + jump);
    Patched(start + c, 0x0B, target, t + jump, after);
    JumpLength(target);
  }

  /** The jump over `else` gets its target. */
  lemma ElseClosed(start: seq<Byte>, front: seq<Byte>, e: seq<Byte>, target: int, before: seq<Byte>, after: seq<Byte>)
    requires before == start + front + ([0x0A] + Bytes.LE(0, 4)) + e
    requires after == before[..|start| + |front| + 1] + Bytes.LE(target, 4) + before[|start| + |front| + 5..]
    ensures after == start + (front + Encode(Jmp(target)) + e)
  {
    hide Bytes.LE, Encode;
    assert before == (start + front) + [0x0A] + Bytes.LE(0, 4) + e;
    Patched(start + front, 0x0A, target, e, after);
  }

  /** The whole compilation of a checked program. */
  method Generate(fns: seq<FunctionDecl>) returns (r: Result<Module, GenError>)
    requires IndexOf(fns, MAIN).Some?
    ensures r == Spec.Generate(fns)
  {
    hide ConstantPool.Valid, Spec.GenFunction, Spec.FunctionUsesFloat;
    if |fns| > MAX_U16 + 1 {
      return Failure(Spec.TooManyFunctions);
    }
    var gen := new CodeGen();
    var functions: seq<Function> := [];
    ghost var whole := Spec.GenFunctions(fns, []);
    assert fns[0..] == fns && (whole.Success? ==> [] + whole.value.0 == whole.value.0);
    for i := 0 to |fns|
      invariant gen.Valid() && fresh(gen) && fresh(gen.pool)
      invariant match Spec.GenFunctions(fns[i..], gen.pool.constants)
                case Success((rest, pool)) => whole == Success((functions + rest, pool))
                case Failure(f) => whole == Failure(f)
    {
      assert fns[i..][0] == fns[i] && fns[i..][1..] == fns[i + 1..];
      var f := gen.GenFunction(fns[i]);
      if f.Failure? {
        return Failure(f.error);
      }
      ghost var rest := Spec.GenFunctions(fns[i + 1..], gen.pool.constants);
      assert rest.Success? ==> functions + ([f.value] + rest.value.0) == functions + [f.value] + rest.value.0;
      functions := functions + [f.value];
    }
    assert fns[|fns|..] == [] && functions + [] == functions;
    r := Success(Module(gen.pool.constants, functions, IndexOf(fns, MAIN).value, exists fn :: fn in fns && Spec.FunctionUsesFloat(fn)));
  }
}
