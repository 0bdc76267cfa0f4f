/**
  What the code generator has room for: how long the code of a tree is, how many temporaries and which
  constants it needs, and that code is generated exactly if all of them fit.
 */
module Capacity {
  import opened Prelude
  import opened Bytes
  import opened Values
  import opened Syntax
  import opened CodeGenSpec
  import B = Bytecode

  // ---- What a tree needs ----

  predicate Reversed(op: BinaryOp) {
    op == GT || op == LE
  }

  predicate NegatesInt(e: Expr) {
    e.Unary? && e.uop == NEG && e.ty != Some(TFloat)
  }

  function Larger(a: nat, b: nat): nat {
    if a >= b then a else b
  }

  /** The temporaries in use at once: one for the left operand of `>` or `<=` while the right one is evaluated. */
  function Temps(e: Expr): nat {
    match e
    case Unary(_, operand, _) => Temps(operand)
    case Binary(op, left, right, _) => Larger(Temps(left), Temps(right)) + if Reversed(op) then 1 else 0
    case Call(_, _, args, _, _) => ArgTemps(args)
    case _ => 0
  }

  function ArgTemps(es: seq<Expr>): nat {
    if es == [] then 0 else Larger(Temps(es[0]), ArgTemps(es[1..]))
  }

  /** The constants an expression refers to. */
  function Needs(e: Expr): set<Value> {
    match e
    case IntLit(n) => {IntV(n)}
    case FloatLit(f) => {FloatV(f)}
    case BoolLit(b) => {IntV(if b then 1 else 0)}
    case StringLit(t) => {StringV(t)}
    case VarRef(_, _, _) => {}
    case Unary(_, operand, _) => Needs(operand) + if NegatesInt(e) then {IntV(0)} else {}
    case Binary(_, left, right, _) => Needs(left) + Needs(right)
    case Call(ns, name, args, _, _) => ArgNeeds(args) + if ns.Some? then {StringV(QualifiedName(ns.value, name))} else {}
  }

  function ArgNeeds(es: seq<Expr>): set<Value> {
    if es == [] then {} else Needs(es[0]) + ArgNeeds(es[1..])
  }

  /** Bytes: three for a constant, two for a variable or a temporary, four for a call, one for anything else. */
  function Size(e: Expr): nat {
    match e
    case VarRef(_, _, _) => 2
    case Unary(_, operand, _) => Size(operand) + 1 + if NegatesInt(e) then 3 else 0
    case Binary(op, left, right, _) =>
      Size(left) + Size(right) + 1 + (if Reversed(op) then 4 else 0) + if op == NE || op == LE || op == GE then 1 else 0
    case Call(_, _, args, _, _) => ArgSize(args) + 4
    case _ => 3
  }

  function ArgSize(es: seq<Expr>): nat {
    if es == [] then 0 else Size(es[0]) + ArgSize(es[1..])
  }

  function StmtTemps(s: Stmt): nat {
    match s
    case Block(ss) => ListTemps(ss)
    case VarDecl(_, _, _, init, _) => Temps(init)
    case Assign(_, value, _) => Temps(value)
    case If(cond, thn, els) => Larger(Larger(Temps(cond), ListTemps(thn)), if els.None? then 0 else StmtTemps(els.value))
    case While(cond, body) => Larger(Temps(cond), ListTemps(body))
    case Return(result) => if result.None? then 0 else Temps(result.value)
    case CallStmt(call) => Temps(call)
  }

  function ListTemps(ss: seq<Stmt>): nat {
    if ss == [] then 0 else Larger(StmtTemps(ss[0]), ListTemps(ss[1..]))
  }

  function StmtNeeds(s: Stmt): set<Value> {
    match s
    case Block(ss) => ListNeeds(ss)
    case VarDecl(_, _, _, init, _) => Needs(init)
    case Assign(_, value, _) => Needs(value)
    case If(cond, thn, els) => Needs(cond) + ListNeeds(thn) + if els.None? then {} else StmtNeeds(els.value)
    case While(cond, body) => Needs(cond) + ListNeeds(body)
    case Return(result) => if result.None? then {IntV(0)} else Needs(result.value)
    case CallStmt(call) => Needs(call)
  }

  function ListNeeds(ss: seq<Stmt>): set<Value> {
    if ss == [] then {} else StmtNeeds(ss[0]) + ListNeeds(ss[1..])
  }

  function StmtSize(s: Stmt): nat {
    match s
    case Block(ss) => ListSize(ss)
    case VarDecl(_, _, _, init, _) => Size(init) + 2
    case Assign(_, value, _) => Size(value) + 2
    case If(cond, thn, els) =>
      Size(cond) + 5 + ListSize(thn) + if els.None? then 0 else StmtSize(els.value) + if AnyReturns(thn) then 0 else 5
    case While(cond, body) => Size(cond) + 5 + ListSize(body) + 5
    case Return(result) => if result.None? then 4 else Size(result.value) + 1
    case CallStmt(call) => Size(call) + 1
  }

  function ListSize(ss: seq<Stmt>): nat {
    if ss == [] then 0 else StmtSize(ss[0]) + ListSize(ss[1..])
  }

  // ---- The pool as a set ----

  ghost function InPool(pool: seq<Value>): set<Value> {
    set v | v in pool
  }

  /** No constant twice, and no more than there are indices. */
  ghost predicate PoolFits(pool: seq<Value>) {
    |pool| == |InPool(pool)| <= 65536
  }

  /** After code that needs `needs` and `temps`: what the pool holds and how deep the temporaries went. */
  ghost predicate Took(g: Gen, g': Gen, needs: set<Value>, temps: nat, depth: nat) {
    && PoolFits(g'.pool) && InPool(g'.pool) == InPool(g.pool) + needs
    && g'.maxTemp == if temps == 0 then g.maxTemp else Larger(g.maxTemp, depth + temps)
  }

  /** There is room for the temporaries and for the constants. */
  ghost predicate Fits(g: Gen, needs: set<Value>, temps: nat, base: int, depth: nat) {
    (temps == 0 || base + depth + temps <= 256) && |InPool(g.pool) + needs| <= 65536
  }

  lemma SnocInPool(pool: seq<Value>, v: Value)
    ensures InPool(pool + [v]) == InPool(pool) + {v}
  {
    forall x ensures x in InPool(pool + [v]) <==> x in InPool(pool) + {v} {
      if x in pool + [v] {
        var i :| 0 <= i < |pool| + 1 && (pool + [v])[i] == x;
        assert i < |pool| ==> pool[i] == x;
      }
      if x in pool {
        var i :| 0 <= i < |pool| && pool[i] == x;
        assert (pool + [v])[i] == x;
      }
      if x == v {
        assert (pool + [v])[|pool|] == x;
      }
    }
  }

  lemma UnionIsLarger(a: set<Value>, b: set<Value>)
    ensures |a| <= |a + b|
  {
    if b - a == {} {
      assert a + b == a;
    } else {
      assert a + b == a + (b - a);
      assert |a + (b - a)| == |a| + |b - a|;
    }
  }

  /** One constant: it is there, or there is room for it. */
  lemma InternExactly(g: Gen, v: Value)
    requires PoolFits(g.pool)
    ensures Intern(g, v).Success? <==> |InPool(g.pool) + {v}| <= 65536
    ensures Intern(g, v).Success? ==>
              var g' := Intern(g, v).value.1; PoolFits(g'.pool) && InPool(g'.pool) == InPool(g.pool) + {v} && g'.maxTemp == g.maxTemp
  {
    var i := PoolIndex(g.pool, v);
    if i < |g.pool| {
      assert g.pool[i] == v && v in InPool(g.pool);
      assert InPool(g.pool) + {v} == InPool(g.pool);
    } else {
      assert g.pool[..i] == g.pool;
      assert v !in InPool(g.pool);
      SnocInPool(g.pool, v);
    }
  }

  lemma ConstExactly(g: Gen, v: Value, base: int, depth: nat)
    requires PoolFits(g.pool)
    ensures GenConst(g, v).Success? <==> Fits(g, {v}, 0, base, depth)
    ensures GenConst(g, v).Success? ==> Took(g, GenConst(g, v).value.g, {v}, 0, depth) && |GenConst(g, v).value.code| == 3
  {
    hide Intern, PoolFits, InPool;
    InternExactly(g, v);
  }

  /** One piece of code after another. */
  lemma TookBoth(g: Gen, g1: Gen, g2: Gen, needs1: set<Value>, needs2: set<Value>, temps1: nat, temps2: nat, depth: nat)
    requires Took(g, g1, needs1, temps1, depth) && Took(g1, g2, needs2, temps2, depth)
    ensures Took(g, g2, needs1 + needs2, Larger(temps1, temps2), depth)
  {
    hide PoolFits, InPool;
    assert InPool(g.pool) + needs1 + needs2 == InPool(g.pool) + (needs1 + needs2);
  }

  lemma FitsBoth(g: Gen, g1: Gen, needs1: set<Value>, needs2: set<Value>, temps1: nat, temps2: nat, base: int, depth: nat)
    requires Took(g, g1, needs1, temps1, depth) && Fits(g, needs1, temps1, base, depth)
    ensures Fits(g1, needs2, temps2, base, depth) <==> Fits(g, needs1 + needs2, Larger(temps1, temps2), base, depth)
  {
    hide PoolFits, InPool;
    assert InPool(g.pool) + needs1 + needs2 == InPool(g.pool) + (needs1 + needs2);
  }

  lemma FitsFirst(g: Gen, needs1: set<Value>, needs2: set<Value>, temps1: nat, temps2: nat, base: int, depth: nat)
    requires Fits(g, needs1 + needs2, Larger(temps1, temps2), base, depth)
    ensures Fits(g, needs1, temps1, base, depth)
  {
    hide InPool;
    UnionIsLarger(InPool(g.pool) + needs1, needs2);
    assert InPool(g.pool) + needs1 + needs2 == InPool(g.pool) + (needs1 + needs2);
  }

  lemma TookNothing(g: Gen, depth: nat)
    requires PoolFits(g.pool)
    ensures Took(g, g, {}, 0, depth)
  {
    hide PoolFits, InPool;
    assert InPool(g.pool) + {} == InPool(g.pool);
  }

  lemma NothingFits(g: Gen, base: int, depth: nat)
    requires PoolFits(g.pool)
    ensures Fits(g, {}, 0, base, depth)
  {
    assert InPool(g.pool) + {} == InPool(g.pool);
  }

  // ---- Expressions ----

  ghost predicate ExprExact(e: Expr, g: Gen, base: int, depth: nat) {
    var r := GenExpr(e, g, base, depth);
    && (r.Success? <==> Fits(g, Needs(e), Temps(e), base, depth))
    && (r.Success? ==> Took(g, r.value.g, Needs(e), Temps(e), depth) && |r.value.code| == Size(e))
  }

  ghost predicate ArgsExact(es: seq<Expr>, g: Gen, base: int, depth: nat) {
    var r := GenArgs(es, g, base, depth);
    && (r.Success? <==> Fits(g, ArgNeeds(es), ArgTemps(es), base, depth))
    && (r.Success? ==> Took(g, r.value.g, ArgNeeds(es), ArgTemps(es), depth) && |r.value.code| == ArgSize(es))
  }

  lemma OneByte(op: BinaryOp, float: bool)
    ensures |OperatorCode(op, float)| == 1 + if op == NE || op == LE || op == GE then 1 else 0
  {
  }

  lemma InstrSizes(slot: int, index: int, argc: int, target: int)
    ensures |B.Encode(B.Load(slot))| == 2 == |B.Encode(B.Store(slot))|
    ensures |B.Encode(B.Call(index, argc))| == 4 == |B.Encode(B.CallRuntime(index, argc))|
    ensures |B.Encode(B.Not)| == |B.Encode(B.FNeg)| == |B.Encode(B.Sub)| == |B.Encode(B.Ret)| == |B.Encode(B.Pop)| == 1
    ensures |B.Encode(B.Jmp(target))| == 5 == |B.Encode(B.JmpIfFalse(target))|
  {
  }

  lemma {:induction false} ExprExactly(e: Expr, g: Gen, base: int, depth: nat)
    requires PoolFits(g.pool)
    ensures ExprExact(e, g, base, depth)
    decreases e, 2
  {
    hide PoolFits, GenConst, B.Encode, Took, Fits;
    match e
    case IntLit(n) => ConstExactly(g, IntV(n), base, depth);
    case FloatLit(f) => ConstExactly(g, FloatV(f), base, depth);
    case BoolLit(b) => ConstExactly(g, IntV(if b then 1 else 0), base, depth);
    case StringLit(t) => ConstExactly(g, StringV(t), base, depth);
    case VarRef(_, _, slot) =>
      InstrSizes(slot, 0, 0, 0);
      TookNothing(g, depth);
      NothingFits(g, base, depth);
    case Unary(_, _, _) => UnaryExactly(e, g, base, depth);
    case Binary(_, _, _, _) => BinaryExactly(e, g, base, depth);
    case Call(_, _, _, _, _) => CallExactly(e, g, base, depth);
  }

  lemma TookFits(g: Gen, g': Gen, needs: set<Value>, temps: nat, depth: nat)
    requires Took(g, g', needs, temps, depth)
    ensures PoolFits(g'.pool)
  {
  }

  lemma {:induction false} UnaryExactly(e: Expr, g: Gen, base: int, depth: nat)
    requires PoolFits(g.pool) && e.Unary?
    ensures ExprExact(e, g, base, depth)
    decreases e, 0
  {
    hide PoolFits, GenConst, B.Encode, Took, Fits;
    InstrSizes(0, 0, 0, 0);
    var x := e.operand;
    if NegatesInt(e) {
      ConstExactly(g, IntV(0), base, depth);
      assert Needs(e) == {IntV(0)} + Needs(x) && Larger(0, Temps(x)) == Temps(x);
      if GenConst(g, IntV(0)).Success? {
        var zero := GenConst(g, IntV(0)).value;
        TookFits(g, zero.g, {IntV(0)}, 0, depth);
        ExprExactly(x, zero.g, base, depth);
        FitsBoth(g, zero.g, {IntV(0)}, Needs(x), 0, Temps(x), base, depth);
        var r := GenExpr(x, zero.g, base, depth);
        if r.Success? {
          TookBoth(g, zero.g, r.value.g, {IntV(0)}, Needs(x), 0, Temps(x), depth);
        }
      }
      if Fits(g, Needs(e), Temps(e), base, depth) {
        FitsFirst(g, {IntV(0)}, Needs(x), 0, Temps(x), base, depth);
      }
    } else {
      assert Needs(e) == Needs(x);
      ExprExactly(x, g, base, depth);
    }
  }

  /** Both operands, one after the other. */
  lemma {:induction false} OperandsExactly(e: Expr, g: Gen, base: int, depth: nat)
    requires PoolFits(g.pool) && e.Binary?
    ensures var l := GenExpr(e.left, g, base, depth);
            var needs, temps := Needs(e.left) + Needs(e.right), Larger(Temps(e.left), Temps(e.right));
            && (Fits(g, needs, temps, base, depth) <==> l.Success? && GenExpr(e.right, l.value.g, base, depth).Success?)
            && (l.Success? && GenExpr(e.right, l.value.g, base, depth).Success? ==>
                  && Took(g, GenExpr(e.right, l.value.g, base, depth).value.g, needs, temps, depth)
                  && |l.value.code| == Size(e.left) && |GenExpr(e.right, l.value.g, base, depth).value.code| == Size(e.right))
    decreases e, 0
  {
    hide PoolFits, Took, Fits, GenExpr, Needs, Temps, Size;
    var left, right := e.left, e.right;
    ExprExactly(left, g, base, depth);
    var l := GenExpr(left, g, base, depth);
    if l.Success? {
      TookFits(g, l.value.g, Needs(left), Temps(left), depth);
      ExprExactly(right, l.value.g, base, depth);
      FitsBoth(g, l.value.g, Needs(left), Needs(right), Temps(left), Temps(right), base, depth);
      var r := GenExpr(right, l.value.g, base, depth);
      if r.Success? {
        TookBoth(g, l.value.g, r.value.g, Needs(left), Needs(right), Temps(left), Temps(right), depth);
      }
    }
    if Fits(g, Needs(left) + Needs(right), Larger(Temps(left), Temps(right)), base, depth) {
      FitsFirst(g, Needs(left), Needs(right), Temps(left), Temps(right), base, depth);
    }
  }

  /** One temporary more around the operands. */
  lemma Deeper(g: Gen, needs: set<Value>, temps: nat, base: int, depth: nat)
    ensures var g1 := g.(maxTemp := Max(g.maxTemp, depth + 1));
            Fits(g, needs, temps + 1, base, depth) <==> base + depth <= 255 && Fits(g1, needs, temps, base, depth + 1)
  {
    hide InPool;
  }

  lemma DeeperTook(g: Gen, g': Gen, needs: set<Value>, temps: nat, depth: nat)
    requires Took(g.(maxTemp := Max(g.maxTemp, depth + 1)), g', needs, temps, depth + 1)
    ensures Took(g, g', needs, temps + 1, depth)
  {
    hide PoolFits, InPool;
  }

  lemma BinaryNeeds(e: Expr)
    requires e.Binary?
    ensures Needs(e) == Needs(e.left) + Needs(e.right)
    ensures Temps(e) == Larger(Temps(e.left), Temps(e.right)) + if Swapped(e.op) then 1 else 0
    ensures Size(e) == Size(e.left) + Size(e.right) + (if Swapped(e.op) then 4 else 0) + |OperatorCode(e.op, TypeOf(e.left) == Some(TFloat))|
  {
    hide OperatorCode;
    OneByte(e.op, TypeOf(e.left) == Some(TFloat));
  }

  lemma {:induction false} BinaryExactly(e: Expr, g: Gen, base: int, depth: nat)
    requires PoolFits(g.pool) && e.Binary?
    ensures ExprExact(e, g, base, depth)
    decreases e, 1
  {
    hide PoolFits, B.Encode, Took, Fits, OperatorCode, Needs, Temps, Size, GenExpr;
    BinaryNeeds(e);
    if Swapped(e.op) {
      var g1 := g.(maxTemp := Max(g.maxTemp, depth + 1));
      OperandsExactly(e, g1, base, depth + 1);
      var needs, temps := Needs(e.left) + Needs(e.right), Larger(Temps(e.left), Temps(e.right));
      Deeper(g, needs, temps, base, depth);
      SwappedCode(e, g, base, depth);
      var l := GenExpr(e.left, g1, base, depth + 1);
      if l.Success? && GenExpr(e.right, l.value.g, base, depth + 1).Success? {
        DeeperTook(g, GenExpr(e.right, l.value.g, base, depth + 1).value.g, needs, temps, depth);
      }
    } else {
      OperandsExactly(e, g, base, depth);
      PlainCode(e, g, base, depth);
    }
  }

  lemma SwappedCode(e: Expr, g: Gen, base: int, depth: nat)
    requires e.Binary? && Swapped(e.op)
    ensures var g1 := g.(maxTemp := Max(g.maxTemp, depth + 1));
            var l, all := GenExpr(e.left, g1, base, depth + 1), GenExpr(e, g, base, depth);
            && (all.Success? <==> base + depth <= 255 && l.Success? && GenExpr(e.right, l.value.g, base, depth + 1).Success?)
            && (all.Success? ==>
                  var r := GenExpr(e.right, l.value.g, base, depth + 1).value;
                  all.value.g == r.g && |all.value.code| == |l.value.code| + |r.code| + 4 + |OperatorCode(e.op, TypeOf(e.left) == Some(TFloat))|)
  {
    hide B.Encode, OperatorCode;
    InstrSizes(base + depth, 0, 0, 0);
  }

  lemma PlainCode(e: Expr, g: Gen, base: int, depth: nat)
    requires e.Binary? && !Swapped(e.op)
    ensures var l, all := GenExpr(e.left, g, base, depth), GenExpr(e, g, base, depth);
            && (all.Success? <==> l.Success? && GenExpr(e.right, l.value.g, base, depth).Success?)
            && (all.Success? ==>
                  var r := GenExpr(e.right, l.value.g, base, depth).value;
                  all.value.g == r.g && |all.value.code| == |l.value.code| + |r.code| + |OperatorCode(e.op, TypeOf(e.left) == Some(TFloat))|)
  {
    hide OperatorCode;
  }

  lemma {:induction false} CallExactly(e: Expr, g: Gen, base: int, depth: nat)
    requires PoolFits(g.pool) && e.Call?
    ensures ExprExact(e, g, base, depth)
    decreases e, 1
  {
    hide PoolFits, B.Encode, Took, Fits, Intern, GenArgs;
    ArgsExactly(e.args, g, base, depth);
    var a := GenArgs(e.args, g, base, depth);
    if e.namespace.None? {
      InstrSizes(0, e.index, |e.args|, 0);
      assert Needs(e) == ArgNeeds(e.args);
    } else {
      var v := StringV(QualifiedName(e.namespace.value, e.name));
      var needs, temps := ArgNeeds(e.args), ArgTemps(e.args);
      assert Needs(e) == needs + {v} && Larger(temps, 0) == temps;
      if a.Success? {
        TookFits(g, a.value.g, needs, temps, depth);
        InternTakes(a.value.g, v, base, depth);
        FitsBoth(g, a.value.g, needs, {v}, temps, 0, base, depth);
        var k := Intern(a.value.g, v);
        if k.Success? {
          TookBoth(g, a.value.g, k.value.1, needs, {v}, temps, 0, depth);
          InstrSizes(0, k.value.0, |e.args|, 0);
        }
      }
      if Fits(g, Needs(e), Temps(e), base, depth) {
        FitsFirst(g, needs, {v}, temps, 0, base, depth);
      }
    }
  }

  lemma InternTakes(g: Gen, v: Value, base: int, depth: nat)
    requires PoolFits(g.pool)
    ensures Intern(g, v).Success? <==> Fits(g, {v}, 0, base, depth)
    ensures Intern(g, v).Success? ==> Took(g, Intern(g, v).value.1, {v}, 0, depth)
  {
    hide Intern, PoolFits, InPool;
    InternExactly(g, v);
  }

  lemma {:induction false} ArgsExactly(es: seq<Expr>, g: Gen, base: int, depth: nat)
    requires PoolFits(g.pool)
    ensures ArgsExact(es, g, base, depth)
    decreases es
  {
    hide PoolFits, Took, Fits, GenExpr, Needs, Temps, Size;
    if es == [] {
      TookNothing(g, depth);
      NothingFits(g, base, depth);
    } else {
      var first, rest := es[0], es[1..];
      ExprExactly(first, g, base, depth);
      var h := GenExpr(first, g, base, depth);
      if h.Success? {
        TookFits(g, h.value.g, Needs(first), Temps(first), depth);
        ArgsExactly(rest, h.value.g, base, depth);
        FitsBoth(g, h.value.g, Needs(first), ArgNeeds(rest), Temps(first), ArgTemps(rest), base, depth);
        var r := GenArgs(rest, h.value.g, base, depth);
        if r.Success? {
          TookBoth(g, h.value.g, r.value.g, Needs(first), ArgNeeds(rest), Temps(first), ArgTemps(rest), depth);
        }
      }
      if Fits(g, ArgNeeds(es), ArgTemps(es), base, depth) {
        FitsFirst(g, Needs(first), ArgNeeds(rest), Temps(first), ArgTemps(rest), base, depth);
      }
    }
  }

  // ---- Statements ----

  ghost predicate StmtExact(s: Stmt, g: Gen, base: int, at: nat) {
    var r := GenStmt(s, g, base, at);
    && (r.Success? <==> Fits(g, StmtNeeds(s), StmtTemps(s), base, 0))
    && (r.Success? ==> Took(g, r.value.g, StmtNeeds(s), StmtTemps(s), 0) && |r.value.code| == StmtSize(s))
  }

  ghost predicate ListExact(ss: seq<Stmt>, g: Gen, base: int, at: nat) {
    var r := GenStmts(ss, g, base, at);
    && (r.Success? <==> Fits(g, ListNeeds(ss), ListTemps(ss), base, 0))
    && (r.Success? ==> Took(g, r.value.g, ListNeeds(ss), ListTemps(ss), 0) && |r.value.code| == ListSize(ss))
  }

  lemma {:induction false} StmtExactly(s: Stmt, g: Gen, base: int, at: nat)
    requires PoolFits(g.pool)
    ensures StmtExact(s, g, base, at)
    decreases s, 2
  {
    hide PoolFits, Took, Fits, GenExpr, GenStmts, GenConst, Needs, Temps, Size, B.Encode;
    InstrSizes(0, 0, 0, 0);
    match s
    case Block(ss) => ListExactly(ss, g, base, at);
    case VarDecl(_, _, _, init, slot) =>
      InstrSizes(slot, 0, 0, 0);
      ExprExactly(init, g, base, 0);
    case Assign(_, value, slot) =>
      InstrSizes(slot, 0, 0, 0);
      ExprExactly(value, g, base, 0);
    case If(_, _, _) => IfExactly(s, g, base, at);
    case While(_, _) => WhileExactly(s, g, base, at);
    case Return(result) =>
      if result.None? {
        ConstExactly(g, IntV(0), base, 0);
      } else {
        ExprExactly(result.value, g, base, 0);
      }
    case CallStmt(call) => ExprExactly(call, g, base, 0);
  }

  /** A condition and the block behind it. */
  lemma {:induction false} GuardedExactly(cond: Expr, ss: seq<Stmt>, g: Gen, base: int, at: nat)
    requires PoolFits(g.pool)
    ensures var c := GenExpr(cond, g, base, 0);
            var needs, temps := Needs(cond) + ListNeeds(ss), Larger(Temps(cond), ListTemps(ss));
            && (Fits(g, needs, temps, base, 0) <==> c.Success? && GenStmts(ss, c.value.g, base, at + |c.value.code| + 5).Success?)
            && (c.Success? && GenStmts(ss, c.value.g, base, at + |c.value.code| + 5).Success? ==>
                  var b := GenStmts(ss, c.value.g, base, at + |c.value.code| + 5).value;
                  && Took(g, b.g, needs, temps, 0) && |c.value.code| == Size(cond) && |b.code| == ListSize(ss))
    decreases ss, 1
  {
    hide PoolFits, Took, Fits, GenExpr, GenStmts, Needs, Temps, Size, ListNeeds, ListTemps, ListSize;
    ExprExactly(cond, g, base, 0);
    var c := GenExpr(cond, g, base, 0);
    if c.Success? {
      var at' := at + |c.value.code| + 5;
      TookFits(g, c.value.g, Needs(cond), Temps(cond), 0);
      ListExactly(ss, c.value.g, base, at');
      FitsBoth(g, c.value.g, Needs(cond), ListNeeds(ss), Temps(cond), ListTemps(ss), base, 0);
      var b := GenStmts(ss, c.value.g, base, at');
      if b.Success? {
        TookBoth(g, c.value.g, b.value.g, Needs(cond), ListNeeds(ss), Temps(cond), ListTemps(ss), 0);
      }
    }
    if Fits(g, Needs(cond) + ListNeeds(ss), Larger(Temps(cond), ListTemps(ss)), base, 0) {
      FitsFirst(g, Needs(cond), ListNeeds(ss), Temps(cond), ListTemps(ss), base, 0);
    }
  }

  lemma {:induction false} WhileExactly(s: Stmt, g: Gen, base: int, at: nat)
    requires PoolFits(g.pool) && s.While?
    ensures StmtExact(s, g, base, at)
    decreases s, 1
  {
    hide PoolFits, Took, Fits, GenExpr, GenStmts, Needs, Temps, Size, ListNeeds, ListTemps, ListSize, B.Encode;
    GuardedExactly(s.cond, s.body, g, base, at);
    InstrSizes(0, 0, 0, at);
    InstrSizes(0, 0, 0, at + Size(s.cond) + 5 + ListSize(s.body) + 5);
  }

  lemma {:induction false} IfExactly(s: Stmt, g: Gen, base: int, at: nat)
    requires PoolFits(g.pool) && s.If?
    ensures StmtExact(s, g, base, at)
    decreases s, 1
  {
    hide PoolFits, Took, Fits, GenExpr, GenStmts, Needs, Temps, Size, ListNeeds, ListTemps, ListSize, B.Encode, AnyReturns;
    GuardedExactly(s.cond, s.thn, g, base, at);
    var needs, temps := Needs(s.cond) + ListNeeds(s.thn), Larger(Temps(s.cond), ListTemps(s.thn));
    var end := at + Size(s.cond) + 5 + ListSize(s.thn);
    InstrSizes(0, 0, 0, end);
    InstrSizes(0, 0, 0, end + 5);
    if s.els.None? {
      assert StmtNeeds(s) == needs;
    } else {
      var x := s.els.value;
      var needs', temps' := StmtNeeds(x), StmtTemps(x);
      if Fits(g, needs, temps, base, 0) {
        var c := GenExpr(s.cond, g, base, 0).value;
        var t := GenStmts(s.thn, c.g, base, at + |c.code| + 5).value;
        var from := if AnyReturns(s.thn) then end else end + 5;
        TookFits(g, t.g, needs, temps, 0);
        StmtExactly(x, t.g, base, from);
        FitsBoth(g, t.g, needs, needs', temps, temps', base, 0);
        var r := GenStmt(x, t.g, base, from);
        if r.Success? {
          TookBoth(g, t.g, r.value.g, needs, needs', temps, temps', 0);
          InstrSizes(0, 0, 0, from + |r.value.code|);
        }
      }
      if Fits(g, needs + needs', Larger(temps, temps'), base, 0) {
        FitsFirst(g, needs, needs', temps, temps', base, 0);
      }
    }
  }

  lemma {:induction false} ListExactly(ss: seq<Stmt>, g: Gen, base: int, at: nat)
    requires PoolFits(g.pool)
    ensures ListExact(ss, g, base, at)
    decreases ss, 0
  {
    hide PoolFits, Took, Fits, GenStmt, StmtNeeds, StmtTemps, StmtSize;
    if ss == [] {
      TookNothing(g, 0);
      NothingFits(g, base, 0);
    } else {
      var first, rest := ss[0], ss[1..];
      StmtExactly(first, g, base, at);
      var h := GenStmt(first, g, base, at);
      if h.Success? {
        var at' := at + |h.value.code|;
        TookFits(g, h.value.g, StmtNeeds(first), StmtTemps(first), 0);
        ListExactly(rest, h.value.g, base, at');
        FitsBoth(g, h.value.g, StmtNeeds(first), ListNeeds(rest), StmtTemps(first), ListTemps(rest), base, 0);
        var r := GenStmts(rest, h.value.g, base, at');
        if r.Success? {
          TookBoth(g, h.value.g, r.value.g, StmtNeeds(first), ListNeeds(rest), StmtTemps(first), ListTemps(rest), 0);
        }
      }
      if Fits(g, ListNeeds(ss), ListTemps(ss), base, 0) {
        FitsFirst(g, StmtNeeds(first), ListNeeds(rest), StmtTemps(first), ListTemps(rest), base, 0);
      }
    }
  }

  // ---- Functions and programs ----

  function FunctionNeeds(fn: FunctionDecl): set<Value> {
    ListNeeds(fn.body) + if fn.returnType.None? then {IntV(0)} else {}
  }

  function FunctionSize(fn: FunctionDecl): nat {
    ListSize(fn.body) + if fn.returnType.None? then 4 else 0
  }

  /** At most 255 locals and temporaries, 256 with the parameters, and fewer than 2^31 bytes of code. */
  predicate FunctionFits(fn: FunctionDecl) {
    var temps := ListTemps(fn.body);
    && (temps == 0 || |fn.params| + fn.localCount + temps <= 256)
    && fn.localCount + temps <= 255 && |fn.params| + fn.localCount + temps <= 256
    && FunctionSize(fn) <= 2147483647
  }

  lemma FunctionExactly(fn: FunctionDecl, pool: seq<Value>)
    requires PoolFits(pool)
    ensures GenFunction(fn, pool).Success? <==> FunctionFits(fn) && |InPool(pool) + FunctionNeeds(fn)| <= 65536
    ensures GenFunction(fn, pool).Success? ==>
              var (f, pool') := GenFunction(fn, pool).value;
              && PoolFits(pool') && InPool(pool') == InPool(pool) + FunctionNeeds(fn)
              && Describes(f, fn)
  {
    hide PoolFits, InPool, GenStmts, GenConst, ListNeeds, ListTemps, ListSize, B.Encode;
    var g, base := Gen(pool, 0), |fn.params| + fn.localCount;
    ListExactly(fn.body, g, base, 0);
    var b := GenStmts(fn.body, g, base, 0);
    if fn.returnType.None? && b.Success? {
      ConstExactly(b.value.g, IntV(0), base, 0);
      InstrSizes(0, 0, 0, 0);
      assert InPool(pool) + ListNeeds(fn.body) + {IntV(0)} == InPool(pool) + FunctionNeeds(fn);
    }
    if fn.returnType.None? {
      UnionIsLarger(InPool(pool) + ListNeeds(fn.body), {IntV(0)});
      assert InPool(pool) + ListNeeds(fn.body) + {IntV(0)} == InPool(pool) + FunctionNeeds(fn);
    } else {
      assert FunctionNeeds(fn) == ListNeeds(fn.body);
    }
  }

  /** Name and parameters of the source, room for the temporaries, and code of the computed size. */
  predicate Describes(f: B.Function, fn: FunctionDecl) {
    && f.name == fn.name && f.paramCount == |fn.params|
    && f.localCount == fn.localCount + ListTemps(fn.body) && |f.code| == FunctionSize(fn)
  }

  function AllNeeds(fns: seq<FunctionDecl>): set<Value> {
    if fns == [] then {} else FunctionNeeds(fns[0]) + AllNeeds(fns[1..])
  }

  lemma {:induction false} FunctionsExactly(fns: seq<FunctionDecl>, pool: seq<Value>)
    requires PoolFits(pool)
    ensures GenFunctions(fns, pool).Success? <==> (forall i :: 0 <= i < |fns| ==> FunctionFits(fns[i])) && |InPool(pool) + AllNeeds(fns)| <= 65536
    ensures GenFunctions(fns, pool).Success? ==> InPool(GenFunctions(fns, pool).value.1) == InPool(pool) + AllNeeds(fns)
    ensures GenFunctions(fns, pool).Success? ==> forall i :: 0 <= i < |fns| ==> Describes(GenFunctions(fns, pool).value.0[i], fns[i])
    decreases fns
  {
    hide PoolFits, InPool, GenFunction, FunctionFits, FunctionNeeds, Describes;
    if fns == [] {
      PoolSize(pool);
      assert InPool(pool) + {} == InPool(pool);
    } else {
      FunctionExactly(fns[0], pool);
      var needs, rest := FunctionNeeds(fns[0]), AllNeeds(fns[1..]);
      assert InPool(pool) + needs + rest == InPool(pool) + (needs + rest);
      UnionIsLarger(InPool(pool) + needs, rest);
      if GenFunction(fns[0], pool).Success? {
        FunctionsExactly(fns[1..], GenFunction(fns[0], pool).value.1);
        AllFit(fns);
      }
    }
  }

  lemma AllFit(fns: seq<FunctionDecl>)
    requires fns != [] && FunctionFits(fns[0])
    ensures (forall i :: 0 <= i < |fns| ==> FunctionFits(fns[i])) <==> forall i :: 0 <= i < |fns[1..]| ==> FunctionFits(fns[1..][i])
  {
    hide FunctionFits;
    if forall i :: 0 <= i < |fns[1..]| ==> FunctionFits(fns[1..][i]) {
      forall i | 0 <= i < |fns| ensures FunctionFits(fns[i]) {
        assert i > 0 ==> fns[i] == fns[1..][i - 1];
      }
    }
  }

  lemma PoolSize(pool: seq<Value>)
    requires PoolFits(pool)
    ensures |InPool(pool)| <= 65536
  {
  }

  lemma EmptyPoolFits()
    ensures PoolFits([]) && InPool([]) == {}
  {
  }

  /**
    Code is generated for a checked program exactly if it has at most 65536 functions, each of them fits, and
    all of them together use at most 65536 different constants.
   */
  lemma GeneratesExactly(fns: seq<FunctionDecl>)
    requires IndexOf(fns, MAIN).Some?
    ensures Generate(fns).Success? <==> |fns| <= 65536 && (forall i :: 0 <= i < |fns| ==> FunctionFits(fns[i])) && |AllNeeds(fns)| <= 65536
    ensures Generate(fns).Success? ==> |Generate(fns).value.functions| == |fns| && InPool(Generate(fns).value.constants) == AllNeeds(fns)
    ensures Generate(fns).Success? ==> forall i :: 0 <= i < |fns| ==> Describes(Generate(fns).value.functions[i], fns[i])
  {
    hide FunctionFits, GenFunctions, AllNeeds, InPool, FunctionUsesFloat, IndexOf, Describes;
    EmptyPoolFits();
    FunctionsExactly(fns, []);
    assert {} + AllNeeds(fns) == AllNeeds(fns);
  }
}
