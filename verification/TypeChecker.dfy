/** The checker as it runs: a stack of mutable scopes, a slot counter, and the function being checked. */
module TypeChecker {
  import opened Prelude
  import opened Bytes
  import opened Syntax
  import opened RuntimeApi
  import Semantics
  import Spec = CheckerSpec

  type CheckError = Spec.CheckError
  type Variable = Spec.Variable

  /** The annotated tree and the new scopes are as specified, or the specified error was raised. */
  ghost predicate Does<T>(spec: Result<(T, Spec.State), CheckError>, r: Result<T, CheckError>, after: Spec.State) {
    match spec
    case Success((x, st)) => r == Success(x) && after == st
    case Failure(e) => r == Failure(e)
  }

  /** The state after a declaration is as specified, or the specified error was raised. */
  ghost predicate Declares(spec: Result<Spec.State, CheckError>, err: Option<CheckError>, after: Spec.State) {
    match spec
    case Success(st) => err.None? && after == st
    case Failure(e) => err == Some(e)
  }

  lemma {:induction false} IndexOfAppend(fs: seq<FunctionDecl>, f: FunctionDecl, name: Text)
    ensures IndexOf(fs + [f], name) == if IndexOf(fs, name).Some? then IndexOf(fs, name) else if f.name == name then Some(|fs|) else None
  {
    if fs == [] {
      assert fs + [f] == [f];
    } else {
      IndexOfAppend(fs[1..], f, name);
      assert (fs + [f])[1..] == fs[1..] + [f];
    }
  }

  /** The functions checked so far, in front of the others. */
  ghost function Behind(done: seq<FunctionDecl>, rest: Result<seq<FunctionDecl>, CheckError>): Result<seq<FunctionDecl>, CheckError> {
    if rest.Failure? then rest else Success(done + rest.value)
  }

  lemma BehindNothing(rest: Result<seq<FunctionDecl>, CheckError>)
    ensures Behind([], rest) == rest
  {
    if rest.Success? {
      assert [] + rest.value == rest.value;
    }
  }

  lemma FunctionsFrom(fs: seq<FunctionDecl>, i: nat, done: seq<FunctionDecl>)
    requires i < |fs|
    ensures var fn := Spec.CheckFunction(fs, fs[i]);
            Behind(done, Spec.CheckFunctions(fs, fs[i..])) ==
            if fn.Failure? then Failure(fn.error) else Behind(done + [fn.value], Spec.CheckFunctions(fs, fs[i + 1..]))
  {
    hide Spec.CheckFunction;
    assert fs[i..][0] == fs[i] && fs[i..][1..] == fs[i + 1..];
    var rest := Spec.CheckFunctions(fs, fs[i + 1..]);
    if rest.Success? && Spec.CheckFunction(fs, fs[i]).Success? {
      var fn := Spec.CheckFunction(fs, fs[i]).value;
      assert done + ([fn] + rest.value) == done + [fn] + rest.value;
    }
  }

  lemma NoFunctions(fs: seq<FunctionDecl>, done: seq<FunctionDecl>)
    ensures Behind(done, Spec.CheckFunctions(fs, fs[|fs|..])) == Success(done)
  {
    assert done + [] == done;
  }

  class Checker {
    var functions: seq<FunctionDecl>
    var functionIndex: map<Text, nat>
    var current: FunctionDecl
    var scopes: seq<map<Text, Variable>>
    var nextSlot: nat

    /** The index agrees with a search for the first function of that name. */
    ghost predicate Indexed(fs: seq<FunctionDecl>)
      reads this`functionIndex
    {
      forall x :: IndexOf(fs, x) == if x in functionIndex then Some(functionIndex[x]) else None
    }

    ghost predicate Valid()
      reads this
    {
      Indexed(functions) && scopes != []
    }

    ghost function State(): Spec.State
      reads this
    {
      Spec.State(scopes, nextSlot)
    }

    constructor ()
      ensures functions == [] && functionIndex == map[]
    {
      functions, functionIndex, scopes, nextSlot := [], map[], [], 0;
      current := FunctionDecl([], [], None, [], 0);
    }

    // ---- Scopes and slots ----

    method Declare(name: Text, ty: Type, kind: Spec.VarKind) returns (err: Option<CheckError>)
      requires Valid()
      modifies this`scopes, this`nextSlot
      ensures Declares(Spec.Declare(|current.params|, old(State()), name, ty, kind), err, State())
      ensures err.None? ==> Valid()
    {
      var top := |scopes| - 1;
      if name in scopes[top] {
        return Some(Spec.DuplicateName);
      }
      var localsSoFar := nextSlot - |current.params|;
      if nextSlot > Spec.MAX_SLOT || (kind != Spec.PARAM && localsSoFar >= Spec.MAX_U8) {
        return Some(Spec.TooManyVariables);
      }
      scopes := scopes[top := scopes[top][name := Spec.Variable(ty, kind, nextSlot)]];
      nextSlot := nextSlot + 1;
      err := None;
    }

    /** The innermost declaration wins. */
    method Lookup(name: Text) returns (v: Option<Variable>)
      ensures v == Spec.Lookup(scopes, name)
    {
      var k := |scopes|;
      while k > 0
        invariant 0 <= k <= |scopes|
        invariant forall j :: k <= j < |scopes| ==> name !in scopes[j]
      {
        k := k - 1;
        if name in scopes[k] {
          return Some(scopes[k][name]);
        }
      }
      v := None;
    }

    // ---- Expressions ----

    /** The expression has to produce a value. */
    method CheckValue(e: Expr) returns (r: Result<Expr, CheckError>)
      requires Valid()
      ensures r == Spec.ValueOf(Spec.CheckExpr(functions, scopes, e))
      ensures r.Success? ==> TypeOf(r.value).Some?
      decreases e, 2
    {
      hide Spec.CheckExpr, Indexed;
      r := CheckExpr(e);
      if r.Success? && TypeOf(r.value).None? {
        return Failure(Spec.NoValue);
      }
    }

    method CheckExpr(e: Expr) returns (r: Result<Expr, CheckError>)
      requires Valid()
      ensures r == Spec.CheckExpr(functions, scopes, e)
      decreases e, 1
    {
      hide Indexed;
      match e {
        case IntLit(_) => return Success(e);
        case FloatLit(_) => return Success(e);
        case BoolLit(_) => return Success(e);
        case StringLit(_) => return Success(e);
        case VarRef(x, _, _) =>
          var v := Lookup(x);
          if v.None? { return Failure(Spec.UndefinedVariable); }
          return Success(VarRef(x, Some(v.value.ty), v.value.slot));
        case Unary(op, operand, _) =>
          var a :- CheckValue(operand);
          var t := Spec.UnaryType(op, TypeOf(a).value);
          if t.None? { return Failure(Spec.BadOperand); }
          return Success(Unary(op, a, t));
        case Binary(op, left, right, _) =>
          var a :- CheckValue(left);
          var b :- CheckValue(right);
          var t := Spec.BinaryType(op, TypeOf(a).value, TypeOf(b).value);
          if t.None? { return Failure(Spec.BadOperand); }
          return Success(Binary(op, a, b, t));
        case Call(None, _, _, _, _) =>
          r := CheckCall(e);
        case Call(Some(_), _, _, _, _) =>
          r := CheckRuntimeCall(e);
      }
    }

    method CheckCall(e: Expr) returns (r: Result<Expr, CheckError>)
      requires Valid() && e.Call? && e.namespace.None?
      ensures r == Spec.CheckExpr(functions, scopes, e)
      decreases e, 0
    {
      hide Spec.CheckArgs, IndexOf;
      assert IndexOf(functions, e.name) == if e.name in functionIndex then Some(functionIndex[e.name]) else None;
      if e.name !in functionIndex {
        return Failure(Spec.UndefinedFunction);
      }
      var fn := functions[functionIndex[e.name]];
      if |e.args| != |fn.params| {
        return Failure(Spec.ArgumentCount);
      }
      var args :- CheckArgs(e.args, Spec.ParamTypes(fn.params));
      r := Success(Call(None, e.name, args, fn.returnType, functionIndex[e.name]));
    }

    method CheckRuntimeCall(e: Expr) returns (r: Result<Expr, CheckError>)
      requires Valid() && e.Call? && e.namespace.Some?
      ensures r == Spec.CheckExpr(functions, scopes, e)
      decreases e, 0
    {
      hide Spec.CheckArgs, Indexed, SignatureOf;
      var signature := SignatureOf(QualifiedName(e.namespace.value, e.name));
      if signature.None? {
        return Failure(Spec.UnknownRuntimeFunction);
      }
      if |e.args| != |signature.value.params| {
        return Failure(Spec.ArgumentCount);
      }
      var args :- CheckArgs(e.args, signature.value.params);
      r := Success(Call(e.namespace, e.name, args, signature.value.result, e.index));
    }

    method CheckArgs(es: seq<Expr>, ts: seq<Type>) returns (r: Result<seq<Expr>, CheckError>)
      requires Valid() && |es| == |ts|
      ensures r == Spec.CheckArgs(functions, scopes, es, ts)
      decreases es
    {
      hide Spec.CheckExpr, Indexed;
      var done: seq<Expr> := [];
      ghost var whole := Spec.CheckArgs(functions, scopes, es, ts);
      assert es[0..] == es && ts[0..] == ts && (whole.Success? ==> [] + whole.value == whole.value);
      for i := 0 to |es|
        invariant match Spec.CheckArgs(functions, scopes, es[i..], ts[i..])
                  case Success(rest) => whole == Success(done + rest)
                  case Failure(f) => whole == Failure(f)
      {
        assert es[i..][0] == es[i] && es[i..][1..] == es[i + 1..] && ts[i..][1..] == ts[i + 1..];
        var a :- CheckValue(es[i]);
        if TypeOf(a) != Some(ts[i]) {
          return Failure(Spec.TypeMismatch);
        }
        ghost var rest := Spec.CheckArgs(functions, scopes, es[i + 1..], ts[i + 1..]);
        assert rest.Success? ==> done + ([a] + rest.value) == done + [a] + rest.value;
        done := done + [a];
      }
      assert done + [] == done;
      r := Success(done);
    }

    // ---- Statements ----

    method CheckCondition(e: Expr) returns (r: Result<Expr, CheckError>)
      requires Valid()
      ensures r == Spec.CheckCondition(functions, scopes, e)
    {
      hide Spec.CheckExpr, Indexed;
      var a :- CheckValue(e);
      if TypeOf(a) != Some(TBool) {
        return Failure(Spec.ConditionNotBool);
      }
      r := Success(a);
    }

    method CheckReturn(result: Option<Expr>) returns (r: Result<Option<Expr>, CheckError>)
      requires Valid()
      ensures r == Spec.CheckReturn(functions, current, scopes, result)
    {
      hide Spec.CheckExpr, Indexed;
      if current.returnType.None? {
        if result.Some? {
          return Failure(Spec.UnexpectedReturnValue);
        }
        return Success(None);
      }
      if result.None? {
        return Failure(Spec.ExpectedReturnValue);
      }
      var a :- CheckValue(result.value);
      if TypeOf(a) != current.returnType {
        return Failure(Spec.TypeMismatch);
      }
      r := Success(Some(a));
    }

    method CheckStmt(s: Stmt) returns (r: Result<Stmt, CheckError>)
      requires Valid()
      modifies this`scopes, this`nextSlot
      ensures Does(Spec.CheckStmt(functions, current, old(State()), s), r, State())
      ensures r.Success? ==> Valid()
      decreases s, 1
    {
      hide Spec.CheckExpr, Spec.CheckStmts, Spec.CheckCondition, Spec.CheckReturn, Indexed, Spec.Lookup;
      match s {
        case Block(ss) =>
          var b :- CheckBlock(ss);
          return Success(Block(b));
        case VarDecl(isConst, x, declared, init, _) =>
          r := CheckVarDecl(s);
        case Assign(x, value, _) =>
          r := CheckAssign(s);
        case If(cond, thn, els) =>
          r := CheckIf(s);
        case While(cond, body) =>
          var c :- CheckCondition(cond);
          var b :- CheckBlock(body);
          return Success(While(c, b));
        case Return(result) =>
          var v :- CheckReturn(result);
          return Success(Return(v));
        case CallStmt(call) =>
          var a :- CheckExpr(call);
          return Success(CallStmt(a));
      }
    }

    /** A variable is not visible in its own initializer. */
    method CheckVarDecl(s: Stmt) returns (r: Result<Stmt, CheckError>)
      requires Valid() && s.VarDecl?
      modifies this`scopes, this`nextSlot
      ensures Does(Spec.CheckStmt(functions, current, old(State()), s), r, State())
      ensures r.Success? ==> Valid()
    {
      hide Spec.CheckExpr, Indexed, Spec.Declare;
      var a :- CheckValue(s.init);
      if s.declared.Some? && s.declared != TypeOf(a) {
        return Failure(Spec.TypeMismatch);
      }
      var slot := nextSlot;
      var err := Declare(s.name, TypeOf(a).value, if s.isConst then Spec.CONST else Spec.LET);
      if err.Some? {
        return Failure(err.value);
      }
      r := Success(VarDecl(s.isConst, s.name, s.declared, a, slot));
    }

    method CheckAssign(s: Stmt) returns (r: Result<Stmt, CheckError>)
      requires Valid() && s.Assign?
      ensures Does(Spec.CheckStmt(functions, current, State(), s), r, State())
    {
      hide Spec.CheckExpr, Indexed, Spec.Lookup;
      var v := Lookup(s.name);
      if v.None? {
        return Failure(Spec.UndefinedVariable);
      }
      match v.value.kind {
        case CONST => return Failure(Spec.AssignToConst);
        case PARAM => return Failure(Spec.AssignToParameter);
        case LET =>
      }
      var a :- CheckValue(s.value);
      if TypeOf(a) != Some(v.value.ty) {
        return Failure(Spec.TypeMismatch);
      }
      r := Success(Assign(s.name, a, v.value.slot));
    }

    method CheckIf(s: Stmt) returns (r: Result<Stmt, CheckError>)
      requires Valid() && s.If?
      modifies this`scopes, this`nextSlot
      ensures Does(Spec.CheckStmt(functions, current, old(State()), s), r, State())
      ensures r.Success? ==> Valid()
      decreases s, 0
    {
      hide Spec.CheckExpr, Spec.CheckStmts, Spec.CheckCondition, Indexed;
      var c :- CheckCondition(s.cond);
      var t :- CheckBlock(s.thn);
      if s.els.None? {
        return Success(If(c, t, None));
      }
      var e :- CheckStmt(s.els.value);
      r := Success(If(c, t, Some(e)));
    }

    /** A block has a scope of its own. */
    method CheckBlock(ss: seq<Stmt>) returns (r: Result<seq<Stmt>, CheckError>)
      requires Valid()
      modifies this`scopes, this`nextSlot
      ensures match Spec.CheckStmts(functions, current, Spec.OpenScope(old(State())), ss)
              case Success((b, st)) => r == Success(b) && State() == Spec.CloseScope(st)
              case Failure(e) => r == Failure(e)
      ensures r.Success? ==> Valid()
      decreases ss, 1
    {
      hide Spec.CheckStmts, Indexed;
      ghost var before := State();
      scopes := scopes + [map[]];
      r := CheckStmts(ss);
      if r.Success? {
        Spec.BlockCloses(before, State());
        scopes := scopes[..|scopes| - 1];
      }
    }

    method CheckStmts(ss: seq<Stmt>) returns (r: Result<seq<Stmt>, CheckError>)
      requires Valid()
      modifies this`scopes, this`nextSlot
      ensures Does(Spec.CheckStmts(functions, current, old(State()), ss), r, State())
      ensures r.Success? ==> Valid()
      decreases ss, 0
    {
      hide Spec.CheckStmt, Spec.CheckStmts, Indexed, Spec.Nested;
      var done: seq<Stmt> := [];
      ghost var whole := Spec.CheckStmts(functions, current, State(), ss);
      assert ss[0..] == ss && (whole.Success? ==> [] + whole.value.0 == whole.value.0);
      for i := 0 to |ss|
        invariant Valid()
        invariant match Spec.CheckStmts(functions, current, State(), ss[i..])
                  case Success((rest, st)) => whole == Success((done + rest, st))
                  case Failure(f) => whole == Failure(f)
      {
        StatementsFrom(functions, current, State(), ss, i);
        var s :- CheckStmt(ss[i]);
        ghost var rest := Spec.CheckStmts(functions, current, State(), ss[i + 1..]);
        assert rest.Success? ==> done + ([s] + rest.value.0) == done + [s] + rest.value.0;
        done := done + [s];
      }
      NoStatements(functions, current, State());
      assert ss[|ss|..] == [] && done + [] == done;
      r := Success(done);
    }

    // ---- Functions ----

    /** Parameters and the top level of the body share one scope. */
    method CheckFunction(fn: FunctionDecl) returns (r: Result<FunctionDecl, CheckError>)
      requires Indexed(functions)
      modifies this`current, this`scopes, this`nextSlot
      ensures r == Spec.CheckFunction(functions, fn)
    {
      hide Indexed, Spec.DeclareParams, Spec.CheckStmts, AnyReturns;
      current, scopes, nextSlot := fn, [map[]], 0;
      if |fn.params| > Spec.MAX_U8 {
        return Failure(Spec.TooManyParameters);
      }
      var err := DeclareParams();
      if err.Some? {
        return Failure(err.value);
      }
      var body :- CheckStmts(fn.body);
      scopes := scopes[..|scopes| - 1];
      if fn.returnType.Some? && !AnyReturns(fn.body) {
        return Failure(Spec.MissingReturn);
      }
      r := Success(fn.(body := body, localCount := nextSlot - |fn.params|));
    }

    method DeclareParams() returns (err: Option<CheckError>)
      requires Valid()
      modifies this`scopes, this`nextSlot
      ensures Declares(Spec.DeclareParams(|current.params|, old(State()), current.params), err, State())
      ensures err.None? ==> Valid()
    {
      hide Spec.Declare, Indexed;
      var ps := current.params;
      ghost var whole := Spec.DeclareParams(|ps|, State(), ps);
      assert ps[0..] == ps;
      for i := 0 to |ps|
        invariant Valid()
        invariant Spec.DeclareParams(|ps|, State(), ps[i..]) == whole
      {
        assert ps[i..][0] == ps[i] && ps[i..][1..] == ps[i + 1..];
        err := Declare(ps[i].name, ps[i].ty, Spec.PARAM);
        if err.Some? {
          return;
        }
      }
      err := None;
    }

    method Check(program: seq<FunctionDecl>) returns (r: Result<seq<FunctionDecl>, CheckError>)
      requires functionIndex == map[]
      modifies this
      ensures r == Spec.CheckProgram(program)
    {
      hide Spec.CheckFunction, Spec.CheckFunctions, Indexed, IndexOf, Spec.DistinctNames, Behind;
      functions := program;
      var unique := IndexFunctions();
      if !unique {
        return Failure(Spec.DuplicateFunction);
      }
      var main := IndexOf(functions, MAIN);
      if main.None? {
        return Failure(Spec.MissingMain);
      }
      if functions[main.value].params != [] {
        return Failure(Spec.MainHasParameters);
      }
      var done: seq<FunctionDecl> := [];
      ghost var whole := Spec.CheckFunctions(program, program);
      assert program[0..] == program;
      BehindNothing(whole);
      for i := 0 to |program|
        invariant functions == program && Indexed(functions)
        invariant whole == Behind(done, Spec.CheckFunctions(program, program[i..]))
      {
        FunctionsFrom(program, i, done);
        var fn :- CheckFunction(program[i]);
        done := done + [fn];
      }
      NoFunctions(program, done);
      r := Success(done);
    }

    method IndexFunctions() returns (unique: bool)
      requires functionIndex == map[]
      modifies this`functionIndex
      ensures unique == Spec.DistinctNames(functions)
      ensures unique ==> Indexed(functions)
    {
      hide IndexOf;
      var fs := functions;
      assert fs[..0] == [];
      assert Indexed(fs[..0]) by { forall x ensures IndexOf([], x) == None { NoneIn(x); } }
      for i := 0 to |fs|
        invariant Indexed(fs[..i]) && Spec.DistinctNames(fs[..i])
      {
        assert fs[..i + 1] == fs[..i] + [fs[i]];
        assert IndexOf(fs[..i], fs[i].name) == if fs[i].name in functionIndex then Some(functionIndex[fs[i].name]) else None;
        if fs[i].name in functionIndex {
          var j := functionIndex[fs[i].name];
          assert fs[j].name == fs[i].name;
          return false;
        }
        assert forall f :: f in fs[..i] ==> f.name != fs[i].name;
        assert forall j :: 0 <= j < i ==> fs[j] in fs[..i];
        forall x ensures IndexOf(fs[..i + 1], x) == if IndexOf(fs[..i], x).Some? then IndexOf(fs[..i], x) else if fs[i].name == x then Some(i) else None {
          IndexOfAppend(fs[..i], fs[i], x);
        }
        functionIndex := functionIndex[fs[i].name := i];
      }
      assert fs[..|fs|] == fs;
      unique := true;
    }
  }

  /** One statement of a list, then the others. */
  lemma StatementsFrom(fs: seq<FunctionDecl>, fn: FunctionDecl, st: Spec.State, ss: seq<Stmt>, i: nat)
    requires st.scopes != [] && i < |ss|
    ensures match Spec.CheckStmt(fs, fn, st, ss[i])
            case Failure(e) => Spec.CheckStmts(fs, fn, st, ss[i..]) == Failure(e)
            case Success((s, st1)) =>
              && st1.scopes != []
              && match Spec.CheckStmts(fs, fn, st1, ss[i + 1..])
                 case Failure(e) => Spec.CheckStmts(fs, fn, st, ss[i..]) == Failure(e)
                 case Success((rest, st2)) => Spec.CheckStmts(fs, fn, st, ss[i..]) == Success(([s] + rest, st2))
  {
    hide Spec.CheckStmt;
    assert ss[i..][0] == ss[i] && ss[i..][1..] == ss[i + 1..];
  }

  lemma NoStatements(fs: seq<FunctionDecl>, fn: FunctionDecl, st: Spec.State)
    requires st.scopes != []
    ensures Spec.CheckStmts(fs, fn, st, []) == Success(([], st))
  {
  }

  lemma NoneIn(x: Text)
    ensures IndexOf([], x) == None
  {
  }
}
