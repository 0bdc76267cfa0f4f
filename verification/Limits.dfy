/** Programs at the limits of the compiler: with 65536 functions or constants the written counts wrap to zero. */
module Limits {
  import opened Prelude
  import opened Bytes
  import opened Values
  import opened Syntax
  import opened CheckerSpec
  import opened CodeGenSpec
  import opened FileFormat
  import opened RoundTrip
  import opened Toolchain
  import opened Loading
  import B = Bytecode

  const FULL := MAX_U16 + 1

  // ---- 65536 functions ----

  /** One of the letters a to p. */
  function Letter(q: nat): Byte {
    97 + q % 16
  }

  /** An identifier: `f` and the four hexadecimal digits of `i`, spelt with the letters a to p. */
  function NameOf(i: nat): Text
    requires i < FULL
  {
    [102, Letter(i / 4096), Letter(i / 256), Letter(i / 16), Letter(i)]
  }

  function Digit(name: Text, k: nat): int
    requires k < |name|
  {
    name[k] as int - 97
  }

  lemma NameDetermines(i: nat)
    requires i < FULL
    ensures i == 4096 * Digit(NameOf(i), 1) + 256 * Digit(NameOf(i), 2) + 16 * Digit(NameOf(i), 3) + Digit(NameOf(i), 4)
  {
    var a, b, c := i / 16, i / 256, i / 4096;
    assert i == 16 * a + i % 16;
    assert a == 16 * b + a % 16;
    assert b == 16 * c + b % 16;
    assert c % 16 == c;
  }

  predicate IsEmpty(fn: FunctionDecl) {
    fn.params == [] && fn.returnType.None? && fn.body == [] && fn.localCount == 0
  }

  /** `main` and 65535 functions more, all of them `fun name() { }`. */
  function ManyFunctions(): (fs: seq<FunctionDecl>)
    ensures |fs| == FULL
    ensures forall i :: 0 <= i < |fs| ==> IsEmpty(fs[i]) && fs[i].name == if i == 0 then MAIN else NameOf(i)
  {
    seq(FULL, i requires 0 <= i < FULL => FunctionDecl(if i == 0 then MAIN else NameOf(i), [], None, [], 0))
  }

  lemma ManyNames()
    ensures DistinctNames(ManyFunctions())
  {
    hide NameOf;
    var fs := ManyFunctions();
    assert |MAIN| == 4;
    forall i, j | 0 <= i < j < |fs| ensures fs[i].name != fs[j].name {
      NameDetermines(j);
      if i > 0 {
        NameDetermines(i);
      } else {
        FiveLetters(j);
      }
    }
  }

  lemma FiveLetters(i: nat)
    requires i < FULL
    ensures |NameOf(i)| == 5
  {
  }

  lemma EmptyChecked(fs: seq<FunctionDecl>, fn: FunctionDecl)
    requires IsEmpty(fn)
    ensures CheckFunction(fs, fn) == Success(fn)
  {
    var st := State([map[]], 0);
    assert DeclareParams(0, st, []) == Success(st);
    assert CheckStmts(fs, fn, st, []) == Success(([], st));
  }

  lemma {:induction false} AllEmptyChecked(fs: seq<FunctionDecl>, rest: seq<FunctionDecl>)
    requires forall i :: 0 <= i < |rest| ==> IsEmpty(rest[i])
    ensures CheckFunctions(fs, rest) == Success(rest)
  {
    hide CheckFunction;
    if rest != [] {
      EmptyChecked(fs, rest[0]);
      AllEmptyChecked(fs, rest[1..]);
      assert rest == [rest[0]] + rest[1..];
    }
  }

  /** Every function returns 0, and that is the only constant. */
  lemma EmptyGenerated(fn: FunctionDecl, pool: seq<Value>)
    requires IsEmpty(fn) && (pool == [] || pool == [IntV(0)])
    ensures GenFunction(fn, pool).Success? && GenFunction(fn, pool).value.1 == [IntV(0)] && GenFunction(fn, pool).value.0.name == fn.name
  {
    hide B.Encode;
    assert [] + [IntV(0)] == [IntV(0)];
    assert Intern(Gen(pool, 0), IntV(0)) == Success((0, Gen([IntV(0)], 0)));
    assert GenStmts([], Gen(pool, 0), 0, 0) == Success(Emitted([], Gen(pool, 0)));
  }

  lemma {:induction false} AllEmptyGenerated(fns: seq<FunctionDecl>, pool: seq<Value>)
    requires forall i :: 0 <= i < |fns| ==> IsEmpty(fns[i])
    requires pool == [] || pool == [IntV(0)]
    ensures GenFunctions(fns, pool).Success?
    ensures GenFunctions(fns, pool).value.1 == if fns == [] then pool else [IntV(0)]
    ensures forall i :: 0 <= i < |fns| ==> GenFunctions(fns, pool).value.0[i].name == fns[i].name
    decreases fns
  {
    hide GenFunction;
    if fns != [] {
      EmptyGenerated(fns[0], pool);
      AllEmptyGenerated(fns[1..], [IntV(0)]);
    }
  }

  /** The checker and the code generator admit 65536 functions; the loader then finds bytes behind the program. */
  lemma ManyFunctionsWrap() returns (m: B.Module)
    ensures Compiles(ManyFunctions(), m) && TextsFit(m) && |m.functions| == FULL
    ensures LoadProgram(WriteModule(m)) == Failure(TrailingBytes)
  {
    hide LoadProgram, WriteModule, ManyFunctions, CheckFunctions, GenFunctions, FunctionUsesFloat, DistinctNames, NameOf, NoEndJumps, LoadedForm;
    var fs := ManyFunctions();
    ManyNames();
    AllEmptyChecked(fs, fs);
    assert fs[0].name == MAIN;
    assert IndexOf(fs, MAIN) == Some(0);
    assert CheckProgram(fs) == Success(fs);
    AllEmptyGenerated(fs, []);
    m := Generate(fs).value;
    ManyTextsFit(fs, m);
    LoadOutcome(fs, m);
  }

  lemma ManyTextsFit(fs: seq<FunctionDecl>, m: B.Module)
    requires fs == ManyFunctions() && m.constants == [IntV(0)] && |m.functions| == |fs|
    requires forall i :: 0 <= i < |fs| ==> m.functions[i].name == fs[i].name
    ensures TextsFit(m)
  {
    hide NameOf, ManyFunctions;
    assert |MAIN| == 4;
    forall f | f in m.functions ensures |f.name| <= MAX_CODE {
      var i :| 0 <= i < |fs| && m.functions[i] == f;
      FiveLetters(i);
    }
  }

  // ---- 65536 constants ----

  const X: Text := Ascii("x")

  /** `x = i; x = i + 1; ...; x = 65535;` */
  function Assignments(i: nat): seq<Stmt>
    requires i <= FULL
    decreases FULL - i
  {
    if i == FULL then [] else [Assign(X, IntLit(i), 0)] + Assignments(i + 1)
  }

  /** `fun main() { let x = 0; x = 1; ...; x = 65535; }` */
  function ManyConstants(): FunctionDecl {
    FunctionDecl(MAIN, [], None, [VarDecl(false, X, None, IntLit(0), 0)] + Assignments(1), 0)
  }

  const WITH_X := State([map[X := Variable(TInt, LET, 0)]], 1)

  lemma {:induction false} AssignmentsChecked(fs: seq<FunctionDecl>, fn: FunctionDecl, i: nat)
    requires i <= FULL
    ensures CheckStmts(fs, fn, WITH_X, Assignments(i)) == Success((Assignments(i), WITH_X)) && AllShaped(Assignments(i))
    decreases FULL - i
  {
    if i < FULL {
      AssignmentsChecked(fs, fn, i + 1);
      assert Assignments(i)[1..] == Assignments(i + 1);
      XFound();
      assert CheckStmt(fs, fn, WITH_X, Assign(X, IntLit(i), 0)) == Success((Assign(X, IntLit(i), 0), WITH_X));
    }
  }

  lemma XFound()
    ensures Lookup(WITH_X.scopes, X) == Some(Variable(TInt, LET, 0))
  {
  }

  lemma ManyConstantsChecked(fs: seq<FunctionDecl>, fn: FunctionDecl)
    requires fn == ManyConstants()
    ensures CheckFunction(fs, fn) == Success(fn.(localCount := 1)) && AllShaped(fn.body)
  {
    hide CheckStmts, Assignments;
    var st := State([map[]], 0);
    var head := VarDecl(false, X, None, IntLit(0), 0);
    assert DeclareParams(0, st, []) == Success(st);
    AssignmentsChecked(fs, fn, 1);
    assert fn.body[0] == head && fn.body[1..] == Assignments(1);
    HeadChecked(fs, fn, st, head, Assignments(1));
  }

  lemma HeadChecked(fs: seq<FunctionDecl>, fn: FunctionDecl, st: State, head: Stmt, rest: seq<Stmt>)
    requires head == VarDecl(false, X, None, IntLit(0), 0) && st == State([map[]], 0) && fn.params == []
    requires CheckStmts(fs, fn, WITH_X, rest) == Success((rest, WITH_X))
    ensures CheckStmts(fs, fn, st, [head] + rest) == Success(([head] + rest, WITH_X))
  {
    assert ([head] + rest)[1..] == rest;
    assert [map[]][0 := map[][X := Variable(TInt, LET, 0)]] == WITH_X.scopes;
    assert CheckStmt(fs, fn, st, head) == Success((head, WITH_X));
  }

  /** The integers below `n`, as constants. */
  function Ints(n: nat): (pool: seq<Value>)
    requires n <= FULL
    ensures |pool| == n && forall i :: 0 <= i < n ==> pool[i] == IntV(i)
  {
    seq(n, i requires 0 <= i < n => IntV(i))
  }

  lemma NextInt(i: nat)
    requires i < FULL
    ensures Intern(Gen(Ints(i), 0), IntV(i)) == Success((i, Gen(Ints(i + 1), 0)))
  {
    hide Ints;
    assert Ints(i) + [IntV(i)] == Ints(i + 1);
  }

  lemma {:induction false} AssignmentsGenerated(i: nat, at: nat)
    requires i <= FULL
    ensures var r := GenStmts(Assignments(i), Gen(Ints(i), 0), 1, at);
            r.Success? && r.value.g == Gen(Ints(FULL), 0) && |r.value.code| <= 10 * (FULL - i)
    decreases FULL - i
  {
    hide Ints, Intern, B.Encode;
    if i < FULL {
      var s := Assign(X, IntLit(i), 0);
      assert Assignments(i) == [s] + Assignments(i + 1) && Assignments(i)[1..] == Assignments(i + 1);
      NextInt(i);
      var code := B.Encode(B.PushConst(i)) + B.Encode(B.Store(0));
      assert GenStmt(s, Gen(Ints(i), 0), 1, at) == Success(Emitted(code, Gen(Ints(i + 1), 0)));
      AssignmentsGenerated(i + 1, at + |code|);
    }
  }

  lemma BodyGenerated(body: seq<Stmt>)
    requires body == ManyConstants().body
    ensures var r := GenStmts(body, Gen([], 0), 1, 0);
            r.Success? && r.value.g == Gen(Ints(FULL), 0) && |r.value.code| <= 10 * FULL
  {
    hide Ints, Intern, B.Encode, Assignments;
    var head := VarDecl(false, X, None, IntLit(0), 0);
    assert Ints(0) == [] && body[0] == head && body[1..] == Assignments(1);
    NextInt(0);
    var code := B.Encode(B.PushConst(0)) + B.Encode(B.Store(0));
    assert GenStmt(head, Gen([], 0), 1, 0) == Success(Emitted(code, Gen(Ints(1), 0)));
    AssignmentsGenerated(1, |code|);
  }

  lemma ManyConstantsGenerated(fn: FunctionDecl)
    requires fn == ManyConstants().(localCount := 1)
    ensures GenFunction(fn, []).Success? && GenFunction(fn, []).value.1 == Ints(FULL) && GenFunction(fn, []).value.0.name == MAIN
  {
    hide Ints, Intern, B.Encode, Assignments, GenStmts;
    BodyGenerated(fn.body);
    ZeroFound();
  }

  lemma ZeroFound()
    ensures Intern(Gen(Ints(FULL), 0), IntV(0)) == Success((0, Gen(Ints(FULL), 0)))
  {
  }

  /**
    The checker and the code generator admit 65536 constants. The loader then takes the first of them for an
    empty function table and an entry, and finds bytes behind the program.
   */
  lemma ManyConstantsWrap() returns (m: B.Module)
    ensures Compiles([ManyConstants()], m) && TextsFit(m) && |m.constants| == FULL
    ensures LoadProgram(WriteModule(m)) == Failure(TrailingBytes)
  {
    hide ManyConstants, CheckFunction, GenFunction, FunctionUsesFloat, ReadProgram, WriteModule, AllShaped, Ints, ContentsFit;
    var fn := ManyConstants();
    var fs, checked := [fn], [fn.(localCount := 1)];
    MainIsNamed(fn);
    ManyConstantsChecked(fs, fn);
    ManyConstantsGenerated(checked[0]);
    assert fs[1..] == [] && checked[1..] == [] && checked == [checked[0]] + [];
    assert CheckFunctions(fs, []) == Success([]);
    assert CheckFunctions(fs, fs) == Success(checked);
    assert IndexOf(fs, MAIN) == Some(0) && IndexOf(checked, MAIN) == Some(0);
    assert GenFunctions([], Ints(FULL)) == Success(([], Ints(FULL)));
    m := Generate(checked).value;
    assert |MAIN| == 4;
    CompiledFits(fs, m);
    ZeroCountsRead(m);
  }

  lemma MainIsNamed(fn: FunctionDecl)
    requires fn == ManyConstants()
    ensures fn.name == MAIN && fn.params == []
  {
  }
}
