/** Gaussian elimination with partial pivoting on an 8 by 8 system, over the real numbers. */
module LinearSystem {

  const N := 8

  /** The smallest pivot the solver divides by. */
  const SMALLEST_PIVOT := 0.000000000001

  /** One equation: eight coefficients and the right-hand side. */
  type Row = s: seq<real> | |s| == N + 1 witness ZERO_ROW

  const ZERO_ROW: seq<real> := [0.0, 0.0, 0.0, 0.0, 0.0, 0.0, 0.0, 0.0, 0.0]

  const ZERO_VECTOR: seq<real> := [0.0, 0.0, 0.0, 0.0, 0.0, 0.0, 0.0, 0.0]

  type Vector = s: seq<real> | |s| == N witness ZERO_VECTOR

  type Matrix = s: seq<Row> | |s| == N witness ZERO_MATRIX

  const ZERO_MATRIX: seq<Row> := [ZERO_ROW, ZERO_ROW, ZERO_ROW, ZERO_ROW, ZERO_ROW, ZERO_ROW, ZERO_ROW, ZERO_ROW]

  function Abs(r: real): real {
    if r < 0.0 then -r else r
  }

  /** Named so that a proof can take a product as a whole. */
  function Times(a: real, b: real): real {
    a * b
  }

  lemma ReducedTerm(a: real, f: real, b: real, y: real, q: real)
    ensures Times(a - Times(f, b), y) == Times(a, y) - Times(f, Times(b, y))
    ensures Times(f, Times(b, y) + q) == Times(f, Times(b, y)) + Times(f, q)
  {
    assert (a - f * b) * y == a * y - f * (b * y);
    var p := b * y;
    assert f * (p + q) == f * p + f * q;
  }

  lemma TimesZero(a: real)
    ensures Times(0.0, a) == 0.0 == Times(a, 0.0)
  {
  }

  lemma DividedTimes(s: real, d: real)
    requires d != 0.0
    ensures Times(s / d, d) == s
  {
  }

  /** The products of coefficients and unknowns from position `from` on, added up. */
  function Dot(row: Row, x: Vector, from: nat): real
    requires from <= N
    decreases N - from
  {
    if from == N then 0.0 else Times(row[from], x[from]) + Dot(row, x, from + 1)
  }

  /**
    The equation with its right-hand side taken `w` times: 1 for the equation itself, 0 for the homogeneous
    equation. Row operations keep both.
   */
  predicate Holds(row: Row, x: Vector, w: real) {
    Dot(row, x, 0) == Times(w, row[N])
  }

  ghost predicate Satisfies(m: Matrix, x: Vector, w: real) {
    forall r :: 0 <= r < N ==> Holds(m[r], x, w)
  }

  ghost predicate Solves(m: Matrix, x: Vector) {
    Satisfies(m, x, 1.0)
  }

  ghost predicate SameSolutions(a: Matrix, b: Matrix) {
    forall x: Vector, w: real :: Satisfies(a, x, w) <==> Satisfies(b, x, w)
  }

  ghost predicate Null(m: Matrix, v: Vector) {
    Satisfies(m, v, 0.0) && v != ZERO_VECTOR
  }

  /** The coefficients take some vector other than zero to zero. */
  ghost predicate Singular(m: Matrix) {
    exists v: Vector :: Null(m, v)
  }

  /** In the first `col` columns nothing is left below the diagonal, and the diagonal is not zero. */
  ghost predicate Staircase(m: Matrix, col: nat) {
    && (forall r, c :: 0 <= c < col && c < r < N ==> m[r][c] == 0.0)
    && (forall r :: 0 <= r < col && r < N ==> m[r][r] != 0.0)
  }

  // ---- Row operations ----

  /** `row` minus `f` times `pivot`. */
  function Reduced(row: Row, f: real, pivot: Row): Row {
    seq(N + 1, c requires 0 <= c < N + 1 => row[c] - Times(f, pivot[c]))
  }

  lemma {:induction false} DotReduced(row: Row, f: real, pivot: Row, x: Vector, from: nat)
    requires from <= N
    ensures Dot(Reduced(row, f, pivot), x, from) == Dot(row, x, from) - Times(f, Dot(pivot, x, from))
    decreases N - from
  {
    hide Times;
    if from == N {
      TimesZero(f);
    } else {
      DotReduced(row, f, pivot, x, from + 1);
      ReducedTerm(row[from], f, pivot[from], x[from], Dot(pivot, x, from + 1));
    }
  }

  lemma RightReduced(w: real, a: real, f: real, b: real)
    ensures Times(w, a - Times(f, b)) == Times(w, a) - Times(f, Times(w, b))
  {
    assert w * (a - f * b) == w * a - f * (w * b);
  }

  /** Subtracting a multiple of an equation that holds changes nothing. */
  lemma ReducedHolds(row: Row, f: real, pivot: Row, x: Vector, w: real)
    requires Holds(pivot, x, w)
    ensures Holds(Reduced(row, f, pivot), x, w) <==> Holds(row, x, w)
  {
    hide Dot, Times;
    DotReduced(row, f, pivot, x, 0);
    RightReduced(w, row[N], f, pivot[N]);
  }

  function Swapped(m: Matrix, i: nat, j: nat): Matrix
    requires i < N && j < N
  {
    m[i := m[j]][j := m[i]]
  }

  lemma SwapKeepsSolutions(m: Matrix, i: nat, j: nat)
    requires i < N && j < N
    ensures SameSolutions(m, Swapped(m, i, j))
  {
    hide Holds;
    var m' := Swapped(m, i, j);
    forall x: Vector, w: real ensures Satisfies(m, x, w) <==> Satisfies(m', x, w) {
      assert m'[i] == m[j] && m'[j] == m[i];
      assert forall k :: 0 <= k < N && k != i && k != j ==> m'[k] == m[k];
    }
  }

  /** What row `r` is multiplied with to meet the pivot row in column `col`. */
  function Factor(m: Matrix, r: nat, col: nat): real
    requires r < N && col < N && m[col][col] != 0.0
  {
    m[r][col] / m[col][col]
  }

  /** Every row below the diagonal, freed of column `col`. */
  function Cleared(m: Matrix, col: nat): Matrix
    requires col < N && m[col][col] != 0.0
  {
    seq(N, r requires 0 <= r < N => if r <= col then m[r] else Reduced(m[r], Factor(m, r, col), m[col]))
  }

  /** Subtracting multiples of the pivot row keeps the solutions, both ways. */
  lemma ClearKeepsSolutions(m: Matrix, col: nat)
    requires col < N && m[col][col] != 0.0
    ensures SameSolutions(m, Cleared(m, col))
  {
    hide Holds, Reduced, Factor;
    var m' := Cleared(m, col);
    forall x: Vector, w: real ensures Satisfies(m, x, w) <==> Satisfies(m', x, w) {
      assert m'[col] == m[col];
      if Holds(m[col], x, w) {
        forall r | 0 <= r < N ensures Holds(m'[r], x, w) <==> Holds(m[r], x, w) {
          ReducedHolds(m[r], Factor(m, r, col), m[col], x, w);
        }
      }
    }
  }

  // ---- Elimination ----

  /** The first of the rows from `col` up to `upTo` with the largest entry in column `col`. */
  function Largest(m: Matrix, col: nat, upTo: nat): (p: nat)
    requires col < upTo <= N
    ensures col <= p < upTo
    ensures forall r :: col <= r < upTo ==> Abs(m[r][col]) <= Abs(m[p][col])
    ensures forall r :: col <= r < p ==> Abs(m[r][col]) < Abs(m[p][col])
  {
    if upTo == col + 1 then col
    else
      var p := Largest(m, col, upTo - 1);
      if Abs(m[upTo - 1][col]) > Abs(m[p][col]) then upTo - 1 else p
  }

  function Pivot(m: Matrix, col: nat): real
    requires col < N
  {
    m[Largest(m, col, N)][col]
  }

  /** One column of the elimination. */
  function Advanced(m: Matrix, col: nat): Matrix
    requires col < N && Pivot(m, col) != 0.0
  {
    Cleared(Swapped(m, col, Largest(m, col, N)), col)
  }

  /** The elimination from column `col` on: the column where it stops, N at the end, and the matrix there. */
  function Reach(m: Matrix, col: nat): (r: (nat, Matrix))
    requires col <= N
    ensures r.0 <= N
    decreases N - col
  {
    if col == N || Abs(Pivot(m, col)) < SMALLEST_PIVOT then (col, m) else Reach(Advanced(m, col), col + 1)
  }

  /** Every column has a pivot of at least 1e-12. */
  predicate Solvable(m: Matrix) {
    Reach(m, 0).0 == N
  }

  /** The elimination stops at a pivot it could divide by. */
  predicate StopsShort(m: Matrix) {
    var (col, reached) := Reach(m, 0);
    col < N && Pivot(reached, col) != 0.0
  }

  lemma AdvancedStaircase(m: Matrix, col: nat)
    requires col < N && Staircase(m, col) && Pivot(m, col) != 0.0
    ensures Staircase(Swapped(m, col, Largest(m, col, N)), col) && Swapped(m, col, Largest(m, col, N))[col][col] != 0.0
    ensures Staircase(Advanced(m, col), col + 1) && SameSolutions(m, Advanced(m, col))
  {
    hide Times, SameSolutions, Reduced;
    var s := Swapped(m, col, Largest(m, col, N));
    SwapKeepsSolutions(m, col, Largest(m, col, N));
    ClearKeepsSolutions(s, col);
    SameSolutionsTrans(m, s, Advanced(m, col));
    forall r, c | 0 <= c < col + 1 && c < r < N ensures Cleared(s, col)[r][c] == 0.0 {
      if col < r {
        ClearedEntry(s, r, col, c);
      }
    }
  }

  lemma ClearedEntry(m: Matrix, r: nat, col: nat, c: nat)
    requires c <= col < r < N && Staircase(m, col) && m[col][col] != 0.0
    ensures Reduced(m[r], Factor(m, r, col), m[col])[c] == 0.0
  {
    hide Times;
    TimesZero(Factor(m, r, col));
    DividedTimes(m[r][col], m[col][col]);
  }

  lemma SameSolutionsTrans(a: Matrix, b: Matrix, c: Matrix)
    requires SameSolutions(a, b) && SameSolutions(b, c)
    ensures SameSolutions(a, c)
  {
    hide Satisfies;
  }

  lemma SameSolutionsHere(a: Matrix)
    ensures SameSolutions(a, a)
  {
    hide Satisfies;
  }

  /** Where the elimination stops, the solutions are still those of the input and the columns passed are a staircase. */
  lemma {:induction false} ReachKeeps(m: Matrix, col: nat)
    requires col <= N && Staircase(m, col)
    ensures var (stop, reached) := Reach(m, col);
            && SameSolutions(m, reached) && Staircase(reached, stop)
            && (stop < N ==> Abs(Pivot(reached, stop)) < SMALLEST_PIVOT)
    decreases N - col
  {
    hide SameSolutions, Staircase, Pivot, Advanced;
    if col == N || Abs(Pivot(m, col)) < SMALLEST_PIVOT {
      SameSolutionsHere(m);
    } else {
      AdvancedStaircase(m, col);
      var m' := Advanced(m, col);
      ReachKeeps(m', col + 1);
      SameSolutionsTrans(m, m', Reach(m', col + 1).1);
    }
  }

  // ---- Back substitution ----

  /** Leading zeros contribute nothing. */
  lemma {:induction false} DotSkips(row: Row, x: Vector, from: nat, upTo: nat)
    requires from <= upTo <= N && forall c :: from <= c < upTo ==> row[c] == 0.0
    ensures Dot(row, x, from) == Dot(row, x, upTo)
    decreases upTo - from
  {
    hide Times;
    if from < upTo {
      TimesZero(x[from]);
      DotSkips(row, x, from + 1, upTo);
    }
  }

  lemma {:induction false} DotAgrees(row: Row, x: Vector, y: Vector, from: nat)
    requires from <= N && x[from..] == y[from..]
    ensures Dot(row, x, from) == Dot(row, y, from)
    decreases N - from
  {
    hide Times;
    if from < N {
      assert x[from] == x[from..][0] == y[from..][0] == y[from];
      assert x[from + 1..] == x[from..][1..] == y[from..][1..] == y[from + 1..];
      DotAgrees(row, x, y, from + 1);
    }
  }

  /** The equations from row `r` on. */
  ghost predicate SolvesFrom(m: Matrix, x: Vector, r: nat) {
    forall k :: r <= k < N ==> Holds(m[k], x, 1.0)
  }

  /** Row `r` of a staircase fixes unknown `r` once the later unknowns are known. */
  lemma RowFixes(m: Matrix, x: Vector, y: Vector, r: nat)
    requires Staircase(m, N) && r < N && y[r + 1..] == x[r + 1..]
    requires x[r] == (m[r][N] - Dot(m[r], x, r + 1)) / m[r][r]
    ensures Holds(m[r], y, 1.0) <==> y[r] == x[r]
  {
    hide Dot, Times;
    RowSum(m[r], y, r);
    DotAgrees(m[r], x, y, r + 1);
    Isolated(m[r][r], y[r], Dot(m[r], x, r + 1), m[r][N]);
    UnitTimes(m[r][N]);
  }

  lemma RowSum(row: Row, y: Vector, r: nat)
    requires r < N && forall c :: 0 <= c < r ==> row[c] == 0.0
    ensures Dot(row, y, 0) == Times(row[r], y[r]) + Dot(row, y, r + 1)
  {
    hide Times;
    DotSkips(row, y, 0, r);
  }

  lemma Isolated(d: real, y: real, tail: real, right: real)
    requires d != 0.0
    ensures Times(d, y) + tail == right <==> y == (right - tail) / d
  {
    var s := right - tail;
    if d * y == s {
      assert s / d == (d * y) / d == y;
    }
    if y == s / d {
      assert d * y == d * (s / d) == s;
    }
  }

  // ---- When the solver gives up ----

  /** The null vector of a staircase without a pivot in column `col`, from unknown `r` on. */
  function NullFrom(m: Matrix, col: nat, r: nat): (v: Vector)
    requires r <= col < N && forall k :: 0 <= k < col ==> m[k][k] != 0.0
    ensures v[col] == 1.0 && forall c :: col < c < N ==> v[c] == 0.0
    decreases col - r
  {
    if r == col then ZERO_VECTOR[col := 1.0]
    else
      var v := NullFrom(m, col, r + 1);
      v[r := (0.0 - Dot(m[r], v, r + 1)) / m[r][r]]
  }

  lemma {:induction false} DotOfZeros(row: Row, v: Vector, from: nat)
    requires from <= N && forall c :: from <= c < N ==> row[c] == 0.0 || v[c] == 0.0
    ensures Dot(row, v, from) == 0.0
    decreases N - from
  {
    hide Times;
    if from < N {
      TimesZero(row[from]);
      TimesZero(v[from]);
      DotOfZeros(row, v, from + 1);
    }
  }

  lemma {:induction false} NullRows(m: Matrix, col: nat, r: nat, k: nat)
    requires r <= col < N && r <= k < N && Staircase(m, col) && forall i :: col <= i < N ==> m[i][col] == 0.0
    ensures Dot(m[k], NullFrom(m, col, r), 0) == 0.0
    decreases col - r
  {
    hide Times, Dot;
    var v := NullFrom(m, col, r);
    if r == col {
      DotOfZeros(m[k], v, 0);
    } else {
      var u := NullFrom(m, col, r + 1);
      assert v[r + 1..] == u[r + 1..];
      DotAgrees(m[k], u, v, r + 1);
      if k == r {
        RowSum(m[r], v, r);
        Isolated(m[r][r], v[r], Dot(m[r], u, r + 1), 0.0);
      } else {
        NullRows(m, col, r + 1, k);
        DotSkips(m[k], u, 0, r + 1);
        DotSkips(m[k], v, 0, r + 1);
      }
    }
  }

  /** With nothing left to divide by there is a null vector. */
  lemma NoPivotSingular(m: Matrix, col: nat)
    requires col < N && Staircase(m, col) && Pivot(m, col) == 0.0
    ensures Singular(m)
  {
    hide Times, Dot;
    var v := NullFrom(m, col, 0);
    assert forall i :: col <= i < N ==> Abs(m[i][col]) <= Abs(Pivot(m, col));
    forall r | 0 <= r < N ensures Holds(m[r], v, 0.0) {
      NullRows(m, col, 0, r);
      TimesZero(m[r][N]);
    }
    assert v[col] != ZERO_VECTOR[col];
    assert Null(m, v);
  }

  /** A full staircase has no null vector. */
  lemma {:induction false} StaircaseRegular(m: Matrix, v: Vector, r: nat)
    requires r <= N && Staircase(m, N) && Satisfies(m, v, 0.0)
    ensures forall c :: r <= c < N ==> v[c] == 0.0
    decreases N - r
  {
    hide Times, Dot;
    if r < N {
      StaircaseRegular(m, v, r + 1);
      RowSum(m[r], v, r);
      DotOfZeros(m[r], v, r + 1);
      assert Holds(m[r], v, 0.0);
      TimesZero(m[r][N]);
      Isolated(m[r][r], v[r], 0.0, 0.0);
    }
  }

  lemma SameSingular(a: Matrix, b: Matrix)
    requires SameSolutions(a, b)
    ensures Singular(a) <==> Singular(b)
  {
    hide Satisfies;
    if Singular(a) {
      var v: Vector :| Null(a, v);
      assert Null(b, v);
    }
    if Singular(b) {
      var v: Vector :| Null(b, v);
      assert Null(a, v);
    }
  }

  /**
    When the solver succeeds: exactly on the systems that are not singular, except those where it stops at a
    pivot that is not zero but below 1e-12.
   */
  lemma SolvableExactly(m: Matrix)
    ensures Solvable(m) <==> !Singular(m) && !StopsShort(m)
  {
    hide Satisfies, SameSolutions, Pivot, Singular;
    ReachKeeps(m, 0);
    var (col, reached) := Reach(m, 0);
    SameSingular(m, reached);
    if col == N {
      Regular(reached);
    } else if Pivot(reached, col) == 0.0 {
      NoPivotSingular(reached, col);
    }
  }

  lemma AdvancedPivots(m: Matrix, col: nat, r: nat)
    requires col < N && Pivot(m, col) != 0.0 && r <= col
    ensures Advanced(m, col)[r][r] == if r == col then Pivot(m, col) else Swapped(m, col, Largest(m, col, N))[r][r]
    ensures r < col ==> Advanced(m, col)[r] == m[r]
  {
    hide Reduced;
  }

  lemma {:induction false} PivotsReached(m: Matrix, col: nat)
    requires col <= N && forall r :: 0 <= r < col ==> Abs(m[r][r]) >= SMALLEST_PIVOT
    ensures forall r :: 0 <= r < Reach(m, col).0 ==> Abs(Reach(m, col).1[r][r]) >= SMALLEST_PIVOT
    decreases N - col
  {
    hide Pivot, Advanced;
    if col < N && Abs(Pivot(m, col)) >= SMALLEST_PIVOT {
      var m' := Advanced(m, col);
      forall r | 0 <= r < col + 1 ensures Abs(m'[r][r]) >= SMALLEST_PIVOT {
        AdvancedPivots(m, col, r);
      }
      PivotsReached(m', col + 1);
    }
  }

  /** The threshold is 1e-12: no smaller pivot is divided by, and only a smaller one stops the elimination. */
  lemma PivotThreshold(m: Matrix)
    ensures Solvable(m) ==> forall r :: 0 <= r < N ==> Abs(Reach(m, 0).1[r][r]) * 1000000000000.0 >= 1.0
    ensures StopsShort(m) ==> var (col, reached) := Reach(m, 0); 0.0 < Abs(Pivot(reached, col)) * 1000000000000.0 < 1.0
  {
    hide Pivot, Reach;
    PivotsReached(m, 0);
    ReachKeeps(m, 0);
  }

  lemma Regular(m: Matrix)
    requires Staircase(m, N)
    ensures !Singular(m)
  {
    hide Staircase, Satisfies;
    forall v: Vector | Satisfies(m, v, 0.0) ensures v == ZERO_VECTOR {
      StaircaseRegular(m, v, 0);
    }
  }

  /** `x` plus `k` times `v`. */
  function Moved(x: Vector, k: real, v: Vector): Vector {
    seq(N, i requires 0 <= i < N => x[i] + Times(k, v[i]))
  }

  lemma {:induction false} DotMoved(row: Row, x: Vector, k: real, v: Vector, from: nat)
    requires from <= N
    ensures Dot(row, Moved(x, k, v), from) == Dot(row, x, from) + Times(k, Dot(row, v, from))
    decreases N - from
  {
    hide Times;
    if from == N {
      TimesZero(k);
    } else {
      DotMoved(row, x, k, v, from + 1);
      MovedTerm(row[from], x[from], k, v[from], Dot(row, v, from + 1));
    }
  }

  lemma MovedTerm(a: real, x: real, k: real, v: real, q: real)
    ensures Times(a, x + Times(k, v)) == Times(a, x) + Times(k, Times(a, v))
    ensures Times(k, Times(a, v) + q) == Times(k, Times(a, v)) + Times(k, q)
  {
    assert a * (x + k * v) == a * x + k * (a * v);
    var p := a * v;
    assert k * (p + q) == k * p + k * q;
  }

  /** A solution is the only one exactly if the system is not singular. */
  lemma OnlySolution(m: Matrix, x: Vector)
    requires Solves(m, x)
    ensures (forall y: Vector :: Solves(m, y) ==> y == x) <==> !Singular(m)
  {
    hide Times, Dot;
    if Singular(m) {
      var v: Vector :| Null(m, v);
      MoveKeeps(m, x, 1.0, 1.0, v, 0.0);
      var y := Moved(x, 1.0, v);
      assert Solves(m, y);
      var i :| 0 <= i < N && v[i] != 0.0;
      UnitTimes(v[i]);
      assert y[i] != x[i];
    }
    forall y: Vector | Solves(m, y) && y != x ensures Singular(m) {
      MoveKeeps(m, y, 1.0, -1.0, x, 1.0);
      var v := Moved(y, -1.0, x);
      var i :| 0 <= i < N && y[i] != x[i];
      UnitTimes(x[i]);
      assert v[i] != ZERO_VECTOR[i];
      assert Null(m, v);
    }
  }

  lemma UnitTimes(a: real)
    ensures Times(1.0, a) == a && Times(-1.0, a) == -a
  {
  }

  lemma MoveKeeps(m: Matrix, x: Vector, w: real, k: real, v: Vector, u: real)
    requires Satisfies(m, x, w) && Satisfies(m, v, u)
    ensures Satisfies(m, Moved(x, k, v), w + k * u)
  {
    hide Times, Dot, Moved;
    forall r | 0 <= r < N ensures Holds(m[r], Moved(x, k, v), w + k * u) {
      DotMoved(m[r], x, k, v, 0);
      assert Holds(m[r], x, w) && Holds(m[r], v, u);
      MovedRight(w, k, u, m[r][N]);
    }
  }

  lemma MovedRight(w: real, k: real, u: real, b: real)
    ensures Times(w + k * u, b) == Times(w, b) + Times(k, Times(u, b))
  {
    assert (w + k * u) * b == w * b + k * (u * b);
  }

  // ---- What partial pivoting is for ----

  ghost predicate Bounded(m: Matrix, bound: real) {
    forall r, c :: 0 <= r < N && 0 <= c <= N ==> Abs(m[r][c]) <= bound
  }

  lemma FactorAtMostOne(a: real, p: real)
    requires p != 0.0 && Abs(a) <= Abs(p)
    ensures Abs(a / p) <= 1.0
  {
    var f := a / p;
    assert f * p == a && (-f) * p == -a;
    if f > 1.0 {
      Larger(f, p);
    } else if f < -1.0 {
      Larger(-f, p);
    }
  }

  lemma Larger(f: real, p: real)
    requires f > 1.0 && p != 0.0
    ensures Abs(f * p) > Abs(p)
  {
    if p > 0.0 {
      assert f * p - p == (f - 1.0) * p > 0.0;
    } else {
      assert p - f * p == (f - 1.0) * (-p) > 0.0;
    }
  }

  lemma NonNegative(a: real, b: real)
    requires a >= 0.0 && b >= 0.0
    ensures a * b >= 0.0
  {
  }

  lemma SmallProduct(f: real, b: real)
    requires Abs(f) <= 1.0
    ensures Abs(Times(f, b)) <= Abs(b)
  {
    var g, c := Abs(f), Abs(b);
    NonNegative(g, c);
    NonNegative(1.0 - g, c);
    assert c - g * c == (1.0 - g) * c;
    assert f * b == g * c || f * b == -(g * c);
  }

  /** One column at most doubles the largest entry, because no factor exceeds 1. */
  lemma AdvancedBounded(m: Matrix, col: nat, bound: real)
    requires col < N && Pivot(m, col) != 0.0 && Bounded(m, bound)
    ensures Bounded(Advanced(m, col), 2.0 * bound)
  {
    hide Times;
    var s := Swapped(m, col, Largest(m, col, N));
    forall r, c | 0 <= r < N && 0 <= c <= N ensures Abs(Cleared(s, col)[r][c]) <= 2.0 * bound {
      assert Abs(s[r][c]) <= bound && Abs(s[col][c]) <= bound;
      if r > col {
        assert Abs(s[r][col]) <= Abs(s[col][col]);
        FactorAtMostOne(s[r][col], s[col][col]);
        SmallProduct(Factor(s, r, col), s[col][c]);
        assert Cleared(s, col)[r][c] == s[r][c] - Times(Factor(s, r, col), s[col][c]);
      }
    }
  }

  function Doubled(n: nat, bound: real): real {
    if n == 0 then bound else Doubled(n - 1, 2.0 * bound)
  }

  lemma {:induction false} DoubledGrows(n: nat, bound: real)
    requires bound >= 0.0
    ensures Doubled(n, bound) >= bound
  {
    if n > 0 {
      DoubledGrows(n - 1, 2.0 * bound);
    }
  }

  /** No entry grows by more than a factor of two in each column. */
  lemma {:induction false} GrowthIsBounded(m: Matrix, col: nat, bound: real)
    requires col <= N && Bounded(m, bound)
    ensures Bounded(Reach(m, col).1, Doubled(N - col, bound))
    decreases N - col
  {
    hide Pivot, Advanced;
    assert 0.0 <= Abs(m[0][0]) <= bound;
    if col == N || Abs(Pivot(m, col)) < SMALLEST_PIVOT {
      DoubledGrows(N - col, bound);
    } else {
      AdvancedBounded(m, col, bound);
      GrowthIsBounded(Advanced(m, col), col + 1, 2.0 * bound);
    }
  }

  // ---- The solver ----

  /** What is left of a row after the inner loop has subtracted up to column `c`. */
  ghost predicate PartlyReduced(row: Row, was: Row, f: real, pivot: Row, col: nat, c: nat) {
    forall k :: 0 <= k < N + 1 ==> row[k] == if col <= k < c then was[k] - Times(f, pivot[k]) else was[k]
  }

  /** Subtract `f` times row `col` from row `r`, from column `col` on: the columns before are zero in both. */
  method ReduceRow(m: array<Row>, r: nat, col: nat)
    requires m.Length == N && col < r < N && Staircase(m[..], col) && m[col][col] != 0.0
    modifies m
    ensures m[..] == old(m[..])[r := Reduced(old(m[r]), old(m[r][col]) / old(m[col][col]), old(m[col]))]
    ensures m[r][col] == 0.0 && forall c :: 0 <= c < col ==> m[r][c] == 0.0
  {
    hide Times;
    var f := m[r][col] / m[col][col];
    ghost var was, pivot := m[r], m[col];
    for c := col to N + 1
      invariant forall k :: 0 <= k < N && k != r ==> m[k] == old(m[k])
      invariant PartlyReduced(m[r], was, f, pivot, col, c)
    {
      m[r] := m[r][c := m[r][c] - Times(f, m[col][c])];
    }
    ZeroColumns(m[r], was, f, pivot, col);
    assert m[..] == old(m[..])[r := m[r]];
  }

  lemma ZeroColumns(row: Row, was: Row, f: real, pivot: Row, col: nat)
    requires col < N && pivot[col] != 0.0 && f == was[col] / pivot[col]
    requires PartlyReduced(row, was, f, pivot, col, N + 1)
    requires forall c :: 0 <= c < col ==> was[c] == 0.0 && pivot[c] == 0.0
    ensures row == Reduced(was, f, pivot) && row[col] == 0.0 && forall c :: 0 <= c < col ==> row[c] == 0.0
  {
    hide Times;
    TimesZero(f);
    DividedTimes(was[col], pivot[col]);
    assert row == Reduced(was, f, pivot);
  }

  /** The row at or below the diagonal with the largest entry in the column, the first of them. */
  method FindPivot(m: array<Row>, col: nat) returns (pivot: nat)
    requires m.Length == N && col < N
    ensures pivot == Largest(m[..], col, N)
    ensures col <= pivot < N && forall r :: col <= r < N ==> Abs(m[r][col]) <= Abs(m[pivot][col])
    ensures forall r :: col <= r < pivot ==> Abs(m[r][col]) < Abs(m[pivot][col])
  {
    hide Abs;
    pivot := col;
    for r := col + 1 to N
      invariant pivot == Largest(m[..], col, r)
    {
      if Abs(m[r][col]) > Abs(m[pivot][col]) {
        pivot := r;
      }
    }
  }

  /** Clear one column below the diagonal. */
  method EliminateColumn(m: array<Row>, col: nat)
    requires m.Length == N && col < N && Staircase(m[..], col) && m[col][col] != 0.0
    modifies m
    ensures m[..] == Cleared(old(m[..]), col)
  {
    hide Times, Reduced;
    ghost var start := m[..];
    for r := col + 1 to N
      invariant Staircase(m[..], col) && m[col] == start[col]
      invariant forall k :: 0 <= k < r ==> m[k] == Cleared(start, col)[k]
      invariant forall k :: r <= k < N ==> m[k] == start[k]
    {
      ghost var before := m[..];
      ReduceRow(m, r, col);
      assert forall k :: 0 <= k < N && k != r ==> m[k] == before[k];
    }
    assert m[..] == Cleared(start, col);
  }

  /** Forward elimination; it stops at a column whose largest entry is too small to divide by. */
  method Eliminate(m: array<Row>) returns (ok: bool)
    requires m.Length == N
    modifies m
    ensures m[..] == Reach(old(m[..]), 0).1
    ensures ok <==> Solvable(old(m[..]))
    ensures SameSolutions(old(m[..]), m[..]) && (ok ==> Staircase(m[..], N))
  {
    hide Times, Cleared, SameSolutions;
    ghost var start := m[..];
    ReachKeeps(start, 0);
    for col := 0 to N
      invariant Staircase(m[..], col) && Reach(m[..], col) == Reach(start, 0)
    {
      var pivot := FindPivot(m, col);
      if Abs(m[pivot][col]) < SMALLEST_PIVOT {
        return false;
      }
      ghost var before := m[..];
      m[col], m[pivot] := m[pivot], m[col];
      assert m[..] == Swapped(before, col, pivot);
      AdvancedStaircase(before, col);
      EliminateColumn(m, col);
      assert m[..] == Advanced(before, col);
    }
    ok := true;
  }

  method BackSubstitute(m: array<Row>) returns (x: Vector)
    requires m.Length == N && Staircase(m[..], N)
    ensures forall y: Vector :: Solves(m[..], y) <==> y == x
  {
    hide Times;
    x := seq(N, _ => 0.0);
    var r := N;
    while r > 0
      invariant 0 <= r <= N
      invariant forall y: Vector :: SolvesFrom(m[..], y, r) <==> y[r..] == x[r..]
    {
      r := r - 1;
      ghost var before := x;
      var s := m[r][N];
      for c := r + 1 to N
        invariant s == m[r][N] - (Dot(m[r], x, r + 1) - Dot(m[r], x, c))
      {
        s := s - Times(m[r][c], x[c]);
      }
      x := x[r := s / m[r][r]];
      UnknownFixed(m[..], before, x, r, r + 1);
    }
    forall y: Vector ensures Solves(m[..], y) <==> y == x {
      assert y[0..] == y && x[0..] == x;
      assert SolvesFrom(m[..], y, 0) <==> Solves(m[..], y);
    }
  }

  lemma UnknownFixed(m: Matrix, before: Vector, x: Vector, r: nat, next: nat)
    requires Staircase(m, N) && r < N && next == r + 1
    requires forall y: Vector :: SolvesFrom(m, y, next) <==> y[next..] == before[next..]
    requires x == before[r := (m[r][N] - Dot(m[r], before, r + 1)) / m[r][r]]
    ensures forall y: Vector :: SolvesFrom(m, y, r) <==> y[r..] == x[r..]
  {
    hide Dot, Holds, Staircase;
    assert x[r + 1..] == before[r + 1..];
    DotAgrees(m[r], before, x, r + 1);
    forall y: Vector ensures SolvesFrom(m, y, r) <==> y[r..] == x[r..] {
      assert SolvesFrom(m, y, r) <==> Holds(m[r], y, 1.0) && SolvesFrom(m, y, r + 1);
      assert y[r..] == [y[r]] + y[r + 1..] && x[r..] == [x[r]] + x[r + 1..];
      if y[r + 1..] == x[r + 1..] {
        RowFixes(m, x, y, r);
      }
    }
  }

  lemma Outcome(m: Matrix)
    ensures Solvable(m) <==> !Singular(m) && !StopsShort(m)
    ensures SameSolutions(m, Reach(m, 0).1) && (Solvable(m) ==> Staircase(Reach(m, 0).1, N))
  {
    hide Singular, StopsShort, SameSolutions;
    SolvableExactly(m);
    ReachKeeps(m, 0);
  }

  lemma SameUnique(a: Matrix, b: Matrix, x: Vector)
    requires SameSolutions(a, b) && forall y: Vector :: Solves(b, y) <==> y == x
    ensures forall y: Vector :: Solves(a, y) <==> y == x
  {
    hide Satisfies;
    forall y: Vector ensures Solves(a, y) <==> y == x {
      assert Solves(a, y) <==> Solves(b, y);
    }
  }

  /**
    The solution of the system, which then has no other. The solver succeeds exactly if every column of the
    elimination has a pivot of at least 1e-12.
   */
  method Solve8(input: Matrix) returns (x: Vector, ok: bool)
    ensures ok <==> Solvable(input)
    ensures ok <==> !Singular(input) && !StopsShort(input)
    ensures ok ==> forall y: Vector :: Solves(input, y) <==> y == x
  {
    hide Solvable, Reach, Staircase, SameSolutions, Solves, Singular, StopsShort;
    var m := new Row[N](i requires 0 <= i < N => input[i]);
    assert m[..] == input;
    x := ZERO_VECTOR;
    ok := Eliminate(m);
    Outcome(input);
    if ok {
      x := BackSubstitute(m);
      SameUnique(input, m[..], x);
    }
  }
}
