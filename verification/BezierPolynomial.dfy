/** The polynomial form of a Bezier curve: integer combinatorial coefficients and their evaluation. */
module BezierPolynomial {
  import opened Bezier

  // ---- Combinatorics ----

  function Factorial(n: nat): (r: nat)
    ensures r >= 1
  {
    if n <= 1 then 1 else n * Factorial(n - 1)
  }

  /** Binomial coefficients by Pascal's rule. */
  ghost function Choose(n: nat, k: nat): nat
  {
    if k == 0 then 1 else if n == 0 then 0 else Choose(n - 1, k - 1) + Choose(n - 1, k)
  }

  /** The product of `j` factors going down from `n`. */
  ghost function Falling(n: nat, j: nat): nat
    requires j <= n
  {
    if j == 0 then 1 else Falling(n, j - 1) * (n - j + 1)
  }

  lemma {:induction false} ChooseBeyond(n: nat, k: nat)
    requires n < k
    ensures Choose(n, k) == 0
  {
    if n > 0 {
      ChooseBeyond(n - 1, k - 1);
      ChooseBeyond(n - 1, k);
    }
  }

  lemma {:induction false} FallingShift(n: nat, j: nat)
    requires j <= n
    ensures Falling(n + 1, j + 1) == (n + 1) * Falling(n, j)
  {
    FallingNext(n + 1, j + 1);
    FallingNext(n, j);
    hide Falling;
    if j > 0 {
      FallingShift(n, j - 1);
      Regroup(1, n + 1, Falling(n, j - 1), n - j + 1);
    }
  }

  /** `j` factors down from `n` are `n` choose `j` times `j` factorial. */
  lemma {:induction false} FallingIsChoose(n: nat, j: nat)
    requires j <= n
    ensures Falling(n, j) == Choose(n, j) * Factorial(j)
  {
    if j > 0 {
      // Falling(n, j) = n * Falling(n - 1, j - 1)
      FallingShift(n - 1, j - 1);
      FallingIsChoose(n - 1, j - 1);
      var f := Falling(n - 1, j - 1);
      if j == n {
        ChooseBeyond(n - 1, n);
        ChooseSum(Choose(n - 1, j - 1), 0, Factorial(j - 1), j, n, f);
      } else {
        FallingIsChoose(n - 1, j);
        FactorialStep(j);
        assert Falling(n - 1, j) == f * (n - j);
        ChooseSum2(Choose(n - 1, j - 1), Choose(n - 1, j), Factorial(j - 1), j, n, f);
      }
    }
  }

  lemma FactorialStep(j: nat)
    requires j > 0
    ensures Factorial(j) == j * Factorial(j - 1)
  {
  }

  lemma ChooseSum(a: nat, b: nat, g: nat, j: nat, n: nat, f: nat)
    requires j == n && f == a * g && b == 0 && j > 0
    ensures n * f == (a + b) * (j * g)
  {
    assert n * (a * g) == a * (n * g);
  }

  lemma ChooseSum2(a: nat, b: nat, g: nat, j: nat, n: nat, f: nat)
    requires 0 < j < n && f == a * g && f * (n - j) == b * (j * g)
    ensures n * f == (a + b) * (j * g)
  {
    assert n * f == j * f + (n - j) * f;
    assert j * (a * g) == a * (j * g);
    assert (a + b) * (j * g) == a * (j * g) + b * (j * g);
  }

  lemma Regroup(c: int, d: int, f: int, g: int)
    ensures c * ((d * f) * g) == (c * d) * (f * g)
  {
    assert (d * f) * g == d * (f * g);
    assert c * (d * (f * g)) == (c * d) * (f * g);
  }

  /** The divisor in the coefficient formula divides without remainder. */
  lemma ExactDivision(n: nat, j: nat, i: nat)
    requires i <= j <= n
    ensures Falling(n, j) == (Choose(n, j) * Choose(j, i)) * (Factorial(i) * Factorial(j - i))
  {
    hide Factorial, Falling, Choose;
    FallingIsChoose(n, j);
    FallingIsChoose(j, i);
    FactorialSplit(j, i);
    Regroup(Choose(n, j), Choose(j, i), Factorial(i), Factorial(j - i));
  }

  lemma {:induction false} FactorialSplit(j: nat, i: nat)
    requires i <= j
    ensures Factorial(j) == Falling(j, i) * Factorial(j - i)
  {
    if i > 0 {
      FactorialSplit(j, i - 1);
      FactorialStep(j - i + 1);
      Regroup(1, Falling(j, i - 1), j - i + 1, Factorial(j - i));
      assert Falling(j, i) == Falling(j, i - 1) * (j - i + 1);
      hide Factorial, Falling;
    } else {
      assert Falling(j, 0) == 1;
    }
  }

  // ---- Differences ----

  ghost function Delta(pts: seq<real>): (r: seq<real>)
    requires pts != []
    ensures |r| == |pts| - 1
  {
    seq(|pts| - 1, i requires 0 <= i < |pts| - 1 => pts[i + 1] - pts[i])
  }

  ghost function Deltas(pts: seq<real>, k: nat): (r: seq<real>)
    requires k < |pts|
    ensures |r| == |pts| - k
  {
    if k == 0 then pts else Delta(Deltas(pts, k - 1))
  }

  function Pow(t: real, k: nat): real { if k == 0 then 1.0 else Pow(t, k - 1) * t }

  /** C(r, k) t^k d. */
  ghost function Term(r: nat, k: nat, t: real, d: real): real
  {
    Choose(r, k) as real * Pow(t, k) * d
  }

  /** Partial sums of the Newton form: the `k + 1` first terms of sum C(r, j) t^j D^j. */
  ghost function NewtonSum(pts: seq<real>, t: real, r: nat, i: nat, k: nat): real
    requires i + k < |pts|
  {
    var term := Term(r, k, t, Deltas(pts, k)[i]);
    if k == 0 then term else NewtonSum(pts, t, r, i, k - 1) + term
  }

  /** The same with every difference one order higher. */
  ghost function NewtonNext(pts: seq<real>, t: real, r: nat, i: nat, k: nat): real
    requires i + k + 1 < |pts|
  {
    var term := Term(r, k, t, Deltas(pts, k + 1)[i]);
    if k == 0 then term else NewtonNext(pts, t, r, i, k - 1) + term
  }

  lemma DeltaStep(pts: seq<real>, k: nat, i: nat)
    requires i + k + 1 < |pts|
    ensures Deltas(pts, k + 1)[i] == Deltas(pts, k)[i + 1] - Deltas(pts, k)[i]
  {
  }

  ghost function Times(a: real, b: real): real { a * b }

  lemma Distribute(t: real, x: real, y: real)
    ensures Times(t, x + y) == Times(t, x) + Times(t, y)
    ensures Times(t, x - y) == Times(t, x) - Times(t, y)
  {
  }

  lemma TermDifference(r: nat, k: nat, t: real, x: real, y: real)
    ensures Term(r, k, t, x - y) == Term(r, k, t, x) - Term(r, k, t, y)
  {
    Distribute(Choose(r, k) as real * Pow(t, k), x, y);
  }

  lemma TermPascal(r: nat, k: nat, t: real, d: real)
    requires k > 0
    ensures Term(r + 1, k, t, d) == Term(r, k, t, d) + Times(t, Term(r, k - 1, t, d))
  {
    var a, b, q := Choose(r, k) as real, Choose(r, k - 1) as real, Pow(t, k - 1);
    assert Choose(r + 1, k) as real == a + b && Pow(t, k) == q * t;
    hide Choose, Pow;
    assert (a + b) * (q * t) * d == a * (q * t) * d + b * (q * t) * d;
    assert b * (q * t) * d == t * (b * q * d);
  }

  lemma TermEnds(r: nat, t: real, d: real, e: real)
    ensures Term(r, 0, t, d) == d && Term(r, r + 1, t, e) == 0.0
  {
    ChooseBeyond(r, r + 1);
  }

  /** Pascal's rule for partial Newton sums. */
  lemma {:induction false} NewtonPascal(pts: seq<real>, t: real, r: nat, i: nat, k: nat)
    requires i + k < |pts|
    ensures k == 0 ==> NewtonSum(pts, t, r + 1, i, k) == NewtonSum(pts, t, r, i, k)
    ensures k > 0 ==>
      NewtonSum(pts, t, r + 1, i, k) == NewtonSum(pts, t, r, i, k) + Times(t, NewtonNext(pts, t, r, i, k - 1))
  {
    hide Term, Times, Deltas, Choose, Pow;
    var d := Deltas(pts, k)[i];
    if k == 0 {
      TermEnds(r + 1, t, d, d);
      TermEnds(r, t, d, d);
    } else {
      NewtonPascal(pts, t, r, i, k - 1);
      TermPascal(r, k, t, d);
      if k > 1 {
        Distribute(t, NewtonNext(pts, t, r, i, k - 2), Term(r, k - 1, t, d));
      }
    }
  }

  /** Differences of neighbouring Newton sums. */
  lemma {:induction false} NewtonDifference(pts: seq<real>, t: real, r: nat, i: nat, k: nat)
    requires i + k + 1 < |pts|
    ensures NewtonSum(pts, t, r, i + 1, k) - NewtonSum(pts, t, r, i, k) == NewtonNext(pts, t, r, i, k)
  {
    hide Term, Deltas;
    DeltaStep(pts, k, i);
    TermDifference(r, k, t, Deltas(pts, k)[i + 1], Deltas(pts, k)[i]);
    if k > 0 {
      NewtonDifference(pts, t, r, i, k - 1);
    }
  }

  lemma LevelsStep(pts: seq<real>, t: real, r: nat, i: nat)
    requires r > 0 && i + r < |pts|
    ensures Levels(pts, t, r)[i]
      == Levels(pts, t, r - 1)[i] + Times(t, Levels(pts, t, r - 1)[i + 1] - Levels(pts, t, r - 1)[i])
  {
    hide Lerp, Times;
    LerpAsStep(Levels(pts, t, r - 1)[i], Levels(pts, t, r - 1)[i + 1], t);
  }

  lemma LerpAsStep(a: real, b: real, t: real)
    ensures Lerp(a, b, t) == a + Times(t, b - a)
  {
  }

  /** A row of the triangle expands in powers of the parameter. */
  lemma {:induction false} RowExpands(pts: seq<real>, t: real, r: nat, i: nat)
    requires i + r < |pts|
    ensures Levels(pts, t, r)[i] == NewtonSum(pts, t, r, i, r)
    decreases r
  {
    hide Times, Deltas, Levels, NewtonSum, NewtonNext, Term;
    if r == 0 {
      RowZero(pts, t, i);
    } else {
      RowExpands(pts, t, r - 1, i);
      RowExpands(pts, t, r - 1, i + 1);
      LevelsStep(pts, t, r, i);
      NewtonDifference(pts, t, r - 1, i, r - 1);
      NewtonPascal(pts, t, r - 1, i, r);
      TermEnds(r - 1, t, Deltas(pts, r)[i], Deltas(pts, r)[i]);
      NewtonSumStep(pts, t, r - 1, i, r);
    }
  }

  lemma RowZero(pts: seq<real>, t: real, i: nat)
    requires i < |pts|
    ensures Levels(pts, t, 0)[i] == NewtonSum(pts, t, 0, i, 0)
  {
    TermEnds(0, t, pts[i], pts[i]);
    hide Term;
  }

  lemma NewtonSumStep(pts: seq<real>, t: real, r: nat, i: nat, k: nat)
    requires i + k < |pts| && k > 0
    ensures NewtonSum(pts, t, r, i, k) == NewtonSum(pts, t, r, i, k - 1) + Term(r, k, t, Deltas(pts, k)[i])
  {
    hide Term, Deltas;
  }

  // ---- Differences as alternating sums ----

  /** The sign (-1)^i. */
  function Parity(i: int): int { if i % 2 == 0 then 1 else -1 }

  ghost function AltTerm(j: nat, m: nat, x: real): real
  {
    (Parity(m + j) * Choose(j, m)) as real * x
  }

  ghost function AltSum(pts: seq<real>, i: nat, j: nat, k: nat): real
    requires i + k < |pts|
  {
    if k == 0 then AltTerm(j, 0, pts[i]) else AltSum(pts, i, j, k - 1) + AltTerm(j, k, pts[i + k])
  }

  lemma SignedSplit(p: int, a: int, b: int, x: real)
    ensures (-p * (a + b)) as real * x == (-p * a) as real * x - (p * b) as real * x
  {
    assert -p * (a + b) == (-p * a) - (p * b);
    var u, v := -p * a, p * b;
    assert (u - v) as real == u as real - v as real;
    assert (u as real - v as real) * x == u as real * x - v as real * x;
  }

  lemma ParityFlips(i: int)
    ensures Parity(i + 1) == -Parity(i)
  {
  }

  lemma ChoosePascal(n: nat, k: nat)
    ensures Choose(n + 1, k) == (if k == 0 then 0 else Choose(n, k - 1)) + Choose(n, k)
  {
  }

  lemma AltTermPascal(j: nat, m: nat, x: real)
    ensures m == 0 ==> AltTerm(j + 1, m, x) == -AltTerm(j, m, x)
    ensures m > 0 ==> AltTerm(j + 1, m, x) == AltTerm(j, m - 1, x) - AltTerm(j, m, x)
  {
    hide Choose, Parity;
    ParityFlips(m + j);
    ChoosePascal(j, m);
    if m > 0 {
      ParityFlips(m + j - 1);
      SignedSplit(Parity(m + j), Choose(j, m - 1), Choose(j, m), x);
    } else {
      SignedSplit(Parity(m + j), 0, Choose(j, m), x);
    }
  }

  lemma {:induction false} AltPascal(pts: seq<real>, i: nat, j: nat, k: nat)
    requires i + k < |pts|
    ensures k == 0 ==> AltSum(pts, i, j + 1, k) == -AltSum(pts, i, j, k)
    ensures k > 0 ==> AltSum(pts, i, j + 1, k) == AltSum(pts, i + 1, j, k - 1) - AltSum(pts, i, j, k)
  {
    hide AltTerm;
    AltTermPascal(j, k, pts[i + k]);
    if k > 0 {
      AltPascal(pts, i, j, k - 1);
    }
  }

  lemma AltTermEnds(j: nat, x: real)
    ensures AltTerm(j, j + 1, x) == 0.0 && AltTerm(0, 0, x) == x
  {
    ChooseBeyond(j, j + 1);
  }

  lemma {:induction false} DeltaIsAltSum(pts: seq<real>, j: nat, i: nat)
    requires i + j < |pts|
    ensures Deltas(pts, j)[i] == AltSum(pts, i, j, j)
    decreases j
  {
    hide AltTerm, AltSum, Deltas, Choose;
    if j == 0 {
      AltTermEnds(0, pts[i]);
      AltSumStep(pts, i, 0, 0);
      DeltasZero(pts);
    } else {
      DeltaIsAltSum(pts, j - 1, i);
      DeltaIsAltSum(pts, j - 1, i + 1);
      DeltaStep(pts, j - 1, i);
      AltPascal(pts, i, j - 1, j);
      AltTermEnds(j - 1, pts[i + j]);
      AltSumStep(pts, i, j - 1, j);
    }
  }

  lemma DeltasZero(pts: seq<real>)
    requires pts != []
    ensures Deltas(pts, 0) == pts
  {
  }

  lemma AltSumStep(pts: seq<real>, i: nat, j: nat, k: nat)
    requires i + k < |pts|
    ensures AltSum(pts, i, j, k) == (if k == 0 then 0.0 else AltSum(pts, i, j, k - 1)) + AltTerm(j, k, pts[i + k])
  {
  }

  // ---- The coefficients ----

  /** Number of factorials in the table. */
  const MAX_FACTORIALS := 11

  const FACTORIALS := seq(MAX_FACTORIALS, (n: nat) => Factorial(n))

  /** Integer division that truncates toward zero. */
  function TruncDiv(a: int, b: int): int
    requires b > 0
  {
    if a >= 0 then a / b else -((-a) / b)
  }

  /** Coefficient `j` of the polynomial: `n` choose `j` times the `j`-th difference. */
  ghost function Coefficient(control: seq<real>, j: nat): real
    requires j < |control|
  {
    Choose(|control| - 1, j) as real * Deltas(control, j)[0]
  }

  lemma QuotientExact(q: nat, b: nat)
    requires b > 0
    ensures (q * b) / b == q
  {
    var z, m := (q * b) / b, (q * b) % b;
    assert q * b == b * z + m && 0 <= m < b;
    assert (q - z) * b == m;
    assert q - z >= 1 ==> (q - z) * b >= b;
    assert q - z <= -1 ==> (q - z) * b + b <= 0;
  }

  /** The truncating integer division in the coefficient formula is exact. */
  lemma CombExact(n: nat, j: nat, i: nat)
    requires i <= j <= n
    ensures TruncDiv(Falling(n, j) * Parity(i + j), Factorial(i) * Factorial(j - i))
         == Parity(i + j) * (Choose(n, j) * Choose(j, i))
  {
    hide Factorial, Falling, Choose;
    ExactDivision(n, j, i);
    var q, b := Choose(n, j) * Choose(j, i), Factorial(i) * Factorial(j - i);
    Positive(Factorial(i), Factorial(j - i));
    QuotientExact(q, b);
    Positive2(q, b);
  }

  lemma Positive(a: nat, b: nat)
    requires a > 0 && b > 0
    ensures a * b > 0
  {
  }

  lemma Positive2(a: nat, b: nat)
    ensures a * b >= 0
  {
  }

  lemma CombTerm(n: nat, j: nat, i: nat, x: real)
    requires i <= j <= n
    ensures CombPart(n, j, i, x) == Times(Choose(n, j) as real, AltTerm(j, i, x))
  {
    var p, c, d := Parity(i + j), Choose(n, j), Choose(j, i);
    hide Choose, Parity;
    assert p * (c * d) == c * (p * d);
    assert (c * (p * d)) as real == c as real * (p * d) as real;
    assert (c as real * (p * d) as real) * x == c as real * ((p * d) as real * x);
  }

  /** The products stay far below the 32-bit limit. */
  lemma ProductFits(n: nat, j: nat)
    requires j <= n <= 10
    ensures Falling(n, j) <= 3628800
  {
    hide Falling, Factorial;
    FactorialSplit(n, j);
    NoLess(Falling(n, j), Factorial(n - j));
    FactorialBound(n);
  }

  lemma NoLess(f: nat, g: nat)
    requires g >= 1
    ensures f <= f * g
  {
  }

  lemma FactorialBound(n: nat)
    requires n <= 10
    ensures Factorial(n) <= 3628800
  {
    assert Factorial(5) == 120 && Factorial(6) == 720 && Factorial(7) == 5040;
    assert Factorial(8) == 40320 && Factorial(9) == 362880 && Factorial(10) == 3628800;
    assert Factorial(0) == Factorial(1) == 1 && Factorial(2) == 2 && Factorial(3) == 6 && Factorial(4) == 24;
  }

  /** The inner sum of the coefficient loop. */
  ghost function CombSum(control: seq<real>, j: nat, k: nat): real
    requires k <= j + 1 && j < |control|
  {
    if k == 0 then 0.0
    else CombSum(control, j, k - 1) + CombPart(|control| - 1, j, k - 1, control[k - 1])
  }

  ghost function CombPart(n: nat, j: nat, i: nat, x: real): real
  {
    (Parity(i + j) * (Choose(n, j) * Choose(j, i))) as real * x
  }

  lemma {:induction false} CombSumIs(control: seq<real>, j: nat, k: nat)
    requires k <= j < |control|
    ensures CombSum(control, j, k + 1) == Times(Choose(|control| - 1, j) as real, AltSum(control, 0, j, k))
  {
    hide Choose, Parity, AltTerm, Times, CombPart;
    CombTerm(|control| - 1, j, k, control[k]);
    if k > 0 {
      CombSumIs(control, j, k - 1);
      Distribute(Choose(|control| - 1, j) as real, AltSum(control, 0, j, k - 1), AltTerm(j, k, control[k]));
    } else {
      assert CombSum(control, j, 0) == 0.0;
    }
  }

  lemma CombSumIsCoefficient(control: seq<real>, j: nat)
    requires j < |control|
    ensures CombSum(control, j, j + 1) == Coefficient(control, j)
  {
    hide Choose, Deltas, CombSum, AltSum;
    CombSumIs(control, j, j);
    DeltaIsAltSum(control, j, 0);
  }

  /** Fills `coeff` with the polynomial coefficients of the curve. */
  method BezierCoefficients(control: seq<real>, coeff: array<real>)
    requires 0 < |control| <= MAX_FACTORIALS && coeff.Length == |control|
    modifies coeff
    ensures forall j :: 0 <= j < |control| ==> coeff[j] == Coefficient(control, j)
  {
    hide Choose, Falling, Factorial, Parity, Coefficient, TruncDiv;
    var nn, prod := |control|, 1;
    for jj := 0 to nn
      invariant jj == 0 ==> prod == 1
      invariant jj > 0 ==> prod == Falling(nn - 1, jj - 1)
      invariant forall j :: 0 <= j < jj ==> coeff[j] == Coefficient(control, j)
    {
      FallingNext(nn - 1, jj);
      prod := prod * (if jj > 0 then nn - jj else 1);
      assert prod == Falling(nn - 1, jj) < 0x8000_0000 by { ProductFits(nn - 1, jj); }
      var sum := 0.0;
      for ii := 0 to jj + 1
        invariant sum == CombSum(control, jj, ii)
        invariant forall j :: 0 <= j < jj ==> coeff[j] == Coefficient(control, j)
      {
        CombExact(nn - 1, jj, ii);
        Positive(Factorial(ii), Factorial(jj - ii));
        var comb := TruncDiv(prod * Parity(ii + jj), FACTORIALS[ii] * FACTORIALS[jj - ii]);
        sum := sum + comb as real * control[ii];
      }
      CombSumIsCoefficient(control, jj);
      coeff[jj] := sum;
    }
  }

  lemma FallingNext(n: nat, j: nat)
    requires j <= n
    ensures Falling(n, 0) == 1 && (j > 0 ==> Falling(n, j) == Falling(n, j - 1) * (n - j + 1))
  {
  }

  // ---- Evaluation ----

  /** Sum of the `k` first terms of the polynomial with coefficients `cs`. */
  ghost function PolySum(cs: seq<real>, t: real, k: nat): real
    requires k <= |cs|
  {
    if k == 0 then 0.0 else PolySum(cs, t, k - 1) + Pow(t, k - 1) * cs[k - 1]
  }

  ghost function Polynomial(cs: seq<real>, t: real): real { PolySum(cs, t, |cs|) }

  /** The derivative of a polynomial. */
  ghost function Derivative(cs: seq<real>): (r: seq<real>)
    ensures |r| == if cs == [] then 0 else |cs| - 1
  {
    if cs == [] then [] else seq(|cs| - 1, i requires 0 <= i < |cs| - 1 => (i + 1) as real * cs[i + 1])
  }

  ghost function Derivatives(cs: seq<real>, order: nat): (r: seq<real>)
    requires order <= |cs|
    ensures |r| == |cs| - order
  {
    if order == 0 then cs else Derivative(Derivatives(cs, order - 1))
  }

  /** The product (i + 1) ... (i + order). */
  ghost function Rising(i: nat, order: nat): nat
  {
    if order == 0 then 1 else Rising(i, order - 1) * (i + order)
  }

  lemma {:induction false} RisingShift(i: nat, order: nat)
    ensures (i + 1) * Rising(i + 1, order) == Rising(i, order + 1)
  {
    if order == 0 {
      assert Rising(i + 1, 0) == 1 && Rising(i, 1) == Rising(i, 0) * (i + 1) && Rising(i, 0) == 1;
    } else {
      RisingShift(i, order - 1);
      var a, m := Rising(i + 1, order - 1), i + order + 1;
      assert Rising(i + 1, order) == a * m && Rising(i, order + 1) == Rising(i, order) * m;
      hide Rising;
      assert (i + 1) * (a * m) == ((i + 1) * a) * m;
    }
  }

  lemma Assoc3(a: int, b: int, x: real)
    ensures a as real * (b as real * x) == (a * b) as real * x
  {
    assert (a * b) as real == a as real * b as real;
    assert a as real * (b as real * x) == (a as real * b as real) * x;
  }

  lemma DerivativeStep(cs: seq<real>, order: nat, i: nat)
    requires 0 < order && i + order < |cs|
    ensures Derivatives(cs, order)[i] == (i + 1) as real * Derivatives(cs, order - 1)[i + 1]
  {
  }

  lemma {:induction false} DerivativesAre(cs: seq<real>, order: nat, i: nat)
    requires i + order < |cs|
    ensures Derivatives(cs, order)[i] == Rising(i, order) as real * cs[i + order]
  {
    hide Rising, Derivatives;
    RisingZero(i);
    DerivativesZero(cs);
    if order > 0 {
      DerivativesAre(cs, order - 1, i + 1);
      RisingShift(i, order - 1);
      DerivativeStep(cs, order, i);
      Assoc3(i + 1, Rising(i + 1, order - 1), cs[i + order]);
    }
  }

  lemma RisingZero(i: nat)
    ensures Rising(i, 0) == 1
  {
  }

  lemma DerivativesZero(cs: seq<real>)
    ensures Derivatives(cs, 0) == cs
  {
  }

  /** Evaluates the derivative of the given order of the polynomial `coeffs`. */
  method BezierEvaluate(order: nat, tt: real, coeffs: seq<real>) returns (sum: real)
    requires order <= |coeffs|
    ensures sum == Polynomial(Derivatives(coeffs, order), tt)
  {
    hide Derivatives, Pow;
    sum := 0.0;
    var tpow := 1.0;
    assert tpow == Pow(tt, 0) by { PowStep(tt, 0); }
    for ii := 0 to |coeffs| - order
      invariant tpow == Pow(tt, ii)
      invariant sum == PolySum(Derivatives(coeffs, order), tt, ii)
    {
      var diffCoeff := 1;
      for jj := 0 to order
        invariant diffCoeff == Rising(ii, jj)
      {
        diffCoeff := diffCoeff * (ii + jj + 1);
      }
      DerivativesAre(coeffs, order, ii);
      PowStep(tt, ii);
      TripleProduct(tpow, diffCoeff as real, coeffs[ii + order]);
      sum := sum + tpow * diffCoeff as real * coeffs[ii + order];
      tpow := tpow * tt;
    }
  }

  lemma PowStep(t: real, k: nat)
    ensures Pow(t, 0) == 1.0 && Pow(t, k + 1) == Pow(t, k) * t
  {
  }

  lemma TripleProduct(a: real, b: real, c: real)
    ensures a * b * c == a * (b * c)
  {
  }

  lemma {:induction false} PolySumIsNewton(control: seq<real>, cs: seq<real>, t: real, k: nat)
    requires k < |control| == |cs|
    requires forall j :: 0 <= j < |cs| ==> cs[j] == Coefficient(control, j)
    ensures PolySum(cs, t, k + 1) == NewtonSum(control, t, |control| - 1, 0, k)
  {
    TermIsPower(|control| - 1, k, t, Deltas(control, k)[0]);
    assert cs[k] == Coefficient(control, k);
    hide Term, Choose, Pow, Deltas;
    if k > 0 {
      PolySumIsNewton(control, cs, t, k - 1);
    } else {
      assert PolySum(cs, t, 0) == 0.0;
    }
  }

  lemma TermIsPower(r: nat, k: nat, t: real, d: real)
    ensures Term(r, k, t, d) == Pow(t, k) * (Choose(r, k) as real * d)
  {
    var c, q := Choose(r, k) as real, Pow(t, k);
    hide Choose, Pow;
    assert c * q * d == q * (c * d);
  }

  /** The polynomial with these coefficients is the curve that de Casteljau's recursion computes, at every
      parameter. */
  lemma PolynomialIsCurve(control: seq<real>, cs: seq<real>, t: real)
    requires control != [] && |cs| == |control|
    requires forall j :: 0 <= j < |cs| ==> cs[j] == Coefficient(control, j)
    ensures Polynomial(cs, t) == Curve(control, t)
  {
    var n := |control| - 1;
    PolySumIsNewton(control, cs, t, n);
    RowExpands(control, t, n, 0);
    RowsOfTriangle(control, t, n, 0);
  }

  /** A fixed-size spline computes its coefficients once and evaluates the polynomial: the value is the point of
      the curve. */
  method SplineValue(control: seq<real>, tt: real) returns (point: real)
    requires 0 < |control| <= MAX_FACTORIALS
    ensures point == Curve(control, tt)
  {
    hide Coefficient, Curve, Polynomial;
    var coeff := new real[|control|];
    BezierCoefficients(control, coeff);
    PolynomialIsCurve(control, coeff[..], tt);
    point := BezierEvaluate(0, tt, coeff[..]);
    DerivativesZero(coeff[..]);
  }
}
