/** The trusted setup: its Lagrange form commits to evaluations what its monomial form commits to
    coefficients. */
module KzgSetup {
  import opened Wrappers
  import opened Numbers
  import opened ModularArithmetic
  import opened KzgFft

  // ---------------------------------------------------------------- geometric sums

  /** 1 + x + ... + x^(n-1). */
  function Geometric(x: int, n: nat): int {
    if n == 0 then 0 else Geometric(x, n - 1) + Pow(x, n - 1)
  }

  lemma {:induction false} GeometricSplit(x: int, a: nat, b: nat)
    ensures Geometric(x, a + b) == Geometric(x, a) + Pow(x, a) * Geometric(x, b)
  {
    if b > 0 {
      GeometricSplit(x, a, b - 1);
      PowAdd(x, a, b - 1);
      var y, g, q := Pow(x, a), Geometric(x, b - 1), Pow(x, b - 1);
      assert y * (g + q) == y * g + y * q;
    }
  }

  lemma {:induction false} GeometricSame(x: int, y: int, n: nat, p: pos)
    requires Same(x, y, p)
    ensures Same(Geometric(x, n), Geometric(y, n), p)
  {
    if n > 0 {
      GeometricSame(x, y, n - 1, p);
      SamePow(x, y, n - 1, p);
      SameAdd(Geometric(x, n - 1), Geometric(y, n - 1), Pow(x, n - 1), Pow(y, n - 1), p);
    }
  }

  lemma {:induction false} GeometricOfOne(n: nat)
    ensures Geometric(1, n) == n
  {
    if n > 0 {
      GeometricOfOne(n - 1);
      PowOfOne(n - 1);
    }
  }

  /** A primitive root of order `2^d` has `w^(2^d)` congruent to one. */
  lemma FullTurn(w: int, d: nat, p: pos)
    requires d > 0 && Primitive(w, d, p)
    ensures Same(Pow(w, Pow2(d)), 1, p)
  {
    PowAdd(w, Pow2(d - 1), Pow2(d - 1));
    SameMul(Pow(w, Pow2(d - 1)), -1, Pow(w, Pow2(d - 1)), -1, p);
  }

  /** Half way round, the e-th power of the root is one for even e and minus one for odd e. */
  lemma HalfTurn(w: int, d: nat, e: nat, p: pos)
    requires d > 0 && Primitive(w, d, p)
    ensures Same(Pow(Pow(w, e), Pow2(d - 1)), if e % 2 == 0 then 1 else -1, p)
  {
    var h := Pow2(d - 1);
    PowMul(w, e, h);
    PowMul(w, h, e);
    assert e * h == h * e;
    SamePow(Pow(w, h), -1, e, p);
    PowOfMinusOne(e);
  }

  /** Orthogonality, by halving: the powers of `w^e` over a full turn sum to `2^d` when `2^d`
      divides `e`, and to zero otherwise. No primality of the modulus is used. */
  lemma {:induction false} RootSum(w: int, d: nat, e: nat, p: pos)
    requires Primitive(w, d, p)
    ensures Same(Geometric(Pow(w, e), Pow2(d)), if e % Pow2(d) == 0 then Pow2(d) else 0, p)
    decreases d
  {
    var x := Pow(w, e);
    if d == 0 {
      assert Geometric(x, 1) == Geometric(x, 0) + Pow(x, 0);
    } else {
      var h := Pow2(d - 1);
      var g, sign := Geometric(x, h), if e % 2 == 0 then 1 else -1;
      GeometricSplit(x, h, h);
      HalfTurn(w, d, e, p);
      SameMul(Pow(x, h), sign, g, g, p);
      SameAdd(g, g, Pow(x, h) * g, sign * g, p);
      if e % 2 == 0 {
        SquareRoot(w, d, p);
        PowSquare(w, e / 2);
        RootSum(w * w, d - 1, e / 2, p);
        var r := if (e / 2) % h == 0 then h else 0;
        SameAdd(g, r, g, r, p);
        HalfDivides(e, h);
      } else {
        OddNotDivisible(e, h);
      }
    }
  }

  lemma HalfDivides(e: nat, h: pos)
    requires e % 2 == 0
    ensures (e / 2) % h == 0 <==> e % (2 * h) == 0
  {
    var q, r := e / 2 / h, (e / 2) % h;
    assert e == (2 * h) * q + 2 * r by {
      assert e / 2 == h * q + r;
      assert 2 * (h * q) == (2 * h) * q;
    }
    DivisionUnique(e, q, 2 * r, 2 * h);
  }

  lemma OddNotDivisible(e: nat, h: pos)
    requires e % 2 == 1
    ensures e % (2 * h) != 0
  {
    var q := e / (2 * h);
    assert (2 * h) * q == 2 * (h * q);
    assert e == (2 * h) * q + e % (2 * h);
  }

  // ---------------------------------------------------------------- sums over the domain

  function At(s: seq<int>, i: nat): int {
    if i < |s| then s[i] else 0
  }

  function Powers(x: int): nat -> int {
    (i: nat) => Pow(x, i)
  }

  function Terms(s: seq<int>, x: int): nat -> int {
    (k: nat) => At(s, k) * Pow(x, k)
  }

  function Products(a: seq<int>, b: seq<int>): nat -> int {
    (i: nat) => At(a, i) * At(b, i)
  }

  /** The sum of `a[i] * b[i]` over the common length. */
  function Dot(a: seq<int>, b: seq<int>): int {
    Sum(Products(a, b), if |a| < |b| then |a| else |b|)
  }

  lemma {:induction false} PowersSum(x: int, n: nat)
    ensures Sum(Powers(x), n) == Geometric(x, n)
  {
    if n > 0 {
      PowersSum(x, n - 1);
    }
  }

  lemma {:induction false} HornerLast(s: seq<int>, x: int)
    requires s != []
    ensures Horner(s, x) == Horner(s[..|s| - 1], x) + s[|s| - 1] * Pow(x, |s| - 1)
    decreases |s|
  {
    var front, last := s[..|s| - 1], s[|s| - 1];
    if |s| == 1 {
      assert s[1..] == [] && front == [];
      assert x * Horner(s[1..], x) == 0 && last * Pow(x, 0) == last;
    } else {
      HornerLast(s[1..], x);
      assert s[1..][..|s| - 2] == front[1..];
      Distribute(x, Horner(front[1..], x), last, Pow(x, |s| - 2));
    }
  }

  lemma Distribute(x: int, h: int, a: int, q: int)
    ensures x * (h + a * q) == x * h + a * (x * q)
  {
    assert x * (a * q) == a * (x * q);
  }

  /** Horner's rule sums the terms. */
  lemma {:induction false} HornerIsSum(s: seq<int>, x: int)
    ensures Horner(s, x) == Sum(Terms(s, x), |s|)
    decreases |s|
  {
    if s != [] {
      var front := s[..|s| - 1];
      HornerLast(s, x);
      HornerIsSum(front, x);
      SumEqual(Terms(front, x), Terms(s, x), |s| - 1);
    }
  }

  // ---------------------------------------------------------------- the inverse transform

  /** Position `-i` of a list of length `n`, as Python counts. */
  function NegIndex(i: nat, n: nat): nat
    requires i < n
  {
    if i == 0 then 0 else n - i
  }

  /** The domain element at position `-i`. */
  function Back(w: int, n: nat, i: nat): int {
    if i < n then Pow(w, NegIndex(i, n)) else 0
  }

  /** Going `i` steps back `k` times is going forward `n - k` times `i` steps. */
  lemma BackIsForward(w: int, n: nat, i: nat, k: nat, p: pos)
    requires i < n && k <= n && Same(Pow(w, n), 1, p)
    ensures Same(Pow(Back(w, n, i), k), Pow(Pow(w, n - k), i), p)
  {
    if i == 0 {
      PowOfOne(k);
    } else {
      var a, b := (n - i) * k, (n - k) * i;
      PowMul(w, n - i, k);
      PowMul(w, n - k, i);
      PowMul(w, n, i);
      PowMul(w, n, k);
      PowAdd(w, a, n * i);
      PowAdd(w, b, n * k);
      assert a + n * i == b + n * k;
      SamePow(Pow(w, n), 1, i, p);
      SamePow(Pow(w, n), 1, k, p);
      PowOfOne(i);
      PowOfOne(k);
      SameMul(Pow(w, a), Pow(w, a), Pow(Pow(w, n), i), 1, p);
      SameMul(Pow(w, b), Pow(w, b), Pow(Pow(w, n), k), 1, p);
    }
  }

  /** One entry of the double transform: forward by `j`, back by `k`. */
  lemma RoundTrip(w: int, n: nat, i: nat, j: nat, k: nat, p: pos)
    requires i < n && k <= n && Same(Pow(w, n), 1, p)
    ensures Same(Pow(Pow(w, i), j) * Pow(Back(w, n, i), k), Pow(Pow(w, j + (n - k)), i), p)
  {
    BackIsForward(w, n, i, k, p);
    PowMul(w, i, j);
    PowMul(w, j, i);
    assert i * j == j * i;
    PowAdd(w, j, n - k);
    PowProduct(Pow(w, j), Pow(w, n - k), i);
    SameMul(Pow(Pow(w, i), j), Pow(Pow(w, j), i), Pow(Back(w, n, i), k), Pow(Pow(w, n - k), i), p);
  }

  function Trips(w: int, n: nat, j: nat, k: nat): nat -> int {
    (i: nat) => Pow(Pow(w, i), j) * Pow(Back(w, n, i), k)
  }

  /** Forward by `j` and back by `k`, summed over the domain, leaves something only if they agree. */
  lemma TripsSum(w: int, d: nat, j: nat, k: nat, p: pos)
    requires Primitive(w, d, p) && Same(Pow(w, Pow2(d)), 1, p)
    requires j < Pow2(d) && k < Pow2(d)
    ensures Same(Sum(Trips(w, Pow2(d), j, k), Pow2(d)), if j == k then Pow2(d) else 0, p)
  {
    hide Same, Primitive, Sum, Geometric, Pow, Trips;
    var n := Pow2(d);
    ExponentVanishes(j, k, n);
    TripsAreGeometric(w, n, j, k, p);
    RootSum(w, d, j + (n - k), p);
    SameTransitive(Sum(Trips(w, n, j, k), n), Geometric(Pow(w, j + (n - k)), n), if j == k then n else 0, p);
  }

  lemma TripsAreGeometric(w: int, n: nat, j: nat, k: nat, p: pos)
    requires k <= n && Same(Pow(w, n), 1, p)
    ensures Same(Sum(Trips(w, n, j, k), n), Geometric(Pow(w, j + (n - k)), n), p)
  {
    hide Same, Sum, Geometric, Pow, Back;
    var e := j + (n - k);
    forall i: nat | 0 <= i < n ensures Same(Trips(w, n, j, k)(i), Powers(Pow(w, e))(i), p) {
      RoundTrip(w, n, i, j, k, p);
    }
    hide Trips, Powers;
    SumSame(Trips(w, n, j, k), Powers(Pow(w, e)), n, p);
    PowersSum(Pow(w, e), n);
  }

  lemma ExponentVanishes(j: nat, k: nat, n: pos)
    requires j < n && k < n
    ensures (j + (n - k)) % n == 0 <==> j == k
  {
    if j >= k {
      DivisionUnique(j + (n - k), 1, j - k, n);
    } else {
      DivisionUnique(j + (n - k), 0, j + (n - k), n);
    }
  }

  /** The evaluation at `w^i`, weighted by the k-th power of the element at `-i`. */
  function Weighted(coeffs: seq<int>, w: int, n: nat, k: nat): nat -> int {
    (i: nat) => Horner(coeffs, Pow(w, i)) * Pow(Back(w, n, i), k)
  }

  function Entries(coeffs: seq<int>, w: int, n: nat, k: nat): (nat, nat) -> int {
    (i: nat, j: nat) => Terms(coeffs, Pow(w, i))(j) * Pow(Back(w, n, i), k)
  }

  function Scaled(coeffs: seq<int>, w: int, n: nat, k: nat): nat -> int {
    (j: nat) => At(coeffs, j) * Sum(Trips(w, n, j, k), n)
  }

  lemma RowsOfEntries(coeffs: seq<int>, w: int, n: nat, k: nat, i: nat)
    requires |coeffs| == n
    ensures Weighted(coeffs, w, n, k)(i) == Sum(Row(Entries(coeffs, w, n, k), i), n)
  {
    HornerIsSum(coeffs, Pow(w, i));
    SumScale(Terms(coeffs, Pow(w, i)), Row(Entries(coeffs, w, n, k), i), Pow(Back(w, n, i), k), n);
  }

  lemma ColumnEntry(coeffs: seq<int>, w: int, n: nat, k: nat, i: nat, j: nat)
    ensures Entries(coeffs, w, n, k)(i, j) == At(coeffs, j) * Trips(w, n, j, k)(i)
  {
    assert Entries(coeffs, w, n, k)(i, j) == Terms(coeffs, Pow(w, i))(j) * Pow(Back(w, n, i), k);
    assert Terms(coeffs, Pow(w, i))(j) == At(coeffs, j) * Pow(Pow(w, i), j);
    Associate(At(coeffs, j), Pow(Pow(w, i), j), Pow(Back(w, n, i), k));
  }

  lemma ColumnsOfEntries(coeffs: seq<int>, w: int, n: nat, k: nat, j: nat)
    ensures Scaled(coeffs, w, n, k)(j) == Sum(Column(Entries(coeffs, w, n, k), j), n)
  {
    hide Pow, Back, At, Sum;
    forall i: nat | 0 <= i < n ensures Column(Entries(coeffs, w, n, k), j)(i) == At(coeffs, j) * Trips(w, n, j, k)(i) {
      ColumnEntry(coeffs, w, n, k, i, j);
    }
    hide Entries, Trips;
    SumScale(Trips(w, n, j, k), Column(Entries(coeffs, w, n, k), j), At(coeffs, j), n);
  }

  /** Transforming the evaluations back gives `n` times the coefficient. */
  lemma InverseTransform(coeffs: seq<int>, w: int, d: nat, k: nat, p: pos)
    requires Primitive(w, d, p) && Same(Pow(w, Pow2(d)), 1, p)
    requires |coeffs| == Pow2(d) && k < Pow2(d)
    ensures Same(Sum(Weighted(coeffs, w, Pow2(d), k), Pow2(d)), coeffs[k] * Pow2(d), p)
  {
    var n := Pow2(d);
    forall i: nat | 0 <= i < n
      ensures Weighted(coeffs, w, n, k)(i) == Sum(Row(Entries(coeffs, w, n, k), i), n)
    {
      RowsOfEntries(coeffs, w, n, k, i);
    }
    forall j: nat | 0 <= j < n
      ensures Scaled(coeffs, w, n, k)(j) == Sum(Column(Entries(coeffs, w, n, k), j), n)
    {
      ColumnsOfEntries(coeffs, w, n, k, j);
    }
    SumSwap(Entries(coeffs, w, n, k), Weighted(coeffs, w, n, k), Scaled(coeffs, w, n, k), n, n);
    ScaledSum(coeffs, w, d, k, p);
  }

  lemma ScaledSum(coeffs: seq<int>, w: int, d: nat, k: nat, p: pos)
    requires Primitive(w, d, p) && Same(Pow(w, Pow2(d)), 1, p)
    requires |coeffs| == Pow2(d) && k < Pow2(d)
    ensures Same(Sum(Scaled(coeffs, w, Pow2(d), k), Pow2(d)), coeffs[k] * Pow2(d), p)
  {
    hide Same, Primitive, Sum;
    var n := Pow2(d);
    forall j: nat | 0 <= j < n ensures Same(Scaled(coeffs, w, n, k)(j), if j == k then coeffs[k] * n else 0, p) {
      TripsSum(w, d, j, k, p);
      SameSelf(coeffs[j], p);
      SameMul(coeffs[j], coeffs[j], Sum(Trips(w, n, j, k), n), if j == k then n else 0, p);
      assert coeffs[j] * 0 == 0;
    }
    SumSingle(Scaled(coeffs, w, n, k), k, coeffs[k] * n, n, p);
  }

  // ---------------------------------------------------------------- the two forms of a commitment

  /** The evaluations of a polynomial over the domain. */
  function Evaluations(coeffs: seq<int>, w: int, n: nat, p: pos): (e: seq<int>)
    ensures |e| == n
  {
    seq(n, (i: nat) => Horner(coeffs, Pow(w, i) % p) % p)
  }

  /** What `get_lagrange` computes at each position, up to multiples of the modulus. */
  ghost predicate IsLagrange(lagrange: seq<int>, setup: seq<int>, w: int, inv: int, p: pos) {
    && |lagrange| == |setup|
    && forall i :: 0 <= i < |setup| ==> Same(lagrange[i], Horner(setup, Back(w, |setup|, i)) * inv, p)
  }

  function Cross(coeffs: seq<int>, setup: seq<int>, w: int, n: nat): nat -> int {
    (i: nat) => Horner(coeffs, Pow(w, i)) * Horner(setup, Back(w, n, i))
  }

  function CrossEntries(coeffs: seq<int>, setup: seq<int>, w: int, n: nat): (nat, nat) -> int {
    (i: nat, k: nat) => Horner(coeffs, Pow(w, i)) * Terms(setup, Back(w, n, i))(k)
  }

  function CrossColumns(coeffs: seq<int>, setup: seq<int>, w: int, n: nat): nat -> int {
    (k: nat) => At(setup, k) * Sum(Weighted(coeffs, w, n, k), n)
  }

  lemma CrossRow(coeffs: seq<int>, setup: seq<int>, w: int, n: nat, i: nat)
    requires |setup| == n
    ensures Cross(coeffs, setup, w, n)(i) == Sum(Row(CrossEntries(coeffs, setup, w, n), i), n)
  {
    hide Pow, Back, Horner;
    var x := Back(w, n, i);
    HornerIsSum(setup, x);
    SumScale(Terms(setup, x), Row(CrossEntries(coeffs, setup, w, n), i), Horner(coeffs, Pow(w, i)), n);
  }

  lemma CrossEntry(coeffs: seq<int>, setup: seq<int>, w: int, n: nat, i: nat, k: nat)
    ensures CrossEntries(coeffs, setup, w, n)(i, k) == At(setup, k) * Weighted(coeffs, w, n, k)(i)
  {
    var x := Back(w, n, i);
    var h := Horner(coeffs, Pow(w, i));
    assert Terms(setup, x)(k) == At(setup, k) * Pow(x, k);
    assert Weighted(coeffs, w, n, k)(i) == h * Pow(x, k);
    assert CrossEntries(coeffs, setup, w, n)(i, k) == h * Terms(setup, x)(k);
    Commute(h, At(setup, k), Pow(x, k));
  }

  lemma CrossColumn(coeffs: seq<int>, setup: seq<int>, w: int, n: nat, k: nat)
    ensures CrossColumns(coeffs, setup, w, n)(k) == Sum(Column(CrossEntries(coeffs, setup, w, n), k), n)
  {
    hide Pow, Back, Horner, At, Sum;
    forall i: nat | 0 <= i < n
      ensures Column(CrossEntries(coeffs, setup, w, n), k)(i) == At(setup, k) * Weighted(coeffs, w, n, k)(i)
    {
      CrossEntry(coeffs, setup, w, n, i, k);
    }
    hide CrossEntries, Weighted;
    SumScale(Weighted(coeffs, w, n, k), Column(CrossEntries(coeffs, setup, w, n), k), At(setup, k), n);
  }

  lemma Commute(a: int, b: int, c: int)
    ensures a * (b * c) == b * (a * c)
  {
  }

  /** The sum of evaluation times back-evaluation over the domain is `n` times the sum of products. */
  lemma CrossSum(coeffs: seq<int>, setup: seq<int>, w: int, d: nat, p: pos)
    requires Primitive(w, d, p) && Same(Pow(w, Pow2(d)), 1, p)
    requires |coeffs| == |setup| == Pow2(d)
    ensures Same(Sum(Cross(coeffs, setup, w, Pow2(d)), Pow2(d)), Pow2(d) * Dot(coeffs, setup), p)
  {
    hide Same, Sum, Primitive, Pow;
    var n := Pow2(d);
    forall i: nat | 0 <= i < n
      ensures Cross(coeffs, setup, w, n)(i) == Sum(Row(CrossEntries(coeffs, setup, w, n), i), n)
    {
      CrossRow(coeffs, setup, w, n, i);
    }
    forall k: nat | 0 <= k < n
      ensures CrossColumns(coeffs, setup, w, n)(k) == Sum(Column(CrossEntries(coeffs, setup, w, n), k), n)
    {
      CrossColumn(coeffs, setup, w, n, k);
    }
    SumSwap(CrossEntries(coeffs, setup, w, n), Cross(coeffs, setup, w, n), CrossColumns(coeffs, setup, w, n), n, n);
    ColumnsAreProducts(coeffs, setup, w, d, p);
  }

  lemma ColumnsAreProducts(coeffs: seq<int>, setup: seq<int>, w: int, d: nat, p: pos)
    requires Primitive(w, d, p) && Same(Pow(w, Pow2(d)), 1, p)
    requires |coeffs| == |setup| == Pow2(d)
    ensures Same(Sum(CrossColumns(coeffs, setup, w, Pow2(d)), Pow2(d)), Pow2(d) * Dot(coeffs, setup), p)
  {
    var n := Pow2(d);
    var scaled := (k: nat) => n * Products(coeffs, setup)(k);
    forall k: nat | 0 <= k < n ensures Same(CrossColumns(coeffs, setup, w, n)(k), scaled(k), p) {
      ColumnIsProduct(coeffs, setup, w, d, p, k);
      assert Products(coeffs, setup)(k) == coeffs[k] * setup[k];
    }
    hide Same, Sum, Primitive, Pow;
    SumSame(CrossColumns(coeffs, setup, w, n), scaled, n, p);
    SumScale(Products(coeffs, setup), scaled, n, n);
  }

  lemma ColumnIsProduct(coeffs: seq<int>, setup: seq<int>, w: int, d: nat, p: pos, k: nat)
    requires Primitive(w, d, p) && Same(Pow(w, Pow2(d)), 1, p)
    requires |coeffs| == |setup| == Pow2(d) && k < Pow2(d)
    ensures Same(CrossColumns(coeffs, setup, w, Pow2(d))(k), Pow2(d) * (coeffs[k] * setup[k]), p)
  {
    hide Same, Sum, Primitive, Pow;
    var n := Pow2(d);
    InverseTransform(coeffs, w, d, k, p);
    SameSelf(setup[k], p);
    SameMul(setup[k], setup[k], Sum(Weighted(coeffs, w, n, k), n), coeffs[k] * n, p);
    Turn(setup[k], coeffs[k], n);
  }

  lemma Turn(a: int, b: int, n: int)
    ensures a * (b * n) == n * (b * a)
  {
  }

  lemma EvaluationAt(coeffs: seq<int>, w: int, n: nat, p: pos, i: nat)
    requires i < n
    ensures Same(Evaluations(coeffs, w, n, p)[i], Horner(coeffs, Pow(w, i)), p)
  {
    Reduced(Pow(w, i), p);
    HornerSame(coeffs, Pow(w, i) % p, Pow(w, i), p);
    Reduced(Horner(coeffs, Pow(w, i) % p), p);
  }

  /** The central law of the setup: for every polynomial, committing to its evaluations with the
      Lagrange form gives the same point as committing to its coefficients with the monomial form. */
  lemma CommitmentsAgree(coeffs: seq<int>, setup: seq<int>, lagrange: seq<int>, w: int, d: nat, inv: int, p: pos)
    requires Primitive(w, d, p) && Same(Pow(w, Pow2(d)), 1, p) && Same(Pow2(d) * inv, 1, p)
    requires |coeffs| == |setup| == Pow2(d) && IsLagrange(lagrange, setup, w, inv, p)
    ensures Same(Dot(Evaluations(coeffs, w, Pow2(d), p), lagrange), Dot(coeffs, setup), p)
  {
    var n := Pow2(d);
    var evaluations := Evaluations(coeffs, w, n, p);
    var scaled := (i: nat) => inv * Cross(coeffs, setup, w, n)(i);
    forall i: nat | 0 <= i < n ensures Same(Products(evaluations, lagrange)(i), scaled(i), p) {
      LagrangeTerm(coeffs, setup, lagrange, w, inv, p, i);
    }
    hide Same, Sum, Primitive, Pow, Products, IsLagrange, Evaluations;
    SumSame(Products(evaluations, lagrange), scaled, n, p);
    SumScale(Cross(coeffs, setup, w, n), scaled, inv, n);
    CrossSum(coeffs, setup, w, d, p);
    Unscale(Sum(Products(evaluations, lagrange), n), Sum(Cross(coeffs, setup, w, n), n), Dot(coeffs, setup), n, inv, p);
  }

  lemma LagrangeTerm(coeffs: seq<int>, setup: seq<int>, lagrange: seq<int>, w: int, inv: int, p: pos, i: nat)
    requires i < |setup| && IsLagrange(lagrange, setup, w, inv, p)
    ensures Same(At(Evaluations(coeffs, w, |setup|, p), i) * At(lagrange, i),
      inv * Cross(coeffs, setup, w, |setup|)(i), p)
  {
    var n := |setup|;
    var a, b := Horner(coeffs, Pow(w, i)), Horner(setup, Back(w, n, i));
    assert Cross(coeffs, setup, w, n)(i) == a * b;
    assert Same(lagrange[i], b * inv, p);
    EvaluationAt(coeffs, w, n, p, i);
    var e := Evaluations(coeffs, w, n, p);
    hide Same, Pow, Back, Horner, Evaluations, Cross, IsLagrange;
    SameMul(e[i], a, lagrange[i], b * inv, p);
    Rotate(a, b, inv);
  }

  lemma Rotate(a: int, b: int, c: int)
    ensures a * (b * c) == c * (a * b)
  {
  }

  lemma Unscale(left: int, cross: int, dot: int, n: int, inv: int, p: pos)
    requires Same(left, inv * cross, p) && Same(cross, n * dot, p) && Same(n * inv, 1, p)
    ensures Same(left, dot, p)
  {
    SameMul(inv, inv, cross, n * dot, p);
    SameMul(n * inv, 1, dot, dot, p);
    assert inv * (n * dot) == (n * inv) * dot;
  }

  // ---------------------------------------------------------------- building the setup

  const PRIMITIVE_ROOT_OF_UNITY := 7

  /** `pow(base, exponent, modulus)`. */
  function PowMod(x: int, e: nat, p: pos): (r: int)
    ensures Same(r, Pow(x, e), p)
  {
    Reduced(Pow(x, e), p);
    Pow(x, e) % p
  }

  /** `generate_setup`: the generator times each power of the secret. Length zero still gives the
      generator. */
  method GenerateSetup(generator: int, secret: int, length: nat, p: pos) returns (result: seq<int>)
    requires IsPoint(generator, p)
    ensures |result| == Max(length, 1)
    ensures forall j :: 0 <= j < |result| ==> IsPoint(result[j], p) && Same(result[j], generator * Pow(secret, j), p)
  {
    result := [generator];
    assert generator * Pow(secret, 0) == generator;
    while |result| < length
      invariant 1 <= |result| <= Max(length, 1)
      invariant forall j :: 0 <= j < |result| ==> IsPoint(result[j], p)
      invariant forall j :: 0 <= j < |result| ==> Same(result[j], generator * Pow(secret, j), p)
    {
      var last := |result| - 1;
      NextPower(result[last], generator, secret, last, p);
      result := result + [Multiply(result[last], secret, p)];
    }
  }

  lemma NextPower(point: int, generator: int, secret: int, j: nat, p: pos)
    requires Same(point, generator * Pow(secret, j), p)
    ensures Same(Multiply(point, secret, p), generator * Pow(secret, j + 1), p)
  {
    var q := Pow(secret, j);
    SameMul(point, generator * q, secret, secret, p);
    Reduced(point * secret, p);
    assert (generator * q) * secret == generator * (secret * q);
  }

  /** `compute_root_of_unity`: a point whose power `length` is that of the primitive root to the group
      order. For a prime modulus that is one, by Fermat, so that `w**length = 1`. */
  method ComputeRootOfUnity(length: pos, p: pos) returns (result: Result<int, string>)
    ensures result.Success? <==> (p - 1) % length == 0
    ensures result.Success? ==> result.value == Root(length, p) && IsPoint(result.value, p)
    ensures result.Success? ==> result.value == Pow(7, (p - 1) / length) % p
    ensures result.Success? ==> Same(Pow(result.value, length), Pow(PRIMITIVE_ROOT_OF_UNITY, p - 1), p)
    ensures result.Success? && Same(Pow(PRIMITIVE_ROOT_OF_UNITY, p - 1), 1, p) ==> Same(Pow(result.value, length), 1, p)
  {
    if (p - 1) % length != 0 {
      return Failure("length does not divide the group order");
    }
    PowerOfRoot(length, p);
    return Success(PowMod(PRIMITIVE_ROOT_OF_UNITY, (p - 1) / length, p));
  }

  lemma PowerOfRoot(length: pos, p: pos)
    requires (p - 1) % length == 0
    ensures Same(Pow(Root(length, p), length), Pow(PRIMITIVE_ROOT_OF_UNITY, p - 1), p)
  {
    var e := (p - 1) / length;
    assert e * length == p - 1;
    PowMul(PRIMITIVE_ROOT_OF_UNITY, e, length);
    hide Pow;
    Reduced(Pow(PRIMITIVE_ROOT_OF_UNITY, e), p);
    SamePow(Root(length, p), Pow(PRIMITIVE_ROOT_OF_UNITY, e), length, p);
  }

  /** `compute_roots_of_unity`: the successive powers of the root. */
  method ComputeRootsOfUnity(count: pos, p: pos) returns (result: Result<seq<int>, string>)
    requires p > 1
    ensures result.Success? <==> (p - 1) % count == 0
    ensures result.Success? ==> |result.value| == count
    ensures result.Success? ==> forall i :: 0 <= i < count ==> result.value[i] == PowMod(Root(count, p), i, p)
    ensures result.Success? ==> forall i :: 0 <= i < count ==> result.value[i] == Pow(Pow(7, (p - 1) / count), i) % p
  {
    var root :- ComputeRootOfUnity(count, p);
    assert root == PowMod(7, (p - 1) / count, p);
    hide Same, Pow, Root, PowMod;
    var roots: seq<int> := [];
    var current := 1;
    FirstPower(root, p);
    while |roots| < count
      invariant |roots| <= count
      invariant current == PowMod(root, |roots|, p)
      invariant forall i :: 0 <= i < |roots| ==> roots[i] == PowMod(root, i, p)
    {
      NextRoot(root, |roots|, p);
      roots := roots + [current];
      current := current * root % p;
    }
    forall i: nat | i < count ensures PowMod(root, i, p) == Pow(Pow(7, (p - 1) / count), i) % p {
      PowerOfPower((p - 1) / count, i, p);
    }
    return Success(roots);
  }

  lemma FirstPower(x: int, p: pos)
    requires p > 1
    ensures PowMod(x, 0, p) == 1
  {
    DivisionUnique(1, 0, 1, p);
  }

  lemma OnePower(x: int, n: nat, p: pos)
    requires PowMod(x, n, p) == 1
    ensures Same(Pow(x, n), 1, p)
  {
  }

  lemma NextRoot(x: int, i: nat, p: pos)
    ensures PowMod(x, i, p) * x % p == PowMod(x, i + 1, p)
  {
    Reduced(Pow(x, i), p);
    SameMul(PowMod(x, i, p), Pow(x, i), x, x, p);
    assert Pow(x, i) * x == Pow(x, i + 1);
  }

  function Root(length: pos, p: pos): int {
    PowMod(PRIMITIVE_ROOT_OF_UNITY, (p - 1) / length, p)
  }

  lemma PowerOfPower(e: nat, i: nat, p: pos)
    ensures PowMod(PowMod(7, e, p), i, p) == Pow(Pow(7, e), i) % p
  {
    hide Pow;
    Reduced(Pow(7, e), p);
    SamePow(PowMod(7, e, p), Pow(7, e), i, p);
  }

  /** `multi_exp`, as the sum of products over the common length. */
  method MultiExp(points: seq<int>, scalars: seq<int>, p: pos) returns (result: Result<int, string>)
    ensures result.Failure? <==> points == [] || scalars == []
    ensures result.Success? ==> result.value == Dot(points, scalars) % p
  {
    if points == [] || scalars == [] {
      return Failure("Cannot call multi_exp with zero points or zero scalars");
    }
    var count := if |points| < |scalars| then |points| else |scalars|;
    var total := 0;
    for i := 0 to count
      invariant total == Sum(Products(points, scalars), i) % p
    {
      var sum := Sum(Products(points, scalars), i);
      Reduced(sum, p);
      Reduced(points[i] * scalars[i], p);
      SameAdd(total, sum, Multiply(points[i], scalars[i], p), points[i] * scalars[i], p);
      total := Add(total, Multiply(points[i], scalars[i], p), p);
    }
    return Success(total);
  }

  /** The tail of `get_lagrange`: transform, read backwards and divide by the length. */
  method InvertTransform(setup: seq<int>, root: int, invLength: int, p: pos, ghost d: nat) returns (lagrange: seq<int>)
    requires |setup| == Pow2(d) && Primitive(root, d, p)
    requires forall i :: 0 <= i < |setup| ==> IsPoint(setup[i], p)
    ensures IsLagrange(lagrange, setup, root, invLength, p)
    ensures forall i :: 0 <= i < |setup| ==> IsPoint(lagrange[i], p)
  {
    var n := |setup|;
    var domain := seq(n, (i: nat) => PowMod(root, i, p));
    hide Horner, Pow, Primitive, PowMod, Same, Back;
    var fftOutput := Fft(setup, p, domain, root, d);
    lagrange := seq(n, (i: nat) requires i < n => Multiply(fftOutput[NegIndex(i, n)], invLength, p));
    forall i | 0 <= i < n ensures Same(lagrange[i], Horner(setup, Back(root, n, i)) * invLength, p) {
      LagrangeEntry(setup, domain, fftOutput, root, invLength, p, i);
    }
  }

  /** `get_lagrange`: the Lagrange form of a setup, and with it the agreement of the two ways to
      commit, for every polynomial. Both hypotheses on the modulus are those of a prime one: a
      primitive root and a Fermat inverse of the length. */
  method GetLagrange(setup: seq<int>, p: pos, ghost d: nat) returns (result: Result<seq<int>, string>)
    requires |setup| == Pow2(d) && p > 1
    requires forall i :: 0 <= i < |setup| ==> IsPoint(setup[i], p)
    requires Primitive(Root(|setup|, p), d, p) && Same(|setup| * PowMod(|setup|, p - 2, p), 1, p)
    ensures result.Success? <==> (p - 1) % |setup| == 0 && PowMod(Root(|setup|, p), |setup|, p) == 1
    ensures result.Success? ==> IsLagrange(result.value, setup, Root(|setup|, p), PowMod(|setup|, p - 2, p), p)
    ensures result.Success? ==> forall i :: 0 <= i < |setup| ==> IsPoint(result.value[i], p)
    ensures result.Success? ==> CommitsAlike(result.value, setup, Root(|setup|, p), p)
  {
    hide Same, Pow, Primitive, CommitsAlike, IsLagrange, PowMod;
    var n := |setup|;
    var root :- ComputeRootOfUnity(n, p);
    if PowMod(root, n, p) != 1 {
      return Failure("not a root of unity");
    }
    OnePower(root, n, p);
    var lagrange := InvertTransform(setup, root, PowMod(n, p - 2, p), p, d);
    LagrangeCommitsAlike(setup, lagrange, root, d, PowMod(n, p - 2, p), p);
    return Success(lagrange);
  }

  /** For every polynomial, the Lagrange form commits to the evaluations what the monomial form
      commits to the coefficients. */
  ghost predicate CommitsAlike(lagrange: seq<int>, setup: seq<int>, w: int, p: pos) {
    forall coeffs: seq<int> :: |coeffs| == |setup| ==>
      Same(Dot(Evaluations(coeffs, w, |setup|, p), lagrange), Dot(coeffs, setup), p)
  }

  lemma LagrangeCommitsAlike(setup: seq<int>, lagrange: seq<int>, w: int, d: nat, inv: int, p: pos)
    requires Primitive(w, d, p) && Same(Pow(w, Pow2(d)), 1, p) && Same(Pow2(d) * inv, 1, p)
    requires |setup| == Pow2(d) && IsLagrange(lagrange, setup, w, inv, p)
    ensures CommitsAlike(lagrange, setup, w, p)
  {
    forall coeffs: seq<int> | |coeffs| == |setup|
      ensures Same(Dot(Evaluations(coeffs, w, |setup|, p), lagrange), Dot(coeffs, setup), p)
    {
      CommitmentsAgree(coeffs, setup, lagrange, w, d, inv, p);
    }
  }

  lemma LagrangeEntry(setup: seq<int>, domain: seq<int>, output: seq<int>, w: int, inv: int, p: pos, i: nat)
    requires i < |setup| == |domain| == |output| && IsDomain(domain, w, p)
    requires output[NegIndex(i, |setup|)] == Horner(setup, domain[NegIndex(i, |setup|)]) % p
    ensures Same(Multiply(output[NegIndex(i, |setup|)], inv, p), Horner(setup, Back(w, |setup|, i)) * inv, p)
  {
    var k := NegIndex(i, |setup|);
    HornerSame(setup, domain[k], Pow(w, k), p);
    Reduced(Horner(setup, domain[k]), p);
    SameMul(output[k], Horner(setup, Pow(w, k)), inv, inv, p);
    Reduced(output[k] * inv, p);
  }

  /** With a setup generated from a secret, both forms commit to the polynomial's value at the
      secret times the generator. */
  lemma CommitmentIsValueAtSecret(coeffs: seq<int>, setup: seq<int>, generator: int, secret: int, p: pos)
    requires |coeffs| == |setup|
    requires forall j :: 0 <= j < |setup| ==> Same(setup[j], generator * Pow(secret, j), p)
    ensures Same(Dot(coeffs, setup), generator * Horner(coeffs, secret), p)
  {
    var n := |coeffs|;
    var scaled := (j: nat) => generator * Terms(coeffs, secret)(j);
    forall j: nat | 0 <= j < n ensures Same(Products(coeffs, setup)(j), scaled(j), p) {
      hide Same, Pow;
      SameSelf(coeffs[j], p);
      SameMul(coeffs[j], coeffs[j], setup[j], generator * Pow(secret, j), p);
      Commute(coeffs[j], generator, Pow(secret, j));
      assert Terms(coeffs, secret)(j) == coeffs[j] * Pow(secret, j);
      assert Products(coeffs, setup)(j) == coeffs[j] * setup[j];
    }
    SumSame(Products(coeffs, setup), scaled, n, p);
    SumScale(Terms(coeffs, secret), scaled, generator, n);
    HornerIsSum(coeffs, secret);
  }
}
