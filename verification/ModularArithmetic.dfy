/** Integers modulo `p`: congruence, powers, and finite sums. */
module ModularArithmetic {

  import opened Numbers

  ghost predicate Same(a: int, b: int, p: pos) {
    a % p == b % p
  }

  lemma {:induction false} AddMultiple(b: int, q: int, p: pos)
    ensures (b + q * p) % p == b % p
    decreases if q < 0 then -q else q
  {
    if q > 0 {
      AddMultiple(b, q - 1, p);
      assert b + q * p == (b + (q - 1) * p) + p;
      AddOne(b + (q - 1) * p, p);
    } else if q < 0 {
      AddMultiple(b, q + 1, p);
      assert b + (q + 1) * p == (b + q * p) + p;
      AddOne(b + q * p, p);
    }
  }

  lemma AddOne(a: int, p: pos)
    ensures (a + p) % p == a % p
  {
    var q, r := a / p, a % p;
    assert a == p * q + r;
    assert a + p == p * (q + 1) + r;
    DivisionUnique(a + p, q + 1, r, p);
  }

  lemma DivisionUnique(a: int, q: int, r: int, p: pos)
    requires a == p * q + r && 0 <= r < p
    ensures a % p == r && a / p == q
  {
    var q', r' := a / p, a % p;
    assert p * (q - q') == r' - r;
    MultipleIsBig(p, q - q');
  }

  lemma MultipleIsBig(p: pos, k: int)
    ensures k >= 1 ==> p * k >= p
    ensures k <= -1 ==> p * k <= 0 - p
  {
    assert p * k == p + p * (k - 1);
    assert p * k == p * (k + 1) - p;
  }

  /** Congruent numbers differ by a multiple of `p`. */
  lemma Difference(a: int, b: int, p: pos) returns (q: int)
    requires Same(a, b, p)
    ensures a == b + q * p
  {
    q := a / p - b / p;
    assert a == p * (a / p) + a % p && b == p * (b / p) + b % p;
    assert p * (a / p) - p * (b / p) == q * p;
  }

  lemma SameTransitive(a: int, b: int, c: int, p: pos)
    requires Same(a, b, p) && Same(b, c, p)
    ensures Same(a, c, p) && Same(c, a, p)
  {
  }

  lemma SameSelf(a: int, p: pos)
    ensures Same(a, a, p)
  {
  }

  lemma Reduced(a: int, p: pos)
    ensures Same(a % p, a, p)
  {
    assert a == a % p + (a / p) * p;
    AddMultiple(a % p, a / p, p);
  }

  lemma SameAdd(a: int, a': int, b: int, b': int, p: pos)
    requires Same(a, a', p) && Same(b, b', p)
    ensures Same(a + b, a' + b', p)
  {
    var q := Difference(a, a', p);
    var r := Difference(b, b', p);
    assert a + b == (a' + b') + (q + r) * p;
    AddMultiple(a' + b', q + r, p);
  }

  lemma SameMul(a: int, a': int, b: int, b': int, p: pos)
    requires Same(a, a', p) && Same(b, b', p)
    ensures Same(a * b, a' * b', p)
  {
    var q := Difference(a, a', p);
    var r := Difference(b, b', p);
    Expand(a', q, b', r, p);
    AddMultiple(a' * b', a' * r + q * b' + q * r * p, p);
  }

  lemma Expand(a: int, q: int, b: int, r: int, p: int)
    ensures (a + q * p) * (b + r * p) == a * b + (a * r + q * b + q * r * p) * p
  {
    var x, y := q * p, r * p;
    assert (a + x) * (b + y) == a * b + a * y + x * b + x * y;
    assert a * y == (a * r) * p && x * b == (q * b) * p;
    assert x * y == (q * r * p) * p by {
      assert x * y == q * (p * y) && p * y == (r * p) * p;
      assert q * ((r * p) * p) == (q * (r * p)) * p && q * (r * p) == q * r * p;
    }
  }

  lemma SameNeg(a: int, a': int, p: pos)
    requires Same(a, a', p)
    ensures Same(-a, -a', p)
  {
    SameMul(-1, -1, a, a', p);
  }

  // ---------------------------------------------------------------- powers

  function Pow(x: int, n: nat): int {
    if n == 0 then 1 else x * Pow(x, n - 1)
  }

  lemma {:induction false} PowAdd(x: int, a: nat, b: nat)
    ensures Pow(x, a + b) == Pow(x, a) * Pow(x, b)
  {
    if a > 0 {
      PowAdd(x, a - 1, b);
      Associate(x, Pow(x, a - 1), Pow(x, b));
    }
  }

  lemma Associate(x: int, y: int, z: int)
    ensures x * (y * z) == (x * y) * z
  {
  }

  lemma {:induction false} PowMul(x: int, a: nat, b: nat)
    ensures a * b >= 0 && Pow(x, a * b) == Pow(Pow(x, a), b)
    decreases b
  {
    if b == 0 {
      assert a * b == 0;
    } else {
      PowMul(x, a, b - 1);
      assert a * b == a + a * (b - 1);
      PowAdd(x, a, a * (b - 1));
    }
  }

  lemma {:induction false} PowProduct(x: int, y: int, n: nat)
    ensures Pow(x * y, n) == Pow(x, n) * Pow(y, n)
  {
    if n > 0 {
      PowProduct(x, y, n - 1);
      var a, b := Pow(x, n - 1), Pow(y, n - 1);
      assert (x * y) * (a * b) == (x * a) * (y * b) by {
        Associate(x * y, a, b);
        Associate(x, y, a);
        Associate(x, a, y);
        Associate(x * a, y, b);
      }
    }
  }

  lemma {:induction false} PowOfOne(n: nat)
    ensures Pow(1, n) == 1
  {
    if n > 0 {
      PowOfOne(n - 1);
    }
  }

  lemma {:induction false} PowOfMinusOne(n: nat)
    ensures Pow(-1, n) == if n % 2 == 0 then 1 else -1
  {
    if n > 0 {
      PowOfMinusOne(n - 1);
    }
  }

  lemma {:induction false} SamePow(a: int, b: int, n: nat, p: pos)
    requires Same(a, b, p)
    ensures Same(Pow(a, n), Pow(b, n), p)
  {
    if n > 0 {
      SamePow(a, b, n - 1, p);
      SameMul(a, b, Pow(a, n - 1), Pow(b, n - 1), p);
    }
  }

  // ---------------------------------------------------------------- sums

  function Sum(f: nat -> int, n: nat): int {
    if n == 0 then 0 else Sum(f, n - 1) + f(n - 1)
  }

  lemma {:induction false} SumSame(f: nat -> int, g: nat -> int, n: nat, p: pos)
    requires forall i :: 0 <= i < n ==> Same(f(i), g(i), p)
    ensures Same(Sum(f, n), Sum(g, n), p)
  {
    if n > 0 {
      SumSame(f, g, n - 1, p);
      SameAdd(Sum(f, n - 1), Sum(g, n - 1), f(n - 1), g(n - 1), p);
    }
  }

  lemma {:induction false} SumScale(f: nat -> int, g: nat -> int, c: int, n: nat)
    requires forall i :: 0 <= i < n ==> g(i) == c * f(i)
    ensures Sum(g, n) == c * Sum(f, n)
  {
    if n > 0 {
      SumScale(f, g, c, n - 1);
      assert c * (Sum(f, n - 1) + f(n - 1)) == c * Sum(f, n - 1) + c * f(n - 1);
    }
  }

  lemma {:induction false} SumPlus(f: nat -> int, g: nat -> int, h: nat -> int, n: nat)
    requires forall i :: 0 <= i < n ==> h(i) == f(i) + g(i)
    ensures Sum(h, n) == Sum(f, n) + Sum(g, n)
  {
    if n > 0 {
      SumPlus(f, g, h, n - 1);
    }
  }

  lemma {:induction false} SumEqual(f: nat -> int, g: nat -> int, n: nat)
    requires forall i: nat :: i < n ==> f(i) == g(i)
    ensures Sum(f, n) == Sum(g, n)
  {
    if n > 0 {
      SumEqual(f, g, n - 1);
    }
  }

  function Row(f: (nat, nat) -> int, i: nat): nat -> int {
    (j: nat) => f(i, j)
  }

  function Column(f: (nat, nat) -> int, j: nat): nat -> int {
    (i: nat) => f(i, j)
  }

  /** Exchanging the order of a double sum. */
  lemma {:induction false} SumSwap(f: (nat, nat) -> int, rows: nat -> int, columns: nat -> int, m: nat, n: nat)
    requires forall i :: 0 <= i < m ==> rows(i) == Sum(Row(f, i), n)
    requires forall j :: 0 <= j < n ==> columns(j) == Sum(Column(f, j), m)
    ensures Sum(rows, m) == Sum(columns, n)
  {
    if m == 0 {
      SumOfZeros(columns, n);
    } else {
      var fewer := (j: nat) => Sum(Column(f, j), m - 1);
      SumSwap(f, rows, fewer, m - 1, n);
      SumPlus(fewer, Row(f, m - 1), columns, n);
    }
  }

  lemma {:induction false} SumOfZeros(f: nat -> int, n: nat)
    requires forall i :: 0 <= i < n ==> f(i) == 0
    ensures Sum(f, n) == 0
  {
    if n > 0 {
      SumOfZeros(f, n - 1);
    }
  }

  /** A sum with a single term that does not vanish modulo `p`. */
  lemma {:induction false} SumSingle(f: nat -> int, k: nat, c: int, n: nat, p: pos)
    requires forall i :: 0 <= i < n ==> Same(f(i), if i == k then c else 0, p)
    ensures Same(Sum(f, n), if k < n then c else 0, p)
  {
    if n > 0 {
      SumSingle(f, k, c, n - 1, p);
      SameAdd(Sum(f, n - 1), if k < n - 1 then c else 0, f(n - 1), if n - 1 == k then c else 0, p);
    }
  }
}
