/** The Fourier transform over group elements. A point is its discrete logarithm modulo the group
    order `p`: point addition is addition, scalar multiplication is multiplication. */
module KzgFft {
  import opened Numbers
  import opened ModularArithmetic

  function Add(x: int, y: int, p: pos): int {
    (x + y) % p
  }

  function Multiply(x: int, scalar: int, p: pos): int {
    (x * scalar) % p
  }

  function Neg(x: int, p: pos): int {
    (-x) % p
  }

  predicate IsPoint(x: int, p: pos) {
    0 <= x < p
  }

  // ---------------------------------------------------------------- polynomials

  /** The value at `x` of the polynomial with the given coefficients, lowest first. */
  function Horner(coeffs: seq<int>, x: int): int {
    if coeffs == [] then 0 else coeffs[0] + x * Horner(coeffs[1..], x)
  }

  /** `eval_poly_in_coeff_form`. */
  method EvalPolyInCoeffForm(coeffs: seq<int>, x: int, p: pos) returns (total: int)
    ensures total == Horner(coeffs, x) % p
  {
    total := 0;
    var k := |coeffs|;
    while k > 0
      invariant 0 <= k <= |coeffs|
      invariant total == Horner(coeffs[k..], x) % p
    {
      k := k - 1;
      var before := Horner(coeffs[k + 1..], x);
      assert coeffs[k..][1..] == coeffs[k + 1..];
      Reduced(before, p);
      SameMul(total, before, x, x, p);
      SameAdd(total * x, before * x, coeffs[k], coeffs[k], p);
      total := (total * x + coeffs[k]) % p;
    }
    assert coeffs[0..] == coeffs;
  }

  function Evens<T>(s: seq<T>): (e: seq<T>)
    ensures |e| == (|s| + 1) / 2
    ensures forall i :: 0 <= i < |e| ==> e[i] == s[2 * i]
  {
    seq((|s| + 1) / 2, i requires 0 <= i < (|s| + 1) / 2 => s[2 * i])
  }

  function Odds<T>(s: seq<T>): (o: seq<T>)
    ensures |o| == |s| / 2
    ensures forall i :: 0 <= i < |o| ==> o[i] == s[2 * i + 1]
  {
    seq(|s| / 2, i requires 0 <= i < |s| / 2 => s[2 * i + 1])
  }

  /** A polynomial from its even and odd halves at the square. */
  lemma {:induction false} HornerSplit(v: seq<int>, x: int)
    ensures Horner(v, x) == Horner(Evens(v), x * x) + x * Horner(Odds(v), x * x)
    decreases |v|
  {
    if v != [] {
      var rest := v[1..];
      HornerSplit(rest, x);
      assert Evens(rest) == Odds(v);
      assert Evens(v) == [v[0]] + Odds(rest);
      assert Evens(v)[1..] == Odds(rest);
      var a, b := Horner(Odds(v), x * x), Horner(Odds(rest), x * x);
      assert x * (a + x * b) == x * a + (x * x) * b by {
        Associate(x, x, b);
      }
    }
  }

  lemma {:induction false} HornerSame(v: seq<int>, x: int, y: int, p: pos)
    requires Same(x, y, p)
    ensures Same(Horner(v, x), Horner(v, y), p)
    decreases |v|
  {
    if v != [] {
      HornerSame(v[1..], x, y, p);
      SameMul(x, y, Horner(v[1..], x), Horner(v[1..], y), p);
      SameAdd(v[0], v[0], x * Horner(v[1..], x), y * Horner(v[1..], y), p);
    }
  }

  // ---------------------------------------------------------------- domains

  /** `w` is a root of unity of order `2^d` whose half power is minus one. */
  ghost predicate Primitive(w: int, d: nat, p: pos) {
    d > 0 ==> Same(Pow(w, Pow2(d - 1)), -1, p)
  }

  /** The powers of `w`, modulo `p`. */
  ghost predicate IsDomain(domain: seq<int>, w: int, p: pos) {
    forall i :: 0 <= i < |domain| ==> Same(domain[i], Pow(w, i), p)
  }

  lemma SquareRoot(w: int, d: nat, p: pos)
    requires d > 0 && Primitive(w, d, p)
    ensures Primitive(w * w, d - 1, p)
  {
    if d > 1 {
      PowSquare(w, Pow2(d - 2));
    }
  }

  lemma PowSquare(w: int, k: nat)
    ensures Pow(w * w, k) == Pow(w, 2 * k)
  {
    PowProduct(w, w, k);
    PowAdd(w, k, k);
  }

  lemma EvenDomain(domain: seq<int>, w: int, p: pos)
    requires IsDomain(domain, w, p)
    ensures IsDomain(Evens(domain), w * w, p)
  {
    forall i | 0 <= i < |Evens(domain)| ensures Same(Evens(domain)[i], Pow(w * w, i), p) {
      PowSquare(w, i);
      assert Same(domain[2 * i], Pow(w, 2 * i), p);
    }
  }

  /** The square of a domain element is the element at twice the position. */
  lemma SquareInDomain(domain: seq<int>, w: int, p: pos, i: nat)
    requires IsDomain(domain, w, p) && 2 * i < |domain|
    ensures Same(domain[i] * domain[i], domain[2 * i], p)
  {
    PowAdd(w, i, i);
    SameMul(domain[i], Pow(w, i), domain[i], Pow(w, i), p);
    assert Same(domain[2 * i], Pow(w, 2 * i), p);
  }

  /** Half a turn further on the domain is the negative. */
  lemma OppositeInDomain(domain: seq<int>, w: int, d: nat, p: pos, i: nat)
    requires d > 0 && IsDomain(domain, w, p) && Primitive(w, d, p)
    requires i + Pow2(d - 1) < |domain|
    ensures Same(-domain[i], domain[i + Pow2(d - 1)], p)
  {
    var half := Pow2(d - 1);
    PowAdd(w, i, half);
    assert Same(domain[i], Pow(w, i), p);
    SameMul(Pow(w, i), domain[i], Pow(w, half), -1, p);
    assert Same(domain[i + half], Pow(w, i + half), p);
    assert domain[i] * -1 == -domain[i];
  }

  /** The two outputs that one pair of half results gives. */
  lemma Butterfly(vals: seq<int>, domain: seq<int>, w: int, d: nat, p: pos, i: nat, l: int, r: int)
    requires d > 0 && |vals| == Pow2(d) == |domain| && IsDomain(domain, w, p) && Primitive(w, d, p)
    requires i < Pow2(d - 1)
    requires l == Horner(Evens(vals), domain[2 * i]) % p && r == Horner(Odds(vals), domain[2 * i]) % p
    ensures i + Pow2(d - 1) < |domain|
    ensures Add(l, Multiply(r, domain[i], p), p) == Horner(vals, domain[i]) % p
    ensures Add(l, Neg(Multiply(r, domain[i], p), p), p) == Horner(vals, domain[i + Pow2(d - 1)]) % p
  {
    var x, y, square := domain[i], domain[i + Pow2(d - 1)], domain[2 * i];
    SquareInDomain(domain, w, p, i);
    OppositeInDomain(domain, w, d, p, i);
    Reduced(Horner(Evens(vals), square), p);
    Reduced(Horner(Odds(vals), square), p);
    hide Horner, IsDomain, Primitive;
    HalfSum(vals, x, square, l, r, p);
    NegativeHalfSum(vals, x, y, square, l, r, p);
    SumOfProduct(l, r, x, p);
  }

  lemma NegativeHalfSum(vals: seq<int>, x: int, y: int, square: int, l: int, r: int, p: pos)
    requires Same(x * x, square, p) && Same(-x, y, p)
    requires Same(l, Horner(Evens(vals), square), p) && Same(r, Horner(Odds(vals), square), p)
    ensures Same(l - r * x, Horner(vals, y), p)
  {
    assert (-x) * (-x) == x * x && r * (-x) == -(r * x);
    HalfSum(vals, -x, square, l, r, p);
    HornerSame(vals, -x, y, p);
  }

  lemma HalfSum(vals: seq<int>, x: int, square: int, l: int, r: int, p: pos)
    requires Same(x * x, square, p)
    requires Same(l, Horner(Evens(vals), square), p) && Same(r, Horner(Odds(vals), square), p)
    ensures Same(l + r * x, Horner(vals, x), p)
  {
    HornerSplit(vals, x);
    SameTransitive(x * x, square, square, p);
    hide Same;
    HornerSame(Evens(vals), square, x * x, p);
    HornerSame(Odds(vals), square, x * x, p);
    var a, b := Horner(Evens(vals), x * x), Horner(Odds(vals), x * x);
    SameTransitive(l, Horner(Evens(vals), square), a, p);
    SameTransitive(r, Horner(Odds(vals), square), b, p);
    SameMul(r, b, x, x, p);
    SameAdd(l, a, r * x, b * x, p);
    assert b * x == x * b;
  }

  /** `fft`: position `k` of the output is the polynomial with coefficients `vals` at
      `domain[k]`. */
  method Fft(vals: seq<int>, p: pos, domain: seq<int>, ghost w: int, ghost d: nat) returns (o: seq<int>)
    requires |vals| == Pow2(d) == |domain| && IsDomain(domain, w, p) && Primitive(w, d, p)
    requires forall i :: 0 <= i < |vals| ==> IsPoint(vals[i], p)
    ensures |o| == |vals|
    ensures forall k :: 0 <= k < |vals| ==> o[k] == Horner(vals, domain[k]) % p
    decreases |vals|
  {
    if |vals| == 1 {
      SingleValue(vals, domain[0], p);
      return vals;
    }
    SquareRoot(w, d, p);
    EvenDomain(domain, w, p);
    hide Same, Horner, Add, Multiply, Neg, IsDomain, Primitive;
    var L := Fft(Evens(vals), p, Evens(domain), w * w, d - 1);
    var R := Fft(Odds(vals), p, Evens(domain), w * w, d - 1);
    o := FillOutput(vals, p, domain, L, R, w, d);
  }

  /** The butterflies, written into the output list in place. */
  method FillOutput(
    ghost vals: seq<int>, p: pos, domain: seq<int>, L: seq<int>, R: seq<int>, ghost w: int, ghost d: nat)
    returns (o: seq<int>)
    requires d > 0 && |vals| == Pow2(d) == |domain| && IsDomain(domain, w, p) && Primitive(w, d, p)
    requires |L| == |R| == Pow2(d - 1)
    requires forall i :: 0 <= i < |L| ==> L[i] == Horner(Evens(vals), domain[2 * i]) % p
    requires forall i :: 0 <= i < |R| ==> R[i] == Horner(Odds(vals), domain[2 * i]) % p
    ensures |o| == |vals|
    ensures forall k :: 0 <= k < |vals| ==> o[k] == Horner(vals, domain[k]) % p
  {
    hide Same, Horner, Add, Multiply, Neg, IsDomain, Primitive;
    var out := new int[|domain|](_ => 0);
    var half := |L|;
    for i := 0 to half
      invariant forall k :: 0 <= k < i ==> out[k] == Horner(vals, domain[k]) % p
      invariant forall k :: half <= k < half + i ==> out[k] == Horner(vals, domain[k]) % p
    {
      var yTimesRoot := Multiply(R[i], domain[i], p);
      Butterfly(vals, domain, w, d, p, i, L[i], R[i]);
      out[i] := Add(L[i], yTimesRoot, p);
      out[i + half] := Add(L[i], Neg(yTimesRoot, p), p);
    }
    o := out[..];
  }

  lemma SingleValue(vals: seq<int>, x: int, p: pos)
    requires |vals| == 1 && IsPoint(vals[0], p)
    ensures vals[0] == Horner(vals, x) % p
  {
    assert vals[1..] == [];
    assert x * Horner(vals[1..], x) == 0;
    DivisionUnique(vals[0], 0, vals[0], p);
  }

  /** The group operations of one butterfly, without the intermediate reductions. */
  lemma SumOfProduct(l: int, r: int, root: int, p: pos)
    ensures Add(l, Multiply(r, root, p), p) == (l + r * root) % p
    ensures Add(l, Neg(Multiply(r, root, p), p), p) == (l - r * root) % p
  {
    var y := Multiply(r, root, p);
    Reduced(r * root, p);
    SameAdd(l, l, y, r * root, p);
    SameNeg(y, r * root, p);
    Reduced(-y, p);
    SameAdd(l, l, Neg(y, p), -(r * root), p);
  }
}
