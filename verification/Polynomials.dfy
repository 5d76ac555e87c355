/** Integer polynomials, constant coefficient first: evaluation, division by X - b,
    and Lagrange's bound on the number of roots modulo a prime, behind the hard direction of
    Euler's criterion; the shares of a secret are values of such polynomials. */
module Polynomials {
  import opened Congruence
  import opened Primes

  function Eval(c: seq<int>, x: int): int {
    if c == [] then 0 else c[0] + x * Eval(c[1..], x)
  }

  /** Quotient of the division by X - b. */
  function Deflate(c: seq<int>, b: int): (g: seq<int>)
    requires c != []
    ensures |g| == |c| - 1
  {
    if |c| == 1 then [] else [Eval(c[1..], b)] + Deflate(c[1..], b)
  }

  lemma {:induction false} DeflateCorrect(c: seq<int>, b: int, x: int)
    requires c != []
    ensures Eval(c, x) == Eval(c, b) + (x - b) * Eval(Deflate(c, b), x)
  {
    if |c| > 1 {
      DeflateCorrect(c[1..], b, x);
      var r, g := Eval(c[1..], b), Eval(Deflate(c[1..], b), x);
      assert Deflate(c, b)[1..] == Deflate(c[1..], b);
      assert Eval(c, x) == c[0] + x * (r + (x - b) * g);
      assert x * (r + (x - b) * g) == b * r + (x - b) * (r + x * g);
    } else {
      assert c[1..] == [];
    }
  }

  predicate DistinctModulo(xs: seq<int>, p: int) {
    p > 0 && forall i, j :: 0 <= i < j < |xs| ==> xs[i] % p != xs[j] % p
  }

  ghost predicate AllRoots(c: seq<int>, xs: seq<int>, p: int) {
    forall i :: 0 <= i < |xs| ==> Cong(Eval(c, xs[i]), 0, p)
  }

  /** A polynomial with at least as many distinct roots modulo p as coefficients vanishes
      everywhere modulo p. */
  lemma {:induction false} RootBound(c: seq<int>, xs: seq<int>, p: int, x: int)
    requires IsPrime(p) && DistinctModulo(xs, p) && AllRoots(c, xs, p) && |xs| >= |c|
    ensures Cong(Eval(c, x), 0, p)
    decreases |c|
  {
    if c == [] {
      CongRefl(0, p);
    } else {
      var b := xs[0];
      var g := Deflate(c, b);
      var rest := xs[1..];
      forall i | 0 <= i < |rest|
        ensures Cong(Eval(g, rest[i]), 0, p)
      {
        DeflatedRoot(c, b, rest[i], p);
      }
      RootBound(g, rest, p, x);
      DeflateCorrect(c, b, x);
      CongScale(x - b, Eval(g, x), 0, p);
      CongAdd(Eval(c, b), 0, (x - b) * Eval(g, x), (x - b) * 0, p);
    }
  }

  lemma DeflatedRoot(c: seq<int>, b: int, y: int, p: int)
    requires c != [] && IsPrime(p) && b % p != y % p
    requires Cong(Eval(c, b), 0, p) && Cong(Eval(c, y), 0, p)
    ensures Cong(Eval(Deflate(c, b), y), 0, p)
  {
    var g := Eval(Deflate(c, b), y);
    DeflateCorrect(c, b, y);
    CongSub(Eval(c, y), 0, Eval(c, b), 0, p);
    DifferenceIsUnit(y, b, p);
    assert (y - b) * 0 == 0;
    UnitCancel(y - b, g, 0, p);
  }

  lemma DifferenceIsUnit(a: int, b: int, p: int)
    requires IsPrime(p) && a % p != b % p
    ensures Unit(a - b, p)
  {
    if (a - b) % p == 0 {
      DivisibleIsCongZero(a - b, p);
      CongRefl(b, p);
      CongAdd(a - b, 0, b, b, p);
      CongIsModEq(a, b, p);
    }
    PrimeUnit(a - b, p);
  }

  /** Coefficients of X^n. */
  function Monomial(n: nat): (c: seq<int>)
    ensures |c| == n + 1
  {
    if n == 0 then [1] else [0] + Monomial(n - 1)
  }

  lemma {:induction false} EvalMonomial(n: nat, x: int)
    ensures Eval(Monomial(n), x) == Pow(x, n)
  {
    if n == 0 {
      assert Monomial(0)[1..] == [];
    } else {
      EvalMonomial(n - 1, x);
      assert Monomial(n)[1..] == Monomial(n - 1);
    }
  }

  /** X^n - 1 with n > 0. */
  function PowerMinusOne(n: nat): (c: seq<int>)
    requires n > 0
    ensures |c| == n + 1
  {
    [-1] + Monomial(n - 1)
  }

  lemma EvalPowerMinusOne(n: nat, x: int)
    requires n > 0
    ensures Eval(PowerMinusOne(n), x) == Pow(x, n) - 1
  {
    EvalMonomial(n - 1, x);
    assert PowerMinusOne(n)[1..] == Monomial(n - 1);
  }

  /** X^n = 1 holds at no more than n distinct residues. */
  lemma RootsOfUnityBound(n: nat, xs: seq<int>, p: int)
    requires IsPrime(p) && 0 < n && DistinctModulo(xs, p)
    requires forall i :: 0 <= i < |xs| ==> Cong(Pow(xs[i], n), 1, p)
    ensures |xs| <= n
  {
    var c := PowerMinusOne(n);
    forall i | 0 <= i < |xs|
      ensures Cong(Eval(c, xs[i]), 0, p)
    {
      EvalPowerMinusOne(n, xs[i]);
      CongRefl(1, p);
      CongSub(Pow(xs[i], n), 1, 1, 1, p);
    }
    PrimeUnit(-1, p);
    CongBy((-1) * (-1), 1, p, 0);
    UnitBy(-1, -1, p);
    DivisibleIsCongZero(-1, p);
    assert Eval(c, 0) == -1;
    if |xs| > n {
      RootBound(c, xs, p, 0);
    }
  }

  // ---- sums of polynomials ----------------------------------------------------------

  /** Coefficient-wise sum of polynomials with the same number of coefficients. */
  function AddPoly(c: seq<int>, d: seq<int>): (s: seq<int>)
    requires |c| == |d|
    ensures |s| == |c|
  {
    if c == [] then [] else [c[0] + d[0]] + AddPoly(c[1..], d[1..])
  }

  lemma {:induction false} EvalAddPoly(c: seq<int>, d: seq<int>, x: int)
    requires |c| == |d|
    ensures Eval(AddPoly(c, d), x) == Eval(c, x) + Eval(d, x)
  {
    if c != [] {
      EvalAddPoly(c[1..], d[1..], x);
      assert AddPoly(c, d)[1..] == AddPoly(c[1..], d[1..]);
    }
  }

  /** Horner's form read from the top coefficient: what an ascending power loop accumulates. */
  lemma {:induction false} EvalSnoc(c: seq<int>, a: int, x: int)
    ensures Eval(c + [a], x) == Eval(c, x) + a * Pow(x, |c|)
  {
    if c == [] {
      assert ([a])[1..] == [];
    } else {
      assert (c + [a])[1..] == c[1..] + [a];
      EvalSnoc(c[1..], a, x);
      var e, w := Eval(c[1..], x), Pow(x, |c| - 1);
      assert x * (e + a * w) == x * e + a * (x * w);
    }
  }
}
