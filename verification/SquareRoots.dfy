/** Square roots modulo a prime; residues and fourth roots modulo a Blum integer. */
module SquareRoots {
  import opened Outcomes
  import opened Congruence
  import opened Primes
  import opened Residues
  import opened Bits

  /** `pow_mod` for a non-negative exponent. */
  function PowMod(b: int, e: nat, m: int): (r: int)
    requires m > 0
    ensures 0 <= r < m && Cong(r, Pow(b, e), m)
  {
    CongMod(Pow(b, e), m);
    Pow(b, e) % m
  }

  predicate RootBelow(x: int, a: int, p: int)
    requires p > 0
  {
    (x * x) % p == a % p
  }

  /** Executable symbol for a prime modulus. */
  function Jacobi(a: int, p: int): (j: int)
    requires p > 0
    ensures j == Legendre(a, p)
  {
    SquareIsSearchable(a, p);
    if a % p == 0 then 0 else if exists x :: 0 <= x < p && RootBelow(x, a, p) then 1 else -1
  }

  lemma SquareIsSearchable(a: int, p: int)
    requires p > 0
    ensures IsSquare(a, p) <==> exists x :: 0 <= x < p && RootBelow(x, a, p)
  {
    if IsSquare(a, p) {
      var x :| SquareRootOf(x, a, p);
      CongMod(x, p);
      CongMul(x % p, x, x % p, x, p);
      CongTrans((x % p) * (x % p), x * x, a, p);
      CongIsModEq((x % p) * (x % p), a, p);
      assert RootBelow(x % p, a, p);
    }
    if exists x :: 0 <= x < p && RootBelow(x, a, p) {
      var x :| 0 <= x < p && RootBelow(x, a, p);
      CongIsModEq(x * x, a, p);
      assert SquareRootOf(x, a, p);
    }
  }

  // ---- Tonelli-Shanks ---------------------------------------------------------------

  /** x has order exactly 2^m modulo p (m > 0). */
  ghost predicate OrderTwoPow(x: int, m: nat, p: int) {
    m > 0 && Cong(Pow(x, TwoPow(m - 1)), -1, p)
  }

  lemma PowTwoPowSquare(x: int, j: nat)
    ensures Pow(x, TwoPow(j)) * Pow(x, TwoPow(j)) == Pow(x, TwoPow(j + 1))
    ensures Pow(x * x, TwoPow(j)) == Pow(x, TwoPow(j + 1))
  {
    PowSquare(x, TwoPow(j));
  }

  lemma SquaredRoot(a: int, q: nat, p: int)
    requires p > 0 && q % 2 == 1
    ensures var r := PowMod(a, (q + 1) / 2, p); Cong(r * r, PowMod(a, q, p) * a, p)
  {
    var h := (q + 1) / 2;
    var r, t := PowMod(a, h, p), PowMod(a, q, p);
    CongMul(r, Pow(a, h), r, Pow(a, h), p);
    PowSquare(a, h);
    assert Pow(a, 2 * h) == a * Pow(a, q);
    CongSym(t, Pow(a, q), p);
    CongScale(a, Pow(a, q), t, p);
    CongTrans(r * r, Pow(a, q) * a, t * a, p);
  }

  /** Raising a^q to 2^(s-1) gives the Euler power. */
  lemma EulerPowerSplit(a: int, q: nat, s: nat, p: int)
    requires OddPrime(p) && s > 0 && p - 1 == q * TwoPow(s)
    ensures Cong(Pow(PowMod(a, q, p), TwoPow(s - 1)), Legendre(a, p), p)
  {
    var t, e := PowMod(a, q, p), TwoPow(s - 1);
    CongPow(t, Pow(a, q), e, p);
    PowMul(a, q, e);
    assert q * TwoPow(s) == 2 * (q * e);
    EulerCriterion(a, p);
    CongTrans(Pow(t, e), Pow(a, q * e), Legendre(a, p), p);
  }

  /** When t is not one, the least i with t^(2^i) = 1 has t^(2^(i-1)) = -1. */
  lemma LastSquareIsMinusOne(t: int, i: nat, p: int)
    requires IsPrime(p) && i > 0
    requires Cong(Pow(t, TwoPow(i)), 1, p) && !Cong(Pow(t, TwoPow(i - 1)), 1, p)
    ensures Cong(Pow(t, TwoPow(i - 1)), -1, p)
  {
    PowTwoPowSquare(t, i - 1);
    SquareRootsOfOne(Pow(t, TwoPow(i - 1)), p);
  }

  /** One pass of the outer loop: the new (c, t, r) keep the invariants with m := i. */
  lemma TonelliStep(a: int, p: int, c: int, t: int, r: int, m: nat, i: nat, b: int)
    requires IsPrime(p) && 0 < i < m
    requires Cong(r * r, t * a, p) && OrderTwoPow(c, m, p)
    requires Cong(Pow(t, TwoPow(i - 1)), -1, p)
    requires Cong(b, Pow(c, TwoPow(m - i - 1)), p)
    ensures OrderTwoPow(b * b, i, p)
    ensures Cong(Pow(t * (b * b), TwoPow(i - 1)), 1, p)
    ensures Cong((r * b) * (r * b), (t * (b * b)) * a, p)
  {
    var e := TwoPow(m - i - 1);
    PowTwoPowSquare(b, i - 1);
    CongPow(b, Pow(c, e), TwoPow(i), p);
    PowMul(c, e, TwoPow(i));
    TwoPowAdd(m - i - 1, i);
    assert (m - i - 1) + i == m - 1;
    CongTrans(Pow(b, TwoPow(i)), Pow(c, TwoPow(m - 1)), -1, p);
    PowBase(t, b * b, TwoPow(i - 1));
    CongMul(Pow(t, TwoPow(i - 1)), -1, Pow(b * b, TwoPow(i - 1)), -1, p);
    CongScale(b * b, r * r, t * a, p);
    SwapInner(r, b, r, b);
    Regroup(t, a, b * b);
  }

  lemma OrderCong(x: int, y: int, m: nat, p: int)
    requires OrderTwoPow(x, m, p) && Cong(y, x, p)
    ensures OrderTwoPow(y, m, p)
  {
    CongPow(y, x, TwoPow(m - 1), p);
    CongTrans(Pow(y, TwoPow(m - 1)), Pow(x, TwoPow(m - 1)), -1, p);
  }

  /** The exponent 2^(m-i-1) survives its own reduction modulo p - 1. */
  lemma ExponentUnreduced(x: nat, s: nat, q: nat, p: int)
    requires x + 1 < s && q > 0 && p - 1 == q * TwoPow(s)
    ensures PowMod(2, x, p - 1) == TwoPow(x)
  {
    TwoPowMonotone(x + 1, s);
    PositiveProduct(q, TwoPow(s));
    SmallPowMod(x, p - 1);
  }

  lemma SmallPowMod(x: nat, m: int)
    requires TwoPow(x) < m
    ensures PowMod(2, x, m) == TwoPow(x)
  {
    TwoPowIsPow(x);
    CongRefl(TwoPow(x), m);
    CongIsRemainder(TwoPow(x), Pow(2, x), m);
  }

  lemma DifferentModulo(x: int, p: int)
    requires 0 <= x < p && p > 1 && x != 1
    ensures !Cong(x, 1, p)
  {
    if Cong(x, 1, p) {
      CongSmallIsEq(x, 1, p);
    }
  }

  /** The inner search: the least i >= 1 with t^(2^i) = 1, which is below m. */
  method LeastSquarings(t: int, p: int, ghost m: nat) returns (i: nat)
    requires p > 1 && 0 <= t < p && t != 1
    requires m > 0 && Cong(Pow(t, TwoPow(m - 1)), 1, p)
    ensures 0 < i < m
    ensures Cong(Pow(t, TwoPow(i)), 1, p) && !Cong(Pow(t, TwoPow(i - 1)), 1, p)
  {
    DifferentModulo(t, p);
    assert Pow(t, TwoPow(0)) == t * Pow(t, 0) == t;
    i := 1;
    var tmp := (t * t) % p;
    PowTwoPowSquare(t, 0);
    CongMod(t * t, p);
    while tmp != 1
      invariant 0 < i < m && 0 <= tmp < p && Cong(tmp, Pow(t, TwoPow(i)), p)
      invariant !Cong(Pow(t, TwoPow(i - 1)), 1, p)
      decreases m - i
    {
      DifferentModulo(tmp, p);
      if Cong(Pow(t, TwoPow(i)), 1, p) {
        CongTrans(tmp, Pow(t, TwoPow(i)), 1, p);
      }
      CongMod(tmp * tmp, p);
      CongMul(tmp, Pow(t, TwoPow(i)), tmp, Pow(t, TwoPow(i)), p);
      PowTwoPowSquare(t, i);
      CongTrans((tmp * tmp) % p, tmp * tmp, Pow(t, TwoPow(i + 1)), p);
      tmp := (tmp * tmp) % p;
      i := i + 1;
    }
    CongSym(tmp, Pow(t, TwoPow(i)), p);
  }

  /** Odd part and two-adic valuation of p - 1. */
  method SplitPowerOfTwo(n: nat) returns (q: nat, s: nat)
    requires n > 0 && n % 2 == 0
    ensures q % 2 == 1 && s > 0 && n == q * TwoPow(s)
  {
    q, s := n, 0;
    while q % 2 == 0
      invariant q > 0 && n == q * TwoPow(s)
      invariant q == n || s > 0
      decreases q
    {
      assert q * TwoPow(s) == (q / 2) * TwoPow(s + 1);
      q, s := q / 2, s + 1;
    }
  }

  method NonResidue(p: int) returns (z: nat)
    requires OddPrime(p)
    ensures 2 <= z < p && Legendre(z, p) == -1
  {
    z := 2;
    ghost var w := NonResidueExists(p);
    while Jacobi(z, p) != -1
      invariant 2 <= z <= w
      decreases w - z
    {
      z := z + 1;
    }
  }

  /** Tonelli-Shanks: a root exactly for the non-zero squares. A multiple of p gets no root,
      although zero is one. */
  method SqrtMod(a: int, p: int) returns (r: Option<int>)
    requires OddPrime(p)
    ensures r.Some? <==> a % p != 0 && IsSquare(a, p)
    ensures r.Some? ==> 0 <= r.value < p && Cong(r.value * r.value, a, p)
  {
    if Jacobi(a, p) != 1 {
      return None;
    }
    var q, s := SplitPowerOfTwo(p - 1);
    EulerPowerSplit(a, q, s, p);
    if s == 1 {
      BlumPrimeRoot(a, q, p);
      return Some(PowMod(a, (p + 1) / 4, p));
    }
    var z := NonResidue(p);
    EulerPowerSplit(z, q, s, p);
    SquaredRoot(a, q, p);
    var m, c, t, root := s, PowMod(z, q, p), PowMod(a, q, p), PowMod(a, (q + 1) / 2, p);
    while t != 1
      invariant 0 < m <= s && 0 <= t < p && 0 <= root < p
      invariant OrderTwoPow(c, m, p)
      invariant Cong(Pow(t, TwoPow(m - 1)), 1, p)
      invariant Cong(root * root, t * a, p)
      decreases m
    {
      var i := LeastSquarings(t, p, m);
      LastSquareIsMinusOne(t, i, p);
      ExponentUnreduced(m - i - 1, s, q, p);
      var b := PowMod(c, PowMod(2, m - i - 1, p - 1), p);
      TonelliStep(a, p, c, t, root, m, i, b);
      m, c := i, (b * b) % p;
      CongMod(b * b, p);
      OrderCong(b * b, c, m, p);
      ReducedStep(a, p, t, root, b, c, m);
      t, root := (t * c) % p, (root * b) % p;
    }
    CongTrans(root * root, 1 * a, a, p) by { CongRefl(a, p); }
    return Some(root);
  }

  lemma BlumPrimeRoot(a: int, q: nat, p: int)
    requires OddPrime(p) && p - 1 == q * 2 && q % 2 == 1 && Legendre(a, p) == 1
    ensures var r := PowMod(a, (p + 1) / 4, p); Cong(r * r, a, p)
  {
    var h := (p + 1) / 4;
    var r := PowMod(a, h, p);
    CongMul(r, Pow(a, h), r, Pow(a, h), p);
    PowSquare(a, h);
    assert 2 * h == q + 1;
    EulerCriterion(a, p);
    CongScale(a, Pow(a, q), 1, p);
    CongTrans(r * r, a * Pow(a, q), a * 1, p);
  }

  lemma ReducedStep(a: int, p: int, t: int, r: int, b: int, c: int, i: nat)
    requires p > 0 && i > 0 && Cong(c, b * b, p)
    requires Cong(Pow(t * (b * b), TwoPow(i - 1)), 1, p)
    requires Cong((r * b) * (r * b), (t * (b * b)) * a, p)
    ensures Cong(Pow((t * c) % p, TwoPow(i - 1)), 1, p)
    ensures Cong(((r * b) % p) * ((r * b) % p), ((t * c) % p) * a, p)
  {
    var u, v := (t * c) % p, (r * b) % p;
    CongMod(t * c, p);
    CongScale(t, c, b * b, p);
    CongTrans(u, t * c, t * (b * b), p);
    CongPow(u, t * (b * b), TwoPow(i - 1), p);
    CongTrans(Pow(u, TwoPow(i - 1)), Pow(t * (b * b), TwoPow(i - 1)), 1, p);
    CongMod(r * b, p);
    CongMul(v, r * b, v, r * b, p);
    CongSym(u, t * (b * b), p);
    CongScale(a, t * (b * b), u, p);
    CongTrans(v * v, (r * b) * (r * b), (t * (b * b)) * a, p);
    CongTrans(v * v, (t * (b * b)) * a, u * a, p);
  }

  // ---- Blum integers ----------------------------------------------------------------

  ghost predicate BlumPrime(p: int) {
    IsPrime(p) && p % 4 == 3
  }

  /** A non-zero square modulo both prime factors. */
  ghost predicate Residue(y: int, p: int, q: int)
    requires p > 0 && q > 0
  {
    Legendre(y, p) == 1 && Legendre(y, q) == 1
  }

  /** (a, b, y') with y' = (-1)^a * w^b * y. */
  datatype Twist = Twist(a: bool, b: bool, y: int)

  function TwistValue(t: Twist, w: int, y: int): int {
    (if t.a then -1 else 1) * (if t.b then w else 1) * y
  }

  function FindResidue(y: int, w: int, p: int, q: int, n: int): (r: Option<Twist>)
    requires p > 0 && q > 0 && n > 0
  {
    var jp, jq := Jacobi(y % p, p), Jacobi(y % q, q);
    if jp == 1 && jq == 1 then Some(Twist(false, false, y))
    else if jp == -1 && jq == -1 then Some(Twist(true, false, n - y))
    else
      var wy := (y * w) % n;
      var kp, kq := Jacobi(wy % p, p), Jacobi(wy % q, q);
      if kp == 1 && kq == 1 then Some(Twist(false, true, wy))
      else if kp == -1 && kq == -1 then Some(Twist(true, true, n - wy))
      else None
  }

  lemma SymbolOfReduced(y: int, p: int)
    requires OddPrime(p)
    ensures Jacobi(y % p, p) == Legendre(y, p)
  {
    CongMod(y, p);
    LegendreCong(y % p, y, p);
  }

  lemma NegatedResidue(y: int, n: int, k: int, p: int)
    requires BlumPrime(p) && n == p * k
    ensures Legendre(n - y, p) == -Legendre(y, p)
  {
    CongBy(n - y, -1 * y, p, k);
    LegendreCong(n - y, -1 * y, p);
    LegendreMul(-1, y, p);
    LegendreMinusOne(p);
  }

  lemma TwistedSymbol(y: int, w: int, n: int, k: int, p: int)
    requires OddPrime(p) && n == p * k && n > 0
    ensures Jacobi(((y * w) % n) % p, p) == Legendre(y, p) * Legendre(w, p)
    ensures Legendre((y * w) % n, p) == Legendre(y, p) * Legendre(w, p)
  {
    CongMod(y * w, n);
    CongWeaken((y * w) % n, y * w, p, k);
    LegendreCong((y * w) % n, y * w, p);
    LegendreMul(y, w, p);
    SymbolOfReduced((y * w) % n, p);
  }

  /** The returned y' has the promised shape. */
  lemma TwistShape(y: int, w: int, p: int, q: int, n: int)
    requires p > 0 && q > 0 && n > 0
    ensures FindResidue(y, w, p, q, n).Some? ==>
              var t := FindResidue(y, w, p, q, n).value; Cong(t.y, TwistValue(t, w, y), n)
  {
    var wy := (y * w) % n;
    CongMod(y * w, n);
    CongRefl(y, n);
    CongBy(n - y, -1 * 1 * y, n, 1);
    CongBy(n, 0, n, 1);
    CongSub(n, 0, wy, y * w, n);
    assert 0 - y * w == -1 * w * y;
    assert 1 * w * y == y * w;
  }

  lemma SignProducts(a: int, b: int, c: int, d: int)
    requires -1 <= a <= 1 && -1 <= b <= 1 && -1 <= c <= 1 && -1 <= d <= 1 && c * d == -1
    ensures ((a * c == 1 && b * d == 1) || (a * c == -1 && b * d == -1)
             || (a == 1 && b == 1) || (a == -1 && b == -1))
            <==> (a != 0 && b != 0)
  {
  }

  lemma OddFromFour(p: int)
    requires p % 4 == 3 && p >= 2
    ensures p % 2 == 1 && p >= 3
  {
    CongMod(p, 4);
    CongWeaken(p, 3, 2, 2);
    CongIsModEq(p, 3, 2);
  }

  lemma BlumIsOdd(p: int)
    requires BlumPrime(p)
    ensures OddPrime(p) && p >= 3
  {
    OddFromFour(p);
  }

  /** The symbols `find_residue` reads at one prime. */
  lemma ReadSymbols(y: int, w: int, p: int, k: int, n: int)
    requires OddPrime(p) && n == p * k && n > 0
    ensures Jacobi(y % p, p) == Legendre(y, p)
    ensures var wy := (y * w) % n; Jacobi(wy % p, p) == Legendre(wy, p) == Legendre(y, p) * Legendre(w, p)
  {
    SymbolOfReduced(y, p);
    TwistedSymbol(y, w, n, k, p);
  }

  lemma NegatedSymbols(y: int, p: int, q: int, n: int)
    requires BlumPrime(p) && BlumPrime(q) && n == p * q
    ensures Legendre(n - y, p) == -Legendre(y, p) && Legendre(n - y, q) == -Legendre(y, q)
  {
    NegatedResidue(y, n, q, p);
    Commute(p, q);
    NegatedResidue(y, n, p, q);
  }

  /** The symbols at both primes. */
  ghost predicate SymbolsAre(y: int, w: int, p: int, q: int, n: int)
    requires p > 0 && q > 0 && n > 0
  {
    var wy := (y * w) % n;
    && Jacobi(y % p, p) == Legendre(y, p) && Jacobi(y % q, q) == Legendre(y, q)
    && Jacobi(wy % p, p) == Legendre(wy, p) == Legendre(y, p) * Legendre(w, p)
    && Jacobi(wy % q, q) == Legendre(wy, q) == Legendre(y, q) * Legendre(w, q)
  }

  lemma BothSymbols(y: int, w: int, p: int, q: int, n: int)
    requires BlumPrime(p) && BlumPrime(q) && n == p * q && n > 0
    ensures SymbolsAre(y, w, p, q, n)
  {
    BlumIsOdd(p);
    BlumIsOdd(q);
    ReadSymbols(y, w, p, q, n);
    Commute(p, q);
    ReadSymbols(y, w, q, p, n);
  }

  lemma Commute(p: int, q: int)
    ensures p * q == q * p
  {
  }

  lemma FindResidueSucceeds(y: int, w: int, p: int, q: int, n: int)
    requires BlumPrime(p) && BlumPrime(q) && n > 0 && SymbolsAre(y, w, p, q, n)
    requires Legendre(w, p) * Legendre(w, q) == -1
    ensures FindResidue(y, w, p, q, n).Some? <==> y % p != 0 && y % q != 0
  {
    SignProducts(Legendre(y, p), Legendre(y, q), Legendre(w, p), Legendre(w, q));
  }

  lemma FindResidueIsResidue(y: int, w: int, p: int, q: int, n: int)
    requires BlumPrime(p) && BlumPrime(q) && n == p * q && n > 0 && SymbolsAre(y, w, p, q, n)
    ensures FindResidue(y, w, p, q, n).Some? ==> Residue(FindResidue(y, w, p, q, n).value.y, p, q)
  {
    NegatedSymbols(y, p, q, n);
    NegatedSymbols((y * w) % n, p, q, n);
  }

  /** `find_residue` succeeds exactly when y is coprime to n = p * q, and then returns a
      residue of the promised shape. */
  lemma FindResidueCorrect(y: int, w: int, p: int, q: int, n: int)
    requires BlumPrime(p) && BlumPrime(q) && n == p * q && n > 0
    requires Legendre(w, p) * Legendre(w, q) == -1
    ensures FindResidue(y, w, p, q, n).Some? <==> y % p != 0 && y % q != 0
    ensures FindResidue(y, w, p, q, n).Some? ==>
              var t := FindResidue(y, w, p, q, n).value;
              Residue(t.y, p, q) && Cong(t.y, (if t.a then -1 else 1) * (if t.b then w else 1) * y, n)
  {
    BothSymbols(y, w, p, q, n);
    FindResidueSucceeds(y, w, p, q, n);
    FindResidueIsResidue(y, w, p, q, n);
    TwistShape(y, w, p, q, n);
  }

  function BlumExponent(p: int, q: int): nat
    requires p > 0 && q > 0
  {
    assert (p - 1) * (q - 1) >= 0;
    ((p - 1) * (q - 1) + 4) / 8
  }

  function BlumSqrt(y: int, p: int, q: int, n: int): (r: int)
    requires p > 0 && q > 0 && n > 0
    ensures 0 <= r < n && Cong(r, Pow(y, BlumExponent(p, q)), n)
  {
    PowMod(y, BlumExponent(p, q), n)
  }

  function BlumFourthRoot(y: int, p: int, q: int, n: int): (r: int)
    requires p > 0 && q > 0 && n > 0
    ensures 0 <= r < n
  {
    BlumSqrt(BlumSqrt(y, p, q, n), p, q, n)
  }

  lemma BlumProducts(u: int, v: int)
    ensures (4 * u + 2) * (4 * v + 2) == 16 * (u * v) + 8 * u + 8 * v + 4
    ensures (2 * u + 1) * (2 * v + 1) == 4 * (u * v) + 2 * u + 2 * v + 1
  {
  }

  /** The exponent ((p-1)(q-1) + 4) / 8 is an exact division. */
  lemma BlumExponentExact(p: int, q: int)
    requires p > 0 && q > 0 && p % 4 == 3 && q % 4 == 3
    ensures 8 * BlumExponent(p, q) == (p - 1) * (q - 1) + 4
    ensures 2 * BlumExponent(p, q) == ((p - 1) / 2) * ((q - 1) / 2) + 1
  {
    var u, v := p / 4, q / 4;
    assert p - 1 == 4 * u + 2 && q - 1 == 4 * v + 2;
    assert (p - 1) / 2 == 2 * u + 1 && (q - 1) / 2 == 2 * v + 1;
    BlumProducts(u, v);
    EighthOf(BlumExponent(p, q), (p - 1) * (q - 1), u * v, u, v);
  }

  lemma EighthOf(e: int, x: int, uv: int, u: int, v: int)
    requires x == 16 * uv + 8 * u + 8 * v + 4 && e == (x + 4) / 8
    ensures e == 2 * uv + u + v + 1
  {
  }

  /** Modulo one factor, the Blum power of a residue is again a residue and a square root. */
  lemma BlumRootModPrime(y: int, x: int, e: nat, j: nat, k: nat, p: int)
    requires OddPrime(p) && j == (p - 1) / 2 && 2 * e == j * k + 1
    requires Legendre(y, p) == 1 && Cong(x, Pow(y, e), p)
    ensures Cong(x * x, y, p) && Legendre(x, p) == 1
  {
    EulerCriterion(y, p);
    CongMul(x, Pow(y, e), x, Pow(y, e), p);
    PowSquare(y, e);
    PowMul(y, j, k);
    CongPow(Pow(y, j), 1, k, p);
    PowOne(k);
    assert Pow(y, j * k + 1) == y * Pow(y, j * k);
    CongScale(y, Pow(y, j * k), 1, p);
    CongTrans(x * x, y * Pow(y, j * k), y * 1, p);
    CongPow(x, Pow(y, e), j, p);
    PowMul(y, e, j);
    PowMul(y, j, e);
    assert e * j == j * e;
    CongPow(Pow(y, j), 1, e, p);
    PowOne(e);
    CongTrans(Pow(x, j), Pow(y, e * j), 1, p);
    SymbolFromPower(x, 1, p);
  }

  lemma DistinctPrimesUnit(p: int, q: int)
    requires IsPrime(p) && IsPrime(q) && p != q
    ensures Unit(q, p)
  {
    if q % p == 0 {
      DivisorBound(p, q);
      assert Divides(p, q);
    }
    PrimeUnit(q, p);
  }

  lemma BlumRootModProduct(y: int, x: int, e: nat, j: nat, k: nat, p: int, q: int, n: int)
    requires OddPrime(p) && OddPrime(q) && p != q && n == p * q && Residue(y, p, q)
    requires j == (p - 1) / 2 && k == (q - 1) / 2 && 2 * e == j * k + 1
    requires Cong(x, Pow(y, e), n)
    ensures Cong(x * x, y, n) && Residue(x, p, q)
  {
    CongWeaken(x, Pow(y, e), p, q);
    BlumRootModPrime(y, x, e, j, k, p);
    assert p * q == q * p && j * k == k * j;
    CongWeaken(x, Pow(y, e), q, p);
    BlumRootModPrime(y, x, e, k, j, q);
    DistinctPrimesUnit(p, q);
    CoprimeModuli(x * x, y, p, q);
  }

  /** `blum_sqrt` of a residue is a square root modulo n, and again a residue. */
  lemma BlumSqrtCorrect(y: int, p: int, q: int, n: int)
    requires BlumPrime(p) && BlumPrime(q) && p != q && n == p * q && n > 0 && Residue(y, p, q)
    ensures var x := BlumSqrt(y, p, q, n); Cong(x * x, y, n) && Residue(x, p, q)
  {
    BlumIsOdd(p);
    BlumIsOdd(q);
    var x, e, j, k := BlumSqrt(y, p, q, n), BlumExponent(p, q), (p - 1) / 2, (q - 1) / 2;
    BlumExponentExact(p, q);
    BlumRootModProduct(y, x, e, j, k, p, q, n);
  }

  lemma FourthPower(x: int, u: int, y: int, n: int)
    requires Cong(x * x, u, n) && Cong(u * u, y, n)
    ensures Cong(Pow(x, 4), y, n)
  {
    CongMul(x * x, u, x * x, u, n);
    PowSquare(x, 2);
    PowSquare(x, 1);
    assert Pow(x, 1) == x * Pow(x, 0) == x;
    CongTrans(Pow(x, 4), u * u, y, n);
  }

  lemma NonResidueWitnessSeparates(w: int, p: int, q: int)
    requires p > 0 && q > 0 && Legendre(w, p) * Legendre(w, q) == -1
    ensures p != q
  {
  }

  /** The pipeline of a Blum proof: twist y to a residue, then take the fourth root. */
  lemma FourthRootOfTwist(y: int, w: int, p: int, q: int, n: int)
    requires BlumPrime(p) && BlumPrime(q) && n == p * q && n > 0
    requires Legendre(w, p) * Legendre(w, q) == -1
    requires y % p != 0 && y % q != 0
    ensures FindResidue(y, w, p, q, n).Some?
    ensures var t := FindResidue(y, w, p, q, n).value;
            var x := BlumFourthRoot(t.y, p, q, n);
            Cong(Pow(x, 4), (if t.a then -1 else 1) * (if t.b then w else 1) * y, n)
  {
    FindResidueCorrect(y, w, p, q, n);
    NonResidueWitnessSeparates(w, p, q);
    FourthRootOfResidue(FindResidue(y, w, p, q, n).value.y, p, q, n);
    var t := FindResidue(y, w, p, q, n).value;
    CongTrans(Pow(BlumFourthRoot(t.y, p, q, n), 4), t.y, TwistValue(t, w, y), n);
  }

  lemma FourthRootOfResidue(y: int, p: int, q: int, n: int)
    requires BlumPrime(p) && BlumPrime(q) && p != q && n == p * q && n > 0 && Residue(y, p, q)
    ensures Cong(Pow(BlumFourthRoot(y, p, q, n), 4), y, n)
  {
    BlumSqrtCorrect(y, p, q, n);
    var u := BlumSqrt(y, p, q, n);
    BlumSqrtCorrect(u, p, q, n);
    FourthPower(BlumSqrt(u, p, q, n), u, y, n);
  }
}
