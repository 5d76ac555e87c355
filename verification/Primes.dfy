/** Greatest common divisors, units, primes, binomials and Fermat's little theorem, which the
    modular inverses of the sieve, of share reconstruction and of threshold decryption rest on;
    primality is the mathematical predicate, since probabilistic tests are not modelled. */
module Primes {
  import opened Outcomes
  import opened Congruence

  // ---- extended Euclid and modular inverses -------------------------------------

  /** Bezout coefficients: `g` divides both arguments and is `a * x + b * y`. */
  function ExtendedGcd(a: nat, b: nat): (r: (nat, int, int))
    ensures a * r.1 + b * r.2 == r.0
    ensures (a > 0 || b > 0) ==> r.0 > 0 && a % r.0 == 0 && b % r.0 == 0
    decreases b
  {
    if b == 0 then (a, 1, 0)
    else
      var (g, x, y) := ExtendedGcd(b, a % b);
      BezoutStep(a, b, g, x, y);
      (g, y, x - (a / b) * y)
  }

  lemma BezoutStep(a: nat, b: nat, g: nat, x: int, y: int)
    requires b > 0 && b * x + (a % b) * y == g
    requires g > 0 && b % g == 0 && (a % b) % g == 0
    ensures a * y + b * (x - (a / b) * y) == g && a % g == 0
  {
    assert a == b * (a / b) + a % b;
    BezoutAlgebra(a, b, a / b, a % b, g, x, y);
  }

  lemma BezoutAlgebra(a: int, b: int, q: int, r: int, g: int, x: int, y: int)
    requires g > 0 && a == b * q + r && b * x + r * y == g && b % g == 0 && r % g == 0
    ensures a * y + b * (x - q * y) == g && a % g == 0
  {
    assert a * y + b * (x - q * y) == (b * q + r) * y + b * x - b * (q * y);
    DivisibleIsCongZero(b, g);
    DivisibleIsCongZero(r, g);
    CongScale(q, b, 0, g);
    CongAdd(b * q, 0 * q, r, 0, g);
    DivisibleIsCongZero(a, g);
  }

  /** `a` has an inverse modulo `m`. */
  ghost predicate Unit(a: int, m: int) {
    exists x: int :: InverseOf(x, a, m)
  }

  ghost predicate InverseOf(x: int, a: int, m: int) {
    Cong(a * x, 1, m)
  }

  /** GMP's modular inverse: the representative in [0, m), or nothing. */
  function Invert(a: int, m: int): (r: Option<int>)
    requires m > 1
    ensures r.Some? <==> Unit(a, m)
    ensures r.Some? ==> 0 < r.value < m && Cong(a * r.value, 1, m)
  {
    var (g, x, y) := ExtendedGcd(a % m, m);
    InvertCorrect(a, m, g, x, y);
    if g == 1 then Some(x % m) else None
  }

  lemma InvertCorrect(a: int, m: int, g: nat, x: int, y: int)
    requires m > 1 && g > 0
    requires (a % m) * x + m * y == g && (a % m) % g == 0 && m % g == 0
    ensures g == 1 <==> Unit(a, m)
    ensures g == 1 ==> 0 < x % m < m && Cong(a * (x % m), 1, m)
  {
    CongMod(a, m);
    if g == 1 {
      CongMod(x, m);
      CongMul(a, a % m, x % m, x, m);
      CongBy((a % m) * x, 1, m, -y);
      CongTrans(a * (x % m), (a % m) * x, 1, m);
      assert InverseOf(x % m, a, m);
      if x % m == 0 {
        CongSmallIsEq(0, 1, m);
      }
    }
    if Unit(a, m) {
      var z :| InverseOf(z, a, m);
      DivisibleIsCongZero(a % m, g);
      DivisibleIsCongZero(m, g);
      var t :| Quotient(m, 0, g, t);
      CongWeaken(a, a % m, g, t);
      CongTrans(a, a % m, 0, g);
      CongScale(z, a, 0, g);
      CongWeaken(a * z, 1, g, t);
      CongSym(a * z, 1, g);
      CongTrans(1, a * z, 0, g);
      DivisibleIsCongZero(1, g);
    }
  }

  lemma UnitBy(a: int, x: int, m: int)
    requires Cong(a * x, 1, m)
    ensures Unit(a, m)
  {
    assert InverseOf(x, a, m);
  }

  lemma UnitCong(a: int, b: int, m: int)
    requires Unit(a, m) && Cong(a, b, m)
    ensures Unit(b, m)
  {
    var x :| InverseOf(x, a, m);
    CongScale(x, a, b, m);
    CongSym(a * x, b * x, m);
    CongTrans(b * x, a * x, 1, m);
    UnitBy(b, x, m);
  }

  lemma UnitMul(a: int, b: int, m: int)
    requires Unit(a, m) && Unit(b, m)
    ensures Unit(a * b, m)
  {
    var x :| InverseOf(x, a, m);
    var y :| InverseOf(y, b, m);
    CongMul(a * x, 1, b * y, 1, m);
    assert (a * b) * (x * y) == (a * x) * (b * y);
    UnitBy(a * b, x * y, m);
  }

  lemma UnitFactor(a: int, b: int, m: int)
    requires Unit(a * b, m)
    ensures Unit(a, m) && Unit(b, m)
  {
    var x :| InverseOf(x, a * b, m);
    assert (a * b) * x == a * (b * x) == b * (a * x);
    UnitBy(a, b * x, m);
    UnitBy(b, a * x, m);
  }

  /** Units cancel. */
  lemma UnitCancel(u: int, a: int, b: int, m: int)
    requires Unit(u, m) && Cong(u * a, u * b, m)
    ensures Cong(a, b, m)
  {
    var x :| InverseOf(x, u, m);
    CongScale(x, u * a, u * b, m);
    CongScale(a, u * x, 1, m);
    CongScale(b, u * x, 1, m);
    assert x * (u * a) == (u * x) * a && x * (u * b) == (u * x) * b;
    CongSym((u * x) * a, 1 * a, m);
    CongTrans(a, (u * x) * a, (u * x) * b, m);
    CongTrans(a, (u * x) * b, b, m);
  }

  /** A unit modulo both factors is a unit modulo the product. */
  lemma UnitProductModulus(a: int, m: int, n: int)
    requires Unit(a, m) && Unit(a, n)
    ensures Unit(a, m * n)
  {
    var x :| InverseOf(x, a, m);
    var y :| InverseOf(y, a, n);
    var k :| Quotient(a * x, 1, m, k);
    var l :| Quotient(a * y, 1, n, l);
    var z := x + y - a * x * y;
    calc {
      a * z;
      a * x + a * y - (a * x) * (a * y);
      1 - (a * x - 1) * (a * y - 1);
      1 - (m * k) * (n * l);
      1 + (m * n) * (-k * l);
    }
    CongBy(a * z, 1, m * n, -k * l);
    UnitBy(a, z, m * n);
  }

  lemma {:induction false} UnitPowerModulus(a: int, q: int, k: nat)
    requires Unit(a, q)
    ensures Unit(a, Pow(q, k))
  {
    if k == 0 {
      CongBy(a * 0, 1, 1, -1);
      UnitBy(a, 0, 1);
    } else {
      UnitPowerModulus(a, q, k - 1);
      UnitProductModulus(a, q, Pow(q, k - 1));
    }
  }

  /** If `u` is coprime to `m`, then `m * x` divisible by... : a multiple of both `m` and `n`
      is a multiple of `m * n` when `n` is a unit modulo `m`. */
  lemma CoprimeModuli(a: int, b: int, m: int, n: int)
    requires Unit(n, m) && Cong(a, b, m) && Cong(a, b, n)
    ensures Cong(a, b, m * n)
  {
    var k :| Quotient(a, b, n, k);
    CongBy(n * k, a - b, m, 0);
    CongSub(a, b, b, b, m) by { CongRefl(b, m); }
    assert a - b == n * k && n * 0 == 0;
    UnitCancel(n, k, 0, m);
    var l :| Quotient(k, 0, m, l);
    assert n * (m * l) == (m * n) * l;
    CongBy(a, b, m * n, l);
  }

  // ---- primes --------------------------------------------------------------------

  predicate Divides(d: int, n: int)
    requires d != 0
  {
    n % d == 0
  }

  ghost predicate IsPrime(p: int) {
    p >= 2 && forall d :: 2 <= d < p ==> !Divides(d, p)
  }

  lemma PrimeUnit(a: int, p: int)
    requires IsPrime(p)
    ensures Unit(a, p) <==> a % p != 0
  {
    if a % p == 0 {
      DivisibleIsCongZero(a, p);
      if Unit(a, p) {
        var x :| InverseOf(x, a, p);
        CongScale(x, a, 0, p);
        CongSym(a * x, 1, p);
        CongTrans(1, a * x, 0, p);
        CongSmallIsEq(1, 0, p);
      }
    } else {
      var r := ExtendedGcd(a % p, p);
      InvertCorrect(a, p, r.0, r.1, r.2);
      DivisorBound(r.0, a % p);
      assert r.0 != 1 ==> Divides(r.0, p);
    }
  }

  lemma DivisorBound(d: nat, n: nat)
    requires d > 0 && n > 0 && n % d == 0
    ensures d <= n
  {
    assert n == d * (n / d);
    assert n / d >= 1;
  }

  lemma PrimeDividesProduct(a: int, b: int, p: int)
    requires IsPrime(p) && (a * b) % p == 0
    ensures a % p == 0 || b % p == 0
  {
    if a % p != 0 {
      PrimeUnit(a, p);
      DivisibleIsCongZero(a * b, p);
      assert a * 0 == 0;
      UnitCancel(a, b, 0, p);
      DivisibleIsCongZero(b, p);
    }
  }

  /** The only square roots of one modulo a prime. */
  lemma SquareRootsOfOne(x: int, p: int)
    requires IsPrime(p) && Cong(x * x, 1, p)
    ensures Cong(x, 1, p) || Cong(x, -1, p)
  {
    CongRefl(1, p);
    CongSub(x * x, 1, 1, 1, p);
    assert x * x - 1 == (x - 1) * (x + 1);
    DivisibleIsCongZero((x - 1) * (x + 1), p);
    PrimeDividesProduct(x - 1, x + 1, p);
    DivisibleIsCongZero(x - 1, p);
    DivisibleIsCongZero(x + 1, p);
    if Cong(x - 1, 0, p) {
      CongAdd(x - 1, 0, 1, 1, p);
    } else {
      CongSub(x + 1, 0, 1, 1, p);
    }
  }

  // ---- factorials and binomials -----------------------------------------------------

  function Factorial(n: nat): (f: nat)
    ensures f >= 1
  {
    if n == 0 then 1 else n * Factorial(n - 1)
  }

  function Choose(n: nat, k: nat): nat {
    if k == 0 then 1 else if n == 0 then 0 else Choose(n - 1, k - 1) + Choose(n - 1, k)
  }

  lemma {:induction false} ChooseBeyond(n: nat, k: nat)
    requires k > n
    ensures Choose(n, k) == 0
  {
    if n > 0 {
      ChooseBeyond(n - 1, k - 1);
      ChooseBeyond(n - 1, k);
    }
  }

  lemma {:induction false} ChooseAll(n: nat)
    ensures Choose(n, n) == 1 && Factorial(0) == 1
  {
    if n > 0 {
      ChooseAll(n - 1);
      ChooseBeyond(n - 1, n);
    }
  }

  lemma FactorialNext(n: nat)
    requires n >= 1
    ensures Factorial(n) == n * Factorial(n - 1)
  {
  }

  lemma {:induction false} ChooseFactorial(n: nat, k: nat)
    requires k <= n
    ensures Choose(n, k) * (Factorial(k) * Factorial(n - k)) == Factorial(n)
  {
    if k == 0 {
    } else if k == n {
      ChooseAll(n);
    } else {
      ChooseFactorial(n - 1, k - 1);
      ChooseFactorial(n - 1, k);
      PascalStep(n, k);
    }
  }

  lemma PascalStep(n: nat, k: nat)
    requires 0 < k < n
    requires Choose(n - 1, k - 1) * (Factorial(k - 1) * Factorial(n - k)) == Factorial(n - 1)
    requires Choose(n - 1, k) * (Factorial(k) * Factorial(n - k - 1)) == Factorial(n - 1)
    ensures Choose(n, k) * (Factorial(k) * Factorial(n - k)) == Factorial(n)
  {
    FactorialNext(k);
    FactorialNext(n - k);
    FactorialNext(n);
    PascalAlgebra(Choose(n - 1, k - 1), Choose(n - 1, k), k, n - k, Factorial(k - 1), Factorial(n - k - 1),
                  Factorial(k), Factorial(n - k), Factorial(n - 1));
  }

  lemma PascalAlgebra(x: int, y: int, k: int, l: int, f: int, g: int, kf: int, lf: int, m: int)
    requires kf == k * f && lf == l * g
    requires x * (f * lf) == m && y * (kf * g) == m
    ensures (x + y) * (kf * lf) == (k + l) * m
  {
    assert x * (kf * lf) == k * (x * (f * lf));
    assert y * (kf * lf) == l * (y * (kf * g));
  }

  lemma RemainderOfSmall(n: int, p: int)
    requires 0 <= n < p
    ensures n % p == n
  {
    CongRefl(n, p);
    CongIsRemainder(n, n, p);
  }

  lemma {:induction false} PrimeFactorial(p: int, n: nat)
    requires IsPrime(p) && n < p
    ensures Factorial(n) % p != 0
  {
    if n == 0 {
      RemainderOfSmall(1, p);
    } else {
      PrimeFactorial(p, n - 1);
      RemainderOfSmall(n, p);
      if Factorial(n) % p == 0 {
        PrimeDividesProduct(n, Factorial(n - 1), p);
      }
    }
  }

  /** p divides the inner binomials of row p. */
  lemma PrimeChoose(p: int, k: nat)
    requires IsPrime(p) && 0 < k < p
    ensures Choose(p, k) % p == 0
  {
    ChooseFactorial(p, k);
    PrimeFactorial(p, k);
    PrimeFactorial(p, p - k);
    var d := Factorial(k) * Factorial(p - k);
    CongZeroMultiple(p, Factorial(p - 1));
    DivisibleIsCongZero(Factorial(p), p);
    PrimeDividesProduct(Choose(p, k), d, p);
    if d % p == 0 {
      PrimeDividesProduct(Factorial(k), Factorial(p - k), p);
    }
  }

  /** Partial sums of the binomial expansion of (1 + x)^n. */
  function BinomialSum(n: nat, j: nat, x: int): int {
    Choose(n, j) * Pow(x, j) + if j == 0 then 0 else BinomialSum(n, j - 1, x)
  }

  lemma {:induction false} BinomialSumStep(n: nat, j: nat, x: int)
    requires j > 0
    ensures BinomialSum(n + 1, j, x) == BinomialSum(n, j, x) + x * BinomialSum(n, j - 1, x)
  {
    assert Choose(n + 1, j) == Choose(n, j - 1) + Choose(n, j);
    var u, v, w := Choose(n, j - 1), Choose(n, j), Pow(x, j - 1);
    assert (u + v) * (x * w) == x * (u * w) + v * (x * w);
    if j > 1 {
      BinomialSumStep(n, j - 1, x);
      assert x * (u * w + BinomialSum(n, j - 2, x)) == x * (u * w) + x * BinomialSum(n, j - 2, x);
    } else {
      assert BinomialSum(n + 1, 0, x) == 1 == BinomialSum(n, 0, x);
    }
  }

  lemma {:induction false} BinomialTheorem(n: nat, x: int)
    ensures BinomialSum(n, n, x) == Pow(1 + x, n)
  {
    if n > 0 {
      BinomialTheorem(n - 1, x);
      BinomialSumStep(n - 1, n, x);
      ChooseBeyond(n - 1, n);
      var s := BinomialSum(n - 1, n - 1, x);
      assert BinomialSum(n - 1, n, x) == s;
      assert (1 + x) * s == s + x * s;
    }
  }

  lemma {:induction false} BinomialSumPrime(p: int, j: nat, x: int)
    requires IsPrime(p) && j < p
    ensures Cong(BinomialSum(p, j, x), 1, p)
  {
    if j == 0 {
      CongRefl(1, p);
    } else {
      BinomialSumPrime(p, j - 1, x);
      PrimeChoose(p, j);
      DivisibleIsCongZero(Choose(p, j), p);
      CongScale(Pow(x, j), Choose(p, j), 0, p);
      CongAdd(Choose(p, j) * Pow(x, j), 0 * Pow(x, j), BinomialSum(p, j - 1, x), 1, p);
    }
  }

  lemma {:induction false} ChooseSelf(n: nat)
    ensures Choose(n, n) == 1
  {
    if n > 0 {
      ChooseSelf(n - 1);
      ChooseBeyond(n - 1, n);
    }
  }

  lemma LastTerm(p: nat, x: int)
    requires p > 0
    ensures Pow(1 + x, p) == Pow(x, p) + BinomialSum(p, p - 1, x)
  {
    BinomialTheorem(p, x);
    ChooseSelf(p);
    Scaled(Pow(x, p), Choose(p, p), 1);
  }

  lemma {:induction false} FermatNat(a: nat, p: int)
    requires IsPrime(p)
    ensures Cong(Pow(a, p), a, p)
  {
    if a == 0 {
      CongRefl(0, p);
    } else {
      FermatNat(a - 1, p);
      LastTerm(p, a - 1);
      BinomialSumPrime(p, p - 1, a - 1);
      CongAdd(Pow(a - 1, p), a - 1, BinomialSum(p, p - 1, a - 1), 1, p);
      assert 1 + (a - 1) == a;
    }
  }

  /** Fermat's little theorem for every unit, negative ones included. */
  lemma Fermat(a: int, p: int)
    requires IsPrime(p) && a % p != 0
    ensures Cong(Pow(a, p - 1), 1, p)
  {
    var r := a % p;
    CongMod(a, p);
    FermatNat(r, p);
    PrimeUnit(a, p);
    UnitCong(a, r, p);
    assert Pow(r, p) == r * Pow(r, p - 1) && r == r * 1;
    UnitCancel(r, Pow(r, p - 1), 1, p);
    CongPow(a, r, p - 1, p);
    CongTrans(Pow(a, p - 1), Pow(r, p - 1), 1, p);
  }

  /** The Fermat inverse a^(p-2), as `pow_mod(q - 2, q)` computes it. */
  lemma FermatInverse(a: int, p: int)
    requires IsPrime(p) && a % p != 0
    ensures Cong(a * Pow(a, p - 2), 1, p)
  {
    Fermat(a, p);
    assert Pow(a, p - 1) == a * Pow(a, p - 2);
  }
}
