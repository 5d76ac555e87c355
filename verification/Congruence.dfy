/** Integer congruences and powers.
    `Cong` hides its quotient behind a witness predicate, so that long chains of
    congruences stay free of `%` terms; `CongMod` and `CongIsModEq` are the bridges to `%`. */
module Congruence {

  predicate Quotient(a: int, b: int, m: int, k: int) {
    a == b + m * k
  }

  ghost predicate Cong(a: int, b: int, m: int) {
    exists k: int :: Quotient(a, b, m, k)
  }

  function Abs(x: int): nat {
    if x < 0 then -x else x
  }

  lemma CongBy(a: int, b: int, m: int, k: int)
    requires a == b + m * k
    ensures Cong(a, b, m)
  {
    assert Quotient(a, b, m, k);
  }

  lemma CongRefl(a: int, m: int)
    ensures Cong(a, a, m)
  {
    CongBy(a, a, m, 0);
  }

  lemma CongSym(a: int, b: int, m: int)
    requires Cong(a, b, m)
    ensures Cong(b, a, m)
  {
    var k :| Quotient(a, b, m, k);
    CongBy(b, a, m, -k);
  }

  lemma CongTrans(a: int, b: int, c: int, m: int)
    requires Cong(a, b, m) && Cong(b, c, m)
    ensures Cong(a, c, m)
  {
    var k :| Quotient(a, b, m, k);
    var l :| Quotient(b, c, m, l);
    CongBy(a, c, m, k + l);
  }

  lemma CongAdd(a: int, b: int, c: int, d: int, m: int)
    requires Cong(a, b, m) && Cong(c, d, m)
    ensures Cong(a + c, b + d, m)
  {
    var k :| Quotient(a, b, m, k);
    var l :| Quotient(c, d, m, l);
    CongBy(a + c, b + d, m, k + l);
  }

  lemma CongSub(a: int, b: int, c: int, d: int, m: int)
    requires Cong(a, b, m) && Cong(c, d, m)
    ensures Cong(a - c, b - d, m)
  {
    var k :| Quotient(a, b, m, k);
    var l :| Quotient(c, d, m, l);
    CongBy(a - c, b - d, m, k - l);
  }

  lemma CongMul(a: int, b: int, c: int, d: int, m: int)
    requires Cong(a, b, m) && Cong(c, d, m)
    ensures Cong(a * c, b * d, m)
  {
    var k :| Quotient(a, b, m, k);
    var l :| Quotient(c, d, m, l);
    calc {
      a * c;
      (b + m * k) * (d + m * l);
      b * d + m * (k * d + b * l + m * k * l);
    }
    CongBy(a * c, b * d, m, k * d + b * l + m * k * l);
  }

  /** Multiplying both sides by the same factor. */
  lemma CongScale(f: int, a: int, b: int, m: int)
    requires Cong(a, b, m)
    ensures Cong(f * a, f * b, m) && Cong(a * f, b * f, m)
  {
    CongRefl(f, m);
    CongMul(f, f, a, b, m);
    CongMul(a, b, f, f, m);
  }

  /** A congruence holds modulo every divisor of its modulus. */
  lemma CongWeaken(a: int, b: int, m: int, d: int)
    requires Cong(a, b, m * d)
    ensures Cong(a, b, m)
  {
    var k :| Quotient(a, b, m * d, k);
    assert (m * d) * k == m * (d * k);
    CongBy(a, b, m, d * k);
  }

  lemma CongZeroMultiple(m: int, k: int)
    ensures Cong(m * k, 0, m)
  {
    CongBy(m * k, 0, m, k);
  }

  lemma CongMod(a: int, m: int)
    requires m > 0
    ensures Cong(a, a % m, m) && Cong(a % m, a, m)
  {
    CongBy(a, a % m, m, a / m);
    CongSym(a, a % m, m);
  }

  lemma CongSmallIsEq(a: int, b: int, m: int)
    requires 0 <= a < m && 0 <= b < m && Cong(a, b, m)
    ensures a == b
  {
    var k :| Quotient(a, b, m, k);
    assert k >= 1 ==> m * k >= m;
    assert k <= -1 ==> m * k <= -m;
  }

  lemma CongIsModEq(a: int, b: int, m: int)
    requires m > 0
    ensures Cong(a, b, m) <==> a % m == b % m
  {
    CongMod(a, m);
    CongMod(b, m);
    if Cong(a, b, m) {
      CongTrans(a % m, a, b, m);
      CongTrans(a % m, b, b % m, m);
      CongSmallIsEq(a % m, b % m, m);
    }
    if a % m == b % m {
      CongTrans(a, a % m, b, m);
    }
  }

  /** A value in range that is congruent to `a` is `a`'s remainder. */
  lemma CongIsRemainder(r: int, a: int, m: int)
    requires 0 <= r < m && Cong(r, a, m)
    ensures r == a % m
  {
    CongMod(a, m);
    CongTrans(r, a, a % m, m);
    CongSmallIsEq(r, a % m, m);
  }

  lemma DivisibleIsCongZero(a: int, m: int)
    requires m > 0
    ensures a % m == 0 <==> Cong(a, 0, m)
  {
    CongIsModEq(a, 0, m);
  }

  // ---- rearranging products ------------------------------------------------------------

  /** Both sides of an equation times the same factor. */
  lemma Scaled(c: int, a: int, b: int)
    requires a == b
    ensures c * a == c * b
  {
  }

  lemma Regroup(a: int, b: int, c: int)
    ensures (a * b) * c == (a * c) * b == a * (b * c)
  {
  }

  lemma SwapInner(a: int, b: int, c: int, d: int)
    ensures (a * b) * (c * d) == (a * c) * (b * d)
  {
  }

  lemma Distribute(a: int, b: int, c: int)
    ensures a * (b + c) == a * b + a * c
  {
  }

  lemma PositiveProduct(a: int, b: int)
    requires a > 0 && b > 0
    ensures a * b >= a && a * b >= b
  {
    assert (a - 1) * b >= 0 && a * (b - 1) >= 0;
  }

  // ---- powers ---------------------------------------------------------------------------

  function Pow(b: int, e: nat): int {
    if e == 0 then 1 else b * Pow(b, e - 1)
  }

  lemma {:induction false} PowAdd(b: int, x: nat, y: nat)
    ensures Pow(b, x + y) == Pow(b, x) * Pow(b, y)
  {
    if x != 0 {
      PowAdd(b, x - 1, y);
      assert b * (Pow(b, x - 1) * Pow(b, y)) == (b * Pow(b, x - 1)) * Pow(b, y);
    }
  }

  lemma {:induction false} PowMul(b: int, x: nat, y: nat)
    ensures x * y >= 0 && Pow(Pow(b, x), y) == Pow(b, x * y)
  {
    if y != 0 {
      PowMul(b, x, y - 1);
      assert x * y == x + x * (y - 1);
      PowAdd(b, x, x * (y - 1));
    }
  }

  lemma {:induction false} PowBase(a: int, b: int, e: nat)
    ensures Pow(a * b, e) == Pow(a, e) * Pow(b, e)
  {
    if e != 0 {
      PowBase(a, b, e - 1);
      Scaled(a * b, Pow(a * b, e - 1), Pow(a, e - 1) * Pow(b, e - 1));
      SwapInner(a, b, Pow(a, e - 1), Pow(b, e - 1));
    }
  }

  lemma {:induction false} PowOne(e: nat)
    ensures Pow(1, e) == 1
  {
    if e != 0 {
      PowOne(e - 1);
    }
  }

  lemma {:induction false} PowPositive(b: int, e: nat)
    requires b > 0
    ensures Pow(b, e) > 0
  {
    if e != 0 {
      PowPositive(b, e - 1);
    }
  }

  lemma {:induction false} PowMonotone(b: int, x: nat, y: nat)
    requires b > 0 && x <= y
    ensures 0 < Pow(b, x) <= Pow(b, y)
  {
    PowPositive(b, x);
    if x < y {
      PowMonotone(b, x, y - 1);
      assert Pow(b, y) >= Pow(b, y - 1);
    }
  }

  lemma {:induction false} CongPow(a: int, b: int, e: nat, m: int)
    requires Cong(a, b, m)
    ensures Cong(Pow(a, e), Pow(b, e), m)
  {
    if e == 0 {
      CongRefl(1, m);
    } else {
      CongPow(a, b, e - 1, m);
      CongMul(a, b, Pow(a, e - 1), Pow(b, e - 1), m);
    }
  }

  lemma PowSquare(b: int, e: nat)
    ensures Pow(b, e) * Pow(b, e) == Pow(b, 2 * e) == Pow(b * b, e)
  {
    PowAdd(b, e, e);
    PowBase(b, b, e);
  }
}
