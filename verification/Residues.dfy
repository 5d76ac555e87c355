/** Quadratic residues modulo an odd prime: the Legendre symbol as `jacobi` reports it for a
    prime modulus, Euler's criterion, and its consequences: multiplicativity, the symbol of -1,
    and the existence of a non-residue. */
module Residues {
  import opened Congruence
  import opened Primes
  import opened Polynomials

  ghost predicate SquareRootOf(x: int, a: int, p: int) {
    Cong(x * x, a, p)
  }

  ghost predicate IsSquare(a: int, p: int) {
    exists x: int :: SquareRootOf(x, a, p)
  }

  /** `jacobi(a, p)` for a prime p: 0 on multiples of p, 1 on squares, -1 otherwise. */
  ghost function Legendre(a: int, p: int): int
    requires p > 0
  {
    if a % p == 0 then 0 else if IsSquare(a, p) then 1 else -1
  }

  ghost predicate OddPrime(p: int) {
    IsPrime(p) && p % 2 == 1
  }

  /** a^((p-1)/2) is a square root of one. */
  lemma EulerPowerIsSign(a: int, p: int)
    requires OddPrime(p) && a % p != 0
    ensures Cong(Pow(a, (p - 1) / 2), 1, p) || Cong(Pow(a, (p - 1) / 2), -1, p)
  {
    Fermat(a, p);
    PowSquare(a, (p - 1) / 2);
    SquareRootsOfOne(Pow(a, (p - 1) / 2), p);
  }

  lemma SquareHasPowerOne(a: int, p: int)
    requires OddPrime(p) && a % p != 0 && IsSquare(a, p)
    ensures Cong(Pow(a, (p - 1) / 2), 1, p)
  {
    var n := (p - 1) / 2;
    var x :| SquareRootOf(x, a, p);
    if x % p == 0 {
      DivisibleIsCongZero(x, p);
      CongScale(x, x, 0, p);
      CongSym(x * x, a, p);
      CongTrans(a, x * x, 0, p);
      DivisibleIsCongZero(a, p);
    }
    Fermat(x, p);
    PowSquare(x, n);
    CongPow(x * x, a, n, p);
    CongSym(Pow(x * x, n), Pow(a, n), p);
    CongTrans(Pow(a, n), Pow(x * x, n), 1, p);
  }

  /** The first n positive squares. */
  function Squares(n: nat): (s: seq<int>)
    ensures |s| == n && forall i :: 0 <= i < n ==> s[i] == (i + 1) * (i + 1)
  {
    if n == 0 then [] else Squares(n - 1) + [n * n]
  }

  lemma SmallSquaresDistinct(i: int, j: int, p: int)
    requires OddPrime(p) && 0 < i < j && 2 * j < p
    ensures (i * i) % p != (j * j) % p
  {
    if (i * i) % p == (j * j) % p {
      CongIsModEq(i * i, j * j, p);
      CongRefl(i * i, p);
      CongSym(i * i, j * j, p);
      CongSub(j * j, i * i, i * i, i * i, p);
      assert j * j - i * i == (j - i) * (j + i);
      DivisibleIsCongZero((j - i) * (j + i), p);
      PrimeDividesProduct(j - i, j + i, p);
      RemainderOfSmall(j - i, p);
      RemainderOfSmall(j + i, p);
    }
  }

  /** Euler's criterion, the direction that counts roots: power one makes a square. */
  lemma PowerOneIsSquare(a: int, p: int)
    requires OddPrime(p) && Cong(Pow(a, (p - 1) / 2), 1, p)
    ensures IsSquare(a, p)
  {
    var n := (p - 1) / 2;
    var xs := Squares(n) + [a];
    if !IsSquare(a, p) {
      forall i | 0 <= i < n
        ensures xs[i] % p != a % p && Cong(Pow(xs[i], n), 1, p)
      {
        var x := i + 1;
        CongIsModEq(x * x, a, p);
        assert SquareRootOf(x, a, p) ==> IsSquare(a, p);
        RemainderOfSmall(x, p);
        Fermat(x, p);
        PowSquare(x, n);
      }
      forall i, j | 0 <= i < j < |xs|
        ensures xs[i] % p != xs[j] % p
      {
        if j < n {
          SmallSquaresDistinct(i + 1, j + 1, p);
        }
      }
      RootsOfUnityBound(n, xs, p);
    }
  }

  /** Euler's criterion: the symbol is congruent to a^((p-1)/2). */
  lemma EulerCriterion(a: int, p: int)
    requires OddPrime(p)
    ensures Cong(Pow(a, (p - 1) / 2), Legendre(a, p), p)
  {
    var n := (p - 1) / 2;
    if a % p == 0 {
      DivisibleIsCongZero(a, p);
      CongScale(Pow(a, n - 1), a, 0, p);
    } else if IsSquare(a, p) {
      SquareHasPowerOne(a, p);
    } else {
      EulerPowerIsSign(a, p);
      if Cong(Pow(a, n), 1, p) {
        PowerOneIsSquare(a, p);
      }
    }
  }

  /** Symbols that agree modulo p are equal. */
  lemma SymbolFromPower(a: int, s: int, p: int)
    requires OddPrime(p) && -1 <= s <= 1 && Cong(Pow(a, (p - 1) / 2), s, p)
    ensures Legendre(a, p) == s
  {
    EulerCriterion(a, p);
    var e, l := Pow(a, (p - 1) / 2), Legendre(a, p);
    CongSym(e, l, p);
    CongTrans(l, e, s, p);
    CongRefl(1, p);
    CongAdd(l, s, 1, 1, p);
    CongSmallIsEq(l + 1, s + 1, p);
  }

  lemma LegendreCong(a: int, b: int, p: int)
    requires OddPrime(p) && Cong(a, b, p)
    ensures Legendre(a, p) == Legendre(b, p)
  {
    var n := (p - 1) / 2;
    EulerCriterion(b, p);
    CongPow(a, b, n, p);
    CongTrans(Pow(a, n), Pow(b, n), Legendre(b, p), p);
    SymbolFromPower(a, Legendre(b, p), p);
  }

  lemma LegendreMul(a: int, b: int, p: int)
    requires OddPrime(p)
    ensures Legendre(a * b, p) == Legendre(a, p) * Legendre(b, p)
  {
    var n := (p - 1) / 2;
    EulerCriterion(a, p);
    EulerCriterion(b, p);
    PowBase(a, b, n);
    CongMul(Pow(a, n), Legendre(a, p), Pow(b, n), Legendre(b, p), p);
    SymbolFromPower(a * b, Legendre(a, p) * Legendre(b, p), p);
  }

  lemma {:induction false} PowMinusOne(n: nat)
    ensures Pow(-1, n) == if n % 2 == 0 then 1 else -1
  {
    if n > 0 {
      PowMinusOne(n - 1);
    }
  }

  /** -1 is a non-residue modulo a Blum prime. */
  lemma LegendreMinusOne(p: int)
    requires IsPrime(p) && p % 4 == 3
    ensures Legendre(-1, p) == -1
  {
    PowMinusOne((p - 1) / 2);
    CongRefl(-1, p);
    SymbolFromPower(-1, -1, p);
  }

  function UpTo(n: nat): (s: seq<int>)
    ensures |s| == n && forall i :: 0 <= i < n ==> s[i] == i + 1
  {
    if n == 0 then [] else UpTo(n - 1) + [n]
  }

  /** Every odd prime has a non-residue, so the search for one stops below p. */
  lemma NonResidueExists(p: int) returns (z: int)
    requires OddPrime(p)
    ensures 2 <= z < p && Legendre(z, p) == -1
  {
    var n := (p - 1) / 2;
    if forall y :: 2 <= y < p ==> Legendre(y, p) != -1 {
      var xs := UpTo(p - 1);
      forall i | 0 <= i < |xs|
        ensures xs[i] % p == xs[i] && Cong(Pow(xs[i], n), 1, p)
      {
        RemainderOfSmall(xs[i], p);
        EulerCriterion(xs[i], p);
        if xs[i] == 1 {
          CongRefl(1, p);
          assert SquareRootOf(1, 1, p);
        }
      }
      RootsOfUnityBound(n, xs, p);
    }
    z :| 2 <= z < p && Legendre(z, p) == -1;
  }
}
