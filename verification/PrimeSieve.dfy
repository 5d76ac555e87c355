/** The double sieve: the table of small primes, the marking of a window of candidates, and the
    sequential and the chunked search through it. */
module PrimeSieve {
  import opened Outcomes
  import opened Congruence
  import opened Primes
  import opened Residues

  // ---- Eratosthenes -----------------------------------------------------------------

  ghost predicate StruckBy(m: nat, d: nat) {
    IsPrime(d) && d * d <= m && m % d == 0
  }

  /** Struck out by some prime below i. */
  ghost predicate Struck(m: nat, i: nat) {
    exists d: nat :: d < i && StruckBy(m, d)
  }

  /** The least divisor above one is prime. */
  lemma LeastDivisor(n: nat) returns (d: nat)
    requires n >= 2
    ensures 2 <= d <= n && IsPrime(d) && n % d == 0
    ensures forall e :: 2 <= e < d ==> !Divides(e, n)
  {
    CongBy(n, 0, n, 1);
    DivisibleIsCongZero(n, n);
    d := 2;
    while !Divides(d, n)
      invariant 2 <= d <= n && forall e :: 2 <= e < d ==> !Divides(e, n)
      decreases n - d
    {
      d := d + 1;
    }
    forall e | 2 <= e < d
      ensures !Divides(e, d)
    {
      if Divides(e, d) {
        DivisibleIsCongZero(d, e);
        DivisibleIsCongZero(n, d);
        var k :| Quotient(d, 0, e, k);
        CongWeaken(n, 0, e, k);
        DivisibleIsCongZero(n, e);
        assert Divides(e, n);
      }
    }
  }

  lemma CompositeIsStruck(n: nat)
    requires n >= 2 && !IsPrime(n)
    ensures Struck(n, n)
  {
    var d := LeastDivisor(n);
    var k := n / d;
    assert n == d * k;
    assert d < n;
    assert k >= 2;
    CongZeroMultiple(k, d);
    assert n == k * d;
    DivisibleIsCongZero(n, k);
    assert Divides(k, n);
    assert d * d <= d * k;
    assert StruckBy(n, d);
  }

  lemma PrimeIsNotStruck(n: nat, i: nat)
    requires IsPrime(n)
    ensures !Struck(n, i)
  {
    forall d: nat | StruckBy(n, d)
      ensures false
    {
      assert d * d >= 2 * d;
      assert Divides(d, n);
    }
  }

  /** Two multiples of i less than i apart are equal. */
  lemma MultiplesGap(x: int, y: int, i: int)
    requires i > 0 && x % i == 0 && y % i == 0 && x <= y < x + i
    ensures x == y
  {
    DivisibleIsCongZero(x, i);
    DivisibleIsCongZero(y, i);
    CongSub(y, 0, x, 0, i);
    CongSmallIsEq(y - x, 0, i);
  }

  lemma NextMultiple(x: int, i: int)
    requires i > 0 && x % i == 0
    ensures (x + i) % i == 0
  {
    DivisibleIsCongZero(x, i);
    CongBy(i, 0, i, 1);
    CongAdd(x, 0, i, 0, i);
    DivisibleIsCongZero(x + i, i);
  }

  /** Crosses out i * i, i * i + i, ... */
  method CrossOut(composite: array<bool>, i: nat)
    requires i >= 2 && IsPrime(i)
    requires forall m: nat :: m < composite.Length ==> composite[m] == Struck(m, i)
    modifies composite
    ensures forall m: nat :: m < composite.Length ==> composite[m] == Struck(m, i + 1)
  {
    var m := i * i;
    CongZeroMultiple(i, i);
    DivisibleIsCongZero(m, i);
    while m < composite.Length
      invariant m % i == 0 && m >= i * i
      invariant forall x: nat :: x < composite.Length ==>
                  composite[x] == (Struck(x, i) || (x < m && StruckBy(x, i)))
      decreases composite.Length - m
    {
      NextMultiple(m, i);
      forall x: nat | m < x < m + i
        ensures !StruckBy(x, i)
      {
        if x % i == 0 {
          MultiplesGap(m, x, i);
        }
      }
      composite[m] := true;
      assert StruckBy(m, i);
      m := m + i;
    }
    forall x: nat | x < composite.Length
      ensures composite[x] == Struck(x, i + 1)
    {
      assert Struck(x, i + 1) <==> Struck(x, i) || StruckBy(x, i);
    }
  }

  /** Exactly the odd primes below `limit`, in increasing order. */
  method SmallOddPrimes(limit: nat) returns (out: seq<nat>)
    ensures forall p: nat :: p in out <==> OddPrime(p) && p < limit
    ensures forall i, j :: 0 <= i < j < |out| ==> out[i] < out[j]
  {
    var composite := new bool[limit](_ => false);
    out := [];
    forall m: nat | m < limit
      ensures !Struck(m, 2)
    {
    }
    for i := 2 to if limit < 2 then 2 else limit
      invariant forall m: nat :: m < limit ==> composite[m] == Struck(m, i)
      invariant forall p: nat :: p in out <==> OddPrime(p) && p < i
      invariant forall k, l :: 0 <= k < l < |out| ==> out[k] < out[l]
    {
      if !composite[i] {
        if !IsPrime(i) {
          CompositeIsStruck(i);
        }
        if i > 2 {
          assert i % 2 == 1 by {
            assert !Divides(2, i);
          }
          assert forall k :: 0 <= k < |out| ==> out[k] in out;
          out := out + [i];
        }
        CrossOut(composite, i);
      } else {
        if IsPrime(i) {
          PrimeIsNotStruck(i, i);
        }
        assert forall m: nat :: Struck(m, i + 1) <==> Struck(m, i);
      }
    }
  }

  // ---- machine words ----------------------------------------------------------------

  /** Rust's u64: every operation below is checked not to overflow. */
  newtype u64 = x: int | 0 <= x < 0x1_0000_0000_0000_0000

  lemma WordProduct(x: int, y: int)
    requires 0 <= x <= 0xFFFF_FFFF && 0 <= y <= 0xFFFF_FFFF
    ensures 0 <= x * y <= 0xFFFF_FFFE_0000_0001
  {
    ProductBound(x, y, 0xFFFF_FFFF);
  }

  lemma ProductBound(x: int, y: int, b: int)
    requires 0 <= x <= b && 0 <= y <= b
    ensures 0 <= x * y <= b * b
  {
    assert (b - x) * y >= 0 && b * (b - y) >= 0 && x * y >= 0;
  }

  lemma OddPowerSplits(result: int, base: int, e: int, h: int)
    requires h >= 0 && e == 2 * h + 1
    ensures (result * base) * Pow(base, 2 * h) == result * Pow(base, e)
  {
    assert Pow(base, e) == base * Pow(base, 2 * h);
    Regroup(result, base, Pow(base, 2 * h));
  }

  lemma SquareMultiplyStep(result: int, base: int, e: nat, x: int, l: int)
    requires l > 0 && Cong(result * Pow(base, e), x, l)
    ensures e % 2 == 1 ==> Cong(((result * base) % l) * Pow((base * base) % l, e / 2), x, l)
    ensures e % 2 == 0 ==> Cong(result * Pow((base * base) % l, e / 2), x, l)
  {
    var h := e / 2;
    var sq := (base * base) % l;
    CongMod(base * base, l);
    CongPow(sq, base * base, h, l);
    PowSquare(base, h);
    if e % 2 == 0 {
      CongScale(result, Pow(sq, h), Pow(base, e), l);
      CongTrans(result * Pow(sq, h), result * Pow(base, e), x, l);
    } else {
      CongMod(result * base, l);
      CongMul((result * base) % l, result * base, Pow(sq, h), Pow(base, 2 * h), l);
      OddPowerSplits(result, base, e, h);
      CongTrans(((result * base) % l) * Pow(sq, h), result * Pow(base, e), x, l);
    }
  }

  /** x^(l-2) mod l by square and multiply: the inverse of x modulo the odd prime l. */
  method InvMod(x: u64, l: u64) returns (result: u64)
    requires OddPrime(l as int) && l < 0x1_0000_0000 && (x as int) % (l as int) != 0
    ensures result < l && Cong((x as int) * (result as int), 1, l as int)
  {
    var L := l as int;
    var base, e := x % l, l - 2;
    result := 1;
    CongMod(x as int, L);
    ghost var X := Pow(x as int, L - 2);
    CongPow(base as int, x as int, L - 2, L);
    while e > 0
      invariant 0 < l && result < l && base < l
      invariant Cong((result as int) * Pow(base as int, e as int), X, L)
      decreases e
    {
      SquareMultiplyStep(result as int, base as int, e as int, X, L);
      WordProduct(result as int, base as int);
      WordProduct(base as int, base as int);
      if e % 2 == 1 {
        result := (result * base) % l;
      }
      base := (base * base) % l;
      e := e / 2;
    }
    FermatInverse(x as int, L);
    CongScale(x as int, result as int, X, L);
    CongTrans((x as int) * (result as int), (x as int) * X, 1, L);
  }

  // ---- the window sieve -------------------------------------------------------------

  /** The candidate r = base + 2j is divisible by l. */
  predicate KillsCandidate(l: u64, base: int, j: nat)
    requires l > 0
  {
    (base + 2 * j) % (l as int) == 0
  }

  /** Its chain partner a * r + 1 is divisible by l. */
  predicate KillsChain(l: u64, base: int, a: int, j: nat)
    requires l > 0
  {
    (a * (base + 2 * j) + 1) % (l as int) == 0
  }

  predicate RuledOutBy(l: u64, base: int, a: int, j: nat)
    requires l > 0
  {
    KillsCandidate(l, base, j) || KillsChain(l, base, a, j)
  }

  ghost predicate RuledOut(primes: seq<u64>, base: int, a: int, j: nat)
    requires SievePrimes(primes)
  {
    exists k :: 0 <= k < |primes| && RuledOutBy(primes[k], base, a, j)
  }

  /** The lists the sieve is used with: odd primes that fit 32 bits. */
  ghost predicate SievePrimes(primes: seq<u64>) {
    forall k :: 0 <= k < |primes| ==> OddPrime(primes[k] as int) && primes[k] < 0x1_0000_0000
  }

  lemma StepModulo(x: int, l: int)
    requires l > 0
    ensures (x + l) % l == x % l
  {
    CongBy(x + l, x, l, 1);
    CongIsModEq(x + l, x, l);
  }

  /** Marks start, start + l, start + 2l, ... */
  method MarkProgression(sieve: array<bool>, start: nat, l: nat)
    requires start < l
    modifies sieve
    ensures forall j: nat :: j < sieve.Length ==> sieve[j] == (old(sieve[j]) || j % l == start)
  {
    var idx := start;
    RemainderOfSmall(start, l);
    forall j: nat | j < start
      ensures j % l != start
    {
      RemainderOfSmall(j, l);
    }
    while idx < sieve.Length
      invariant idx % l == start
      invariant forall j: nat :: j < sieve.Length ==>
                  sieve[j] == (old(sieve[j]) || (j < idx && j % l == start))
      decreases sieve.Length - idx
    {
      StepModulo(idx, l);
      forall j: nat | idx < j < idx + l
        ensures j % l != start
      {
        if j % l == start {
          CongIsModEq(j, idx, l);
          CongRefl(idx, l);
          CongSub(j, idx, idx, idx, l);
          CongSmallIsEq(j - idx, 0, l);
        }
      }
      sieve[idx] := true;
      idx := idx + l;
    }
  }

  /** u * j + c vanishes modulo l exactly when j is the solution j0 modulo l. */
  lemma LinearRoot(u: int, c: int, j0: int, j: int, l: int)
    requires l > 0 && Unit(u, l) && Cong(u * j0 + c, 0, l) && 0 <= j0 < l
    ensures (u * j + c) % l == 0 <==> j % l == j0
  {
    DivisibleIsCongZero(u * j + c, l);
    CongMod(j, l);
    if j % l == j0 {
      CongScale(u, j, j0, l);
      CongRefl(c, l);
      CongAdd(u * j, u * j0, c, c, l);
      CongTrans(u * j + c, u * j0 + c, 0, l);
    }
    if Cong(u * j + c, 0, l) {
      CongSub(u * j + c, 0, u * j0 + c, 0, l);
      CongRefl(u * j0, l);
      CongAdd((u * j + c) - (u * j0 + c), 0, u * j0, u * j0, l);
      UnitCancel(u, j, j0, l);
      CongSym(j, j0, l);
      CongIsRemainder(j0, j, l);
    }
  }

  /** j0 := ((l - c) % l * v) % l solves u * j0 + c = 0 when v inverts u. */
  lemma RootFormula(u: int, v: int, c: int, cl: int, l: int)
    requires l > 0 && Cong(u * v, 1, l) && Cong(cl, c, l)
    ensures Cong(u * ((((l - cl) % l) * v) % l) + c, 0, l)
  {
    var n := (l - cl) % l;
    var j := (n * v) % l;
    CongMod(l - cl, l);
    CongBy(l - cl, -cl, l, 1);
    CongTrans(n, l - cl, -cl, l);
    CongMod(n * v, l);
    CongScale(u, j, n * v, l);
    CongScale(n, u * v, 1, l);
    assert u * (n * v) == (u * v) * n;
    CongTrans(u * j, (u * v) * n, 1 * n, l);
    CongTrans(u * j, n, -cl, l);
    CongAdd(u * j, -cl, c, c, l) by { CongRefl(c, l); }
    CongRefl(c, l);
    CongSub(c, c, cl, c, l);
    CongTrans(u * j + c, c - cl, 0, l);
  }

  /** First solution of base + 2j = 0 (mod l), in machine words. */
  method CandidateStart(l: u64, base: int) returns (j0: u64)
    requires OddPrime(l as int) && l < 0x1_0000_0000
    ensures j0 < l
    ensures forall j: nat :: KillsCandidate(l, base, j) <==> j % (l as nat) == j0 as nat
  {
    var L := l as int;
    var baseL := (base % L) as u64;
    var inv2 := (l + 1) / 2;
    WordProduct(((l - baseL) % l) as int, inv2 as int);
    j0 := ((l - baseL) % l) * inv2 % l;
    CongBy(2 * (inv2 as int), 1, L, 1);
    UnitBy(2, inv2 as int, L);
    CongMod(base, L);
    RootFormula(2, inv2 as int, base, baseL as int, L);
    forall j: nat
      ensures KillsCandidate(l, base, j) <==> j % L == j0 as nat
    {
      LinearRoot(2, base, j0 as int, j, L);
    }
  }

  lemma ChainConstants(a: int, base: int, l: int)
    requires OddPrime(l) && a % l != 0
    ensures Cong(((a % l) * (base % l) + 1) % l, a * base + 1, l)
    ensures Unit(2 * a, l) && (2 * (a % l)) % l != 0
    ensures Cong((2 * (a % l)) % l, 2 * a, l)
  {
    CongMod(a, l);
    CongMod(base, l);
    CongMul(a % l, a, base % l, base, l);
    CongRefl(1, l);
    CongAdd((a % l) * (base % l), a * base, 1, 1, l);
    CongMod((a % l) * (base % l) + 1, l);
    CongTrans(((a % l) * (base % l) + 1) % l, (a % l) * (base % l) + 1, a * base + 1, l);
    CongBy(2 * ((l + 1) / 2), 1, l, 1);
    UnitBy(2, (l + 1) / 2, l);
    PrimeUnit(a, l);
    UnitMul(2, a, l);
    CongScale(2, a % l, a, l);
    CongMod(2 * (a % l), l);
    CongTrans((2 * (a % l)) % l, 2 * (a % l), 2 * a, l);
    CongSym((2 * (a % l)) % l, 2 * a, l);
    UnitCong(2 * a, (2 * (a % l)) % l, l);
    PrimeUnit((2 * (a % l)) % l, l);
    RemainderOfSmall((2 * (a % l)) % l, l);
  }

  /** The computed start solves the chain congruence, for every window position. */
  lemma ChainRoot(l: int, base: int, a: int, c: int, two: int, inv: int, jf: int, j: nat)
    requires l > 0 && Unit(2 * a, l) && 0 <= jf < l
    requires Cong(c, a * base + 1, l) && Cong(two, 2 * a, l) && Cong(two * inv, 1, l)
    requires jf == (((l - c) % l) * inv) % l
    ensures (a * (base + 2 * j) + 1) % l == 0 <==> j % l == jf
  {
    CongSym(two, 2 * a, l);
    CongScale(inv, 2 * a, two, l);
    CongTrans(2 * a * inv, two * inv, 1, l);
    RootFormula(2 * a, inv, a * base + 1, c, l);
    LinearRoot(2 * a, a * base + 1, jf, j, l);
    assert 2 * a * j + (a * base + 1) == a * (base + 2 * j) + 1;
  }

  /** First solution of a * (base + 2j) + 1 = 0 (mod l), in machine words. */
  method ChainStart(l: u64, base: int, a: int) returns (jf: u64)
    requires OddPrime(l as int) && l < 0x1_0000_0000 && a % (l as int) != 0
    ensures jf < l
    ensures forall j: nat :: KillsChain(l, base, a, j) <==> j % (l as nat) == jf as nat
  {
    ghost var L := l as int;
    ChainConstants(a, base, L);
    var baseL, aL := (base % (l as int)) as u64, (a % (l as int)) as u64;
    WordProduct(aL as int, baseL as int);
    var c := (aL * baseL + 1) % l;
    var two := 2 * aL % l;
    RemainderOfSmall(two as int, L);
    var inv := InvMod(two, l);
    var neg := (l - c) % l;
    WordProduct(neg as int, inv as int);
    jf := neg * inv % l;
    forall j: nat
      ensures KillsChain(l, base, a, j) <==> j % L == jf as nat
    {
      ChainRoot(L, base, a, c as int, two as int, inv as int, jf as int, j);
    }
  }

  /** When l divides a, the chain partner is 1 modulo l and nothing is to be marked. */
  lemma ChainUnmarked(l: int, base: int, a: int, j: nat)
    requires OddPrime(l) && a % l == 0
    ensures (a * (base + 2 * j) + 1) % l != 0
  {
    DivisibleIsCongZero(a, l);
    CongScale(base + 2 * j, a, 0, l);
    CongRefl(1, l);
    CongAdd(a * (base + 2 * j), 0 * (base + 2 * j), 1, 1, l);
    CongIsModEq(a * (base + 2 * j) + 1, 1, l);
    RemainderOfSmall(1, l);
  }

  /** `mark_sieve`: marks exactly the positions some listed prime rules out. */
  method MarkSieve(sieve: array<bool>, base: int, a: int, primes: seq<u64>)
    requires SievePrimes(primes)
    modifies sieve
    ensures forall j: nat :: j < sieve.Length ==>
              sieve[j] == (old(sieve[j]) || RuledOut(primes, base, a, j))
  {
    for i := 0 to |primes|
      invariant forall j: nat :: j < sieve.Length ==>
                  sieve[j] == (old(sieve[j]) || RuledOut(primes[..i], base, a, j))
    {
      var l := primes[i];
      label L:
      var j0 := CandidateStart(l, base);
      MarkProgression(sieve, j0 as nat, l as nat);
      if a % (l as int) != 0 {
        var jf := ChainStart(l, base, a);
        MarkProgression(sieve, jf as nat, l as nat);
      } else {
        forall j: nat
          ensures !KillsChain(l, base, a, j)
        {
          ChainUnmarked(l as int, base, a, j);
        }
      }
      forall j: nat | j < sieve.Length
        ensures sieve[j] == (old(sieve[j]) || RuledOut(primes[..i + 1], base, a, j))
      {
        assert sieve[j] == (old@L(sieve[j]) || RuledOutBy(l, base, a, j));
        RuledOutSnoc(primes, i, base, a, j);
      }
    }
    assert primes[..|primes|] == primes;
  }

  lemma RuledOutSnoc(primes: seq<u64>, i: nat, base: int, a: int, j: nat)
    requires SievePrimes(primes) && i < |primes|
    ensures RuledOut(primes[..i + 1], base, a, j)
            <==> RuledOut(primes[..i], base, a, j) || RuledOutBy(primes[i], base, a, j)
  {
    var big, small := primes[..i + 1], primes[..i];
    if RuledOut(small, base, a, j) {
      var k :| 0 <= k < |small| && RuledOutBy(small[k], base, a, j);
      assert RuledOutBy(big[k], base, a, j);
    }
    if RuledOutBy(primes[i], base, a, j) {
      assert RuledOutBy(big[i], base, a, j);
    }
    if RuledOut(big, base, a, j) {
      var k :| 0 <= k < |big| && RuledOutBy(big[k], base, a, j);
      assert k < i ==> RuledOutBy(small[k], base, a, j);
    }
  }

  /** A prime of the list divides the candidate or its chain partner. */
  lemma RuledOutMeans(primes: seq<u64>, base: int, a: int, j: nat)
    requires SievePrimes(primes)
    ensures RuledOut(primes, base, a, j)
            <==> exists l :: l in primes
                   && (Divides(l as int, base + 2 * j) || Divides(l as int, a * (base + 2 * j) + 1))
  {
    if RuledOut(primes, base, a, j) {
      var k :| 0 <= k < |primes| && RuledOutBy(primes[k], base, a, j);
      assert primes[k] in primes;
    }
    if l :| l in primes && (Divides(l as int, base + 2 * j) || Divides(l as int, a * (base + 2 * j) + 1)) {
      var k :| 0 <= k < |primes| && primes[k] == l;
      assert RuledOutBy(primes[k], base, a, j);
    }
  }

  /** `sieve_window`, as the bitmap it returns. */
  method SieveWindow(base: int, a: int, w: nat, primes: seq<u64>) returns (sieve: seq<bool>)
    requires SievePrimes(primes)
    ensures |sieve| == w
    ensures forall j: nat :: j < w ==> sieve[j] == RuledOut(primes, base, a, j)
    ensures forall j: nat :: j < w ==>
              (sieve[j] <==> exists l :: l in primes
                               && (Divides(l as int, base + 2 * j) || Divides(l as int, a * (base + 2 * j) + 1)))
  {
    var marks := new bool[w](_ => false);
    MarkSieve(marks, base, a, primes);
    sieve := marks[..];
    forall j: nat | j < w
      ensures RuledOut(primes, base, a, j)
              <==> exists l :: l in primes
                     && (Divides(l as int, base + 2 * j) || Divides(l as int, a * (base + 2 * j) + 1))
    {
      RuledOutMeans(primes, base, a, j);
    }
  }

  // ---- searching one window -----------------------------------------------------------

  /** The first surviving position from j on whose candidate passes the primality test. */
  ghost function FirstHit<T>(base: int, a: int, w: nat, primes: seq<u64>, test: nat -> Option<T>,
                             j: nat): Option<T>
    requires SievePrimes(primes)
    decreases w - j
  {
    if j >= w then None
    else if !RuledOut(primes, base, a, j) && test(j).Some? then test(j)
    else FirstHit(base, a, w, primes, test, j + 1)
  }

  /** `gen_pair` for one random base. */
  method SearchWindow<T>(base: int, a: int, w: nat, primes: seq<u64>, test: nat -> Option<T>)
    returns (r: Option<T>)
    requires SievePrimes(primes)
    ensures r == FirstHit(base, a, w, primes, test, 0)
  {
    var sieve := SieveWindow(base, a, w, primes);
    for j := 0 to w
      invariant FirstHit(base, a, w, primes, test, 0) == FirstHit(base, a, w, primes, test, j)
    {
      if !sieve[j] {
        var pair := test(j);
        if pair.Some? {
          return pair;
        }
      }
    }
    return None;
  }

  /** Position-wise union of two bitmaps. */
  method OrInto(acc: seq<bool>, part: seq<bool>) returns (r: seq<bool>)
    requires |acc| == |part|
    ensures |r| == |acc| && forall j :: 0 <= j < |r| ==> r[j] == (acc[j] || part[j])
  {
    r := acc;
    for i := 0 to |acc|
      invariant |r| == |acc|
      invariant forall j :: 0 <= j < i ==> r[j] == (acc[j] || part[j])
      invariant forall j :: i <= j < |r| ==> r[j] == acc[j]
    {
      r := r[i := acc[i] || part[i]];
    }
  }

  ghost predicate MarkedBySome(parts: seq<seq<bool>>, w: nat, j: nat) {
    exists k :: 0 <= k < |parts| && |parts[k]| == w && j < w && parts[k][j]
  }

  /** A rayon reduction: adjacent bitmaps are merged in an arbitrary order. */
  method ReduceOr(bitmaps: seq<seq<bool>>, w: nat) returns (r: seq<bool>)
    requires forall k :: 0 <= k < |bitmaps| ==> |bitmaps[k]| == w
    ensures |r| == w && forall j: nat :: j < w ==> r[j] == MarkedBySome(bitmaps, w, j)
  {
    var parts := bitmaps + [seq(w, _ => false)];
    forall j: nat | j < w
      ensures MarkedBySome(parts, w, j) == MarkedBySome(bitmaps, w, j)
    {
      assert forall k :: 0 <= k < |bitmaps| ==> parts[k] == bitmaps[k];
    }
    while |parts| > 1
      invariant |parts| >= 1 && forall k :: 0 <= k < |parts| ==> |parts[k]| == w
      invariant forall j: nat :: j < w ==> MarkedBySome(parts, w, j) == MarkedBySome(bitmaps, w, j)
      decreases |parts|
    {
      var i: nat :| i + 1 < |parts|;
      var merged := OrInto(parts[i], parts[i + 1]);
      MergeKeepsMarks(parts, i, merged, w);
      parts := parts[..i] + [merged] + parts[i + 2..];
    }
    r := parts[0];
    forall j: nat | j < w
      ensures r[j] == MarkedBySome(parts, w, j)
    {
    }
  }

  lemma MergeKeepsMarks(parts: seq<seq<bool>>, i: nat, merged: seq<bool>, w: nat)
    requires i + 1 < |parts| && forall k :: 0 <= k < |parts| ==> |parts[k]| == w
    requires |merged| == w
    requires forall j :: 0 <= j < w ==> merged[j] == (parts[i][j] || parts[i + 1][j])
    ensures var next := parts[..i] + [merged] + parts[i + 2..];
            forall j: nat :: j < w ==> MarkedBySome(next, w, j) == MarkedBySome(parts, w, j)
  {
    var next := parts[..i] + [merged] + parts[i + 2..];
    forall j: nat | j < w
      ensures MarkedBySome(next, w, j) == MarkedBySome(parts, w, j)
    {
      if MarkedBySome(parts, w, j) {
        var k :| 0 <= k < |parts| && parts[k][j];
        var k' := if k <= i then k else k - 1;
        assert next[k'][j];
      }
      if MarkedBySome(next, w, j) {
        var k :| 0 <= k < |next| && next[k][j];
        var k' := if k < i then k else if k > i then k + 1 else if parts[i][j] then i else i + 1;
        assert parts[k'][j];
      }
    }
  }

  datatype ParResult<+T> = Panic | Found(hit: Option<T>)

  lemma RuledOutSplit(primes: seq<u64>, i: nat, m: nat, base: int, a: int, j: nat)
    requires SievePrimes(primes) && i <= m <= |primes|
    ensures RuledOut(primes[..m], base, a, j)
            <==> RuledOut(primes[..i], base, a, j) || RuledOut(primes[i..m], base, a, j)
  {
    var all, left, right := primes[..m], primes[..i], primes[i..m];
    if RuledOut(all, base, a, j) {
      var k :| 0 <= k < |all| && RuledOutBy(all[k], base, a, j);
      assert k < i ==> RuledOutBy(left[k], base, a, j);
      assert k >= i ==> RuledOutBy(right[k - i], base, a, j);
    }
    if RuledOut(left, base, a, j) {
      var k :| 0 <= k < |left| && RuledOutBy(left[k], base, a, j);
      assert RuledOutBy(all[k], base, a, j);
    }
    if RuledOut(right, base, a, j) {
      var k :| 0 <= k < |right| && RuledOutBy(right[k], base, a, j);
      assert RuledOutBy(all[k + i], base, a, j);
    }
  }

  /** The chunked sieve: one bitmap per chunk of the prime list, then OR. */
  method ChunkedSieve(base: int, a: int, w: nat, primes: seq<u64>, chunk: nat)
    returns (sieve: seq<bool>)
    requires SievePrimes(primes) && chunk > 0
    ensures |sieve| == w
    ensures forall j: nat :: j < w ==> sieve[j] == RuledOut(primes, base, a, j)
  {
    var bitmaps: seq<seq<bool>> := [];
    var i := 0;
    while i < |primes|
      invariant i <= |primes|
      invariant forall k :: 0 <= k < |bitmaps| ==> |bitmaps[k]| == w
      invariant forall j: nat :: j < w ==>
                  MarkedBySome(bitmaps, w, j) == RuledOut(primes[..i], base, a, j)
    {
      var end := if i + chunk < |primes| then i + chunk else |primes|;
      var part := SieveWindow(base, a, w, primes[i..end]);
      var next := bitmaps + [part];
      forall j: nat | j < w
        ensures MarkedBySome(next, w, j) == RuledOut(primes[..end], base, a, j)
      {
        RuledOutSplit(primes, i, end, base, a, j);
        if MarkedBySome(bitmaps, w, j) {
          var k :| 0 <= k < |bitmaps| && bitmaps[k][j];
          assert next[k][j];
        }
        if part[j] {
          assert next[|bitmaps|][j];
        }
        if MarkedBySome(next, w, j) {
          var k :| 0 <= k < |next| && next[k][j];
          assert k < |bitmaps| ==> bitmaps[k][j];
        }
      }
      bitmaps, i := next, end;
    }
    assert primes[..|primes|] == primes;
    sieve := ReduceOr(bitmaps, w);
  }

  /** `gen_pair_par` for one random base. Splitting an empty prime list asks rayon for chunks
      of size zero, which panics; on every other list the sequential hit comes back. */
  method SearchWindowPar<T>(base: int, a: int, w: nat, primes: seq<u64>, test: nat -> Option<T>,
                            threads: nat) returns (r: ParResult<T>)
    requires SievePrimes(primes)
    ensures r.Panic? <==> primes == []
    ensures r.Found? ==> r.hit == FirstHit(base, a, w, primes, test, 0)
  {
    var pool := if threads == 0 then 1 else threads;
    var chunk := (|primes| + pool - 1) / pool;
    ChunkIsZero(|primes|, pool);
    if chunk == 0 {
      return Panic;
    }
    var sieve := ChunkedSieve(base, a, w, primes, chunk);
    var survivors: seq<nat> := [];
    for j := 0 to w
      invariant forall k :: 0 <= k < |survivors| ==> survivors[k] < j
      invariant forall k, l :: 0 <= k < l < |survivors| ==> survivors[k] < survivors[l]
      invariant forall i: nat :: i < j ==> (i in survivors <==> !sieve[i])
    {
      if !sieve[j] {
        survivors := survivors + [j];
      }
    }
    var hit: Option<T> := None;
    for k := 0 to |survivors|
      invariant forall i :: 0 <= i < k ==> test(survivors[i]).None?
    {
      if test(survivors[k]).Some? {
        SurvivorIsFirst(base, a, w, primes, test, sieve, survivors, k, 0);
        return Found(test(survivors[k]));
      }
    }
    NoSurvivor(base, a, w, primes, test, sieve, survivors, 0);
    return Found(None);
  }

  lemma ChunkIsZero(n: nat, pool: nat)
    requires pool > 0
    ensures (n + pool - 1) / pool == 0 <==> n == 0
  {
  }

  lemma {:induction false} SurvivorIsFirst<T>(base: int, a: int, w: nat, primes: seq<u64>,
      test: nat -> Option<T>, sieve: seq<bool>, survivors: seq<nat>, k: nat, j: nat)
    requires SievePrimes(primes) && |sieve| == w && k < |survivors| && j <= survivors[k] < w
    requires forall i: nat :: i < w ==> sieve[i] == RuledOut(primes, base, a, i)
    requires forall i: nat :: i < w ==> (i in survivors <==> !sieve[i])
    requires forall i, l :: 0 <= i < l < |survivors| ==> survivors[i] < survivors[l]
    requires forall i :: 0 <= i < k ==> test(survivors[i]).None?
    requires test(survivors[k]).Some?
    ensures FirstHit(base, a, w, primes, test, j) == test(survivors[k])
    decreases w - j
  {
    assert survivors[k] in survivors;
    if j < survivors[k] {
      if j in survivors {
        var i :| 0 <= i < |survivors| && survivors[i] == j;
        assert i < k;
      }
      SurvivorIsFirst(base, a, w, primes, test, sieve, survivors, k, j + 1);
    }
  }

  lemma {:induction false} NoSurvivor<T>(base: int, a: int, w: nat, primes: seq<u64>,
      test: nat -> Option<T>, sieve: seq<bool>, survivors: seq<nat>, j: nat)
    requires SievePrimes(primes) && |sieve| == w
    requires forall i: nat :: i < w ==> sieve[i] == RuledOut(primes, base, a, i)
    requires forall i: nat :: i < w ==> (i in survivors <==> !sieve[i])
    requires forall i :: 0 <= i < |survivors| ==> test(survivors[i]).None?
    ensures FirstHit(base, a, w, primes, test, j) == None
    decreases w - j
  {
    if j < w {
      NoSurvivor(base, a, w, primes, test, sieve, survivors, j + 1);
    }
  }
}
