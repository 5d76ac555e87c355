/** The Lucas sequences U and V and the ladder that computes them modulo an odd modulus: the
    doubling and increment identities hold over the integers, the ladder keeps its two values
    congruent to U_n and V_n for every prefix n of the exponent's bits. */
module Lucas {
  import opened Congruence
  import opened Primes
  import opened Bits

  /** X_n = P X_{n-1} - Q X_{n-2} from 0, 1 and from 2, P. */
  function U(p: int, q: int, n: nat): int {
    if n == 0 then 0 else if n == 1 then 1 else p * U(p, q, n - 1) - q * U(p, q, n - 2)
  }

  function V(p: int, q: int, n: nat): int {
    if n == 0 then 2 else if n == 1 then p else p * V(p, q, n - 1) - q * V(p, q, n - 2)
  }

  /** The increment formulas, with D = P^2 - 4Q. */
  lemma {:induction false} Increment(p: int, q: int, d: int, n: nat)
    requires d == p * p - 4 * q
    ensures 2 * U(p, q, n + 1) == p * U(p, q, n) + V(p, q, n)
    ensures 2 * V(p, q, n + 1) == d * U(p, q, n) + p * V(p, q, n)
  {
    if n == 1 {
      Increment(p, q, d, 0);
    } else if n >= 2 {
      Increment(p, q, d, n - 1);
      Increment(p, q, d, n - 2);
      var u1, u2, v1, v2 := U(p, q, n - 1), U(p, q, n - 2), V(p, q, n - 1), V(p, q, n - 2);
      IncrementU(p, q, U(p, q, n), u1, u2, V(p, q, n), v1, v2);
      IncrementV(p, q, d, U(p, q, n), u1, u2, V(p, q, n), v1, v2);
    }
  }

  lemma IncrementU(p: int, q: int, u: int, u1: int, u2: int, v: int, v1: int, v2: int)
    requires u == p * u1 - q * u2 && v == p * v1 - q * v2
    requires 2 * u == p * u1 + v1 && 2 * u1 == p * u2 + v2
    ensures 2 * (p * u - q * u1) == p * u + v
  {
    Scaled(p, 2 * u, p * u1 + v1);
    Scaled(q, 2 * u1, p * u2 + v2);
    ExpandU(p, q, u1, u2, v1, v2);
  }

  lemma ExpandU(p: int, q: int, u1: int, u2: int, v1: int, v2: int)
    ensures p * (p * u1 + v1) - q * (p * u2 + v2) == p * (p * u1 - q * u2) + (p * v1 - q * v2)
  {
  }

  lemma IncrementV(p: int, q: int, d: int, u: int, u1: int, u2: int, v: int, v1: int, v2: int)
    requires u == p * u1 - q * u2 && v == p * v1 - q * v2
    requires 2 * v == d * u1 + p * v1 && 2 * v1 == d * u2 + p * v2
    ensures 2 * (p * v - q * v1) == d * u + p * v
  {
    Scaled(p, 2 * v, d * u1 + p * v1);
    Scaled(q, 2 * v1, d * u2 + p * v2);
    ExpandV(p, q, d, u1, u2, v1, v2);
  }

  lemma ExpandV(p: int, q: int, d: int, u1: int, u2: int, v1: int, v2: int)
    ensures p * (d * u1 + p * v1) - q * (d * u2 + p * v2) == d * (p * u1 - q * u2) + p * (p * v1 - q * v2)
  {
  }

  lemma AdditionBase(p: int, q: int, d: int, m: nat)
    requires d == p * p - 4 * q
    ensures 2 * U(p, q, m) == U(p, q, m) * V(p, q, 0) + V(p, q, m) * U(p, q, 0)
    ensures 2 * V(p, q, m) == V(p, q, m) * V(p, q, 0) + d * (U(p, q, m) * U(p, q, 0))
    ensures 2 * U(p, q, m + 1) == U(p, q, m) * V(p, q, 1) + V(p, q, m) * U(p, q, 1)
    ensures 2 * V(p, q, m + 1) == V(p, q, m) * V(p, q, 1) + d * (U(p, q, m) * U(p, q, 1))
  {
    Increment(p, q, d, m);
    assert U(p, q, 0) == 0 && V(p, q, 0) == 2 && U(p, q, 1) == 1 && V(p, q, 1) == p;
  }

  lemma {:induction false} Addition(p: int, q: int, d: int, m: nat, n: nat)
    requires d == p * p - 4 * q
    ensures 2 * U(p, q, m + n) == U(p, q, m) * V(p, q, n) + V(p, q, m) * U(p, q, n)
    ensures 2 * V(p, q, m + n) == V(p, q, m) * V(p, q, n) + d * (U(p, q, m) * U(p, q, n))
  {
    if n <= 1 {
      AdditionBase(p, q, d, m);
    } else {
      Addition(p, q, d, m, n - 1);
      Addition(p, q, d, m, n - 2);
      Recurrence(p, q, n);
      Recurrence(p, q, m + n);
      AdditionAlgebra(p, q, d, U(p, q, m), V(p, q, m), U(p, q, n - 1), U(p, q, n - 2),
                      V(p, q, n - 1), V(p, q, n - 2), U(p, q, m + n - 1), U(p, q, m + n - 2),
                      V(p, q, m + n - 1), V(p, q, m + n - 2), U(p, q, n), V(p, q, n),
                      U(p, q, m + n), V(p, q, m + n));
    }
  }

  lemma Recurrence(p: int, q: int, n: nat)
    requires n >= 2
    ensures U(p, q, n) == p * U(p, q, n - 1) - q * U(p, q, n - 2)
    ensures V(p, q, n) == p * V(p, q, n - 1) - q * V(p, q, n - 2)
  {
  }

  lemma AdditionAlgebra(p: int, q: int, d: int, um: int, vm: int, u1: int, u2: int, v1: int, v2: int,
                        x1: int, x2: int, y1: int, y2: int, u: int, v: int, x: int, y: int)
    requires 2 * x1 == um * v1 + vm * u1 && 2 * x2 == um * v2 + vm * u2
    requires 2 * y1 == vm * v1 + d * (um * u1) && 2 * y2 == vm * v2 + d * (um * u2)
    requires u == p * u1 - q * u2 && v == p * v1 - q * v2
    requires x == p * x1 - q * x2 && y == p * y1 - q * y2
    ensures 2 * x == um * v + vm * u && 2 * y == vm * v + d * (um * u)
  {
    LinearParts(p, q, 2, x1, x2);
    LinearParts(p, q, 2, y1, y2);
    LinearParts(p, q, um, v1, v2);
    LinearParts(p, q, vm, u1, u2);
    LinearParts(p, q, vm, v1, v2);
    LinearParts(p, q, um, u1, u2);
    LinearParts(p, q, d, um * u1, um * u2);
    Distribute(p, um * v1, vm * u1);
    Distribute(q, um * v2, vm * u2);
    Distribute(p, vm * v1, d * (um * u1));
    Distribute(q, vm * v2, d * (um * u2));
  }

  lemma LinearParts(p: int, q: int, m: int, x: int, y: int)
    ensures m * (p * x - q * y) == p * (m * x) - q * (m * y)
  {
  }

  /** V^2 - D U^2 = 4 Q^n. */
  lemma {:induction false} NormIdentity(p: int, q: int, d: int, n: nat)
    requires d == p * p - 4 * q
    ensures V(p, q, n) * V(p, q, n) - d * (U(p, q, n) * U(p, q, n)) == 4 * Pow(q, n)
  {
    if n > 0 {
      NormIdentity(p, q, d, n - 1);
      Increment(p, q, d, n - 1);
      NormAlgebra(p, q, d, U(p, q, n - 1), V(p, q, n - 1), U(p, q, n), V(p, q, n), Pow(q, n - 1));
    }
  }

  lemma NormAlgebra(p: int, q: int, d: int, u: int, v: int, u': int, v': int, w: int)
    requires d == p * p - 4 * q && v * v - d * (u * u) == 4 * w
    requires 2 * u' == p * u + v && 2 * v' == d * u + p * v
    ensures v' * v' - d * (u' * u') == 4 * (q * w)
  {
    SquareOf(2 * u', p * u + v);
    SquareOf(2 * v', d * u + p * v);
    Scaled(d, (2 * u') * (2 * u'), (p * u + v) * (p * u + v));
    NormExpand(p, d, u, v);
    Scaled(p * p - d, v * v - d * (u * u), 4 * w);
    Doubled(u', v', d);
    assert (p * p - d) * (4 * w) == 16 * (q * w) by {
      Scaled(4 * w, p * p - d, 4 * q);
    }
  }

  lemma SquareOf(x: int, y: int)
    requires x == y
    ensures x * x == y * y
  {
  }

  lemma NormExpand(p: int, d: int, u: int, v: int)
    ensures (d * u + p * v) * (d * u + p * v) - d * ((p * u + v) * (p * u + v)) == (p * p - d) * (v * v - d * (u * u))
  {
  }

  lemma Doubled(u: int, v: int, d: int)
    ensures (2 * v) * (2 * v) - d * ((2 * u) * (2 * u)) == 4 * (v * v - d * (u * u))
  {
  }

  lemma Doubling(p: int, q: int, d: int, m: nat)
    requires d == p * p - 4 * q
    ensures U(p, q, 2 * m) == U(p, q, m) * V(p, q, m)
    ensures V(p, q, 2 * m) == V(p, q, m) * V(p, q, m) - Pow(q, m) - Pow(q, m)
  {
    Addition(p, q, d, m, m);
    NormIdentity(p, q, d, m);
  }

  // ---- the ladder -------------------------------------------------------------------------

  /** `half`: x / 2 modulo an odd modulus, by a conditional add and a shift. */
  function Half(x: int, n: int): int {
    if x % 2 == 1 then (x + n) / 2 else x / 2
  }

  lemma TwiceHalf(x: int, n: int)
    requires n % 2 == 1 && 0 <= x < n
    ensures 0 <= Half(x, n) < n && 2 * Half(x, n) == x + n * (x % 2)
  {
  }

  lemma HalfCorrect(x: int, y: int, n: int)
    requires n % 2 == 1 && n > 2 && 0 <= x < n && Cong(x, 2 * y, n)
    ensures 0 <= Half(x, n) < n && Cong(Half(x, n), y, n)
  {
    var h, i := Half(x, n), (n + 1) / 2;
    TwiceHalf(x, n);
    CongBy(2 * h, x, n, x % 2);
    CongTrans(2 * h, x, 2 * y, n);
    assert 2 * i == 1 + n;
    CongBy(2 * i, 1, n, 1);
    UnitBy(2, i, n);
    UnitCancel(2, h, y, n);
  }

  /** u, v and w represent U_m, V_m and Q^m modulo n. */
  ghost predicate Ladder(u: int, v: int, w: int, p: int, q: int, m: nat, n: int) {
    && 0 <= u < n && 0 <= v < n
    && Cong(u, U(p, q, m), n) && Cong(v, V(p, q, m), n) && Cong(w, Pow(q, m), n)
  }

  method Double(u: int, v: int, w: int, n: int, ghost p: int, ghost q: int, ghost m: nat)
    returns (u2: int, v2: int, w2: int)
    requires n > 0 && Ladder(u, v, w, p, q, m, n)
    ensures Ladder(u2, v2, w2, p, q, 2 * m, n)
  {
    u2 := (u * v) % n;
    v2 := (v * v - w - w) % n;
    w2 := (w * w) % n;
    Doubling(p, q, p * p - 4 * q, m);
    CongMul(u, U(p, q, m), v, V(p, q, m), n);
    CongMul(v, V(p, q, m), v, V(p, q, m), n);
    CongMul(w, Pow(q, m), w, Pow(q, m), n);
    CongSub(v * v, V(p, q, m) * V(p, q, m), w, Pow(q, m), n);
    CongSub(v * v - w, V(p, q, m) * V(p, q, m) - Pow(q, m), w, Pow(q, m), n);
    PowAdd(q, m, m);
    CongMod(u * v, n);
    CongMod(v * v - w - w, n);
    CongMod(w * w, n);
    CongTrans(u2, u * v, U(p, q, 2 * m), n);
    CongTrans(v2, v * v - w - w, V(p, q, 2 * m), n);
    CongTrans(w2, w * w, Pow(q, 2 * m), n);
  }

  /** a x + b y modulo n, halved. */
  method HalfCombination(a: int, x: int, b: int, y: int, n: int, ghost a': int, ghost x': int,
                         ghost b': int, ghost y': int, ghost z: int) returns (r: int)
    requires n % 2 == 1 && n > 2
    requires Cong(a, a', n) && Cong(x, x', n) && Cong(b, b', n) && Cong(y, y', n)
    requires 2 * z == a' * x' + b' * y'
    ensures 0 <= r < n && Cong(r, z, n)
  {
    var s := (a * x + b * y) % n;
    CongMul(a, a', x, x', n);
    CongMul(b, b', y, y', n);
    CongAdd(a * x, a' * x', b * y, b' * y', n);
    CongMod(a * x + b * y, n);
    CongTrans(s, a * x + b * y, 2 * z, n);
    HalfCorrect(s, z, n);
    r := Half(s, n);
  }

  method Next(u2: int, v2: int, w2: int, pr: int, qr: int, dr: int, n: int,
              ghost p: int, ghost q: int, ghost d: int, ghost m: nat) returns (u: int, v: int, w: int)
    requires n % 2 == 1 && n > 2 && d == p * p - 4 * q && Ladder(u2, v2, w2, p, q, m, n)
    requires Cong(pr, p, n) && Cong(qr, q, n) && Cong(dr, d, n)
    ensures Ladder(u, v, w, p, q, m + 1, n)
  {
    Increment(p, q, d, m);
    CongRefl(1, n);
    u := HalfCombination(1, v2, pr, u2, n, 1, V(p, q, m), p, U(p, q, m), U(p, q, m + 1));
    v := HalfCombination(v2, pr, dr, u2, n, V(p, q, m), p, d, U(p, q, m), V(p, q, m + 1));
    w := (w2 * qr) % n;
    CongMul(w2, Pow(q, m), qr, q, n);
    CongMod(w2 * qr, n);
    assert Pow(q, m + 1) == q * Pow(q, m);
    CongTrans(w, w2 * qr, Pow(q, m + 1), n);
  }

  /** `lucas_uv`: for every odd modulus above two and D = P^2 - 4Q. */
  method LucasUV(p: int, q: int, n: nat, modn: int, d: int) returns (u: int, v: int)
    requires modn % 2 == 1 && modn > 2 && d == p * p - 4 * q
    ensures u == U(p, q, n) % modn && v == V(p, q, n) % modn
  {
    if n == 0 {
      RemainderOfSmall(0, modn);
      RemainderOfSmall(2, modn);
      return 0, 2;
    }
    var pr, qr, dr := p % modn, q % modn, d % modn;
    CongMod(p, modn);
    CongMod(q, modn);
    CongMod(d, modn);
    var w := qr;
    u, v := 1, pr;
    CongRefl(1, modn);
    assert Pow(q, 1) == q * Pow(q, 0) == q;
    TopBit(n);
    for i := BitLength(n) - 1 downto 0
      invariant Ladder(u, v, w, p, q, Shift(n, i), modn)
    {
      ghost var m := Shift(n, i + 1);
      ShiftStep(n, i);
      var u2, v2, w2 := Double(u, v, w, modn, p, q, m);
      if Bit(n, i) {
        u, v, w := Next(u2, v2, w2, pr, qr, dr, modn, p, q, d, 2 * m);
      } else {
        u, v, w := u2, v2, w2;
      }
    }
    CongIsRemainder(u, U(p, q, n), modn);
    CongIsRemainder(v, V(p, q, n), modn);
  }
}
