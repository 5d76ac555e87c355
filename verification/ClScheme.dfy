/** CL-HSM encryption over the abstract class group. */
module ClScheme {
  import opened Congruence
  import opened Primes
  import opened AbelianGroup

  /** A CL-HSM instance: plaintexts modulo q^k, generators h and f, and the solver for F. */
  datatype Setup<!G> = Setup(grp: Group<G>, h: G, f: G, q: int, k: nat, dlog: G -> int)
  {
    function Order(): int {
      Pow(q, k)
    }
  }

  predicate Solves<G>(cl: Setup<G>, x: int)
    requires cl.Order() > 0
  {
    cl.dlog(Power(cl.grp, cl.f, x)) == x % cl.Order()
  }

  /** The group laws, q prime, and `dlog_in_F(f^x) = x mod q^k`. */
  ghost predicate ValidSetup<G(!new)>(cl: Setup<G>) {
    && IsAbelian(cl.grp)
    && IsPrime(cl.q) && cl.k >= 1 && cl.Order() > 0
    && forall x: int :: Solves(cl, x)
  }

  lemma Dlog<G(!new)>(cl: Setup<G>, x: int)
    requires ValidSetup(cl)
    ensures cl.dlog(Power(cl.grp, cl.f, x)) == x % cl.Order()
  {
    assert Solves(cl, x);
  }

  datatype Ciphertext<!G> = Ciphertext(c1: G, c2: G)

  /** `encrypt_with_randomness`: (h^r, f^m * pk^r). */
  function Encrypt<G>(cl: Setup<G>, pk: G, m: int, r: int): Ciphertext<G> {
    Ciphertext(Power(cl.grp, cl.h, r),
               cl.grp.mul(Power(cl.grp, cl.f, m), Power(cl.grp, pk, r)))
  }

  /** `decrypt`: dlog_in_F(c2 * (c1^sk)^-1). */
  function Decrypt<G>(cl: Setup<G>, sk: int, ct: Ciphertext<G>): int {
    cl.dlog(cl.grp.mul(ct.c2, cl.grp.inv(Power(cl.grp, ct.c1, sk))))
  }

  /** Homomorphic combination `addscal`: c_a * c_b^s, re-randomised with r. */
  function AddScal<G>(cl: Setup<G>, pk: G, ca: Ciphertext<G>, cb: Ciphertext<G>, s: int, r: int)
    : Ciphertext<G>
  {
    var g := cl.grp;
    Ciphertext(g.mul(g.mul(ca.c1, Power(g, cb.c1, s)), Power(g, cl.h, r)),
               g.mul(g.mul(ca.c2, Power(g, cb.c2, s)), Power(g, pk, r)))
  }

  lemma EncryptElems<G(!new)>(cl: Setup<G>, b: Basis<G>, pk: G, sk: int, m: int, r: int)
    requires ValidSetup(cl) && b.h == cl.h && b.f == cl.f && pk == Power(cl.grp, cl.h, sk)
    ensures Encrypt(cl, pk, m, r) == Ciphertext(Elem(cl.grp, b, r, 0, 0), Elem(cl.grp, b, sk * r, 0, m))
  {
    var g := cl.grp;
    ElemUnits(g, b, r);
    ElemUnits(g, b, m);
    PowerPower(g, cl.h, sk, r);
    ElemUnits(g, b, sk * r);
    ElemMul(g, b, 0, 0, m, sk * r, 0, 0);
  }

  lemma DecryptElems<G(!new)>(cl: Setup<G>, b: Basis<G>, sk: int, r: int, m: int)
    requires ValidSetup(cl) && b.h == cl.h && b.f == cl.f
    ensures Decrypt(cl, sk, Ciphertext(Elem(cl.grp, b, r, 0, 0), Elem(cl.grp, b, sk * r, 0, m)))
            == m % cl.Order()
  {
    ScalarCommutes(r, sk);
    ElemPower(cl.grp, b, r, 0, 0, sk);
    Unmask(cl.grp, b, sk * r, m);
    Dlog(cl, m);
  }

  lemma Unmask<G(!new)>(g: Group<G>, b: Basis<G>, t: int, m: int)
    requires IsAbelian(g)
    ensures g.mul(Elem(g, b, t, 0, m), g.inv(Elem(g, b, t, 0, 0))) == Power(g, b.f, m)
  {
    ElemInverse(g, b, t, 0, 0);
    ElemMul(g, b, t, 0, m, -t, 0, 0);
    ElemUnits(g, b, m);
  }

  /** The mask made with the public key is the one the secret key removes. */
  lemma MaskOf<G(!new)>(cl: Setup<G>, sk: int, m: int, r: int)
    requires ValidSetup(cl)
    ensures cl.grp.mul(Power(cl.grp, cl.f, m), Power(cl.grp, Power(cl.grp, cl.h, sk), r))
            == cl.grp.mul(Power(cl.grp, Power(cl.grp, cl.h, r), sk), Power(cl.grp, cl.f, m))
  {
    PowerPower(cl.grp, cl.h, sk, r);
    PowerPower(cl.grp, cl.h, r, sk);
    ScalarCommutes(sk, r);
    Comm(cl.grp, Power(cl.grp, cl.f, m), Power(cl.grp, cl.h, sk * r));
  }

  /** Decryption inverts encryption, for every plaintext and every randomness. */
  lemma DecryptEncrypt<G(!new)>(cl: Setup<G>, sk: int, m: int, r: int)
    requires ValidSetup(cl)
    ensures Decrypt(cl, sk, Encrypt(cl, Power(cl.grp, cl.h, sk), m, r)) == m % cl.Order()
    ensures var ct := Encrypt(cl, Power(cl.grp, cl.h, sk), m, r);
            && ct.c1 == Power(cl.grp, cl.h, r)
            && ct.c2 == cl.grp.mul(Power(cl.grp, ct.c1, sk), Power(cl.grp, cl.f, m))
  {
    MaskOf(cl, sk, m, r);
    var b := Basis(cl.h, cl.grp.one, cl.f);
    EncryptElems(cl, b, Power(cl.grp, cl.h, sk), sk, m, r);
    DecryptElems(cl, b, sk, r, m);
  }

  /** One component of `addscal`, with the resulting exponents named. */
  lemma ElemCombine<G(!new)>(g: Group<G>, b: Basis<G>, x1: int, z1: int, x2: int, z2: int, s: int, x3: int,
                             x: int, z: int)
    requires IsAbelian(g) && x == x1 + x2 * s + x3 && z == z1 + z2 * s
    ensures g.mul(g.mul(Elem(g, b, x1, 0, z1), Power(g, Elem(g, b, x2, 0, z2), s)), Elem(g, b, x3, 0, 0))
            == Elem(g, b, x, 0, z)
  {
    ElemPower(g, b, x2, 0, z2, s);
    ElemSum(g, b, x1, z1, x2 * s, z2 * s, x3);
  }

  lemma ElemSum<G(!new)>(g: Group<G>, b: Basis<G>, x1: int, z1: int, x2: int, z2: int, x3: int)
    requires IsAbelian(g)
    ensures g.mul(g.mul(Elem(g, b, x1, 0, z1), Elem(g, b, x2, 0, z2)), Elem(g, b, x3, 0, 0))
            == Elem(g, b, x1 + x2 + x3, 0, z1 + z2)
  {
    ElemMul(g, b, x1, 0, z1, x2, 0, z2);
    ElemMul(g, b, x1 + x2, 0, z1 + z2, x3, 0, 0);
  }

  /** `addscal` on elements, with the resulting exponents named. */
  lemma AddScalElems<G(!new)>(cl: Setup<G>, b: Basis<G>, pk: G, ra: int, ua: int, ma: int,
                              rb: int, ub: int, mb: int, s: int, r: int, w: int, r': int, u': int, m': int)
    requires ValidSetup(cl) && b.h == cl.h && Power(cl.grp, pk, r) == Elem(cl.grp, b, w, 0, 0)
    requires r' == ra + rb * s + r && u' == ua + ub * s + w && m' == ma + mb * s
    ensures AddScal(cl, pk, Ciphertext(Elem(cl.grp, b, ra, 0, 0), Elem(cl.grp, b, ua, 0, ma)),
                    Ciphertext(Elem(cl.grp, b, rb, 0, 0), Elem(cl.grp, b, ub, 0, mb)), s, r)
            == Ciphertext(Elem(cl.grp, b, r', 0, 0), Elem(cl.grp, b, u', 0, m'))
  {
    ElemUnits(cl.grp, b, r);
    ElemCombine(cl.grp, b, ra, 0, rb, 0, s, r, r', 0);
    ElemCombine(cl.grp, b, ua, ma, ub, mb, s, w, u', m');
  }

  lemma SharedMask<G(!new)>(cl: Setup<G>, b: Basis<G>, sk: int, r: int)
    requires IsAbelian(cl.grp) && b.h == cl.h
    ensures Power(cl.grp, Power(cl.grp, cl.h, sk), r) == Elem(cl.grp, b, sk * r, 0, 0)
  {
    PowerPower(cl.grp, cl.h, sk, r);
    ElemUnits(cl.grp, b, sk * r);
  }

  /** `addscal` of encryptions of m_a and m_b is an encryption of m_a + s m_b. */
  lemma AddScalEncrypts<G(!new)>(cl: Setup<G>, pk: G, sk: int, ma: int, ra: int, mb: int, rb: int, s: int, r: int)
    requires ValidSetup(cl) && pk == Power(cl.grp, cl.h, sk)
    ensures AddScal(cl, pk, Encrypt(cl, pk, ma, ra), Encrypt(cl, pk, mb, rb), s, r)
            == Encrypt(cl, pk, ma + s * mb, ra + rb * s + r)
  {
    var b := Basis(cl.h, cl.grp.one, cl.f);
    var r', m' := ra + rb * s + r, ma + s * mb;
    EncryptElems(cl, b, pk, sk, ma, ra);
    EncryptElems(cl, b, pk, sk, mb, rb);
    EncryptElems(cl, b, pk, sk, m', r');
    SharedMask(cl, b, sk, r);
    ScalarCommutes(mb, s);
    SecretKeyFactors(sk, ra, rb, s, r);
    AddScalElems(cl, b, pk, ra, sk * ra, ma, rb, sk * rb, mb, s, r, sk * r, r', sk * r', m');
  }

  lemma DecryptOf<G(!new)>(cl: Setup<G>, sk: int, ct: Ciphertext<G>, m: int, r: int)
    requires ValidSetup(cl) && ct == Encrypt(cl, Power(cl.grp, cl.h, sk), m, r)
    ensures Decrypt(cl, sk, ct) == m % cl.Order()
  {
    DecryptEncrypt(cl, sk, m, r);
  }

  /** The homomorphism: `addscal` of encryptions of m_a and m_b decrypts to m_a + s * m_b. */
  lemma DecryptAddScal<G(!new)>(cl: Setup<G>, sk: int, ma: int, ra: int, mb: int, rb: int, s: int, r: int)
    requires ValidSetup(cl)
    ensures var pk := Power(cl.grp, cl.h, sk);
            Decrypt(cl, sk, AddScal(cl, pk, Encrypt(cl, pk, ma, ra), Encrypt(cl, pk, mb, rb), s, r))
            == (ma + s * mb) % cl.Order()
  {
    var pk := Power(cl.grp, cl.h, sk);
    AddScalEncrypts(cl, pk, sk, ma, ra, mb, rb, s, r);
    var ct := AddScal(cl, pk, Encrypt(cl, pk, ma, ra), Encrypt(cl, pk, mb, rb), s, r);
    DecryptOf(cl, sk, ct, ma + s * mb, ra + rb * s + r);
  }

  lemma ScalarCommutes(m: int, s: int)
    ensures m * s == s * m
  {
  }

  lemma SecretKeyFactors(sk: int, ra: int, rb: int, s: int, r: int)
    ensures sk * ra + sk * rb * s + sk * r == sk * (ra + rb * s + r)
  {
  }

  // ---- the compact variant -------------------------------------------------------------------

  /** In the compact variant c1 and pk live in the class group of the maximal order, and psi
      lifts masks into the group of f. */
  datatype Compact<!G, !K> = Compact(cl: Setup<G>, maximal: Group<K>, gamma: K, psi: K -> G)

  predicate Multiplies<G(==), K>(c: Compact<G, K>, x: K, y: K) {
    c.psi(c.maximal.mul(x, y)) == c.cl.grp.mul(c.psi(x), c.psi(y))
  }

  ghost predicate ValidCompact<G(!new), K(!new)>(c: Compact<G, K>) {
    && ValidSetup(c.cl)
    && IsAbelian(c.maximal)
    && forall x: K, y: K :: Multiplies(c, x, y)
  }

  datatype CompactCiphertext<!G, !K> = CompactCiphertext(c1: K, c2: G)

  function CompactEncrypt<G, K>(c: Compact<G, K>, pk: K, m: int, r: int): CompactCiphertext<G, K> {
    CompactCiphertext(Power(c.maximal, c.gamma, r),
                      c.cl.grp.mul(Power(c.cl.grp, c.cl.f, m), c.psi(Power(c.maximal, pk, r))))
  }

  function CompactDecrypt<G, K>(c: Compact<G, K>, sk: int, ct: CompactCiphertext<G, K>): int {
    c.cl.dlog(c.cl.grp.mul(ct.c2, c.cl.grp.inv(c.psi(Power(c.maximal, ct.c1, sk)))))
  }

  function CompactAddScal<G, K>(c: Compact<G, K>, pk: K, ca: CompactCiphertext<G, K>, cb: CompactCiphertext<G, K>,
                                s: int, r: int): CompactCiphertext<G, K>
  {
    var g1, g := c.maximal, c.cl.grp;
    CompactCiphertext(g1.mul(g1.mul(ca.c1, Power(g1, cb.c1, s)), Power(g1, c.gamma, r)),
                      g.mul(g.mul(ca.c2, Power(g, cb.c2, s)), c.psi(Power(g1, pk, r))))
  }

  lemma PsiUnits<G(!new), K(!new)>(c: Compact<G, K>, x: K)
    requires ValidCompact(c)
    ensures c.psi(c.maximal.one) == c.cl.grp.one && c.psi(c.maximal.inv(x)) == c.cl.grp.inv(c.psi(x))
  {
    var g, e := c.cl.grp, c.psi(c.maximal.one);
    Identity(c.maximal, c.maximal.one);
    assert Multiplies(c, c.maximal.one, c.maximal.one);
    Assoc(g, g.inv(e), e, e);
    Identity(g, e);
    Identity(c.maximal, x);
    assert Multiplies(c, x, c.maximal.inv(x));
    InverseUnique(g, c.psi(x), c.psi(c.maximal.inv(x)));
  }

  lemma {:induction false} PsiPower<G(!new), K(!new)>(c: Compact<G, K>, x: K, n: int)
    requires ValidCompact(c)
    ensures c.psi(Power(c.maximal, x, n)) == Power(c.cl.grp, c.psi(x), n)
    decreases if n < 0 then -n else n
  {
    PsiUnits(c, x);
    if n > 0 {
      PsiPower(c, x, n - 1);
      assert Multiplies(c, x, Power(c.maximal, x, n - 1));
    } else if n < 0 {
      PsiPower(c, x, n + 1);
      assert Multiplies(c, c.maximal.inv(x), Power(c.maximal, x, n + 1));
    }
  }

  /** psi takes the compact scheme to the plain one whose generator is psi(gamma). */
  function Lifted<G, K>(c: Compact<G, K>): Setup<G> {
    c.cl.(h := c.psi(c.gamma))
  }

  function LiftedCiphertext<G, K>(c: Compact<G, K>, ct: CompactCiphertext<G, K>): Ciphertext<G> {
    Ciphertext(c.psi(ct.c1), ct.c2)
  }

  lemma LiftEncrypt<G(!new), K(!new)>(c: Compact<G, K>, pk: K, m: int, r: int)
    requires ValidCompact(c)
    ensures LiftedCiphertext(c, CompactEncrypt(c, pk, m, r)) == Encrypt(Lifted(c), c.psi(pk), m, r)
  {
    PsiPower(c, c.gamma, r);
    PsiPower(c, pk, r);
  }

  lemma LiftDecrypt<G(!new), K(!new)>(c: Compact<G, K>, sk: int, ct: CompactCiphertext<G, K>)
    requires ValidCompact(c)
    ensures CompactDecrypt(c, sk, ct) == Decrypt(Lifted(c), sk, LiftedCiphertext(c, ct))
  {
    PsiPower(c, ct.c1, sk);
  }

  lemma LiftAddScal<G(!new), K(!new)>(c: Compact<G, K>, pk: K, ca: CompactCiphertext<G, K>, cb: CompactCiphertext<G, K>,
                                      s: int, r: int)
    requires ValidCompact(c)
    ensures LiftedCiphertext(c, CompactAddScal(c, pk, ca, cb, s, r))
            == AddScal(Lifted(c), c.psi(pk), LiftedCiphertext(c, ca), LiftedCiphertext(c, cb), s, r)
  {
    var g1 := c.maximal;
    PsiPower(c, cb.c1, s);
    PsiPower(c, c.gamma, r);
    PsiPower(c, pk, r);
    assert Multiplies(c, ca.c1, Power(g1, cb.c1, s));
    assert Multiplies(c, g1.mul(ca.c1, Power(g1, cb.c1, s)), Power(g1, c.gamma, r));
  }

  lemma LiftedKey<G(!new), K(!new)>(c: Compact<G, K>, sk: int)
    requires ValidCompact(c)
    ensures ValidSetup(Lifted(c)) && c.psi(Power(c.maximal, c.gamma, sk)) == Power(c.cl.grp, Lifted(c).h, sk)
  {
    PsiPower(c, c.gamma, sk);
    forall x: int
      ensures Solves(Lifted(c), x)
    {
      assert Solves(c.cl, x);
    }
  }

  /** The compact variant decrypts what it encrypts. */
  lemma CompactDecryptEncrypt<G(!new), K(!new)>(c: Compact<G, K>, sk: int, m: int, r: int)
    requires ValidCompact(c)
    ensures CompactDecrypt(c, sk, CompactEncrypt(c, Power(c.maximal, c.gamma, sk), m, r)) == m % c.cl.Order()
    ensures CompactEncrypt(c, Power(c.maximal, c.gamma, sk), m, r).c1 == Power(c.maximal, c.gamma, r)
  {
    var pk := Power(c.maximal, c.gamma, sk);
    LiftedKey(c, sk);
    LiftEncrypt(c, pk, m, r);
    LiftDecrypt(c, sk, CompactEncrypt(c, pk, m, r));
    DecryptEncrypt(Lifted(c), sk, m, r);
  }

  /** The compact variant has the same homomorphism. */
  lemma CompactDecryptAddScal<G(!new), K(!new)>(c: Compact<G, K>, sk: int, ma: int, ra: int, mb: int, rb: int,
                                                s: int, r: int)
    requires ValidCompact(c)
    ensures var pk := Power(c.maximal, c.gamma, sk);
            var ca, cb := CompactEncrypt(c, pk, ma, ra), CompactEncrypt(c, pk, mb, rb);
            CompactDecrypt(c, sk, CompactAddScal(c, pk, ca, cb, s, r)) == (ma + s * mb) % c.cl.Order()
  {
    var pk := Power(c.maximal, c.gamma, sk);
    var ca, cb := CompactEncrypt(c, pk, ma, ra), CompactEncrypt(c, pk, mb, rb);
    LiftedKey(c, sk);
    LiftEncrypt(c, pk, ma, ra);
    LiftEncrypt(c, pk, mb, rb);
    LiftAddScal(c, pk, ca, cb, s, r);
    LiftDecrypt(c, sk, CompactAddScal(c, pk, ca, cb, s, r));
    DecryptAddScal(Lifted(c), sk, ma, ra, mb, rb, s, r);
  }
}
