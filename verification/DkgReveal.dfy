/** The reveal phase: the combined share and the combined ciphertext. */
module DkgReveal {
  import opened Congruence
  import opened Polynomials
  import opened Lagrange
  import opened AbelianGroup
  import opened ClScheme
  import opened DkgCl
  import opened Outcomes

  /** share = sum of the dealers' shares, pkShare = h^share. */
  datatype RevealOutput<!G> = RevealOutput(share: int, pkShare: G, combined: Ciphertext<G>)

  function FirstParts<G>(cts: seq<Ciphertext<G>>): (s: seq<G>)
    ensures |s| == |cts| && forall i :: 0 <= i < |s| ==> s[i] == cts[i].c1
  {
    seq(|cts|, i requires 0 <= i < |cts| => cts[i].c1)
  }

  function SecondParts<G>(cts: seq<Ciphertext<G>>): (s: seq<G>)
    ensures |s| == |cts| && forall i :: 0 <= i < |s| ==> s[i] == cts[i].c2
  {
    seq(|cts|, i requires 0 <= i < |cts| => cts[i].c2)
  }

  /** 1, q, q^2, ... */
  function PowersOf(q: int, n: nat): (s: seq<int>)
    ensures |s| == n && forall l :: 0 <= l < n ==> s[l] == Pow(q, l)
  {
    seq(n, l requires 0 <= l < n => Pow(q, l))
  }

  /** All chunk ciphertexts, dealer by dealer. */
  function Flattened<G>(received: seq<seq<Ciphertext<G>>>): seq<Ciphertext<G>> {
    if received == [] then [] else Flattened(received[..|received| - 1]) + received[|received| - 1]
  }

  /** The weight of each chunk: the powers of q restart with every dealer. */
  function Exponents<G>(received: seq<seq<Ciphertext<G>>>, q: int): (es: seq<int>)
    ensures |es| == |Flattened(received)|
  {
    if received == [] then []
    else Exponents(received[..|received| - 1], q) + PowersOf(q, |received[|received| - 1]|)
  }

  function Combined<G>(cl: Setup<G>, received: seq<seq<Ciphertext<G>>>): Ciphertext<G> {
    Ciphertext(MultiPower(cl.grp, FirstParts(Flattened(received)), Exponents(received, cl.q)),
               MultiPower(cl.grp, SecondParts(Flattened(received)), Exponents(received, cl.q)))
  }

  lemma OneMoreDealer<G>(received: seq<seq<Ciphertext<G>>>, j: nat, q: int)
    requires j < |received|
    ensures FirstParts(Flattened(received[..j + 1])) == FirstParts(Flattened(received[..j])) + FirstParts(received[j])
    ensures SecondParts(Flattened(received[..j + 1])) == SecondParts(Flattened(received[..j])) + SecondParts(received[j])
    ensures Exponents(received[..j + 1], q) == Exponents(received[..j], q) + PowersOf(q, |received[j]|)
  {
    assert received[..j + 1][..j] == received[..j];
    assert Flattened(received[..j + 1]) == Flattened(received[..j]) + received[j];
  }

  lemma OneMoreShare(all: seq<int>, j: nat)
    requires j < |all|
    ensures Sum(all[..j + 1]) == Sum(all[..j]) + all[j]
  {
    SumSnoc(all[..j + 1]);
    assert all[..j + 1][..j] == all[..j];
  }

  lemma OneMoreChunk(ms: seq<int>, l: nat, q: int)
    requires l < |ms|
    ensures Eval(ms[..l + 1], q) == Eval(ms[..l], q) + Pow(q, l) * ms[l]
  {
    EvalSnoc(ms[..l], ms[l], q);
    PrefixStep(ms, l);
  }

  lemma PrefixStep<T>(xs: seq<T>, l: nat)
    requires l < |xs|
    ensures xs[..l + 1] == xs[..l] + [xs[l]]
  {
  }

  /** One dealer: decrypts and recombines its chunks, and lists them with their weights. */
  method RevealDealer<G>(cl: Setup<G>, sk: int, cts: seq<Ciphertext<G>>, c1s: seq<G>, c2s: seq<G>, exps: seq<int>)
    returns (share: int, c1s': seq<G>, c2s': seq<G>, exps': seq<int>)
    ensures share == DealerShare(cl, sk, cts)
    ensures c1s' == c1s + FirstParts(cts) && c2s' == c2s + SecondParts(cts)
    ensures exps' == exps + PowersOf(cl.q, |cts|)
  {
    ghost var ms := DecryptChunks(cl, sk, cts);
    var power := 1;
    share, c1s', c2s', exps' := 0, c1s, c2s, exps;
    for l := 0 to |cts|
      invariant share == Eval(ms[..l], cl.q) && power == Pow(cl.q, l)
      invariant c1s' == c1s + FirstParts(cts)[..l] && c2s' == c2s + SecondParts(cts)[..l]
      invariant exps' == exps + PowersOf(cl.q, |cts|)[..l]
    {
      var m := Decrypt(cl, sk, cts[l]);
      OneMoreChunk(ms, l, cl.q);
      PrefixStep(FirstParts(cts), l);
      PrefixStep(SecondParts(cts), l);
      PrefixStep(PowersOf(cl.q, |cts|), l);
      share := share + power * m;
      c1s' := c1s' + [cts[l].c1];
      c2s' := c2s' + [cts[l].c2];
      exps' := exps' + [power];
      power := power * cl.q;
    }
    assert ms[..|cts|] == ms;
  }

  /** `dkg_cl_reveal`, the proof aside. */
  method Reveal<G>(cl: Setup<G>, sk: int, skBound: int, received: seq<seq<Ciphertext<G>>>, n: nat)
    returns (r: Option<RevealOutput<G>>)
    requires |received| == n
    ensures r.Some? <==> 0 <= sk < skBound
    ensures r.Some? ==> r.value.share == Sum(DealerShares(cl, sk, received))
    ensures r.Some? ==> r.value.pkShare == Power(cl.grp, cl.h, r.value.share)
    ensures r.Some? ==> r.value.combined == Combined(cl, received)
  {
    if sk < 0 || sk >= skBound {
      return None;
    }
    var combined := 0;
    var c1s: seq<G>, c2s: seq<G>, exps: seq<int> := [], [], [];
    ghost var all := DealerShares(cl, sk, received);
    for j := 0 to |received|
      invariant combined == Sum(all[..j])
      invariant c1s == FirstParts(Flattened(received[..j])) && c2s == SecondParts(Flattened(received[..j]))
      invariant exps == Exponents(received[..j], cl.q)
    {
      var share;
      share, c1s, c2s, exps := RevealDealer(cl, sk, received[j], c1s, c2s, exps);
      OneMoreShare(all, j);
      OneMoreDealer(received, j, cl.q);
      combined := combined + share;
    }
    assert all[..|received|] == all && received[..|received|] == received;
    var c1 := MultiPower(cl.grp, c1s, exps);
    var c2 := MultiPower(cl.grp, c2s, exps);
    r := Some(RevealOutput(combined, Power(cl.grp, cl.h, combined), Ciphertext(c1, c2)));
  }

  // ---- what the combined ciphertext is ---------------------------------------------------------

  lemma {:induction false} DotAppend(a: seq<int>, x: seq<int>, b: seq<int>, y: seq<int>)
    requires |a| == |x| && |b| == |y|
    ensures Dot(a + b, x + y) == Dot(a, x) + Dot(b, y)
  {
    if a == [] {
      assert a + b == b && x + y == y;
    } else {
      DotAppend(a[1..], x[1..], b, y);
      assert (a + b)[1..] == a[1..] + b && (x + y)[1..] == x[1..] + y;
    }
  }

  lemma {:induction false} EvalIsDot(ms: seq<int>, q: int)
    ensures Eval(ms, q) == Dot(PowersOf(q, |ms|), ms)
  {
    if ms != [] {
      var n := |ms| - 1;
      EvalIsDot(ms[..n], q);
      EvalSnoc(ms[..n], ms[n], q);
      DotSnoc(PowersOf(q, n + 1), ms);
      assert ms == ms[..n] + [ms[n]];
      assert PowersOf(q, n + 1)[..n] == PowersOf(q, n);
    }
  }

  lemma DecryptAppend<G>(cl: Setup<G>, sk: int, a: seq<Ciphertext<G>>, b: seq<Ciphertext<G>>)
    ensures DecryptChunks(cl, sk, a + b) == DecryptChunks(cl, sk, a) + DecryptChunks(cl, sk, b)
  {
  }

  lemma SharesSnoc<G>(cl: Setup<G>, sk: int, received: seq<seq<Ciphertext<G>>>)
    requires received != []
    ensures var n := |received| - 1;
            Sum(DealerShares(cl, sk, received))
            == Sum(DealerShares(cl, sk, received[..n])) + DealerShare(cl, sk, received[n])
  {
    var n := |received| - 1;
    SumSnoc(DealerShares(cl, sk, received));
    assert DealerShares(cl, sk, received)[..n] == DealerShares(cl, sk, received[..n]);
  }

  /** The combined share is the weighted sum of all decrypted chunks. */
  lemma {:induction false} ShareIsDot<G>(cl: Setup<G>, sk: int, received: seq<seq<Ciphertext<G>>>)
    ensures Sum(DealerShares(cl, sk, received))
            == Dot(Exponents(received, cl.q), DecryptChunks(cl, sk, Flattened(received)))
    decreases |received|
  {
    if received == [] {
      assert DealerShares(cl, sk, received) == [];
    } else {
      var n := |received| - 1;
      var before, last := Flattened(received[..n]), received[n];
      ShareIsDot(cl, sk, received[..n]);
      SharesSnoc(cl, sk, received);
      EvalIsDot(DecryptChunks(cl, sk, last), cl.q);
      DecryptAppend(cl, sk, before, last);
      DotAppend(Exponents(received[..n], cl.q), DecryptChunks(cl, sk, before),
                PowersOf(cl.q, |last|), DecryptChunks(cl, sk, last));
    }
  }

  /** Every chunk ciphertext is an encryption under pk, of any message with any randomness. */
  predicate Encryptions<G(==)>(cl: Setup<G>, pk: G, cts: seq<Ciphertext<G>>, ms: seq<int>, rs: seq<int>) {
    |cts| == |ms| == |rs| && forall i :: 0 <= i < |cts| ==> cts[i] == Encrypt(cl, pk, ms[i], rs[i])
  }

  lemma {:induction false} DotScaled(es: seq<int>, xs: seq<int>, c: int)
    requires |es| == |xs|
    ensures Dot(es, seq(|xs|, i requires 0 <= i < |xs| => c * xs[i])) == c * Dot(es, xs)
  {
    if es != [] {
      var ys := seq(|xs|, i requires 0 <= i < |xs| => c * xs[i]);
      DotScaled(es[1..], xs[1..], c);
      assert ys[1..] == seq(|xs[1..]|, i requires 0 <= i < |xs[1..]| => c * xs[1..][i]);
      Regroup(es[0], c, xs[0]);
      Regroup(c, es[0], xs[0]);
      Distribute(c, es[0] * xs[0], Dot(es[1..], xs[1..]));
    }
  }

  /** The combined ciphertext as group elements. */
  lemma CombinedElems<G(!new)>(cl: Setup<G>, b: Basis<G>, sk: int, received: seq<seq<Ciphertext<G>>>,
                              ms: seq<int>, rs: seq<int>)
    requires ValidSetup(cl) && b.h == cl.h && b.f == cl.f
    requires Encryptions(cl, Power(cl.grp, cl.h, sk), Flattened(received), ms, rs)
    ensures var es := Exponents(received, cl.q);
            Combined(cl, received)
            == Ciphertext(Elem(cl.grp, b, Dot(es, rs), 0, 0), Elem(cl.grp, b, sk * Dot(es, rs), 0, Dot(es, ms)))
  {
    var es, cts, zs := Exponents(received, cl.q), Flattened(received), Zeros(|rs|);
    var us := seq(|rs|, i requires 0 <= i < |rs| => sk * rs[i]);
    forall i | 0 <= i < |cts|
      ensures cts[i].c1 == Elem(cl.grp, b, rs[i], zs[i], zs[i])
      ensures cts[i].c2 == Elem(cl.grp, b, us[i], zs[i], ms[i])
    {
      EncryptElems(cl, b, Power(cl.grp, cl.h, sk), sk, ms[i], rs[i]);
    }
    MultiPowerElems(cl.grp, b, FirstParts(cts), es, rs, zs, zs);
    MultiPowerElems(cl.grp, b, SecondParts(cts), es, us, zs, ms);
    DotWithZeros(es, zs);
    DotScaled(es, rs, sk);
  }

  lemma {:induction false} DotCong(es: seq<int>, xs: seq<int>, ys: seq<int>, m: int)
    requires |es| == |xs| == |ys| && forall i :: 0 <= i < |xs| ==> Cong(xs[i], ys[i], m)
    ensures Cong(Dot(es, xs), Dot(es, ys), m)
  {
    if es == [] {
      CongRefl(0, m);
    } else {
      DotCong(es[1..], xs[1..], ys[1..], m);
      CongScale(es[0], xs[0], ys[0], m);
      CongAdd(es[0] * xs[0], es[0] * ys[0], Dot(es[1..], xs[1..]), Dot(es[1..], ys[1..]), m);
    }
  }

  lemma ChunksDecrypt<G(!new)>(cl: Setup<G>, sk: int, cts: seq<Ciphertext<G>>, ms: seq<int>, rs: seq<int>)
    requires ValidSetup(cl) && Encryptions(cl, Power(cl.grp, cl.h, sk), cts, ms, rs)
    ensures forall i :: 0 <= i < |cts| ==> DecryptChunks(cl, sk, cts)[i] == ms[i] % cl.Order()
  {
    forall i | 0 <= i < |cts|
      ensures DecryptChunks(cl, sk, cts)[i] == ms[i] % cl.Order()
    {
      DecryptEncrypt(cl, sk, ms[i], rs[i]);
    }
  }

  /** The combined ciphertext decrypts to the combined share modulo the order of f, whatever the
      dealers encrypted. */
  lemma CombinedDecrypts<G(!new)>(cl: Setup<G>, sk: int, received: seq<seq<Ciphertext<G>>>, ms: seq<int>, rs: seq<int>)
    requires ValidSetup(cl) && Encryptions(cl, Power(cl.grp, cl.h, sk), Flattened(received), ms, rs)
    ensures Decrypt(cl, sk, Combined(cl, received)) == Sum(DealerShares(cl, sk, received)) % cl.Order()
  {
    var es, decs, m := Exponents(received, cl.q), DecryptChunks(cl, sk, Flattened(received)), cl.Order();
    var b := Basis(cl.h, cl.grp.one, cl.f);
    CombinedElems(cl, b, sk, received, ms, rs);
    DecryptElems(cl, b, sk, Dot(es, rs), Dot(es, ms));
    ShareIsDot(cl, sk, received);
    ChunksDecrypt(cl, sk, Flattened(received), ms, rs);
    forall i | 0 <= i < |decs|
      ensures Cong(decs[i], ms[i], m)
    {
      CongMod(ms[i], m);
    }
    DotCong(es, decs, ms, m);
    CongIsModEq(Dot(es, decs), Dot(es, ms), m);
  }

  /** With chunks in the plaintext range the opening is exactly f^share, the statement that the
      decryption proof attests. */
  lemma CombinedOpens<G(!new)>(cl: Setup<G>, sk: int, received: seq<seq<Ciphertext<G>>>, ms: seq<int>, rs: seq<int>)
    requires ValidSetup(cl) && Encryptions(cl, Power(cl.grp, cl.h, sk), Flattened(received), ms, rs)
    requires InRange(ms, cl.Order())
    ensures var c := Combined(cl, received);
            cl.grp.mul(c.c2, cl.grp.inv(Power(cl.grp, c.c1, sk)))
            == Power(cl.grp, cl.f, Sum(DealerShares(cl, sk, received)))
  {
    var es, b := Exponents(received, cl.q), Basis(cl.h, cl.grp.one, cl.f);
    CombinedElems(cl, b, sk, received, ms, rs);
    ChunksDecrypt(cl, sk, Flattened(received), ms, rs);
    forall i | 0 <= i < |ms|
      ensures ms[i] % cl.Order() == ms[i]
    {
      Primes.RemainderOfSmall(ms[i], cl.Order());
    }
    assert DecryptChunks(cl, sk, Flattened(received)) == ms;
    ShareIsDot(cl, sk, received);
    OpenElems(cl, b, sk, Dot(es, rs), Dot(es, ms));
  }

  lemma OpenElems<G(!new)>(cl: Setup<G>, b: Basis<G>, sk: int, r: int, m: int)
    requires ValidSetup(cl) && b.h == cl.h && b.f == cl.f
    ensures cl.grp.mul(Elem(cl.grp, b, sk * r, 0, m), cl.grp.inv(Power(cl.grp, Elem(cl.grp, b, r, 0, 0), sk)))
            == Power(cl.grp, cl.f, m)
  {
    var g := cl.grp;
    ElemPower(g, b, r, 0, 0, sk);
    assert r * sk == sk * r;
    ElemInverse(g, b, sk * r, 0, 0);
    ElemMul(g, b, sk * r, 0, m, -(sk * r), 0, 0);
    ElemUnits(g, b, m);
  }
}
