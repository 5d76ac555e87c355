/** Simultaneous exponentiation by interleaved 4-bit windows. */
module MultiExp {
  import opened Congruence
  import opened Bits

  /** Window width in bits, and the size of one window table. */
  const W: nat := 4
  const TABLE: nat := 16

  /** The reference definition: the product of all powers. */
  function PowerProduct(bases: seq<int>, exps: seq<nat>): int
    requires |bases| == |exps|
  {
    if bases == [] then 1 else Pow(bases[0], exps[0]) * PowerProduct(bases[1..], exps[1..])
  }

  function Doubled(es: seq<nat>): (d: seq<nat>)
    ensures |d| == |es| && forall i :: 0 <= i < |es| ==> d[i] == 2 * es[i]
  {
    if es == [] then [] else [2 * es[0]] + Doubled(es[1..])
  }

  lemma {:induction false} ProductDoubled(bases: seq<int>, es: seq<nat>)
    requires |bases| == |es|
    ensures PowerProduct(bases, Doubled(es)) == PowerProduct(bases, es) * PowerProduct(bases, es)
  {
    if bases != [] {
      ProductDoubled(bases[1..], es[1..]);
      assert Doubled(es)[1..] == Doubled(es[1..]);
      PowSquare(bases[0], es[0]);
      var x, y := Pow(bases[0], es[0]), PowerProduct(bases[1..], es[1..]);
      assert (x * x) * (y * y) == (x * y) * (x * y);
    }
  }

  /** Raising one exponent by d multiplies the product by base^d. */
  lemma {:induction false} ProductRaised(bases: seq<int>, es: seq<nat>, i: nat, d: nat)
    requires |bases| == |es| && i < |es|
    ensures PowerProduct(bases, es[i := es[i] + d]) == PowerProduct(bases, es) * Pow(bases[i], d)
  {
    var es' := es[i := es[i] + d];
    var y := PowerProduct(bases[1..], es[1..]);
    if i == 0 {
      assert es'[1..] == es[1..];
      PowAdd(bases[0], es[0], d);
      Regroup(Pow(bases[0], es[0]), Pow(bases[0], d), y);
    } else {
      ProductRaised(bases[1..], es[1..], i - 1, d);
      assert es'[1..] == es[1..][i - 1 := es[1..][i - 1] + d];
      Scaled(Pow(bases[0], es[0]), PowerProduct(bases[1..], es'[1..]), y * Pow(bases[i], d));
      Regroup(Pow(bases[0], es[0]), y, Pow(bases[i], d));
    }
  }

  lemma {:induction false} ProductOfZeros(bases: seq<int>, es: seq<nat>)
    requires |bases| == |es| && forall i :: 0 <= i < |es| ==> es[i] == 0
    ensures PowerProduct(bases, es) == 1
  {
    if bases != [] {
      ProductOfZeros(bases[1..], es[1..]);
    }
  }

  /** tab[d] represents b^d for every window value d. */
  ghost predicate WindowTable(tab: seq<int>, b: int, n: int) {
    |tab| == TABLE && forall d: nat :: d < TABLE ==> Cong(tab[d], Pow(b, d), n)
  }

  method BuildTable(b: int, n: int) returns (tab: seq<int>)
    requires n > 0
    ensures WindowTable(tab, b, n)
  {
    tab := [1, b];
    CongRefl(1, n);
    CongRefl(b, n);
    assert Pow(b, 1) == b * Pow(b, 0) == b;
    for d := 2 to TABLE
      invariant |tab| == d && forall e: nat :: e < d ==> Cong(tab[e], Pow(b, e), n)
    {
      CongMod(tab[d - 1] * b, n);
      CongScale(b, tab[d - 1], Pow(b, d - 1), n);
      CongTrans((tab[d - 1] * b) % n, tab[d - 1] * b, Pow(b, d), n);
      tab := tab + [(tab[d - 1] * b) % n];
    }
  }

  /** The window digit: the four bits of e from `shift` on. */
  method WindowDigit(e: nat, shift: nat) returns (d: nat)
    ensures d < TABLE && Shift(e, shift) == 16 * Shift(e, shift + 4) + d
  {
    d := 0;
    for bit := 0 to W
      invariant Shift(e, shift) == TwoPow(bit) * Shift(e, shift + bit) + d && d < TwoPow(bit)
    {
      WeightedBit(e, shift + bit, TwoPow(bit));
      if Bit(e, shift + bit) {
        d := d + TwoPow(bit);
      }
    }
    assert TwoPow(4) == 16;
  }

  method MaxBits(exps: seq<nat>) returns (m: nat)
    ensures forall i :: 0 <= i < |exps| ==> BitLength(exps[i]) <= m
    ensures m == 0 <==> forall i :: 0 <= i < |exps| ==> exps[i] == 0
  {
    m := 0;
    for i := 0 to |exps|
      invariant forall j :: 0 <= j < i ==> BitLength(exps[j]) <= m
      invariant m == 0 <==> forall j :: 0 <= j < i ==> exps[j] == 0
    {
      m := if BitLength(exps[i]) > m then BitLength(exps[i]) else m;
    }
  }

  /** All exponents shifted right by s. */
  function Shifted(exps: seq<nat>, s: nat): (r: seq<nat>)
    ensures |r| == |exps|
  {
    seq(|exps|, i requires 0 <= i < |exps| => Shift(exps[i], s))
  }

  /** One block: four squarings, then one table multiplication per base. */
  method Block(tables: seq<seq<int>>, bases: seq<int>, exps: seq<nat>, blk: nat, n: int, r: int)
    returns (result: int)
    requires n > 1 && |tables| == |bases| == |exps| && 0 <= r < n
    requires forall i :: 0 <= i < |tables| ==> WindowTable(tables[i], bases[i], n)
    requires Cong(r, PowerProduct(bases, Shifted(exps, 4 * (blk + 1))), n)
    ensures 0 <= result < n && Cong(result, PowerProduct(bases, Shifted(exps, 4 * blk)), n)
  {
    result := r;
    ghost var es := Shifted(exps, 4 * (blk + 1));
    for k := 0 to W
      invariant |es| == |exps| && 0 <= result < n && Cong(result, PowerProduct(bases, es), n)
      invariant forall j :: 0 <= j < |es| ==>
                  es[j] == (if k == 0 then 1 else if k == 1 then 2 else if k == 2 then 4
                            else if k == 3 then 8 else 16) * Shift(exps[j], 4 * (blk + 1))
    {
      ghost var p := PowerProduct(bases, es);
      ProductDoubled(bases, es);
      CongMul(result, p, result, p, n);
      CongMod(result * result, n);
      CongTrans((result * result) % n, result * result, p * p, n);
      result := (result * result) % n;
      es := Doubled(es);
    }
    var shift := blk * W;
    for i := 0 to |tables|
      invariant |es| == |exps| && 0 <= result < n && Cong(result, PowerProduct(bases, es), n)
      invariant forall j :: 0 <= j < i ==> es[j] == Shift(exps[j], 4 * blk)
      invariant forall j :: i <= j < |es| ==> es[j] == 16 * Shift(exps[j], 4 * (blk + 1))
    {
      var d := WindowDigit(exps[i], shift);
      assert shift + 4 == 4 * (blk + 1);
      if d != 0 {
        ghost var p := PowerProduct(bases, es);
        ProductRaised(bases, es, i, d);
        assert WindowTable(tables[i], bases[i], n);
        CongMul(result, p, tables[i][d], Pow(bases[i], d), n);
        CongMod(result * tables[i][d], n);
        CongTrans((result * tables[i][d]) % n, result * tables[i][d], p * Pow(bases[i], d), n);
        result := (result * tables[i][d]) % n;
        es := es[i := es[i] + d];
      }
    }
    assert es == Shifted(exps, 4 * blk);
  }

  /** The windowed algorithm computes the plain product of powers, for every modulus above one. */
  method MultiExp(bases: seq<int>, exps: seq<nat>, n: int) returns (result: int)
    requires n > 1 && |bases| == |exps|
    ensures result == PowerProduct(bases, exps) % n
  {
    var maxbits := MaxBits(exps);
    CongRefl(1, n);
    if maxbits == 0 {
      ProductOfZeros(bases, exps);
      CongIsRemainder(1, 1, n);
      return 1;
    }
    var tables: seq<seq<int>> := [];
    for i := 0 to |bases|
      invariant |tables| == i && forall j :: 0 <= j < i ==> WindowTable(tables[j], bases[j], n)
    {
      var tab := BuildTable(bases[i], n);
      tables := tables + [tab];
    }
    var nblocks := (maxbits + W - 1) / W;
    forall i | 0 <= i < |exps|
      ensures Shift(exps[i], 4 * nblocks) == 0
    {
      ShiftBeyond(exps[i], 4 * nblocks);
    }
    ProductOfZeros(bases, Shifted(exps, 4 * nblocks));
    result := 1;
    for blk := nblocks downto 0
      invariant 0 <= result < n
      invariant Cong(result, PowerProduct(bases, Shifted(exps, 4 * blk)), n)
    {
      result := Block(tables, bases, exps, blk, n, result);
    }
    assert Shifted(exps, 0) == exps;
    CongIsRemainder(result, PowerProduct(bases, exps), n);
  }
}
