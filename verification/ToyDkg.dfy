/** The commit-reveal key generation used to exercise the drivers. */
module ToyDkg {
  import opened Outcomes
  import opened Codec
  import opened Runner

  type Digest = b: Bytes | |b| == 32 witness seq(32, _ => 0)

  /** SHA-256, of which nothing is used but that it is a function. */
  type Hash = Bytes -> Digest

  datatype Msg = Commitment(c: Digest) | Reveal(r: Bytes)

  datatype Toy = Toy(
    n: u16,
    round: u16,
    secret: Bytes,
    commitments: map<u16, Digest>,
    secrets: map<u16, Bytes>,
    outbox: seq<Outgoing<Msg>>,
    done: bool,
    result: Option<Bytes>)

  // ---- the shared output ---------------------------------------------------------------------

  /** The order of `Vec<u8>`: lexicographic. */
  predicate Before(a: Bytes, b: Bytes) {
    if a == [] then true
    else if b == [] then false
    else a[0] < b[0] || (a[0] == b[0] && Before(a[1..], b[1..]))
  }

  /** At the first position where the two differ, or where one ends. */
  lemma {:induction false} BeforeIs(a: Bytes, b: Bytes)
    ensures Before(a, b) <==> a <= b || exists k: nat :: FirstLess(a, b, k)
  {
    if a != [] && b != [] {
      BeforeIs(a[1..], b[1..]);
      if a[0] == b[0] {
        assert a <= b <==> a[1..] <= b[1..];
        forall k: nat | FirstLess(a[1..], b[1..], k)
          ensures FirstLess(a, b, k + 1)
        {
          FirstLessShift(a, b, k);
        }
        forall k: nat | FirstLess(a, b, k)
          ensures k > 0 && FirstLess(a[1..], b[1..], k - 1)
        {
          if k > 0 {
            FirstLessShift(a, b, k - 1);
          }
        }
      } else if a[0] < b[0] {
        assert FirstLess(a, b, 0);
      } else {
        forall k: nat | 0 < k < |a| && k < |b|
          ensures a[..k] != b[..k]
        {
          assert a[..k][0] != b[..k][0];
        }
      }
    }
  }

  ghost predicate FirstLess(a: Bytes, b: Bytes, k: nat) {
    k < |a| && k < |b| && a[..k] == b[..k] && a[k] < b[k]
  }

  lemma FirstLessShift(a: Bytes, b: Bytes, k: nat)
    requires a != [] && b != [] && a[0] == b[0]
    ensures FirstLess(a[1..], b[1..], k) <==> FirstLess(a, b, k + 1)
  {
    if k < |a| - 1 && k < |b| - 1 {
      assert a[..k + 1] == [a[0]] + a[1..][..k];
      assert b[..k + 1] == [b[0]] + b[1..][..k];
      assert a[..k + 1][1..] == a[1..][..k] && b[..k + 1][1..] == b[1..][..k];
    }
  }

  function Inserted(s: seq<Bytes>, x: Bytes): seq<Bytes> {
    if s == [] then [x]
    else if Before(x, s[0]) then [x] + s
    else [s[0]] + Inserted(s[1..], x)
  }

  /** `sort` */
  function Sorted(s: seq<Bytes>): seq<Bytes> {
    if s == [] then [] else Inserted(Sorted(s[1..]), s[0])
  }

  function Concat(s: seq<Bytes>): Bytes {
    if s == [] then [] else s[0] + Concat(s[1..])
  }

  /** Joining is in order and loses nothing. */
  lemma {:induction false} ConcatJoins(s: seq<Bytes>, x: Bytes, t: seq<Bytes>)
    ensures Concat(s + [x] + t) == Concat(s) + x + Concat(t)
  {
    if s == [] {
      assert [] + [x] + t == [x] + t && ([x] + t)[1..] == t && [] + x == x;
    } else {
      ConcatJoins(s[1..], x, t);
      assert (s + [x] + t)[1..] == s[1..] + [x] + t;
      assert Concat(s) + x + Concat(t) == s[0] + (Concat(s[1..]) + x + Concat(t));
    }
  }

  ghost predicate Ordered(s: seq<Bytes>) {
    forall i, j :: 0 <= i < j < |s| ==> Before(s[i], s[j])
  }

  lemma {:induction false} BeforeTotal(a: Bytes, b: Bytes)
    ensures Before(a, b) || Before(b, a)
    ensures Before(a, b) && Before(b, a) ==> a == b
  {
    if a != [] && b != [] && a[0] == b[0] {
      BeforeTotal(a[1..], b[1..]);
      assert a == [a[0]] + a[1..] && b == [b[0]] + b[1..];
    }
  }

  lemma {:induction false} BeforeTransitive(a: Bytes, b: Bytes, c: Bytes)
    requires Before(a, b) && Before(b, c)
    ensures Before(a, c)
  {
    if a != [] && b != [] && c != [] && a[0] == b[0] == c[0] {
      BeforeTransitive(a[1..], b[1..], c[1..]);
    }
  }

  lemma {:induction false} InsertedCorrect(s: seq<Bytes>, x: Bytes)
    requires Ordered(s)
    ensures Ordered(Inserted(s, x)) && multiset(Inserted(s, x)) == multiset(s) + multiset{x}
  {
    if s != [] {
      assert s == [s[0]] + s[1..];
      if Before(x, s[0]) {
        InFront(s, x);
      } else {
        InsertedCorrect(s[1..], x);
        BeforeTotal(x, s[0]);
        Behind(s, Inserted(s[1..], x), x);
      }
    }
  }

  /** A new least element goes in front. */
  lemma InFront(s: seq<Bytes>, x: Bytes)
    requires Ordered(s) && s != [] && Before(x, s[0])
    ensures Ordered([x] + s)
  {
    forall j | 0 <= j < |s|
      ensures Before(x, s[j])
    {
      if j > 0 {
        BeforeTransitive(x, s[0], s[j]);
      }
    }
  }

  /** The head stays in front of the rest with x in it. */
  lemma Behind(s: seq<Bytes>, rest: seq<Bytes>, x: Bytes)
    requires Ordered(s) && s != [] && Before(s[0], x)
    requires Ordered(rest) && multiset(rest) == multiset(s[1..]) + multiset{x}
    ensures Ordered([s[0]] + rest)
  {
    forall j | 0 <= j < |rest|
      ensures Before(s[0], rest[j])
    {
      assert rest[j] in multiset(rest);
      if rest[j] != x {
        assert rest[j] in s[1..];
      }
    }
  }

  lemma {:induction false} SortedCorrect(s: seq<Bytes>)
    ensures Ordered(Sorted(s)) && multiset(Sorted(s)) == multiset(s)
  {
    if s != [] {
      SortedCorrect(s[1..]);
      InsertedCorrect(Sorted(s[1..]), s[0]);
      assert s == [s[0]] + s[1..];
    }
  }

  lemma TailContents(s: seq<Bytes>)
    requires s != []
    ensures multiset(s[1..]) == multiset(s) - multiset{s[0]} && s == [s[0]] + s[1..]
  {
    assert s == [s[0]] + s[1..];
  }

  lemma HeadsAgree(s: seq<Bytes>, t: seq<Bytes>)
    requires Ordered(s) && Ordered(t) && multiset(s) == multiset(t) && s != []
    ensures t != [] && s[0] == t[0]
  {
    assert s[0] in multiset(t);
    assert t[0] in multiset(s);
    HeadFirst(s, t[0]);
    HeadFirst(t, s[0]);
    BeforeTotal(s[0], t[0]);
  }

  /** An ordered list is determined by its contents. */
  lemma {:induction false} OrderedUnique(s: seq<Bytes>, t: seq<Bytes>)
    requires Ordered(s) && Ordered(t) && multiset(s) == multiset(t)
    ensures s == t
  {
    if s == [] {
      assert |multiset(t)| == 0;
    } else {
      HeadsAgree(s, t);
      TailContents(s);
      TailContents(t);
      OrderedUnique(s[1..], t[1..]);
    }
  }

  lemma HeadFirst(s: seq<Bytes>, x: Bytes)
    requires Ordered(s) && x in s
    ensures s != [] && Before(s[0], x)
  {
    var i :| 0 <= i < |s| && s[i] == x;
    BeforeTotal(s[0], s[0]);
  }

  /** Sorting forgets the order of its input. */
  lemma SortedForgetsOrder(s: seq<Bytes>, t: seq<Bytes>)
    requires multiset(s) == multiset(t)
    ensures Sorted(s) == Sorted(t)
  {
    SortedCorrect(s);
    SortedCorrect(t);
    OrderedUnique(Sorted(s), Sorted(t));
  }

  /** The value all parties derive from the same collection of secrets. */
  function Combined(hash: Hash, secrets: seq<Bytes>): Bytes {
    hash(Concat(Sorted(secrets)))
  }

  // ---- reading a hash map in any order ---------------------------------------------------------

  /** The values under the keys of a set, below a bound, in key order. */
  function ValuesIn(m: map<u16, Bytes>, s: set<u16>, bound: nat): seq<Bytes>
    requires s <= m.Keys && bound <= 0x1_0000
  {
    if bound == 0 then []
    else ValuesIn(m, s, bound - 1) + if bound - 1 in s then [m[bound - 1]] else []
  }

  lemma ValuesStep(m: map<u16, Bytes>, s: set<u16>, bound: nat)
    requires s <= m.Keys && 0 < bound <= 0x1_0000
    ensures multiset(ValuesIn(m, s, bound))
            == multiset(ValuesIn(m, s, bound - 1)) + At(m, s, bound - 1)
  {
    var a := ValuesIn(m, s, bound - 1);
    if bound - 1 in s {
      assert multiset(a + [m[bound - 1]]) == multiset(a) + multiset{m[bound - 1]};
    } else {
      assert a + [] == a;
    }
  }

  /** The contents contributed by one key. */
  ghost function At(m: map<u16, Bytes>, s: set<u16>, i: u16): multiset<Bytes>
    requires s <= m.Keys
  {
    if i in s then multiset{m[i]} else multiset{}
  }

  lemma WithoutStep(
      m: map<u16, Bytes>, s: set<u16>, without: set<u16>, k: u16, i: u16, a: multiset<Bytes>, b: multiset<Bytes>)
    requires s <= m.Keys && k in s && without == s - {k}
    requires a == b + if k < i then multiset{m[k]} else multiset{}
    ensures a + At(m, s, i) == b + At(m, without, i) + if k <= i then multiset{m[k]} else multiset{}
  {
  }

  lemma {:induction false} ValuesWithout(m: map<u16, Bytes>, s: set<u16>, k: u16, bound: nat)
    requires s <= m.Keys && bound <= 0x1_0000 && k in s
    ensures multiset(ValuesIn(m, s, bound))
            == multiset(ValuesIn(m, s - {k}, bound)) + if k < bound then multiset{m[k]} else multiset{}
  {
    if bound > 0 {
      var without := s - {k};
      ValuesWithout(m, s, k, bound - 1);
      ValuesStep(m, s, bound);
      ValuesStep(m, without, bound);
      WithoutStep(m, s, without, k, bound - 1, multiset(ValuesIn(m, s, bound - 1)), multiset(ValuesIn(m, without, bound - 1)));
    }
  }

  lemma {:induction false} ValuesOfNothing(m: map<u16, Bytes>, bound: nat)
    requires bound <= 0x1_0000
    ensures ValuesIn(m, {}, bound) == []
  {
    if bound > 0 {
      ValuesOfNothing(m, bound - 1);
    }
  }

  /** `values()`: some order of the values. */
  method ReadValues(m: map<u16, Bytes>) returns (values: seq<Bytes>)
    ensures multiset(values) == multiset(ValuesIn(m, m.Keys, 0x1_0000))
  {
    values := [];
    var keys := m.Keys;
    while keys != {}
      invariant keys <= m.Keys
      invariant multiset(values) + multiset(ValuesIn(m, keys, 0x1_0000)) == multiset(ValuesIn(m, m.Keys, 0x1_0000))
      decreases |keys|
    {
      var k :| k in keys;
      ValuesWithout(m, keys, k, 0x1_0000);
      values := values + [m[k]];
      keys := keys - {k};
    }
    ValuesOfNothing(m, 0x1_0000);
  }

  // ---- the machine ------------------------------------------------------------------------------

  /** Decimal digits in ASCII. */
  function Decimal(x: u16): Bytes {
    if x < 10 then [0x30 + x] else Decimal(x / 10) + [0x30 + x % 10]
  }

  /** What digits in ASCII read as. */
  ghost function ReadDecimal(digits: Bytes): nat
    requires forall i :: 0 <= i < |digits| ==> 0x30 <= digits[i] <= 0x39
  {
    if digits == [] then 0 else 10 * ReadDecimal(digits[..|digits| - 1]) + (digits[|digits| - 1] - 0x30)
  }

  /** Digits only, no leading zero, and they read as the number. */
  lemma {:induction false} DecimalReads(x: u16)
    ensures forall i :: 0 <= i < |Decimal(x)| ==> 0x30 <= Decimal(x)[i] <= 0x39
    ensures Decimal(x) != [] && (Decimal(x)[0] == 0x30 ==> x == 0)
    ensures ReadDecimal(Decimal(x)) == x
  {
    if x < 10 {
      assert [0x30 + x][..0] == [];
    } else {
      DecimalReads(x / 10);
      var d := Decimal(x);
      assert d[..|d| - 1] == Decimal(x / 10);
    }
  }

  /** "secret-from-" */
  const SECRET_PREFIX: Bytes := [0x73, 0x65, 0x63, 0x72, 0x65, 0x74, 0x2D, 0x66, 0x72, 0x6F, 0x6D, 0x2D]

  function Secret(me: u16): Bytes {
    SECRET_PREFIX + Decimal(me)
  }

  /** n - 1 in 16 bits. */
  function OthersCount(n: u16): nat {
    (n + 0xFFFF) % 0x1_0000
  }

  function Started(hash: Hash, me: u16, n: u16): Toy {
    Toy(n, 1, Secret(me), map[], map[], [Outgoing(Broadcast, Commitment(hash(Secret(me))))], false, None)
  }

  function Committed(t: Toy, from: u16, c: Digest): Toy {
    var t := t.(commitments := t.commitments[from := c]);
    if |t.commitments| == OthersCount(t.n) && t.round == 1 then
      t.(round := 2, outbox := t.outbox + [Outgoing(Broadcast, Reveal(t.secret))])
    else t
  }

  function Revealed(hash: Hash, t: Toy, from: u16, r: Bytes): Toy {
    var t := if from in t.commitments && t.commitments[from] == hash(r) then t.(secrets := t.secrets[from := r]) else t;
    if |t.secrets| == OthersCount(t.n) && t.round == 2 then
      t.(result := Some(Combined(hash, ValuesIn(t.secrets, t.secrets.Keys, 0x1_0000) + [t.secret])), done := true)
    else t
  }

  function HandledToy(hash: Hash, t: Toy, from: u16, msg: Msg): Toy {
    match msg
    case Commitment(c) => Committed(t, from, c)
    case Reveal(r) => Revealed(hash, t, from, r)
  }

  /** The operations of the machine, as the drivers see them. */
  function ToyMachine(hash: Hash): Machine<Toy, Msg, Bytes> {
    Machine(
      (t: Toy, from: u16, msg: Msg) => Handled(HandledToy(hash, t, from, msg), true),
      (t: Toy) => (t.(outbox := []), t.outbox),
      (t: Toy) => t.round,
      (t: Toy) => t.done,
      (t: Toy) => t.result)
  }

  /** The round never decreases. */
  lemma ToyIsMonotone(hash: Hash)
    ensures Monotone(ToyMachine(hash))
  {
  }

  // ---- any history of messages, honest or not --------------------------------------------------------

  function Replayed(hash: Hash, t: Toy, heard: seq<(u16, Msg)>): Toy {
    if heard == [] then t
    else
      var last := heard[|heard| - 1];
      HandledToy(hash, Replayed(hash, t, heard[..|heard| - 1]), last.0, last.1)
  }

  /** The last digest a party has committed to. */
  ghost function LastCommitment(heard: seq<(u16, Msg)>, p: u16): Option<Digest> {
    if heard == [] then None
    else
      var (from, msg) := heard[|heard| - 1];
      if from == p && msg.Commitment? then Some(msg.c) else LastCommitment(heard[..|heard| - 1], p)
  }

  /** The last secret a party revealed while it was committed to its hash. */
  ghost function LastOpened(hash: Hash, heard: seq<(u16, Msg)>, p: u16): Option<Bytes> {
    if heard == [] then None
    else
      var (from, msg) := heard[|heard| - 1];
      var before := heard[..|heard| - 1];
      if from == p && msg.Reveal? && LastCommitment(before, p) == Some(hash(msg.r)) then Some(msg.r)
      else LastOpened(hash, before, p)
  }

  ghost function Lookup<T>(m: map<u16, T>, p: u16): Option<T> {
    if p in m then Some(m[p]) else None
  }

  /** What one message stores: a reveal only when its sender is committed to its hash. */
  lemma MessageStores(hash: Hash, t: Toy, from: u16, msg: Msg, p: u16)
    ensures var t' := HandledToy(hash, t, from, msg);
            && t'.n == t.n && t'.secret == t.secret
            && Lookup(t'.commitments, p)
               == (if msg.Commitment? && from == p then Some(msg.c) else Lookup(t.commitments, p))
            && Lookup(t'.secrets, p)
               == (if msg.Reveal? && from == p && Lookup(t.commitments, p) == Some(hash(msg.r)) then Some(msg.r)
                   else Lookup(t.secrets, p))
  {
  }

  /** Whatever a machine has been sent, it holds of every party the last commitment, and the last
      secret that opened the commitment of its time: a reveal without a matching commitment adds
      nothing. */
  lemma {:induction false} HoldsWhatOpened(hash: Hash, me: u16, n: u16, heard: seq<(u16, Msg)>, p: u16)
    ensures var t := Replayed(hash, Started(hash, me, n), heard);
            && t.n == n && t.secret == Secret(me)
            && Lookup(t.commitments, p) == LastCommitment(heard, p)
            && Lookup(t.secrets, p) == LastOpened(hash, heard, p)
  {
    if heard != [] {
      var before, last := heard[..|heard| - 1], heard[|heard| - 1];
      HoldsWhatOpened(hash, me, n, before, p);
      MessageStores(hash, Replayed(hash, Started(hash, me, n), before), last.0, last.1, p);
    }
  }

  /** The parties that opened a commitment, with what they opened last. */
  ghost function Opened(hash: Hash, heard: seq<(u16, Msg)>): map<u16, Bytes> {
    map p: u16 | 0 <= p < 0x1_0000 && LastOpened(hash, heard, p).Some? :: LastOpened(hash, heard, p).value
  }

  ghost function Committers(heard: seq<(u16, Msg)>): set<u16> {
    set p: u16 | 0 <= p < 0x1_0000 && LastCommitment(heard, p).Some?
  }

  /** At some commitment, as many parties had committed as there are other parties. */
  ghost predicate Advanced(n: u16, heard: seq<(u16, Msg)>) {
    heard != []
    && ((heard[|heard| - 1].1.Commitment? && |Committers(heard)| == OthersCount(n))
        || Advanced(n, heard[..|heard| - 1]))
  }

  /** At the last reveal of the second round at which as many parties had opened their commitments
      as there are other parties: the hash of what they opened and of the own secret, sorted and
      joined. */
  ghost function LastDecision(hash: Hash, me: u16, n: u16, heard: seq<(u16, Msg)>): Option<Bytes> {
    if heard == [] then None
    else
      var all := Opened(hash, heard);
      if heard[|heard| - 1].1.Reveal? && Advanced(n, heard) && |all| == OthersCount(n) then
        Some(hash(Concat(Sorted(ValuesIn(all, all.Keys, 0x1_0000) + [Secret(me)]))))
      else LastDecision(hash, me, n, heard[..|heard| - 1])
  }

  /** What one message does, when the state before and the maps after are known. */
  lemma MessageDecides(
      hash: Hash, t: Toy, from: u16, msg: Msg, advanced: bool, committers: set<u16>, all: map<u16, Bytes>)
    requires t.round == if advanced then 2 else 1
    requires HandledToy(hash, t, from, msg).commitments.Keys == committers && HandledToy(hash, t, from, msg).secrets == all
    ensures var t' := HandledToy(hash, t, from, msg);
            var advances := msg.Commitment? && |committers| == OthersCount(t.n);
            var decides := msg.Reveal? && advanced && |all| == OthersCount(t.n);
            && t'.round == (if advanced || advances then 2 else 1)
            && t'.outbox == t.outbox + (if advances && !advanced then [Outgoing(Broadcast, Reveal(t.secret))] else [])
            && t'.result == (if decides then Some(Combined(hash, ValuesIn(all, all.Keys, 0x1_0000) + [t.secret])) else t.result)
            && t'.done == (t.done || decides)
  {
    var t' := HandledToy(hash, t, from, msg);
    NothingMore(t.outbox);
    assert |t'.commitments| == |t'.commitments.Keys|;
  }

  lemma MapsOfHistory(hash: Hash, me: u16, n: u16, heard: seq<(u16, Msg)>)
    ensures var t := Replayed(hash, Started(hash, me, n), heard);
            t.commitments.Keys == Committers(heard) && t.secrets == Opened(hash, heard)
  {
    var t := Replayed(hash, Started(hash, me, n), heard);
    forall p: u16
      ensures Lookup(t.commitments, p) == LastCommitment(heard, p) && Lookup(t.secrets, p) == LastOpened(hash, heard, p)
    {
      HoldsWhatOpened(hash, me, n, heard, p);
    }
    assert forall p: u16 :: p in t.commitments <==> Lookup(t.commitments, p).Some?;
    assert forall p: u16 :: Lookup(t.secrets, p) == Lookup(Opened(hash, heard), p);
  }

  /** Whatever a machine has been sent, its round, its output and what it sends are these functions
      of the history: it is done only after that many parties opened their commitments, and its
      output is made of what they opened. */
  lemma {:induction false} HistoryDecides(hash: Hash, me: u16, n: u16, heard: seq<(u16, Msg)>)
    ensures var t := Replayed(hash, Started(hash, me, n), heard);
            && t.round == (if Advanced(n, heard) then 2 else 1)
            && t.outbox == [Outgoing(Broadcast, Commitment(hash(Secret(me))))]
                           + (if Advanced(n, heard) then [Outgoing(Broadcast, Reveal(Secret(me)))] else [])
            && t.result == LastDecision(hash, me, n, heard) && (t.done <==> t.result.Some?)
  {
    if heard != [] {
      var before, last := heard[..|heard| - 1], heard[|heard| - 1];
      HistoryDecides(hash, me, n, before);
      HoldsWhatOpened(hash, me, n, before, me);
      MapsOfHistory(hash, me, n, heard);
      MessageDecides(hash, Replayed(hash, Started(hash, me, n), before), last.0, last.1, Advanced(n, before),
                     Committers(heard), Opened(hash, heard));
    }
  }

  class ToyDkgMachine {
    const hash: Hash
    const me: u16
    const n: u16
    const secret: Bytes
    const commitment: Digest
    var round: u16
    var commitments: map<u16, Digest>
    var secrets: map<u16, Bytes>
    var outbox: seq<Outgoing<Msg>>
    var done: bool
    var result: Option<Bytes>

    ghost function Value(): Toy
      reads this
    {
      Toy(n, round, secret, commitments, secrets, outbox, done, result)
    }

    constructor (hash: Hash, me: u16, n: u16)
      ensures this.hash == hash && this.me == me && this.n == n && commitment == hash(Secret(me))
      ensures Value() == Started(hash, me, n)
    {
      this.hash, this.me, this.n := hash, me, n;
      var s := Secret(me);
      var c := hash(s);
      secret, commitment := s, c;
      round, commitments, secrets, done, result := 1, map[], map[], false, None;
      outbox := [Outgoing(Broadcast, Commitment(c))];
    }

    /** `handle`: whatever order the map is read in, the outcome is the same. */
    method Handle(from: u16, msg: Msg)
      modifies this
      ensures Value() == HandledToy(hash, old(Value()), from, msg)
    {
      match msg
      case Commitment(c) =>
        commitments := commitments[from := c];
        if |commitments| == OthersCount(n) && round == 1 {
          round := 2;
          outbox := outbox + [Outgoing(Broadcast, Reveal(secret))];
        }
      case Reveal(r) =>
        var expected := hash(r);
        if from in commitments && commitments[from] == expected {
          secrets := secrets[from := r];
        }
        if |secrets| == OthersCount(n) && round == 2 {
          var values := ReadValues(secrets);
          SortedForgetsOrder(values + [secret], ValuesIn(secrets, secrets.Keys, 0x1_0000) + [secret]);
          result := Some(hash(Concat(Sorted(values + [secret]))));
          done := true;
        }
    }

    method DrainOutgoing() returns (outs: seq<Outgoing<Msg>>)
      modifies this
      ensures (Value(), outs) == ToyMachine(hash).drain(old(Value()))
    {
      outs := outbox;
      outbox := [];
    }

    method Finish() returns (out: Option<Bytes>)
      ensures out == ToyMachine(hash).finish(Value())
    {
      out := result;
    }
  }
}
