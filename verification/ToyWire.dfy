/** The toy key generation over runners, envelopes and the in-memory network gives exactly the
    outputs of the orchestrator: each announcement is encoded, carried, decoded and accepted
    once, so a wire round delivers what a routed round delivers. */
module ToyWire {
  import opened Outcomes
  import opened Codec
  import opened Runner
  import opened ToyDkg
  import opened ToyRuns
  import opened WireDriver
  import Drivers
  import Network

  type ToyConfig = Config<Toy, Msg, Bytes>
  type ToySession = Session<Toy, Msg, Bytes>

  /** The session's configuration: this machine, and any payload encoding that round-trips. */
  ghost predicate Configured(hash: Hash, base: ToyConfig) {
    base.machine == ToyMachine(hash) && RoundTrips(base.codec)
  }

  // ---- what is on the wire -------------------------------------------------------------------------

  function HeaderOf(base: ToyConfig, r: u16, id: u16): Header {
    Header(base.sessionId, base.protocolId, r, id, BROADCAST)
  }

  function Letter(hash: Hash, base: ToyConfig, r: u16, id: u16): (u16, Bytes) {
    (id, Encoded(base.codec, HeaderOf(base, r, id), Payload(hash, r, id)))
  }

  function Letters(hash: Hash, base: ToyConfig, r: u16, senders: seq<u16>): (ls: Network.Mail)
    ensures |ls| == |senders| && forall i :: 0 <= i < |ls| ==> ls[i] == Letter(hash, base, r, senders[i])
  {
    seq(|senders|, i requires 0 <= i < |senders| => Letter(hash, base, r, senders[i]))
  }

  ghost function Triples(r: u16, senders: seq<u16>): set<Triple> {
    set id | id in senders :: (id, r, BROADCAST)
  }

  /** The triples a party has accepted in round r after hearing the given senders. */
  ghost function SeenIn(ids: seq<u16>, r: u16, me: u16, heard: seq<u16>): set<Triple> {
    (if r == 2 then Triples(1, Others(ids, me)) else {}) + Triples(r, heard)
  }

  ghost predicate RunnerAt(hash: Hash, ids: seq<u16>, r: u16, me: u16, heard: seq<u16>, st: State<Toy, Msg>)
    requires 2 <= |ids| < 0x1_0000
  {
    && st.machine == Progress(hash, ids, r, me, heard)
    && st.seen == SeenIn(ids, r, me, heard)
    && st.future == map[]
  }

  /** A valid message of the current round goes straight to the machine. */
  lemma DeliveredNow<S, M, O>(cfg: Config<S, M, O>, st: State<S, M>, bytes: Bytes, h: Header, msg: M)
    requires Decode(cfg.codec, bytes) == Ok((h, msg)) && h.sessionId == cfg.sessionId && h.protocolId == cfg.protocolId
    requires (h.from, h.round, h.to) !in st.seen && h.round == cfg.machine.round(st.machine)
    requires cfg.machine.handle(st.machine, h.from, msg).ok
    ensures var one := DecodedOne(cfg, st, h.from, bytes);
            && one.error.None? && one.state.machine == cfg.machine.handle(st.machine, h.from, msg).state
            && one.state.seen == st.seen + {(h.from, h.round, h.to)} && one.state.future == st.future
  {
  }

  lemma BatchHead<S, M, O>(cfg: Config<S, M, O>, st: State<S, M>, raw: seq<(u16, Bytes)>)
    requires raw != [] && DecodedOne(cfg, st, raw[0].0, raw[0].1).error.None?
    ensures DecodedBatch(cfg, st, raw) == DecodedBatch(cfg, DecodedOne(cfg, st, raw[0].0, raw[0].1).state, raw[1..])
  {
  }

  lemma SeenStep(ids: seq<u16>, r: u16, me: u16, heard: seq<u16>, from: u16)
    requires (r == 1 || r == 2) && from !in heard
    ensures (from, r, BROADCAST) !in SeenIn(ids, r, me, heard)
    ensures SeenIn(ids, r, me, heard + [from]) == SeenIn(ids, r, me, heard) + {(from, r, BROADCAST)}
  {
    assert Triples(r, heard + [from]) == Triples(r, heard) + {(from, r, BROADCAST)};
  }

  /** One letter accepted and handed to the machine. */
  lemma LetterAccepted(hash: Hash, base: ToyConfig, ids: seq<u16>, i: nat, r: u16, heard: seq<u16>, from: u16,
                       st: State<Toy, Msg>)
    requires Configured(hash, base) && Parties(ids) && (r == 1 || r == 2) && i < |ids|
    requires Unique(heard) && from !in heard && |heard| < |ids| - 1 && from in Others(ids, ids[i])
    requires RunnerAt(hash, ids, r, ids[i], heard, st)
    ensures var l := Letter(hash, base, r, from);
            var one := DecodedOne(ConfigOf(base, ids, i), st, l.0, l.1);
            one.error.None? && RunnerAt(hash, ids, r, ids[i], heard + [from], one.state)
  {
    var h, msg := HeaderOf(base, r, from), Payload(hash, r, from);
    DecodeEncoded(base.codec, h, msg);
    ProgressStep(hash, ids, r, ids[i], heard, from);
    SeenStep(ids, r, ids[i], heard, from);
    DeliveredNow(ConfigOf(base, ids, i), st, Encoded(base.codec, h, msg), h, msg);
  }

  lemma LettersHead(hash: Hash, base: ToyConfig, r: u16, rest: seq<u16>)
    requires rest != []
    ensures Letters(hash, base, r, rest) != [] && Letters(hash, base, r, rest)[0] == Letter(hash, base, r, rest[0])
    ensures Letters(hash, base, r, rest)[1..] == Letters(hash, base, r, rest[1..])
  {
  }

  lemma Shifted(heard: seq<u16>, rest: seq<u16>)
    requires rest != []
    ensures heard + rest == (heard + [rest[0]]) + rest[1..]
  {
  }

  /** The first of the remaining letters. */
  lemma LettersStep(hash: Hash, base: ToyConfig, ids: seq<u16>, i: nat, r: u16, heard: seq<u16>, rest: seq<u16>,
                    st: State<Toy, Msg>)
    returns (next: State<Toy, Msg>)
    requires Configured(hash, base) && Parties(ids) && (r == 1 || r == 2) && i < |ids| && rest != []
    requires heard + rest == Others(ids, ids[i]) && RunnerAt(hash, ids, r, ids[i], heard, st)
    ensures RunnerAt(hash, ids, r, ids[i], heard + [rest[0]], next)
    ensures DecodedBatch(ConfigOf(base, ids, i), st, Letters(hash, base, r, rest))
            == DecodedBatch(ConfigOf(base, ids, i), next, Letters(hash, base, r, rest[1..]))
  {
    OthersUnique(ids, ids[i]);
    SplitUnique(heard, rest);
    LetterAccepted(hash, base, ids, i, r, heard, rest[0], st);
    LettersHead(hash, base, r, rest);
    BatchHead(ConfigOf(base, ids, i), st, Letters(hash, base, r, rest));
    var l := Letter(hash, base, r, rest[0]);
    next := DecodedOne(ConfigOf(base, ids, i), st, l.0, l.1).state;
  }

  lemma {:induction false} LettersAccepted(hash: Hash, base: ToyConfig, ids: seq<u16>, i: nat, r: u16, heard: seq<u16>,
                                           rest: seq<u16>, st: State<Toy, Msg>)
    requires Configured(hash, base) && Parties(ids) && (r == 1 || r == 2) && i < |ids|
    requires heard + rest == Others(ids, ids[i]) && RunnerAt(hash, ids, r, ids[i], heard, st)
    ensures var batch := DecodedBatch(ConfigOf(base, ids, i), st, Letters(hash, base, r, rest));
            batch.error.None? && RunnerAt(hash, ids, r, ids[i], heard + rest, batch.state)
    decreases |rest|
  {
    if rest == [] {
      assert heard + [] == heard;
    } else {
      var next := LettersStep(hash, base, ids, i, r, heard, rest, st);
      Shifted(heard, rest);
      LettersAccepted(hash, base, ids, i, r, heard + [rest[0]], rest[1..], next);
    }
  }

  lemma SplitUnique(heard: seq<u16>, rest: seq<u16>)
    requires rest != [] && Unique(heard + rest)
    ensures Unique(heard) && rest[0] !in heard && rest[0] in heard + rest && |heard| < |heard + rest|
  {
    var all := heard + rest;
    assert all[|heard|] == rest[0];
    forall a, b | 0 <= a < b < |heard|
      ensures heard[a] != heard[b]
    {
      assert all[a] != all[b];
    }
    forall a | 0 <= a < |heard|
      ensures heard[a] != rest[0]
    {
      assert all[a] != all[|heard|];
    }
  }

  lemma NothingToFlush<S, M, O>(cfg: Config<S, M, O>, st: State<S, M>)
    requires st.future == map[]
    ensures Flushed(cfg, st) == Step(st.(currentRound := cfg.machine.round(st.machine)), None)
  {
    assert Queue(st.future, cfg.machine.round(st.machine)) == [];
    assert st.future - {cfg.machine.round(st.machine)} == map[];
  }

  /** A full mailbox takes a party through the round. */
  lemma MailboxAccepted(hash: Hash, base: ToyConfig, ids: seq<u16>, i: nat, r: u16, st: State<Toy, Msg>)
    requires Configured(hash, base) && Parties(ids) && (r == 1 || r == 2) && i < |ids|
    requires RunnerAt(hash, ids, r, ids[i], [], st)
    ensures var step := Decoded(ConfigOf(base, ids, i), st, Letters(hash, base, r, Others(ids, ids[i])));
            step.error.None? && RunnerAt(hash, ids, r, ids[i], Others(ids, ids[i]), step.state)
  {
    var os := Others(ids, ids[i]);
    NothingBefore(os);
    LettersAccepted(hash, base, ids, i, r, [], os, st);
    BatchCompletes(hash, ids, r, ids[i], os, ConfigOf(base, ids, i), st, Letters(hash, base, r, os));
  }

  lemma NothingBefore(xs: seq<u16>)
    ensures [] + xs == xs
  {
  }

  /** With an empty buffer the call ends where its batch ends. */
  lemma BatchCompletes(hash: Hash, ids: seq<u16>, r: u16, me: u16, heard: seq<u16>, cfg: ToyConfig, st: State<Toy, Msg>,
                       raw: seq<(u16, Bytes)>)
    requires 2 <= |ids| < 0x1_0000 && DecodedBatch(cfg, st, raw).error.None?
    requires RunnerAt(hash, ids, r, me, heard, DecodedBatch(cfg, st, raw).state)
    ensures Decoded(cfg, st, raw).error.None? && RunnerAt(hash, ids, r, me, heard, Decoded(cfg, st, raw).state)
  {
    NothingToFlush(cfg, DecodedBatch(cfg, st, raw).state);
  }

  // ---- the phases --------------------------------------------------------------------------------------

  /** A party that still has to send in round r. */
  ghost predicate RunnerReady(hash: Hash, ids: seq<u16>, r: u16, me: u16, st: State<Toy, Msg>)
    requires 2 <= |ids| < 0x1_0000
  {
    && st.machine == Ready(hash, ids, r, me)
    && st.seen == SeenIn(ids, r, me, [])
    && st.future == map[]
  }

  ghost predicate Unsettled(w: ToySession, n: nat) {
    Sized(w, n) && forall j :: 0 <= j < n ==> w.results[j].None?
  }

  /** The mailbox of a party holds the letters of the given senders. */
  ghost predicate Box(hash: Hash, base: ToyConfig, r: u16, net: Network.NetState, me: u16, senders: seq<u16>) {
    me in net.mailboxes && net.mailboxes[me] == Letters(hash, base, r, senders)
  }

  ghost predicate Boxes(hash: Hash, base: ToyConfig, ids: seq<u16>, r: u16, net: Network.NetState, k: nat)
    requires k <= |ids|
  {
    forall j :: 0 <= j < |ids| ==> Box(hash, base, r, net, ids[j], Others(ids[..k], ids[j]))
  }

  /** A party in phase 1, having sent or not. */
  ghost predicate Sender(hash: Hash, ids: seq<u16>, r: u16, me: u16, st: State<Toy, Msg>, sent: bool)
    requires 2 <= |ids| < 0x1_0000
  {
    if sent then RunnerAt(hash, ids, r, me, [], st) else RunnerReady(hash, ids, r, me, st)
  }

  /** During phase 1: the first k have sent. */
  ghost predicate SentBy(hash: Hash, base: ToyConfig, ids: seq<u16>, r: u16, w: ToySession, k: nat)
    requires 2 <= |ids| < 0x1_0000 && k <= |ids|
  {
    && Unsettled(w, |ids|)
    && (forall j :: 0 <= j < |ids| ==> Sender(hash, ids, r, ids[j], w.runners[j], j < k))
    && Boxes(hash, base, ids, r, w.net, k)
  }

  /** Before the round: all ready, all mailboxes empty. */
  ghost predicate AtStart(hash: Hash, base: ToyConfig, ids: seq<u16>, r: u16, w: ToySession)
    requires 2 <= |ids| < 0x1_0000
  {
    SentBy(hash, base, ids, r, w, 0)
  }

  lemma LettersSnoc(hash: Hash, base: ToyConfig, r: u16, heard: seq<u16>, from: u16)
    ensures Letters(hash, base, r, heard + [from]) == Letters(hash, base, r, heard) + [Letter(hash, base, r, from)]
  {
  }

  lemma BoxStep(hash: Hash, base: ToyConfig, ids: seq<u16>, r: u16, net: Network.NetState, k: nat, j: nat)
    requires Parties(ids) && k < |ids| && j < |ids|
    requires Box(hash, base, r, net, ids[j], Others(ids[..k], ids[j]))
    ensures Box(hash, base, r, Network.Broadcasted(net, ids[k], Letter(hash, base, r, ids[k]).1), ids[j],
                Others(ids[..k + 1], ids[j]))
  {
    HeardSoFar(ids, j, k);
    var heard := Others(ids[..k], ids[j]);
    LettersSnoc(hash, base, r, heard, ids[k]);
    assert heard + [] == heard;
  }

  lemma BoxesStep(hash: Hash, base: ToyConfig, ids: seq<u16>, r: u16, net: Network.NetState, k: nat)
    requires Parties(ids) && k < |ids| && Boxes(hash, base, ids, r, net, k)
    ensures Boxes(hash, base, ids, r, Network.Broadcasted(net, ids[k], Letter(hash, base, r, ids[k]).1), k + 1)
  {
    forall j | 0 <= j < |ids|
      ensures Box(hash, base, r, Network.Broadcasted(net, ids[k], Letter(hash, base, r, ids[k]).1), ids[j],
                  Others(ids[..k + 1], ids[j]))
    {
      BoxStep(hash, base, ids, r, net, k, j);
    }
  }

  lemma AnnouncementEncoded(hash: Hash, base: ToyConfig, ids: seq<u16>, i: nat, r: u16, st: State<Toy, Msg>)
    requires Configured(hash, base) && 2 <= |ids| < 0x1_0000 && (r == 1 || r == 2) && i < |ids|
    requires RunnerReady(hash, ids, r, ids[i], st)
    ensures var (after, encoded) := Emitted(ConfigOf(base, ids, i), st);
            && RunnerAt(hash, ids, r, ids[i], [], after)
            && encoded == [(Broadcast, Letter(hash, base, r, ids[i]).1)]
  {
    var cfg := ConfigOf(base, ids, i);
    var outs := [Announcement(hash, r, ids[i])];
    assert outs[..0] == [];
    assert EncodedAll(cfg, r, outs) == EncodedAll(cfg, r, []) + [(Broadcast, EncodedMessage(cfg, r, outs[0]))];
  }

  lemma CarriedOne(net: Network.NetState, from: u16, bytes: Bytes)
    ensures Carried(net, from, [(Broadcast, bytes)], 1) == Network.Broadcasted(net, from, bytes)
  {
    assert Carried(net, from, [(Broadcast, bytes)], 0) == net;
  }

  /** What sending does to the session. */
  lemma SentOne(hash: Hash, base: ToyConfig, ids: seq<u16>, r: u16, w: ToySession, k: nat) returns (st: State<Toy, Msg>)
    requires Configured(hash, base) && 2 <= |ids| < 0x1_0000 && (r == 1 || r == 2) && k < |ids|
    requires Unsettled(w, |ids|) && RunnerReady(hash, ids, r, ids[k], w.runners[k])
    ensures RunnerAt(hash, ids, r, ids[k], [], st)
    ensures SendingOne(base, ids, w, k)
            == Session(w.runners[k := st], w.results, Network.Broadcasted(w.net, ids[k], Letter(hash, base, r, ids[k]).1))
  {
    AnnouncementEncoded(hash, base, ids, k, r, w.runners[k]);
    CarriedOne(w.net, ids[k], Letter(hash, base, r, ids[k]).1);
    st := Emitted(ConfigOf(base, ids, k), w.runners[k]).0;
  }

  lemma SendingStep(hash: Hash, base: ToyConfig, ids: seq<u16>, r: u16, w: ToySession, k: nat)
    requires Configured(hash, base) && Parties(ids) && (r == 1 || r == 2) && k < |ids|
    requires SentBy(hash, base, ids, r, w, k)
    ensures SentBy(hash, base, ids, r, SendingOne(base, ids, w, k), k + 1)
  {
    assert Sender(hash, ids, r, ids[k], w.runners[k], false);
    var st := SentOne(hash, base, ids, r, w, k);
    BoxesStep(hash, base, ids, r, w.net, k);
    SendersStep(hash, ids, r, w.runners, k, st);
  }

  lemma SendersStep(hash: Hash, ids: seq<u16>, r: u16, runners: seq<State<Toy, Msg>>, k: nat, st: State<Toy, Msg>)
    requires 2 <= |ids| < 0x1_0000 && |runners| == |ids| && k < |ids| && RunnerAt(hash, ids, r, ids[k], [], st)
    requires forall j :: 0 <= j < |ids| ==> Sender(hash, ids, r, ids[j], runners[j], j < k)
    ensures forall j :: 0 <= j < |ids| ==> Sender(hash, ids, r, ids[j], runners[k := st][j], j < k + 1)
  {
    forall j | 0 <= j < |ids|
      ensures Sender(hash, ids, r, ids[j], runners[k := st][j], j < k + 1)
    {
      assert Sender(hash, ids, r, ids[j], runners[j], j < k);
    }
  }

  lemma SendingRound(hash: Hash, base: ToyConfig, ids: seq<u16>, r: u16, w: ToySession)
    requires Configured(hash, base) && Parties(ids) && (r == 1 || r == 2)
    requires AtStart(hash, base, ids, r, w)
    ensures SentBy(hash, base, ids, r, Sending(base, ids, w, |ids|), |ids|)
  {
    var inv := (v: ToySession, i: nat) => i <= |ids| && SentBy(hash, base, ids, r, v, i);
    forall v: ToySession, i: nat | i < |ids| && inv(v, i)
      ensures inv(SendStep(base, ids)(v, i), i + 1)
    {
      SendingStep(hash, base, ids, r, v, i);
    }
    FoldInvariant(SendStep(base, ids), inv, w, |ids|, |ids|);
  }

  /** A party in phase 2, having emptied its mailbox or not. */
  ghost predicate Receiver(hash: Hash, base: ToyConfig, ids: seq<u16>, r: u16, me: u16, st: State<Toy, Msg>,
                           net: Network.NetState, heard: bool)
    requires 2 <= |ids| < 0x1_0000
  {
    && RunnerAt(hash, ids, r, me, if heard then Others(ids, me) else [], st)
    && Box(hash, base, r, net, me, if heard then [] else Others(ids, me))
  }

  /** During phase 2: the first k have heard everyone. */
  ghost predicate HeardBy(hash: Hash, base: ToyConfig, ids: seq<u16>, r: u16, w: ToySession, k: nat)
    requires 2 <= |ids| < 0x1_0000 && k <= |ids|
  {
    && Unsettled(w, |ids|)
    && forall j :: 0 <= j < |ids| ==> Receiver(hash, base, ids, r, ids[j], w.runners[j], w.net, j < k)
  }

  lemma NotDoneYet(hash: Hash, base: ToyConfig, ids: seq<u16>, r: u16, me: u16)
    requires Configured(hash, base) && 2 <= |ids| < 0x1_0000
    ensures !base.machine.isDone(Progress(hash, ids, r, me, []))
  {
  }

  /** Emptying one mailbox leaves the other parties as they are. */
  lemma OthersUntouched(hash: Hash, base: ToyConfig, ids: seq<u16>, r: u16, me: u16, st: State<Toy, Msg>,
                        net: Network.NetState, heard: bool, other: u16)
    requires 2 <= |ids| < 0x1_0000 && me != other && Receiver(hash, base, ids, r, me, st, net, heard)
    ensures Receiver(hash, base, ids, r, me, st, Network.Emptied(net, other), heard)
  {
  }

  lemma OwnEmptied(
      hash: Hash, base: ToyConfig, ids: seq<u16>, r: u16, me: u16, before: State<Toy, Msg>, st: State<Toy, Msg>,
      net: Network.NetState)
    requires 2 <= |ids| < 0x1_0000 && Receiver(hash, base, ids, r, me, before, net, false)
    requires RunnerAt(hash, ids, r, me, Others(ids, me), st)
    ensures Receiver(hash, base, ids, r, me, st, Network.Emptied(net, me), true)
  {
  }

  lemma HeardAtNext(
      hash: Hash, base: ToyConfig, ids: seq<u16>, r: u16, w: ToySession, k: nat, st: State<Toy, Msg>, j: nat)
    requires Parties(ids) && k < |ids| && j < |ids| && Sized(w, |ids|)
    requires Receiver(hash, base, ids, r, ids[j], w.runners[j], w.net, j < k)
    requires RunnerAt(hash, ids, r, ids[k], Others(ids, ids[k]), st)
    ensures Receiver(hash, base, ids, r, ids[j], w.runners[k := st][j], Network.Emptied(w.net, ids[k]), j < k + 1)
  {
    if j == k {
      OwnEmptied(hash, base, ids, r, ids[k], w.runners[k], st, w.net);
    } else {
      assert ids[j] != ids[k];
      OthersUntouched(hash, base, ids, r, ids[j], w.runners[j], w.net, j < k, ids[k]);
      assert (j < k + 1) == (j < k);
    }
  }

  lemma HeardByNext(hash: Hash, base: ToyConfig, ids: seq<u16>, r: u16, w: ToySession, k: nat, st: State<Toy, Msg>)
    requires Parties(ids) && k < |ids| && HeardBy(hash, base, ids, r, w, k)
    requires RunnerAt(hash, ids, r, ids[k], Others(ids, ids[k]), st)
    ensures HeardBy(hash, base, ids, r, Session(w.runners[k := st], w.results, Network.Emptied(w.net, ids[k])), k + 1)
  {
    var w' := Session(w.runners[k := st], w.results, Network.Emptied(w.net, ids[k]));
    assert Unsettled(w', |ids|);
    forall j | 0 <= j < |ids|
      ensures Receiver(hash, base, ids, r, ids[j], w'.runners[j], w'.net, j < k + 1)
    {
      HeardAtNext(hash, base, ids, r, w, k, st, j);
    }
  }

  lemma Received(
      hash: Hash, base: ToyConfig, ids: seq<u16>, r: u16, w: ToySession, k: nat) returns (st: State<Toy, Msg>)
    requires Configured(hash, base) && Parties(ids) && (r == 1 || r == 2) && k < |ids|
    requires Unsettled(w, |ids|) && Receiver(hash, base, ids, r, ids[k], w.runners[k], w.net, false)
    ensures RunnerAt(hash, ids, r, ids[k], Others(ids, ids[k]), st)
    ensures ReceivingOne(base, ids, w, k) == Session(w.runners[k := st], w.results, Network.Emptied(w.net, ids[k]))
  {
    NotDoneYet(hash, base, ids, r, ids[k]);
    MailboxAccepted(hash, base, ids, k, r, w.runners[k]);
    st := Decoded(ConfigOf(base, ids, k), w.runners[k], Network.Mailbox(w.net, ids[k])).state;
  }

  lemma ReceivingStep(hash: Hash, base: ToyConfig, ids: seq<u16>, r: u16, w: ToySession, k: nat)
    requires Configured(hash, base) && Parties(ids) && (r == 1 || r == 2) && k < |ids|
    requires HeardBy(hash, base, ids, r, w, k)
    ensures HeardBy(hash, base, ids, r, ReceivingOne(base, ids, w, k), k + 1)
  {
    assert Receiver(hash, base, ids, r, ids[k], w.runners[k], w.net, false);
    var st := Received(hash, base, ids, r, w, k);
    HeardByNext(hash, base, ids, r, w, k, st);
  }

  lemma ReceivingRound(hash: Hash, base: ToyConfig, ids: seq<u16>, r: u16, w: ToySession)
    requires Configured(hash, base) && Parties(ids) && (r == 1 || r == 2)
    requires HeardBy(hash, base, ids, r, w, 0)
    ensures HeardBy(hash, base, ids, r, Receiving(base, ids, w, |ids|), |ids|)
  {
    var inv := (v: ToySession, i: nat) => i <= |ids| && HeardBy(hash, base, ids, r, v, i);
    forall v: ToySession, i: nat | i < |ids| && inv(v, i)
      ensures inv(ReceiveStep(base, ids)(v, i), i + 1)
    {
      ReceivingStep(hash, base, ids, r, v, i);
    }
    FoldInvariant(ReceiveStep(base, ids), inv, w, |ids|, |ids|);
  }

  /** After phase 1 of a round everything is in the mailboxes. */
  lemma SentIsUnheard(hash: Hash, base: ToyConfig, ids: seq<u16>, r: u16, w: ToySession)
    requires 2 <= |ids| < 0x1_0000 && SentBy(hash, base, ids, r, w, |ids|)
    ensures HeardBy(hash, base, ids, r, w, 0)
  {
    assert ids[..|ids|] == ids;
    forall j | 0 <= j < |ids|
      ensures Receiver(hash, base, ids, r, ids[j], w.runners[j], w.net, j < 0)
    {
      assert Sender(hash, ids, r, ids[j], w.runners[j], j < |ids|);
      assert Box(hash, base, r, w.net, ids[j], Others(ids[..|ids|], ids[j]));
    }
  }

  lemma NotClosing(hash: Hash, base: ToyConfig, ids: seq<u16>, w: ToySession, k: nat)
    requires Configured(hash, base) && 2 <= |ids| < 0x1_0000 && k < |ids| && HeardBy(hash, base, ids, 1, w, |ids|)
    ensures ClosingOne(base, ids, w, k) == w
  {
    assert Receiver(hash, base, ids, 1, ids[k], w.runners[k], w.net, k < |ids|);
  }

  lemma NobodyCloses(hash: Hash, base: ToyConfig, ids: seq<u16>, w: ToySession)
    requires Configured(hash, base) && 2 <= |ids| < 0x1_0000 && HeardBy(hash, base, ids, 1, w, |ids|)
    ensures Closing(base, ids, w, |ids|) == w
  {
    var inv := (v: ToySession, i: nat) => v == w;
    forall v: ToySession, i: nat | i < |ids| && inv(v, i)
      ensures inv(CloseStep(base, ids)(v, i), i + 1)
    {
      NotClosing(hash, base, ids, w, i);
    }
    FoldInvariant(CloseStep(base, ids), inv, w, |ids|, |ids|);
  }

  lemma ReadyForSecond(hash: Hash, base: ToyConfig, ids: seq<u16>, w: ToySession)
    requires Parties(ids) && HeardBy(hash, base, ids, 1, w, |ids|)
    ensures AtStart(hash, base, ids, 2, w)
  {
    assert ids[..0] == [];
    assert Triples(2, []) == {};
    forall j | 0 <= j < |ids|
      ensures Sender(hash, ids, 2, ids[j], w.runners[j], j < 0)
      ensures Box(hash, base, 2, w.net, ids[j], Others(ids[..0], ids[j]))
    {
      assert Receiver(hash, base, ids, 1, ids[j], w.runners[j], w.net, j < |ids|);
      AllHeard(hash, ids, ids[j]);
    }
  }

  /** Phases 1 and 2: everyone has sent, and everyone has heard everyone. */
  lemma EveryoneHeard(hash: Hash, base: ToyConfig, ids: seq<u16>, r: u16, w: ToySession)
    requires Configured(hash, base) && Parties(ids) && (r == 1 || r == 2) && AtStart(hash, base, ids, r, w)
    ensures HeardBy(hash, base, ids, r, Receiving(base, ids, Sending(base, ids, w, |ids|), |ids|), |ids|)
  {
    SendingRound(hash, base, ids, r, w);
    var sent := Sending(base, ids, w, |ids|);
    SentIsUnheard(hash, base, ids, r, sent);
    ReceivingRound(hash, base, ids, r, sent);
  }

  /** The first wire round ends where the second begins. */
  lemma FirstRound(hash: Hash, base: ToyConfig, ids: seq<u16>, w: ToySession)
    requires Configured(hash, base) && Parties(ids) && AtStart(hash, base, ids, 1, w)
    ensures AtStart(hash, base, ids, 2, WireRound(base, ids, w))
  {
    EveryoneHeard(hash, base, ids, 1, w);
    var heard := Receiving(base, ids, Sending(base, ids, w, |ids|), |ids|);
    NobodyCloses(hash, base, ids, heard);
    ReadyForSecond(hash, base, ids, heard);
  }

  /** During phase 3 of the last round: the first k have given their output. */
  ghost predicate ClosedBy(hash: Hash, ids: seq<u16>, w: ToySession, k: nat)
    requires 2 <= |ids| < 0x1_0000 && k <= |ids|
  {
    && Sized(w, |ids|)
    && (forall j :: 0 <= j < |ids| ==> RunnerAt(hash, ids, 2, ids[j], Others(ids, ids[j]), w.runners[j]))
    && forall j :: 0 <= j < |ids| ==> w.results[j] == if j < k then Some(Ok(GroupKey(hash, ids))) else None
  }

  lemma Closed(hash: Hash, base: ToyConfig, ids: seq<u16>, w: ToySession, k: nat) returns (st: State<Toy, Msg>)
    requires Configured(hash, base) && Parties(ids) && k < |ids| && ClosedBy(hash, ids, w, k)
    ensures RunnerAt(hash, ids, 2, ids[k], Others(ids, ids[k]), st)
    ensures ClosingOne(base, ids, w, k).runners == w.runners[k := st]
    ensures ClosingOne(base, ids, w, k).results == w.results[k := Some(Ok(GroupKey(hash, ids)))]
  {
    AllHeard(hash, ids, ids[k]);
    st := Emitted(ConfigOf(base, ids, k), w.runners[k]).0;
  }

  lemma ClosingStep(hash: Hash, base: ToyConfig, ids: seq<u16>, w: ToySession, k: nat)
    requires Configured(hash, base) && Parties(ids) && k < |ids| && ClosedBy(hash, ids, w, k)
    ensures ClosedBy(hash, ids, ClosingOne(base, ids, w, k), k + 1)
  {
    var st := Closed(hash, base, ids, w, k);
    ClosedNext(hash, ids, w, k, ClosingOne(base, ids, w, k), st);
  }

  lemma ClosedNext(hash: Hash, ids: seq<u16>, w: ToySession, k: nat, w': ToySession, st: State<Toy, Msg>)
    requires 2 <= |ids| < 0x1_0000 && k < |ids| && ClosedBy(hash, ids, w, k)
    requires RunnerAt(hash, ids, 2, ids[k], Others(ids, ids[k]), st)
    requires w'.runners == w.runners[k := st] && w'.results == w.results[k := Some(Ok(GroupKey(hash, ids)))]
    ensures ClosedBy(hash, ids, w', k + 1)
  {
    forall j | 0 <= j < |ids|
      ensures RunnerAt(hash, ids, 2, ids[j], Others(ids, ids[j]), w'.runners[j])
      ensures w'.results[j] == if j < k + 1 then Some(Ok(GroupKey(hash, ids))) else None
    {
      if j != k {
        assert w'.runners[j] == w.runners[j] && w'.results[j] == w.results[j];
      }
    }
  }

  lemma ClosingRound(hash: Hash, base: ToyConfig, ids: seq<u16>, w: ToySession)
    requires Configured(hash, base) && Parties(ids) && ClosedBy(hash, ids, w, 0)
    ensures ClosedBy(hash, ids, Closing(base, ids, w, |ids|), |ids|)
  {
    var inv := (v: ToySession, i: nat) => i <= |ids| && ClosedBy(hash, ids, v, i);
    forall v: ToySession, i: nat | i < |ids| && inv(v, i)
      ensures inv(CloseStep(base, ids)(v, i), i + 1)
    {
      ClosingStep(hash, base, ids, v, i);
    }
    FoldInvariant(CloseStep(base, ids), inv, w, |ids|, |ids|);
  }

  lemma HeardIsClosing(hash: Hash, base: ToyConfig, ids: seq<u16>, w: ToySession)
    requires Parties(ids) && HeardBy(hash, base, ids, 2, w, |ids|)
    ensures ClosedBy(hash, ids, w, 0)
  {
    forall j | 0 <= j < |ids|
      ensures RunnerAt(hash, ids, 2, ids[j], Others(ids, ids[j]), w.runners[j])
    {
      assert Receiver(hash, base, ids, 2, ids[j], w.runners[j], w.net, j < |ids|);
    }
  }

  /** After the second wire round every party holds the common output. */
  lemma SecondRound(hash: Hash, base: ToyConfig, ids: seq<u16>, w: ToySession)
    requires Configured(hash, base) && Parties(ids) && AtStart(hash, base, ids, 2, w)
    ensures var w' := WireRound(base, ids, w);
            ClosedBy(hash, ids, w', |ids|)
  {
    EveryoneHeard(hash, base, ids, 2, w);
    var heard := Receiving(base, ids, Sending(base, ids, w, |ids|), |ids|);
    HeardIsClosing(hash, base, ids, heard);
    ClosingRound(hash, base, ids, heard);
  }

  // ---- whole sessions -----------------------------------------------------------------------------------

  /** Every party has an empty mailbox. */
  predicate EmptyBoxes(ids: seq<u16>, net: Network.NetState) {
    forall j :: 0 <= j < |ids| ==> ids[j] in net.mailboxes && net.mailboxes[ids[j]] == []
  }

  lemma StartIsReady(hash: Hash, base: ToyConfig, ids: seq<u16>, net: Network.NetState)
    requires Configured(hash, base) && Parties(ids) && EmptyBoxes(ids, net)
    ensures AtStart(hash, base, ids, 1, WireDriver.Started(base, ids, Machines(hash, ids), net))
  {
    assert Commitments(hash, []) == map[];
    assert Triples(1, []) == {};
    assert ids[..0] == [];
    var w := WireDriver.Started(base, ids, Machines(hash, ids), net);
    forall j | 0 <= j < |ids|
      ensures Sender(hash, ids, 1, ids[j], w.runners[j], j < 0)
      ensures Box(hash, base, 1, w.net, ids[j], Others(ids[..0], ids[j]))
    {
    }
  }

  /** Two rounds from the start. */
  lemma TwoRounds(hash: Hash, base: ToyConfig, ids: seq<u16>, w: ToySession)
    requires Configured(hash, base) && Parties(ids) && AtStart(hash, base, ids, 1, w)
    ensures var w2 := WireRound(base, ids, w);
            var w3 := WireRound(base, ids, w2);
            && Unsettled(w, |ids|) && Unsettled(w2, |ids|)
            && ClosedBy(hash, ids, w3, |ids|)
  {
    FirstRound(hash, base, ids, w);
    SecondRound(hash, base, ids, WireRound(base, ids, w));
  }

  lemma UnsettledRun(base: ToyConfig, ids: seq<u16>, w: ToySession, rounds: nat)
    requires |ids| > 0 && Unsettled(w, |ids|)
    ensures WireRun(base, ids, w, rounds) == if rounds == 0 then w else WireRun(base, ids, WireRound(base, ids, w), rounds - 1)
  {
    assert w.results[0].None?;
  }

  /** The results of the wire driver, for every round limit. */
  lemma WireResults(hash: Hash, base: ToyConfig, ids: seq<u16>, w: ToySession, rounds: nat)
    requires Configured(hash, base) && Parties(ids) && AtStart(hash, base, ids, 1, w)
    ensures forall j :: 0 <= j < |ids| ==>
              WireRun(base, ids, w, rounds).results[j] == if rounds >= 2 then Some(Ok(GroupKey(hash, ids))) else None
    ensures rounds >= 2 ==> ClosedBy(hash, ids, WireRun(base, ids, w, rounds), |ids|)
  {
    TwoRounds(hash, base, ids, w);
    var w2 := WireRound(base, ids, w);
    var w3 := WireRound(base, ids, w2);
    UnsettledRun(base, ids, w, rounds);
    if rounds >= 1 {
      UnsettledRun(base, ids, w2, rounds - 1);
    }
    if rounds >= 2 {
      ClosedStays(hash, base, ids, w3, rounds - 2);
    }
  }

  /** When everyone has given its output the run is over. */
  lemma ClosedStays(hash: Hash, base: ToyConfig, ids: seq<u16>, w: ToySession, rounds: nat)
    requires 2 <= |ids| < 0x1_0000 && ClosedBy(hash, ids, w, |ids|)
    ensures WireRun(base, ids, w, rounds) == w
  {
    assert Settled(w);
  }

  /** Agreement and termination over the wire: with two rounds allowed every party returns the
      same output; with fewer, every party reports the exceeded limit. */
  lemma WireAgrees(hash: Hash, base: ToyConfig, ids: seq<u16>, net: Network.NetState, rounds: nat)
    requires Configured(hash, base) && Parties(ids) && EmptyBoxes(ids, net)
    ensures var w := WireRun(base, ids, WireDriver.Started(base, ids, Machines(hash, ids), net), rounds);
            Returned(w.results, rounds)
            == seq(|ids|, _ => if rounds >= 2 then Ok(GroupKey(hash, ids)) else Err(MaxRoundsExceeded(rounds)))
  {
    var w1 := WireDriver.Started(base, ids, Machines(hash, ids), net);
    StartIsReady(hash, base, ids, net);
    WireResults(hash, base, ids, w1, rounds);
  }

  /** Both drivers give every party the same output, and one succeeds exactly when the other does. */
  lemma DriversAgree(hash: Hash, base: ToyConfig, ids: seq<u16>, net: Network.NetState, rounds: nat, j: nat)
    requires Configured(hash, base) && Parties(ids) && EmptyBoxes(ids, net) && j < |ids|
    ensures var direct := Drivers.OrchestratorOutputs(base.machine, ids, Machines(hash, ids), rounds);
            var wire := Returned(WireRun(base, ids, WireDriver.Started(base, ids, Machines(hash, ids), net), rounds).results,
                                 rounds);
            && direct.Some? && |direct.value| == |wire| == |ids|
            && (direct.value[j].Some? <==> wire[j].Ok?)
            && (wire[j].Ok? ==> direct.value[j] == Some(wire[j].value))
  {
    OrchestratorAgrees(hash, ids, rounds);
    WireAgrees(hash, base, ids, net, rounds);
  }

  // ---- a session of one party ---------------------------------------------------------------------------

  predicate Quiet(t: Toy) {
    !t.done && |t.outbox| <= 1 && (|t.outbox| == 1 ==> t.outbox[0].to == Broadcast)
  }

  /** A lone party that is not done, with at most one broadcast to send, and nothing for it to read. */
  ghost predicate Lone(id: u16, w: ToySession) {
    && Sized(w, 1) && w.results[0].None? && w.runners[0].future == map[]
    && Network.Mailbox(w.net, id) == []
    && Quiet(w.runners[0].machine)
  }

  /** A broadcast does not reach its sender. */
  lemma LoneBroadcast(cfg: ToyConfig, round: u16, outs: seq<Outgoing<Msg>>, net: Network.NetState, id: u16)
    requires |outs| <= 1 && (|outs| == 1 ==> outs[0].to == Broadcast)
    ensures var encoded := EncodedAll(cfg, round, outs);
            Network.Mailbox(Carried(net, id, encoded, |encoded|), id) == Network.Mailbox(net, id)
  {
    if outs != [] {
      assert outs[..0] == [];
      var bytes := EncodedMessage(cfg, round, outs[0]);
      assert EncodedAll(cfg, round, outs) == EncodedAll(cfg, round, []) + [(Broadcast, bytes)] == [(Broadcast, bytes)];
      CarriedOne(net, id, bytes);
    }
  }

  lemma LoneSends(hash: Hash, base: ToyConfig, id: u16, w: ToySession)
    requires Configured(hash, base) && Lone(id, w)
    ensures Lone(id, SendingOne(base, [id], w, 0))
  {
    var (s, outs) := base.machine.drain(w.runners[0].machine);
    LoneBroadcast(ConfigOf(base, [id], 0), base.machine.round(s), outs, w.net, id);
  }

  lemma LoneReceives(hash: Hash, base: ToyConfig, id: u16, w: ToySession)
    requires Configured(hash, base) && Lone(id, w)
    ensures Lone(id, ReceivingOne(base, [id], w, 0))
  {
    NothingToFlush(ConfigOf(base, [id], 0), w.runners[0]);
  }

  lemma LoneWireRound(hash: Hash, base: ToyConfig, id: u16, w: ToySession)
    requires Configured(hash, base) && Lone(id, w)
    ensures Lone(id, WireRound(base, [id], w))
  {
    var sent := SendingOne(base, [id], w, 0);
    LoneSends(hash, base, id, w);
    LoneReceives(hash, base, id, sent);
    assert Fold(SendStep(base, [id]), w, 0) == w && Sending(base, [id], w, 1) == sent;
    assert Fold(ReceiveStep(base, [id]), sent, 0) == sent;
    var received := ReceivingOne(base, [id], sent, 0);
    assert Receiving(base, [id], sent, 1) == received;
    assert Fold(CloseStep(base, [id]), received, 0) == received;
    assert Closing(base, [id], received, 1) == received;
  }

  lemma {:induction false} LoneWireRun(hash: Hash, base: ToyConfig, id: u16, w: ToySession, rounds: nat)
    requires Configured(hash, base) && Lone(id, w)
    ensures Lone(id, WireRun(base, [id], w, rounds))
    decreases rounds
  {
    if rounds > 0 {
      LoneWireRound(hash, base, id, w);
      LoneWireRun(hash, base, id, WireRound(base, [id], w), rounds - 1);
      UnsettledRun(base, [id], w, rounds);
    }
  }

  /** Over the wire, too, a session of one party never finishes: it reports the exceeded limit. */
  lemma LonePartyExceedsLimit(hash: Hash, base: ToyConfig, id: u16, net: Network.NetState, rounds: nat)
    requires Configured(hash, base) && Network.Mailbox(net, id) == []
    ensures var w := WireRun(base, [id], WireDriver.Started(base, [id], Machines(hash, [id]), net), rounds);
            Returned(w.results, rounds) == [Err(MaxRoundsExceeded(rounds))]
  {
    LoneWireRun(hash, base, id, WireDriver.Started(base, [id], Machines(hash, [id]), net), rounds);
  }
}
