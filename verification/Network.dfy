/** The in-process network: one mailbox per party, synchronous delivery, traffic counters. */
module Network {
  import opened Codec

  datatype PartyMetrics = PartyMetrics(bytesSent: nat, bytesReceived: nat, messagesSent: nat, messagesReceived: nat)

  const NO_TRAFFIC := PartyMetrics(0, 0, 0, 0)

  type PerParty = map<u16, PartyMetrics>

  type Mail = seq<(u16, Bytes)>

  datatype NetState = NetState(mailboxes: map<u16, Mail>, perParty: PerParty, totalBytes: nat, totalMessages: nat)

  /** `entry(p).or_default()` */
  function Entry(m: PerParty, p: u16): PartyMetrics {
    if p in m then m[p] else NO_TRAFFIC
  }

  function CountSent(m: PerParty, p: u16, bytes: nat, messages: nat): PerParty {
    var e := Entry(m, p);
    m[p := e.(bytesSent := e.bytesSent + bytes, messagesSent := e.messagesSent + messages)]
  }

  function CountReceived(m: PerParty, p: u16, bytes: nat): PerParty {
    var e := Entry(m, p);
    m[p := e.(bytesReceived := e.bytesReceived + bytes, messagesReceived := e.messagesReceived + 1)]
  }

  /** Every member of a set receives one message of this size. */
  function CountReceivedAll(m: PerParty, s: set<u16>, bytes: nat): PerParty {
    map k | k in m.Keys + s ::
      if k in s then CountReceived(m, k, bytes)[k] else m[k]
  }

  // ---- the operations on values ----------------------------------------------------------

  /** `send`: unknown recipients lose the message but are counted. */
  function Sent(ns: NetState, from: u16, to: u16, data: Bytes): NetState {
    NetState(if to in ns.mailboxes then ns.mailboxes[to := ns.mailboxes[to] + [(from, data)]] else ns.mailboxes,
             CountReceived(CountSent(ns.perParty, from, |data|, 1), to, |data|),
             ns.totalBytes + |data|, ns.totalMessages + 1)
  }

  function Recipients(ns: NetState, from: u16): set<u16> {
    ns.mailboxes.Keys - {from}
  }

  /** One message appended to the mailboxes of a set. */
  function Appended(mb: map<u16, Mail>, s: set<u16>, from: u16, data: Bytes): map<u16, Mail> {
    map k | k in mb :: if k in s then mb[k] + [(from, data)] else mb[k]
  }

  function Volume(bytes: nat, messages: nat): nat {
    bytes * messages
  }

  /** `broadcast`: every mailbox but the sender's. */
  function Broadcasted(ns: NetState, from: u16, data: Bytes): NetState {
    var rs := Recipients(ns, from);
    var bytes := Volume(|data|, |rs|);
    NetState(Appended(ns.mailboxes, rs, from, data),
             CountSent(CountReceivedAll(ns.perParty, rs, |data|), from, bytes, |rs|),
             ns.totalBytes + bytes, ns.totalMessages + |rs|)
  }

  /** What `receive` hands over, and the emptied mailbox. */
  function Mailbox(ns: NetState, party: u16): Mail {
    if party in ns.mailboxes then ns.mailboxes[party] else []
  }

  function Emptied(ns: NetState, party: u16): NetState {
    if party in ns.mailboxes then ns.(mailboxes := ns.mailboxes[party := []]) else ns
  }

  lemma AppendedStep(mb: map<u16, Mail>, s: set<u16>, key: u16, from: u16, data: Bytes)
    requires key in mb && key !in s
    ensures Appended(mb, s + {key}, from, data)
            == Appended(mb, s, from, data)[key := Appended(mb, s, from, data)[key] + [(from, data)]]
  {
  }

  lemma CountedStep(m: PerParty, s: set<u16>, key: u16, bytes: nat)
    requires key !in s
    ensures CountReceivedAll(m, s + {key}, bytes) == CountReceived(CountReceivedAll(m, s, bytes), key, bytes)
  {
  }

  lemma PickStep(all: set<u16>, keys: set<u16>, done: set<u16>, key: u16, from: u16)
    requires keys <= all && done == all - keys - {from} && key in keys
    ensures key !in done && key in all && |keys - {key}| < |keys|
    ensures all - (keys - {key}) - {from} == if key == from then done else done + {key}
  {
  }

  lemma NothingDone(mb: map<u16, Mail>, m: PerParty, from: u16, data: Bytes)
    ensures Appended(mb, {}, from, data) == mb && CountReceivedAll(m, {}, |data|) == m
  {
  }

  /** One recipient served: what is left to visit, and what the maps are then. */
  lemma PostStep(mb: map<u16, Mail>, m: PerParty, keys: set<u16>, key: u16, from: u16, data: Bytes)
    requires keys <= mb.Keys && key in keys
    ensures var before, after := Served(mb, keys, from), Served(mb, keys - {key}, from);
            var boxes, counts := Appended(mb, before, from, data), CountReceivedAll(m, before, |data|);
            && key in boxes
            && Appended(mb, after, from, data)
               == (if key == from then boxes else boxes[key := boxes[key] + [(from, data)]])
            && CountReceivedAll(m, after, |data|)
               == (if key == from then counts else CountReceived(counts, key, |data|))
  {
    PickStep(mb.Keys, keys, Served(mb, keys, from), key, from);
    if key != from {
      AppendedStep(mb, Served(mb, keys, from), key, from, data);
      CountedStep(m, Served(mb, keys, from), key, |data|);
    }
  }

  /** The recipients served when these keys are left to visit. */
  ghost function Served(mb: map<u16, Mail>, keys: set<u16>, from: u16): set<u16> {
    mb.Keys - keys - {from}
  }

  lemma ServedEnds(mb: map<u16, Mail>, from: u16)
    ensures Served(mb, mb.Keys, from) == {} && Served(mb, {}, from) == mb.Keys - {from}
  {
  }

  /** The mailboxes are visited in an arbitrary order, which the result does not show. */
  method PostAll(mb: map<u16, Mail>, m: PerParty, from: u16, data: Bytes)
    returns (mailboxes: map<u16, Mail>, perParty: PerParty)
    ensures mailboxes == Appended(mb, mb.Keys - {from}, from, data)
    ensures perParty == CountReceivedAll(m, mb.Keys - {from}, |data|)
  {
    mailboxes, perParty := mb, m;
    var keys := mb.Keys;
    NothingDone(mb, m, from, data);
    ServedEnds(mb, from);
    while keys != {}
      invariant keys <= mb.Keys
      invariant mailboxes == Appended(mb, Served(mb, keys, from), from, data)
      invariant perParty == CountReceivedAll(m, Served(mb, keys, from), |data|)
      decreases |keys|
    {
      var key :| key in keys;
      PostStep(mb, m, keys, key, from, data);
      if key != from {
        mailboxes := mailboxes[key := mailboxes[key] + [(from, data)]];
        perParty := CountReceived(perParty, key, |data|);
      }
      keys := keys - {key};
    }
  }

  // ---- the mutable network ------------------------------------------------------------------

  class InMemoryNetwork {
    const n: u16
    var mailboxes: map<u16, Mail>
    var perParty: PerParty
    var totalBytes: nat
    var totalMessages: nat

    ghost function Value(): NetState
      reads this
    {
      NetState(mailboxes, perParty, totalBytes, totalMessages)
    }

    /** `from_party_ids`: the party count is the list length as a 16-bit cast. */
    constructor FromPartyIds(ids: seq<u16>)
      ensures Value() == NetState(map p | p in ids :: [], map[], 0, 0)
      ensures n as int == |ids| % 0x1_0000
    {
      n := |ids| % 0x1_0000;
      mailboxes, perParty, totalBytes, totalMessages := map[], map[], 0, 0;
      new;
      for i := 0 to |ids|
        invariant mailboxes == map p | p in ids[..i] :: []
        invariant perParty == map[] && totalBytes == totalMessages == 0
      {
        mailboxes := mailboxes[ids[i] := []];
        assert ids[..i + 1] == ids[..i] + [ids[i]];
      }
      assert ids[..|ids|] == ids;
    }

    method Send(from: u16, to: u16, data: Bytes)
      modifies this
      ensures Value() == Sent(old(Value()), from, to, data)
    {
      if to in mailboxes {
        mailboxes := mailboxes[to := mailboxes[to] + [(from, data)]];
      }
      totalBytes := totalBytes + |data|;
      totalMessages := totalMessages + 1;
      perParty := CountSent(perParty, from, |data|, 1);
      perParty := CountReceived(perParty, to, |data|);
    }

    method Broadcast(from: u16, data: Bytes)
      modifies this
      ensures Value() == Broadcasted(old(Value()), from, data)
    {
      var count := |mailboxes.Keys - {from}|;
      var bytes := Volume(|data|, count);
      mailboxes, perParty := PostAll(mailboxes, perParty, from, data);
      totalBytes := totalBytes + bytes;
      totalMessages := totalMessages + count;
      perParty := CountSent(perParty, from, bytes, count);
    }

    method Receive(party: u16) returns (mail: Mail)
      modifies this
      ensures mail == Mailbox(old(Value()), party) && Value() == Emptied(old(Value()), party)
    {
      if party !in mailboxes {
        return [];
      }
      mail := mailboxes[party];
      mailboxes := mailboxes[party := []];
    }
  }

  // ---- runs --------------------------------------------------------------------------------------

  datatype Op = Send(from: u16, to: u16, data: Bytes) | Broadcast(from: u16, data: Bytes) | Receive(party: u16)

  function Apply(ns: NetState, op: Op): NetState {
    match op
    case Send(from, to, data) => Sent(ns, from, to, data)
    case Broadcast(from, data) => Broadcasted(ns, from, data)
    case Receive(party) => Emptied(ns, party)
  }

  function Run(ns: NetState, ops: seq<Op>): NetState {
    if ops == [] then ns else Apply(Run(ns, ops[..|ops| - 1]), ops[|ops| - 1])
  }

  /** What one operation puts into p's mailbox. */
  function Posted(op: Op, p: u16): Mail {
    match op
    case Send(from, to, data) => if to == p then [(from, data)] else []
    case Broadcast(from, data) => if from != p then [(from, data)] else []
    case Receive(_) => []
  }

  /** What one operation hands to p. */
  function Handed(ns: NetState, op: Op, p: u16): Mail {
    if op == Receive(p) then Mailbox(ns, p) else []
  }

  function AllPosted(ops: seq<Op>, p: u16): Mail {
    if ops == [] then [] else AllPosted(ops[..|ops| - 1], p) + Posted(ops[|ops| - 1], p)
  }

  function AllHanded(ns: NetState, ops: seq<Op>, p: u16): Mail {
    if ops == [] then []
    else
      var before := ops[..|ops| - 1];
      AllHanded(ns, before, p) + Handed(Run(ns, before), ops[|ops| - 1], p)
  }

  lemma {:induction false} MailboxesStay(ns: NetState, ops: seq<Op>)
    ensures Run(ns, ops).mailboxes.Keys == ns.mailboxes.Keys
  {
    if ops != [] {
      MailboxesStay(ns, ops[..|ops| - 1]);
    }
  }

  lemma SendDelivers(ns: NetState, from: u16, to: u16, data: Bytes, p: u16)
    requires p in ns.mailboxes
    ensures Mailbox(Sent(ns, from, to, data), p) == Mailbox(ns, p) + Posted(Send(from, to, data), p)
  {
    assert ns.mailboxes[p] + [] == ns.mailboxes[p];
  }

  lemma BroadcastDelivers(ns: NetState, from: u16, data: Bytes, p: u16)
    requires p in ns.mailboxes
    ensures Mailbox(Broadcasted(ns, from, data), p) == Mailbox(ns, p) + Posted(Broadcast(from, data), p)
  {
    assert ns.mailboxes[p] + [] == ns.mailboxes[p];
  }

  lemma StepDelivers(ns: NetState, op: Op, p: u16)
    requires p in ns.mailboxes
    ensures Handed(ns, op, p) + Mailbox(Apply(ns, op), p) == Mailbox(ns, p) + Posted(op, p)
  {
    match op
    case Send(from, to, data) =>
      SendDelivers(ns, from, to, data, p);
      assert [] + Mailbox(Apply(ns, op), p) == Mailbox(Apply(ns, op), p);
    case Broadcast(from, data) =>
      BroadcastDelivers(ns, from, data, p);
      assert [] + Mailbox(Apply(ns, op), p) == Mailbox(Apply(ns, op), p);
    case Receive(q) =>
      ReceiveDelivers(ns, q, p);
  }

  lemma ReceiveDelivers(ns: NetState, q: u16, p: u16)
    requires p in ns.mailboxes
    ensures (if q == p then Mailbox(ns, p) else []) + Mailbox(Emptied(ns, q), p) == Mailbox(ns, p) + []
  {
    var mail := ns.mailboxes[p];
    assert [] + mail == mail == mail + [];
  }

  lemma Regroup(a: Mail, h: Mail, m: Mail, b: Mail, s: Mail, q: Mail, posted: Mail)
    requires a + m == b + s && h + q == m + posted
    ensures (a + h) + q == b + (s + posted)
  {
    assert (a + h) + q == a + (h + q);
    assert a + (m + posted) == (a + m) + posted;
    assert (b + s) + posted == b + (s + posted);
  }

  /** Delivery is lossless, in order and exactly once: over every run, what a known party was
      handed followed by what still waits is what was posted to it; an unknown party is handed
      nothing. */
  lemma {:induction false} Lossless(ns: NetState, ops: seq<Op>, p: u16)
    ensures p in ns.mailboxes
            ==> AllHanded(ns, ops, p) + Mailbox(Run(ns, ops), p) == Mailbox(ns, p) + AllPosted(ops, p)
    ensures p !in ns.mailboxes ==> AllHanded(ns, ops, p) == []
  {
    if ops != [] {
      var before, op := ops[..|ops| - 1], ops[|ops| - 1];
      Lossless(ns, before, p);
      MailboxesStay(ns, before);
      var mid := Run(ns, before);
      if p in ns.mailboxes {
        StepDelivers(mid, op, p);
        Regroup(AllHanded(ns, before, p), Handed(mid, op, p), Mailbox(mid, p), Mailbox(ns, p), AllPosted(before, p),
                Mailbox(Apply(mid, op), p), Posted(op, p));
      }
    }
  }

  // ---- the counters agree ------------------------------------------------------------------------

  datatype Counter = BytesOut | BytesIn | MessagesOut | MessagesIn

  function Read(e: PartyMetrics, c: Counter): nat {
    match c
    case BytesOut => e.bytesSent
    case BytesIn => e.bytesReceived
    case MessagesOut => e.messagesSent
    case MessagesIn => e.messagesReceived
  }

  /** A counter summed over the parties below a bound. */
  function Total(m: PerParty, c: Counter, bound: nat): nat
    requires bound <= 0x1_0000
  {
    if bound == 0 then 0 else Total(m, c, bound - 1) + Read(Entry(m, bound - 1), c)
  }

  function Below(s: set<u16>, bound: nat): nat
    requires bound <= 0x1_0000
  {
    if bound == 0 then 0 else Below(s, bound - 1) + if bound - 1 in s then 1 else 0
  }

  lemma {:induction false} BelowIsSize(s: set<u16>, bound: nat)
    requires bound <= 0x1_0000
    ensures Below(s, bound) == |set x | x in s && x < bound|
  {
    var upTo := set x | x in s && x < bound;
    if bound == 0 {
      assert upTo == {};
    } else {
      BelowIsSize(s, bound - 1);
      var smaller := set x | x in s && x < bound - 1;
      assert upTo == if bound - 1 in s then smaller + {bound - 1} else smaller;
    }
  }

  lemma {:induction false} TotalOfUpdate(m: PerParty, p: u16, e: PartyMetrics, c: Counter, bound: nat)
    requires bound <= 0x1_0000
    ensures Total(m[p := e], c, bound)
            == Total(m, c, bound) + if p < bound then Read(e, c) - Read(Entry(m, p), c) else 0
  {
    if bound > 0 {
      TotalOfUpdate(m, p, e, c, bound - 1);
    }
  }

  /** A weight for every member of a set below a bound. */
  function Weighted(s: set<u16>, w: nat, bound: nat): nat
    requires bound <= 0x1_0000
  {
    if bound == 0 then 0 else Weighted(s, w, bound - 1) + if bound - 1 in s then w else 0
  }

  lemma {:induction false} WeightedIsVolume(s: set<u16>, w: nat, bound: nat)
    requires bound <= 0x1_0000
    ensures Weighted(s, w, bound) == Volume(w, Below(s, bound))
  {
    if bound > 0 {
      WeightedIsVolume(s, w, bound - 1);
    }
  }

  /** What one message of this size adds to a recipient's counter. */
  function Gain(c: Counter, bytes: nat): nat {
    match c
    case BytesIn => bytes
    case MessagesIn => 1
    case _ => 0
  }

  lemma EntryOfAll(m: PerParty, s: set<u16>, bytes: nat, c: Counter, p: u16)
    ensures Read(Entry(CountReceivedAll(m, s, bytes), p), c)
            == Read(Entry(m, p), c) + if p in s then Gain(c, bytes) else 0
  {
  }

  lemma {:induction false} TotalOfAll(m: PerParty, s: set<u16>, bytes: nat, c: Counter, bound: nat)
    requires bound <= 0x1_0000
    ensures Total(CountReceivedAll(m, s, bytes), c, bound) == Total(m, c, bound) + Weighted(s, Gain(c, bytes), bound)
  {
    if bound > 0 {
      TotalOfAll(m, s, bytes, c, bound - 1);
      EntryOfAll(m, s, bytes, c, bound - 1);
    }
  }

  /** Both sides of the traffic add up to the totals. */
  ghost predicate Balanced(ns: NetState) {
    && Total(ns.perParty, BytesOut, 0x1_0000) == Total(ns.perParty, BytesIn, 0x1_0000) == ns.totalBytes
    && Total(ns.perParty, MessagesOut, 0x1_0000) == Total(ns.perParty, MessagesIn, 0x1_0000) == ns.totalMessages
  }

  lemma CountSentTotal(m: PerParty, p: u16, bytes: nat, messages: nat, c: Counter)
    ensures Total(CountSent(m, p, bytes, messages), c, 0x1_0000)
            == Total(m, c, 0x1_0000) + if c == BytesOut then bytes else if c == MessagesOut then messages else 0
  {
    TotalOfUpdate(m, p, CountSent(m, p, bytes, messages)[p], c, 0x1_0000);
  }

  lemma CountReceivedTotal(m: PerParty, p: u16, bytes: nat, c: Counter)
    ensures Total(CountReceived(m, p, bytes), c, 0x1_0000)
            == Total(m, c, 0x1_0000) + if c == BytesIn then bytes else if c == MessagesIn then 1 else 0
  {
    TotalOfUpdate(m, p, CountReceived(m, p, bytes)[p], c, 0x1_0000);
  }

  lemma CountReceivedAllTotal(m: PerParty, s: set<u16>, bytes: nat, c: Counter)
    ensures Total(CountReceivedAll(m, s, bytes), c, 0x1_0000)
            == Total(m, c, 0x1_0000) + Volume(Gain(c, bytes), |s|)
  {
    TotalOfAll(m, s, bytes, c, 0x1_0000);
    WeightedIsVolume(s, Gain(c, bytes), 0x1_0000);
    BelowIsSize(s, 0x1_0000);
    assert (set x | x in s && x < 0x1_0000) == s;
  }

  lemma SendTotal(ns: NetState, from: u16, to: u16, data: Bytes, c: Counter)
    ensures Total(Sent(ns, from, to, data).perParty, c, 0x1_0000)
            == Total(ns.perParty, c, 0x1_0000) + if c == BytesOut || c == BytesIn then |data| else 1
  {
    CountSentTotal(ns.perParty, from, |data|, 1, c);
    CountReceivedTotal(CountSent(ns.perParty, from, |data|, 1), to, |data|, c);
  }

  lemma BroadcastGain(bytes: nat, n: nat, c: Counter)
    ensures Volume(Gain(c, bytes), n) + (if c == BytesOut then Volume(bytes, n) else if c == MessagesOut then n else 0)
            == if c == BytesOut || c == BytesIn then Volume(bytes, n) else n
  {
    assert Volume(1, n) == n && Volume(0, n) == 0;
  }

  lemma BroadcastTotal(ns: NetState, from: u16, data: Bytes, c: Counter)
    ensures var count := |Recipients(ns, from)|;
            Total(Broadcasted(ns, from, data).perParty, c, 0x1_0000)
            == Total(ns.perParty, c, 0x1_0000) + if c == BytesOut || c == BytesIn then Volume(|data|, count) else count
  {
    var rs := Recipients(ns, from);
    var received, bytes := CountReceivedAll(ns.perParty, rs, |data|), Volume(|data|, |rs|);
    CountReceivedAllTotal(ns.perParty, rs, |data|, c);
    CountSentTotal(received, from, bytes, |rs|, c);
    BroadcastGain(|data|, |rs|, c);
  }

  /** What one operation adds to p's counters, when these parties have a mailbox. */
  function Counted(parties: set<u16>, op: Op, p: u16, c: Counter): int {
    match op
    case Send(from, to, data) =>
      (match c
       case BytesOut => if p == from then |data| else 0
       case MessagesOut => if p == from then 1 else 0
       case BytesIn => if p == to then |data| else 0
       case MessagesIn => if p == to then 1 else 0)
    case Broadcast(from, data) =>
      (match c
       case BytesOut => if p == from then |data| * |parties - {from}| else 0
       case MessagesOut => if p == from then |parties - {from}| else 0
       case BytesIn => if p in parties && p != from then |data| else 0
       case MessagesIn => if p in parties && p != from then 1 else 0)
    case Receive(_) => 0
  }

  function AllCounted(parties: set<u16>, ops: seq<Op>, p: u16, c: Counter): int {
    if ops == [] then 0
    else AllCounted(parties, ops[..|ops| - 1], p, c) + Counted(parties, ops[|ops| - 1], p, c)
  }

  lemma SendCounted(ns: NetState, from: u16, to: u16, data: Bytes, p: u16, c: Counter)
    ensures Read(Entry(Sent(ns, from, to, data).perParty, p), c)
            == Read(Entry(ns.perParty, p), c) + Counted(ns.mailboxes.Keys, Send(from, to, data), p, c)
  {
  }

  lemma EntryOfCountSent(m: PerParty, from: u16, bytes: nat, messages: nat, p: u16, c: Counter)
    ensures Read(Entry(CountSent(m, from, bytes, messages), p), c)
            == Read(Entry(m, p), c)
               + if p != from then 0 else match c
                                          case BytesOut => bytes
                                          case MessagesOut => messages
                                          case _ => 0
  {
  }

  lemma BroadcastCounted(ns: NetState, from: u16, data: Bytes, p: u16, c: Counter)
    ensures Read(Entry(Broadcasted(ns, from, data).perParty, p), c)
            == Read(Entry(ns.perParty, p), c) + Counted(ns.mailboxes.Keys, Broadcast(from, data), p, c)
  {
    var rs := Recipients(ns, from);
    EntryOfAll(ns.perParty, rs, |data|, c, p);
    EntryOfCountSent(CountReceivedAll(ns.perParty, rs, |data|), from, Volume(|data|, |rs|), |rs|, p, c);
  }

  /** Over every run, each party's counters have grown by exactly what it sent and what was sent
      to it. */
  lemma {:induction false} CountersExact(ns: NetState, ops: seq<Op>, p: u16, c: Counter)
    ensures Read(Entry(Run(ns, ops).perParty, p), c)
            == Read(Entry(ns.perParty, p), c) + AllCounted(ns.mailboxes.Keys, ops, p, c)
  {
    if ops != [] {
      var before, op := ops[..|ops| - 1], ops[|ops| - 1];
      CountersExact(ns, before, p, c);
      MailboxesStay(ns, before);
      match op
      case Send(from, to, data) => SendCounted(Run(ns, before), from, to, data, p, c);
      case Broadcast(from, data) => BroadcastCounted(Run(ns, before), from, data, p, c);
      case Receive(_) =>
    }
  }

  lemma SendBalanced(ns: NetState, from: u16, to: u16, data: Bytes)
    requires Balanced(ns)
    ensures Balanced(Sent(ns, from, to, data))
  {
    SendTotal(ns, from, to, data, BytesOut);
    SendTotal(ns, from, to, data, BytesIn);
    SendTotal(ns, from, to, data, MessagesOut);
    SendTotal(ns, from, to, data, MessagesIn);
  }

  lemma BroadcastBalanced(ns: NetState, from: u16, data: Bytes)
    requires Balanced(ns)
    ensures Balanced(Broadcasted(ns, from, data))
  {
    BroadcastTotal(ns, from, data, BytesOut);
    BroadcastTotal(ns, from, data, BytesIn);
    BroadcastTotal(ns, from, data, MessagesOut);
    BroadcastTotal(ns, from, data, MessagesIn);
  }

  lemma StepBalanced(ns: NetState, op: Op)
    requires Balanced(ns)
    ensures Balanced(Apply(ns, op))
  {
    match op
    case Send(from, to, data) => SendBalanced(ns, from, to, data);
    case Broadcast(from, data) => BroadcastBalanced(ns, from, data);
    case Receive(_) =>
  }

  /** Over every run from a fresh network, what all parties sent, what all parties received and
      the network's totals stay equal, in bytes and in messages. */
  lemma {:induction false} TrafficBalances(ns: NetState, ops: seq<Op>)
    requires ns.perParty == map[] && ns.totalBytes == 0 && ns.totalMessages == 0
    ensures Balanced(Run(ns, ops))
  {
    if ops == [] {
      forall c: Counter
        ensures Total(map[], c, 0x1_0000) == 0
      {
        EmptyTotal(c, 0x1_0000);
      }
    } else {
      TrafficBalances(ns, ops[..|ops| - 1]);
      StepBalanced(Run(ns, ops[..|ops| - 1]), ops[|ops| - 1]);
    }
  }

  lemma {:induction false} EmptyTotal(c: Counter, bound: nat)
    requires bound <= 0x1_0000
    ensures Total(map[], c, bound) == 0
  {
    if bound > 0 {
      EmptyTotal(c, bound - 1);
    }
  }
}
