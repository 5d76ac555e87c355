/** The transport-agnostic runner: it encodes what a protocol machine sends, validates what
    arrives, and buffers messages of future rounds. */
module Runner {
  import opened Outcomes
  import opened Codec

  // ---- the machines it drives -----------------------------------------------------------------

  datatype Recipient = Party(id: u16) | Broadcast

  datatype Outgoing<+Msg> = Outgoing(to: Recipient, msg: Msg)

  /** A machine after `handle`, which may have failed part-way. */
  datatype Handled<+S> = Handled(state: S, ok: bool)

  /** The operations of a `StateMachine` over states S. */
  datatype Machine<!S, !Msg, +Out> = Machine(
    handle: (S, u16, Msg) -> Handled<S>,
    drain: S -> (S, seq<Outgoing<Msg>>),
    round: S -> u16,
    isDone: S -> bool,
    finish: S -> Option<Out>)

  /** Neither handling a message nor draining takes a machine back to an earlier round. */
  ghost predicate Monotone<S(!new), Msg(!new), Out>(m: Machine<S, Msg, Out>) {
    && (forall s: S, from: u16, msg: Msg :: m.round(m.handle(s, from, msg).state) >= m.round(s))
    && forall s: S :: m.round(m.drain(s).0) >= m.round(s)
  }

  datatype SessionError =
    | Wire(error: WireError)
    | SessionIdMismatch
    | FromMismatch(claimed: u16)
    | ProtocolIdMismatch(claimed: u16)
    | DuplicateMessage(from: u16, round: u16)
    | Protocol
    | MaxRoundsExceeded(rounds: nat)

  /** What a runner is created with. */
  datatype Config<!S, !Msg, +Out> = Config(
    machine: Machine<S, Msg, Out>,
    codec: PayloadCodec<Msg>,
    sessionId: SessionId,
    protocolId: u16,
    myId: u16,
    parties: seq<u16>)

  /** The `to` field of a broadcast. */
  const BROADCAST: u16 := 0xFFFF

  type Triple = (u16, u16, u16)

  datatype Metrics = Metrics(bytesSent: nat, messagesSent: nat, bytesReceived: nat, messagesReceived: nat)

  type Future<Msg> = map<u16, seq<(u16, Msg)>>

  datatype State<+S, +Msg> =
    State(machine: S, seen: set<Triple>, future: map<u16, seq<(u16, Msg)>>, currentRound: u16, metrics: Metrics)

  datatype Step<+S, +Msg> = Step(state: State<S, Msg>, error: Option<SessionError>)

  function Fresh<S, Msg, Out>(cfg: Config<S, Msg, Out>, s: S): State<S, Msg> {
    State(s, {}, map[], cfg.machine.round(s), Metrics(0, 0, 0, 0))
  }

  // ---- sequences --------------------------------------------------------------------------------

  lemma Grouped<T>(a: seq<T>, b: seq<T>, c: seq<T>)
    ensures (a + b) + c == a + (b + c)
  {
  }

  lemma NothingMore<T>(a: seq<T>)
    ensures a + [] == a
  {
  }

  // ---- encoding --------------------------------------------------------------------------------

  function ToField(to: Recipient): u16 {
    match to
    case Party(id) => id
    case Broadcast => BROADCAST
  }

  function EncodedMessage<S, Msg, Out>(cfg: Config<S, Msg, Out>, round: u16, out: Outgoing<Msg>): Bytes {
    Encoded(cfg.codec, Header(cfg.sessionId, cfg.protocolId, round, cfg.myId, ToField(out.to)), out.msg)
  }

  function EncodedAll<S, Msg, Out>(cfg: Config<S, Msg, Out>, round: u16, outs: seq<Outgoing<Msg>>)
    : seq<(Recipient, Bytes)>
  {
    if outs == [] then []
    else EncodedAll(cfg, round, outs[..|outs| - 1])
         + [(outs[|outs| - 1].to, EncodedMessage(cfg, round, outs[|outs| - 1]))]
  }

  function Volume(encoded: seq<(Recipient, Bytes)>): nat {
    if encoded == [] then 0 else Volume(encoded[..|encoded| - 1]) + |encoded[|encoded| - 1].1|
  }

  lemma EncodedNext<S, Msg, Out>(cfg: Config<S, Msg, Out>, round: u16, outs: seq<Outgoing<Msg>>, i: nat)
    requires i < |outs|
    ensures var before, bytes := EncodedAll(cfg, round, outs[..i]), EncodedMessage(cfg, round, outs[i]);
            && EncodedAll(cfg, round, outs[..i + 1]) == before + [(outs[i].to, bytes)]
            && Volume(before + [(outs[i].to, bytes)]) == Volume(before) + |bytes|
  {
    assert outs[..i + 1][..i] == outs[..i];
    VolumeSnoc(EncodedAll(cfg, round, outs[..i]), (outs[i].to, EncodedMessage(cfg, round, outs[i])));
  }

  lemma VolumeSnoc(encoded: seq<(Recipient, Bytes)>, x: (Recipient, Bytes))
    ensures Volume([]) == 0 && Volume(encoded + [x]) == Volume(encoded) + |x.1|
  {
    assert (encoded + [x])[..|encoded|] == encoded;
  }

  /** The runner after `step_encode`, and what it returned. */
  function Emitted<S, Msg, Out>(cfg: Config<S, Msg, Out>, st: State<S, Msg>): (State<S, Msg>, seq<(Recipient, Bytes)>) {
    var (s, outs) := cfg.machine.drain(st.machine);
    var encoded := EncodedAll(cfg, cfg.machine.round(s), outs);
    (st.(machine := s, metrics := st.metrics.(
           bytesSent := st.metrics.bytesSent + Volume(encoded),
           messagesSent := st.metrics.messagesSent + |outs|)),
     encoded)
  }

  lemma {:induction false} EncodedAt<S, Msg, Out>(
      cfg: Config<S, Msg, Out>, round: u16, outs: seq<Outgoing<Msg>>, i: nat)
    requires i < |outs|
    ensures var all, to := EncodedAll(cfg, round, outs), outs[i].to;
            && |all| == |outs| && all[i].0 == to
            && all[i].1 == Encoded(cfg.codec, Header(cfg.sessionId, cfg.protocolId, round, cfg.myId,
                                                     if to.Party? then to.id else 0xFFFF), outs[i].msg)
    decreases |outs|
  {
    var n := |outs| - 1;
    EncodedLength(cfg, round, outs);
    EncodedLength(cfg, round, outs[..n]);
    if i < n {
      EncodedAt(cfg, round, outs[..n], i);
    }
  }

  lemma {:induction false} EncodedLength<S, Msg, Out>(cfg: Config<S, Msg, Out>, round: u16, outs: seq<Outgoing<Msg>>)
    ensures |EncodedAll(cfg, round, outs)| == |outs|
  {
    if outs != [] {
      EncodedLength(cfg, round, outs[..|outs| - 1]);
    }
  }

  /** What `step_encode` returns and leaves: the i-th envelope goes where the i-th drained message
      goes, under this party's id and the machine's round after draining, with 0xFFFF in the `to`
      field of a broadcast and the recipient's id otherwise. */
  lemma EncodedExactly<S, Msg, Out>(cfg: Config<S, Msg, Out>, st: State<S, Msg>, i: nat)
    ensures var (s, outs), (after, encoded) := cfg.machine.drain(st.machine), Emitted(cfg, st);
            && |encoded| == |outs|
            && after.machine == s && after.seen == st.seen && after.future == st.future
            && after.metrics.messagesSent == st.metrics.messagesSent + |outs|
            && after.metrics.messagesReceived == st.metrics.messagesReceived
            && after.metrics.bytesReceived == st.metrics.bytesReceived
            && (i < |outs| ==>
                  && encoded[i].0 == outs[i].to
                  && var to := if outs[i].to.Party? then outs[i].to.id else 0xFFFF;
                     encoded[i].1 == Encoded(cfg.codec, Header(cfg.sessionId, cfg.protocolId, cfg.machine.round(s),
                                                               cfg.myId, to), outs[i].msg))
  {
    var (s, outs) := cfg.machine.drain(st.machine);
    EncodedLength(cfg, cfg.machine.round(s), outs);
    if i < |outs| {
      EncodedAt(cfg, cfg.machine.round(s), outs, i);
    }
  }

  // ---- decoding --------------------------------------------------------------------------------

  /** Two-party sessions hand point-to-point messages over ahead of their round. */
  predicate TwoPartyP2P(parties: seq<u16>, to: u16) {
    |parties| == 2 && to != BROADCAST
  }

  function Enqueued<Msg>(future: Future<Msg>, round: u16, from: u16, msg: Msg): Future<Msg> {
    future[round := (if round in future then future[round] else []) + [(from, msg)]]
  }

  /** Delivery, buffering or silent discard, by the round of the header. */
  function Routed<S, Msg, Out>(cfg: Config<S, Msg, Out>, st: State<S, Msg>, h: Header, msg: Msg): Step<S, Msg> {
    var current := cfg.machine.round(st.machine);
    if h.round == current || (TwoPartyP2P(cfg.parties, h.to) && h.round > current) then
      var after := cfg.machine.handle(st.machine, h.from, msg);
      Step(st.(machine := after.state), if after.ok then None else Some(Protocol))
    else if h.round > current then
      Step(st.(future := Enqueued(st.future, h.round, h.from, msg)), None)
    else
      Step(st, None)
  }

  function CountedIn(m: Metrics, bytes: nat): Metrics {
    m.(bytesReceived := m.bytesReceived + bytes, messagesReceived := m.messagesReceived + 1)
  }

  /** One incoming message: counted, decoded, validated, checked for duplicates, routed. */
  function DecodedOne<S, Msg, Out>(cfg: Config<S, Msg, Out>, st: State<S, Msg>, from: u16, bytes: Bytes): Step<S, Msg> {
    var st := st.(metrics := CountedIn(st.metrics, |bytes|));
    match Decode(cfg.codec, bytes)
    case Err(e) => Step(st, Some(Wire(e)))
    case Ok((h, msg)) =>
      if h.sessionId != cfg.sessionId then Step(st, Some(SessionIdMismatch))
      else if h.from != from then Step(st, Some(FromMismatch(h.from)))
      else if h.protocolId != cfg.protocolId then Step(st, Some(ProtocolIdMismatch(h.protocolId)))
      else if (h.from, h.round, h.to) in st.seen then Step(st, Some(DuplicateMessage(from, h.round)))
      else Routed(cfg, st.(seen := st.seen + {(h.from, h.round, h.to)}), h, msg)
  }

  /** When a message is refused, and with which error: for its envelope, for a header field that
      does not fit, for a triple seen before, or because the machine refuses a message that it is
      handed now; for nothing else. */
  lemma MessageError<S, Msg, Out>(cfg: Config<S, Msg, Out>, st: State<S, Msg>, from: u16, bytes: Bytes)
    ensures var d, error := Decode(cfg.codec, bytes), DecodedOne(cfg, st, from, bytes).error;
            if d.Err? then error == Some(Wire(d.error))
            else
              var (h, msg), round := d.value, cfg.machine.round(st.machine);
              error == if h.sessionId != cfg.sessionId then Some(SessionIdMismatch)
                       else if h.from != from then Some(FromMismatch(h.from))
                       else if h.protocolId != cfg.protocolId then Some(ProtocolIdMismatch(h.protocolId))
                       else if (h.from, h.round, h.to) in st.seen then Some(DuplicateMessage(from, h.round))
                       else if (h.round == round || (h.round > round && |cfg.parties| == 2 && h.to != 0xFFFF))
                               && !cfg.machine.handle(st.machine, from, msg).ok then Some(Protocol)
                       else None
  {
  }

  /** What a message does: it is counted; refused before the duplicate check it changes nothing
      else. Otherwise its triple is remembered, and the machine handles it (in its round, or ahead
      of it when it is point-to-point between two parties), or it is queued for its later round,
      or, its round being past, nothing happens. */
  lemma MessageEffect<S, Msg, Out>(cfg: Config<S, Msg, Out>, st: State<S, Msg>, from: u16, bytes: Bytes)
    ensures var d, after := Decode(cfg.codec, bytes), DecodedOne(cfg, st, from, bytes).state;
            && after.currentRound == st.currentRound
            && after.metrics == Metrics(st.metrics.bytesSent, st.metrics.messagesSent,
                                        st.metrics.bytesReceived + |bytes|, st.metrics.messagesReceived + 1)
            && if d.Err? || d.value.0.sessionId != cfg.sessionId || d.value.0.from != from
                  || d.value.0.protocolId != cfg.protocolId
                  || (d.value.0.from, d.value.0.round, d.value.0.to) in st.seen then
                 after.machine == st.machine && after.seen == st.seen && after.future == st.future
               else
                 var (h, msg), round := d.value, cfg.machine.round(st.machine);
                 && after.seen == st.seen + {(h.from, h.round, h.to)}
                 && if h.round == round || (h.round > round && |cfg.parties| == 2 && h.to != 0xFFFF) then
                      after.machine == cfg.machine.handle(st.machine, from, msg).state && after.future == st.future
                    else
                      && after.machine == st.machine
                      && after.future
                         == if h.round < round then st.future
                            else st.future[h.round := (if h.round in st.future then st.future[h.round] else []) + [(from, msg)]]
  {
  }

  function DecodedBatch<S, Msg, Out>(cfg: Config<S, Msg, Out>, st: State<S, Msg>, raw: seq<(u16, Bytes)>)
    : Step<S, Msg>
    decreases |raw|
  {
    if raw == [] then Step(st, None)
    else
      var one := DecodedOne(cfg, st, raw[0].0, raw[0].1);
      if one.error.Some? then one else DecodedBatch(cfg, one.state, raw[1..])
  }

  /** A batch is read in order, and not beyond its first error. */
  lemma {:induction false} BatchAppend<S, Msg, Out>(cfg: Config<S, Msg, Out>, st: State<S, Msg>, raw: seq<(u16, Bytes)>,
                                                    m: (u16, Bytes))
    ensures var before := DecodedBatch(cfg, st, raw);
            DecodedBatch(cfg, st, raw + [m])
            == if before.error.Some? then before else DecodedOne(cfg, before.state, m.0, m.1)
    decreases |raw|
  {
    var all := raw + [m];
    assert DecodedBatch(cfg, st, []) == Step(st, None);
    if raw == [] {
      assert all[0] == m && all[1..] == [];
      var one := DecodedOne(cfg, st, m.0, m.1);
      assert DecodedBatch(cfg, one.state, []) == Step(one.state, None);
    } else {
      assert all[0] == raw[0] && all[1..] == raw[1..] + [m];
      BatchAppend(cfg, DecodedOne(cfg, st, raw[0].0, raw[0].1).state, raw[1..], m);
    }
  }

  function HandledAll<S, Msg, Out>(m: Machine<S, Msg, Out>, s: S, queue: seq<(u16, Msg)>): Handled<S>
    decreases |queue|
  {
    if queue == [] then Handled(s, true)
    else
      var after := m.handle(s, queue[0].0, queue[0].1);
      if !after.ok then after else HandledAll(m, after.state, queue[1..])
  }

  /** Handling in order, not beyond the first failure. */
  lemma {:induction false} HandledSnoc<S, Msg, Out>(
      m: Machine<S, Msg, Out>, s: S, queue: seq<(u16, Msg)>, x: (u16, Msg))
    ensures var before := HandledAll(m, s, queue);
            HandledAll(m, s, queue + [x]) == if before.ok then m.handle(before.state, x.0, x.1) else before
    decreases |queue|
  {
    var all := queue + [x];
    if queue == [] {
      assert all[0] == x && all[1..] == [];
      var after := m.handle(s, x.0, x.1);
      assert HandledAll(m, after.state, []) == Handled(after.state, true);
    } else {
      assert all[0] == queue[0] && all[1..] == queue[1..] + [x];
      HandledSnoc(m, m.handle(s, queue[0].0, queue[0].1).state, queue[1..], x);
    }
  }

  function Queue<Msg>(future: Future<Msg>, round: u16): seq<(u16, Msg)> {
    if round in future then future[round] else []
  }

  /** The buffer of the machine's current round is emptied into the machine. */
  function Flushed<S, Msg, Out>(cfg: Config<S, Msg, Out>, st: State<S, Msg>): Step<S, Msg> {
    var current := cfg.machine.round(st.machine);
    var after := HandledAll(cfg.machine, st.machine, Queue(st.future, current));
    var st := st.(machine := after.state, future := st.future - {current});
    if !after.ok then Step(st, Some(Protocol))
    else Step(st.(currentRound := cfg.machine.round(after.state)), None)
  }

  function Decoded<S, Msg, Out>(cfg: Config<S, Msg, Out>, st: State<S, Msg>, raw: seq<(u16, Bytes)>): Step<S, Msg> {
    var batch := DecodedBatch(cfg, st, raw);
    if batch.error.Some? then batch else Flushed(cfg, batch.state)
  }

  // ---- the mutable runner ----------------------------------------------------------------------

  class SessionRunner<S, Msg, Out> {
    const cfg: Config<S, Msg, Out>
    var machine: S
    var seen: set<Triple>
    var future: Future<Msg>
    var currentRound: u16
    var metrics: Metrics

    ghost function Value(): State<S, Msg>
      reads this
    {
      State(machine, seen, future, currentRound, metrics)
    }

    constructor (cfg: Config<S, Msg, Out>, m: S)
      ensures this.cfg == cfg && Value() == Fresh(cfg, m)
      ensures Value() == State(m, {}, map[], cfg.machine.round(m), Metrics(0, 0, 0, 0))
    {
      this.cfg := cfg;
      machine := m;
      seen := {};
      future := map[];
      currentRound := cfg.machine.round(m);
      metrics := Metrics(0, 0, 0, 0);
    }

    /** `step_encode` */
    method StepEncode() returns (result: seq<(Recipient, Bytes)>)
      modifies this
      ensures (Value(), result) == Emitted(cfg, old(Value()))
    {
      var (s, outs) := cfg.machine.drain(machine);
      machine := s;
      result := [];
      for i := 0 to |outs|
        invariant result == EncodedAll(cfg, cfg.machine.round(s), outs[..i]) && |result| == i
        invariant Value() == old(Value()).(machine := s, metrics := old(metrics).(
                    bytesSent := old(metrics).bytesSent + Volume(result),
                    messagesSent := old(metrics).messagesSent + i))
      {
        var header := Header(cfg.sessionId, cfg.protocolId, cfg.machine.round(machine), cfg.myId, ToField(outs[i].to));
        var encoded := Encode(cfg.codec, header, outs[i].msg);
        var bytes := encoded.value;
        metrics := metrics.(bytesSent := metrics.bytesSent + |bytes|, messagesSent := metrics.messagesSent + 1);
        EncodedNext(cfg, cfg.machine.round(s), outs, i);
        result := result + [(outs[i].to, bytes)];
      }
      assert outs[..|outs|] == outs;
    }

    method HandleQueue(queue: seq<(u16, Msg)>) returns (ok: bool)
      modifies this`machine
      ensures Handled(machine, ok) == HandledAll(cfg.machine, old(machine), queue)
    {
      for i := 0 to |queue|
        invariant HandledAll(cfg.machine, machine, queue[i..]) == HandledAll(cfg.machine, old(machine), queue)
      {
        var after := cfg.machine.handle(machine, queue[i].0, queue[i].1);
        machine := after.state;
        if !after.ok {
          return false;
        }
      }
      return true;
    }

    /** The body of the receive loop. */
    method DecodeOne(from: u16, bytes: Bytes) returns (error: Option<SessionError>)
      modifies this
      ensures Step(Value(), error) == DecodedOne(cfg, old(Value()), from, bytes)
    {
      metrics := CountedIn(metrics, |bytes|);
      var decoded := Decode(cfg.codec, bytes);
      if decoded.Err? {
        return Some(Wire(decoded.error));
      }
      var (h, msg) := decoded.value;
      if h.sessionId != cfg.sessionId {
        return Some(SessionIdMismatch);
      }
      if h.from != from {
        return Some(FromMismatch(h.from));
      }
      if h.protocolId != cfg.protocolId {
        return Some(ProtocolIdMismatch(h.protocolId));
      }
      if (h.from, h.round, h.to) in seen {
        return Some(DuplicateMessage(from, h.round));
      }
      seen := seen + {(h.from, h.round, h.to)};
      var current := cfg.machine.round(machine);
      if h.round == current || (TwoPartyP2P(cfg.parties, h.to) && h.round > current) {
        var after := cfg.machine.handle(machine, from, msg);
        machine := after.state;
        if !after.ok {
          return Some(Protocol);
        }
      } else if h.round > current {
        future := Enqueued(future, h.round, from, msg);
      }
      return None;
    }

    /** `step_decode` */
    method StepDecode(raw: seq<(u16, Bytes)>) returns (error: Option<SessionError>)
      modifies this
      ensures Step(Value(), error) == Decoded(cfg, old(Value()), raw)
    {
      for i := 0 to |raw|
        invariant DecodedBatch(cfg, Value(), raw[i..]) == DecodedBatch(cfg, old(Value()), raw)
      {
        error := DecodeOne(raw[i].0, raw[i].1);
        if error.Some? {
          return;
        }
      }
      var current := cfg.machine.round(machine);
      var buffered := Queue(future, current);
      future := future - {current};
      var ok := HandleQueue(buffered);
      if !ok {
        return Some(Protocol);
      }
      currentRound := cfg.machine.round(machine);
      error := None;
    }
  }
}
