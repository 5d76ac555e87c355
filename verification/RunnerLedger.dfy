/** What becomes of every message a runner accepts, over whole error-free runs: a log of
    arrivals, hand-overs and drains explains the runner's state call by call. */
module RunnerLedger {
  import opened Outcomes
  import opened Codec
  import opened Runner

  // ---- runs --------------------------------------------------------------------------------------

  /** The calls a driver makes on a runner. */
  datatype Op = StepEncode | StepDecode(raw: seq<(u16, Bytes)>)

  ghost function After<S, Msg, Out>(cfg: Config<S, Msg, Out>, st: State<S, Msg>, op: Op): Step<S, Msg> {
    match op
    case StepEncode => Step(Emitted(cfg, st).0, None)
    case StepDecode(raw) => Decoded(cfg, st, raw)
  }

  /** Successive calls in any order, stopping at the first error. */
  ghost function Ran<S, Msg, Out>(cfg: Config<S, Msg, Out>, st: State<S, Msg>, ops: seq<Op>): Step<S, Msg> {
    if ops == [] then Step(st, None)
    else
      var before := Ran(cfg, st, ops[..|ops| - 1]);
      if before.error.Some? then before else After(cfg, before.state, ops[|ops| - 1])
  }

  /** Everything a run received. */
  ghost function Inputs(ops: seq<Op>): seq<(u16, Bytes)> {
    if ops == [] then []
    else
      var last := ops[|ops| - 1];
      Inputs(ops[..|ops| - 1]) + if last.StepDecode? then last.raw else []
  }

  /** This call reads its batch to the end with the machine in the given round. */
  ghost predicate EndsBatchIn<S, Msg, Out>(cfg: Config<S, Msg, Out>, st: State<S, Msg>, op: Op, round: u16) {
    op.StepDecode? && cfg.machine.round(DecodedBatch(cfg, st, op.raw).state.machine) == round
  }

  /** Some call of the run ends its batch with the machine in the given round. */
  ghost predicate Reaches<S, Msg, Out>(cfg: Config<S, Msg, Out>, st: State<S, Msg>, ops: seq<Op>, round: u16) {
    && ops != []
    && var earlier := ops[..|ops| - 1];
       || Reaches(cfg, st, earlier, round)
       || EndsBatchIn(cfg, Ran(cfg, st, earlier).state, ops[|ops| - 1], round)
  }

  // ---- the log of a run --------------------------------------------------------------------------

  datatype Fate = Delivered | Waiting | Stale

  /** What the header's round makes of a message that arrives in round `at`: only a message of an
      earlier round is stale. */
  predicate FateIs(parties: seq<u16>, h: Header, at: u16, fate: Fate) {
    match fate
    case Delivered => h.round == at || (h.round > at && |parties| == 2 && h.to != 0xFFFF)
    case Waiting => h.round > at && (|parties| != 2 || h.to == 0xFFFF)
    case Stale => h.round < at
  }

  /** What happened, in order: a message arrived and met its fate while the machine was in round
      `at`; a buffered message was handed over in round `at`; the machine was drained. */
  datatype Entry<+Msg> =
    | Arrived(h: Header, msg: Msg, at: u16, fate: Fate)
    | Released(round: u16, from: u16, msg: Msg, at: u16)
    | Drained

  type Log<+Msg> = seq<Entry<Msg>>

  ghost function Accepting<S, Msg, Out>(m: Machine<S, Msg, Out>, s: S, from: u16, msg: Msg): Option<S> {
    var after := m.handle(s, from, msg);
    if after.ok then Some(after.state) else None
  }

  /** The machine after one entry, provided that the entry is true of the machine before it. */
  ghost function Applied<S, Msg, Out>(cfg: Config<S, Msg, Out>, s: S, e: Entry<Msg>): Option<S> {
    match e
    case Arrived(h, msg, at, fate) =>
      if at != cfg.machine.round(s) || !FateIs(cfg.parties, h, at, fate) then None
      else if fate == Delivered then Accepting(cfg.machine, s, h.from, msg)
      else Some(s)
    case Released(round, from, msg, at) =>
      if at != cfg.machine.round(s) || round > at then None else Accepting(cfg.machine, s, from, msg)
    case Drained => Some(cfg.machine.drain(s).0)
  }

  ghost function Replayed<S, Msg, Out>(cfg: Config<S, Msg, Out>, s0: S, log: Log<Msg>): Option<S> {
    if log == [] then Some(s0)
    else
      match Replayed(cfg, s0, log[..|log| - 1])
      case None => None
      case Some(s) => Applied(cfg, s, log[|log| - 1])
  }

  /** The headers of the messages that arrived, in order. */
  ghost function Headers<Msg>(log: Log<Msg>): seq<Header> {
    if log == [] then []
    else
      var last := log[|log| - 1];
      Headers(log[..|log| - 1]) + if last.Arrived? then [last.h] else []
  }

  /** The messages that had to wait for a round, in order of arrival. */
  ghost function Kept<Msg>(log: Log<Msg>, round: u16): seq<(u16, Msg)> {
    if log == [] then []
    else
      var last := log[|log| - 1];
      Kept(log[..|log| - 1], round)
      + if last.Arrived? && last.fate == Waiting && last.h.round == round then [(last.h.from, last.msg)] else []
  }

  /** The waiting messages of a round that were handed over, in order. */
  ghost function HandedOver<Msg>(log: Log<Msg>, round: u16): seq<(u16, Msg)> {
    if log == [] then []
    else
      var last := log[|log| - 1];
      HandedOver(log[..|log| - 1], round)
      + if last.Released? && last.round == round then [(last.from, last.msg)] else []
  }

  ghost function TripleOf(h: Header): Triple {
    (h.from, h.round, h.to)
  }

  // Each quantified condition is a named predicate, so that it is used only where a proof mentions it.

  ghost predicate Differ(headers: seq<Header>, i: int, j: int) {
    0 <= i < j < |headers| ==> TripleOf(headers[i]) != TripleOf(headers[j])
  }

  ghost predicate HasTriple(headers: seq<Header>, t: Triple) {
    exists h :: h in headers && TripleOf(h) == t
  }

  ghost predicate SeenExactly(headers: seq<Header>, seen0: set<Triple>, seen: set<Triple>, t: Triple) {
    && (t in seen <==> t in seen0 || HasTriple(headers, t))
    && !(t in seen0 && HasTriple(headers, t))
  }

  /** No (from, round, to) is accepted twice, and `seen` is exactly what was accepted. */
  ghost predicate Distinct(headers: seq<Header>, seen0: set<Triple>, seen: set<Triple>) {
    && (forall i: int, j: int :: Differ(headers, i, j))
    && (forall t: Triple :: SeenExactly(headers, seen0, seen, t))
  }

  ghost predicate ConservesAt<Msg>(before: Future<Msg>, log: Log<Msg>, after: Future<Msg>, r: u16) {
    Queue(before, r) + Kept(log, r) == HandedOver(log, r) + Queue(after, r)
  }

  /** Round by round: what waited before and what had to wait since is, in this order, what was
      handed over followed by what still waits. */
  ghost predicate Conserves<Msg>(before: Future<Msg>, log: Log<Msg>, after: Future<Msg>) {
    forall r: u16 :: ConservesAt(before, log, after, r)
  }

  ghost predicate PastIfStale<Msg>(log: Log<Msg>, i: int, round: u16) {
    0 <= i < |log| && log[i].Arrived? && log[i].fate == Stale ==> log[i].h.round < round
  }

  /** Nothing was dropped but messages of rounds the machine had left. */
  ghost predicate DropsOnlyPast<Msg>(log: Log<Msg>, round: u16) {
    forall i: int :: PastIfStale(log, i, round)
  }

  /** The log explains how a runner got from one state to the other. */
  ghost predicate Accounts<S, Msg, Out>(cfg: Config<S, Msg, Out>, st0: State<S, Msg>, st: State<S, Msg>, log: Log<Msg>) {
    && Replayed(cfg, st0.machine, log) == Some(st.machine)
    && Distinct(Headers(log), st0.seen, st.seen)
    && Conserves(st0.future, log, st.future)
    && DropsOnlyPast(log, cfg.machine.round(st.machine))
  }

  /** An input message, decoded, with a validated header. */
  ghost predicate Arrives<S, Msg, Out>(cfg: Config<S, Msg, Out>, e: Entry<Msg>, input: (u16, Bytes)) {
    && e.Arrived? && Decode(cfg.codec, input.1) == Ok((e.h, e.msg)) && e.h.from == input.0
    && e.h.sessionId == cfg.sessionId && e.h.protocolId == cfg.protocolId
  }

  /** A batch, message by message. */
  ghost predicate ArriveAll<S, Msg, Out>(cfg: Config<S, Msg, Out>, es: Log<Msg>, raw: seq<(u16, Bytes)>) {
    if raw == [] then es == []
    else es != [] && Arrives(cfg, es[0], raw[0]) && ArriveAll(cfg, es[1..], raw[1..])
  }

  ghost predicate AllReleased<Msg>(es: Log<Msg>) {
    es == [] || (es[0].Released? && AllReleased(es[1..]))
  }

  /** What one call leaves in the log: the drain, or the batch in order and then what was handed over. */
  ghost predicate Explains<S, Msg(!new), Out>(cfg: Config<S, Msg, Out>, op: Op, es: Log<Msg>) {
    match op
    case StepEncode => es == [Drained]
    case StepDecode(raw) =>
      exists arrivals, releases: Log<Msg> ::
        es == arrivals + releases && ArriveAll(cfg, arrivals, raw) && AllReleased(releases)
  }

  /** The log is that of these calls, one after the other. */
  ghost predicate Covers<S, Msg(!new), Out>(cfg: Config<S, Msg, Out>, ops: seq<Op>, log: Log<Msg>) {
    if ops == [] then log == []
    else
      exists before, es: Log<Msg> ::
        log == before + es && Covers(cfg, ops[..|ops| - 1], before) && Explains(cfg, ops[|ops| - 1], es)
  }

  ghost predicate TimelyAt<S, Msg, Out>(cfg: Config<S, Msg, Out>, st0: State<S, Msg>, ops: seq<Op>, log: Log<Msg>,
                                        r: u16) {
    if Reaches(cfg, st0, ops, r) then Queue(st0.future, r) <= HandedOver(log, r) else HandedOver(log, r) == []
  }

  /** The messages waiting at the start for a round have all been handed over if some batch ended
      in that round; otherwise no message of that round has. */
  ghost predicate Timely<S, Msg, Out>(cfg: Config<S, Msg, Out>, st0: State<S, Msg>, ops: seq<Op>, log: Log<Msg>) {
    forall r: u16 :: TimelyAt(cfg, st0, ops, log, r)
  }

  // ---- one more entry ----------------------------------------------------------------------------

  lemma ReplayedSnoc<S, Msg, Out>(cfg: Config<S, Msg, Out>, s0: S, log: Log<Msg>, s: S, e: Entry<Msg>)
    requires Replayed(cfg, s0, log) == Some(s)
    ensures Replayed(cfg, s0, log + [e]) == Applied(cfg, s, e)
    ensures Headers(log + [e]) == if e.Arrived? then Headers(log) + [e.h] else Headers(log)
  {
    assert (log + [e])[..|log|] == log;
    HeaderSnoc(log, e);
  }

  lemma QueuesSnoc<Msg>(log: Log<Msg>, e: Entry<Msg>, r: u16)
    ensures Kept(log + [e], r)
            == Kept(log, r) + if e.Arrived? && e.fate == Waiting && e.h.round == r then [(e.h.from, e.msg)] else []
    ensures HandedOver(log + [e], r)
            == HandedOver(log, r) + if e.Released? && e.round == r then [(e.from, e.msg)] else []
  {
    assert (log + [e])[..|log|] == log;
  }

  lemma DistinctSnoc(headers: seq<Header>, seen0: set<Triple>, seen: set<Triple>, h: Header)
    requires Distinct(headers, seen0, seen) && TripleOf(h) !in seen
    ensures Distinct(headers + [h], seen0, seen + {TripleOf(h)})
  {
    var after := headers + [h];
    forall t: Triple
      ensures SeenExactly(after, seen0, seen + {TripleOf(h)}, t)
    {
      assert SeenExactly(headers, seen0, seen, t);
      assert h in after;
      assert forall x :: x in headers ==> x in after;
    }
    forall i: int, j: int
      ensures Differ(after, i, j)
    {
      assert Differ(headers, i, j);
      if 0 <= i < j == |headers| {
        assert SeenExactly(headers, seen0, seen, TripleOf(headers[i]));
        assert headers[i] in headers && after[i] == headers[i];
      }
    }
  }

  lemma DropsOnlyPastSnoc<Msg>(log: Log<Msg>, e: Entry<Msg>, round: u16, round': u16)
    requires DropsOnlyPast(log, round) && round <= round'
    requires e.Arrived? && e.fate == Stale ==> e.h.round < round'
    ensures DropsOnlyPast(log + [e], round')
  {
    forall i: int
      ensures PastIfStale(log + [e], i, round')
    {
      assert PastIfStale(log, i, round);
    }
  }

  /** What acceptance without error means for the runner's state. */
  lemma AcceptedOne<S, Msg, Out>(cfg: Config<S, Msg, Out>, st: State<S, Msg>, from: u16, bytes: Bytes)
    returns (e: Entry<Msg>)
    requires DecodedOne(cfg, st, from, bytes).error.None?
    ensures Arrives(cfg, e, (from, bytes)) && e.at == cfg.machine.round(st.machine)
    ensures var after := DecodedOne(cfg, st, from, bytes).state;
            && Applied(cfg, st.machine, e) == Some(after.machine)
            && TripleOf(e.h) !in st.seen && after.seen == st.seen + {TripleOf(e.h)}
            && after.future == if e.fate == Waiting then Enqueued(st.future, e.h.round, e.h.from, e.msg) else st.future
  {
    var (h, msg) := Decode(cfg.codec, bytes).value;
    var current := cfg.machine.round(st.machine);
    e := Arrived(h, msg, current,
                 if h.round == current || (TwoPartyP2P(cfg.parties, h.to) && h.round > current) then Delivered
                 else if h.round > current then Waiting else Stale);
  }

  lemma StepMonotone<S(!new), Msg(!new), Out>(cfg: Config<S, Msg, Out>, s: S, e: Entry<Msg>)
    requires Monotone(cfg.machine) && Applied(cfg, s, e).Some?
    ensures cfg.machine.round(Applied(cfg, s, e).value) >= cfg.machine.round(s)
  {
  }

  lemma QueuedArrival<Msg>(before: Future<Msg>, log: Log<Msg>, future: Future<Msg>, e: Entry<Msg>)
    requires Conserves(before, log, future) && e.Arrived?
    ensures Conserves(before, log + [e],
                      if e.fate == Waiting then Enqueued(future, e.h.round, e.h.from, e.msg) else future)
  {
    var after := if e.fate == Waiting then Enqueued(future, e.h.round, e.h.from, e.msg) else future;
    forall r: u16
      ensures ConservesAt(before, log + [e], after, r)
    {
      assert ConservesAt(before, log, future, r);
      QueuesSnoc(log, e, r);
      var x := if e.fate == Waiting && e.h.round == r then [(e.h.from, e.msg)] else [];
      assert Queue(after, r) == Queue(future, r) + x;
      Reassociate(Queue(before, r), Kept(log, r), HandedOver(log, r), Queue(future, r), x);
    }
  }

  lemma Reassociate<T>(a: seq<T>, b: seq<T>, c: seq<T>, d: seq<T>, x: seq<T>)
    requires a + b == c + d
    ensures a + (b + x) == (c + []) + (d + x)
  {
    assert a + (b + x) == (a + b) + x;
    assert c + [] == c;
  }

  /** An accepted message is logged with the fate the runner gives it. */
  lemma AccountArrival<S(!new), Msg(!new), Out>(cfg: Config<S, Msg, Out>, st0: State<S, Msg>, st: State<S, Msg>,
                                                log: Log<Msg>, from: u16, bytes: Bytes)
    returns (e: Entry<Msg>)
    requires Monotone(cfg.machine) && Accounts(cfg, st0, st, log) && DecodedOne(cfg, st, from, bytes).error.None?
    ensures Arrives(cfg, e, (from, bytes)) && Accounts(cfg, st0, DecodedOne(cfg, st, from, bytes).state, log + [e])
  {
    e := AcceptedOne(cfg, st, from, bytes);
    ReplayedSnoc(cfg, st0.machine, log, st.machine, e);
    DistinctSnoc(Headers(log), st0.seen, st.seen, e.h);
    QueuedArrival(st0.future, log, st.future, e);
    StepMonotone(cfg, st.machine, e);
    DropsOnlyPastSnoc(log, e, cfg.machine.round(st.machine),
                      cfg.machine.round(DecodedOne(cfg, st, from, bytes).state.machine));
  }

  // ---- a batch -----------------------------------------------------------------------------------

  lemma BatchStep<S, Msg, Out>(cfg: Config<S, Msg, Out>, st: State<S, Msg>, raw: seq<(u16, Bytes)>)
    requires raw != [] && DecodedBatch(cfg, st, raw).error.None?
    ensures var one := DecodedOne(cfg, st, raw[0].0, raw[0].1);
            one.error.None? && DecodedBatch(cfg, st, raw) == DecodedBatch(cfg, one.state, raw[1..])
  {
  }

  lemma HeadFirst<T>(log: seq<T>, e: T, es: seq<T>)
    ensures (log + [e]) + es == log + ([e] + es)
    ensures ([e] + es)[0] == e && ([e] + es)[1..] == es
  {
  }

  lemma HeadNext<T>(log: seq<T>, es: seq<T>)
    requires es != []
    ensures log + es == (log + [es[0]]) + es[1..]
  {
  }

  lemma {:induction false} AccountBatch<S(!new), Msg(!new), Out>(
      cfg: Config<S, Msg, Out>, st0: State<S, Msg>, st: State<S, Msg>, log: Log<Msg>, raw: seq<(u16, Bytes)>)
    returns (es: Log<Msg>)
    requires Monotone(cfg.machine) && Accounts(cfg, st0, st, log) && DecodedBatch(cfg, st, raw).error.None?
    ensures ArriveAll(cfg, es, raw) && Accounts(cfg, st0, DecodedBatch(cfg, st, raw).state, log + es)
    decreases |raw|
  {
    if raw == [] {
      es := [];
      NothingMore(log);
    } else {
      BatchStep(cfg, st, raw);
      var e := AccountArrival(cfg, st0, st, log, raw[0].0, raw[0].1);
      var rest := AccountBatch(cfg, st0, DecodedOne(cfg, st, raw[0].0, raw[0].1).state, log + [e], raw[1..]);
      HeadFirst(log, e, rest);
      es := [e] + rest;
    }
  }

  /** Arrivals hand nothing over from the buffer. */
  lemma {:induction false} ArrivalsReleaseNothing<S, Msg, Out>(cfg: Config<S, Msg, Out>, log: Log<Msg>, es: Log<Msg>,
                                                              raw: seq<(u16, Bytes)>, r: u16)
    requires ArriveAll(cfg, es, raw)
    ensures HandedOver(log + es, r) == HandedOver(log, r)
    decreases |es|
  {
    NothingMore(log);
    if es != [] {
      HeadNext(log, es);
      QueuesSnoc(log, es[0], r);
      NothingMore(HandedOver(log, r));
      ArrivalsReleaseNothing(cfg, log + [es[0]], es[1..], raw[1..], r);
    }
  }

  // ---- flushing a round --------------------------------------------------------------------------

  lemma HandledHead<S, Msg, Out>(m: Machine<S, Msg, Out>, s: S, queue: seq<(u16, Msg)>)
    requires queue != [] && HandledAll(m, s, queue).ok
    ensures var after := m.handle(s, queue[0].0, queue[0].1);
            after.ok && HandledAll(m, s, queue) == HandledAll(m, after.state, queue[1..])
  {
  }

  /** The buffered messages of a round the machine has reached, as log entries. */
  lemma {:induction false} ReleaseAll<S(!new), Msg(!new), Out>(
      cfg: Config<S, Msg, Out>, s0: S, s: S, log: Log<Msg>, round: u16, queue: seq<(u16, Msg)>)
    returns (es: Log<Msg>)
    requires Monotone(cfg.machine) && round <= cfg.machine.round(s)
    requires Replayed(cfg, s0, log) == Some(s) && HandledAll(cfg.machine, s, queue).ok
    ensures Replayed(cfg, s0, log + es) == Some(HandledAll(cfg.machine, s, queue).state)
    ensures Releases(es, round, queue)
    decreases |queue|
  {
    if queue == [] {
      es := [];
      NothingMore(log);
    } else {
      HandledHead(cfg.machine, s, queue);
      var (from, msg) := queue[0];
      var e := Released(round, from, msg, cfg.machine.round(s));
      ReplayedSnoc(cfg, s0, log, s, e);
      StepMonotone(cfg, s, e);
      var rest := ReleaseAll(cfg, s0, cfg.machine.handle(s, from, msg).state, log + [e], round, queue[1..]);
      HeadFirst(log, e, rest);
      es := [e] + rest;
    }
  }

  /** The entries hand over exactly these messages of this round. */
  ghost predicate Releases<Msg>(es: Log<Msg>, round: u16, queue: seq<(u16, Msg)>) {
    if queue == [] then es == []
    else
      && es != [] && es[0].Released? && es[0].round == round && (es[0].from, es[0].msg) == queue[0]
      && Releases(es[1..], round, queue[1..])
  }

  lemma {:induction false} ReleasesEffect<Msg>(log: Log<Msg>, es: Log<Msg>, round: u16, queue: seq<(u16, Msg)>, r: u16)
    requires Releases(es, round, queue)
    ensures Headers(log + es) == Headers(log) && Kept(log + es, r) == Kept(log, r)
    ensures HandedOver(log + es, r) == HandedOver(log, r) + if r == round then queue else []
    ensures AllReleased(es)
    decreases |es|
  {
    NothingMore(log);
    NothingMore(HandedOver(log, r));
    NothingMore(Kept(log, r));
    if queue != [] {
      HeadNext(log, es);
      QueuesSnoc(log, es[0], r);
      HeaderSnoc(log, es[0]);
      ReleasesEffect(log + [es[0]], es[1..], round, queue[1..], r);
      HeadNext(HandedOver(log, r), queue);
    }
  }

  lemma HeaderSnoc<Msg>(log: Log<Msg>, e: Entry<Msg>)
    ensures Headers(log + [e]) == if e.Arrived? then Headers(log) + [e.h] else Headers(log)
  {
    assert (log + [e])[..|log|] == log;
    NothingMore(Headers(log));
  }

  lemma {:induction false} HandlingMonotone<S(!new), Msg(!new), Out>(m: Machine<S, Msg, Out>, s: S,
                                                                     queue: seq<(u16, Msg)>)
    requires Monotone(m)
    ensures m.round(HandledAll(m, s, queue).state) >= m.round(s)
    decreases |queue|
  {
    if queue != [] {
      var after := m.handle(s, queue[0].0, queue[0].1);
      if after.ok {
        HandlingMonotone(m, after.state, queue[1..]);
      }
    }
  }

  lemma ConservesFlush<Msg>(before: Future<Msg>, log: Log<Msg>, future: Future<Msg>, es: Log<Msg>, current: u16)
    requires Conserves(before, log, future) && Releases(es, current, Queue(future, current))
    ensures Conserves(before, log + es, future - {current})
  {
    forall r: u16
      ensures ConservesAt(before, log + es, future - {current}, r)
    {
      assert ConservesAt(before, log, future, r);
      ReleasesEffect(log, es, current, Queue(future, current), r);
      NothingMore(HandedOver(log, r));
      NothingMore(HandedOver(log, r) + Queue(future, r));
    }
  }

  lemma {:induction false} DropsOnlyPastReleases<Msg>(log: Log<Msg>, es: Log<Msg>, round: u16)
    requires DropsOnlyPast(log, round) && AllReleased(es)
    ensures DropsOnlyPast(log + es, round)
    decreases |es|
  {
    NothingMore(log);
    if es != [] {
      HeadNext(log, es);
      DropsOnlyPastSnoc(log, es[0], round, round);
      DropsOnlyPastReleases(log + [es[0]], es[1..], round);
    }
  }

  lemma DropsOnlyPastLater<Msg>(log: Log<Msg>, round: u16, later: u16)
    requires DropsOnlyPast(log, round) && round <= later
    ensures DropsOnlyPast(log, later)
  {
    forall i: int
      ensures PastIfStale(log, i, later)
    {
      assert PastIfStale(log, i, round);
    }
  }

  lemma AccountFlush<S(!new), Msg(!new), Out>(cfg: Config<S, Msg, Out>, st0: State<S, Msg>, st: State<S, Msg>,
                                              log: Log<Msg>)
    returns (es: Log<Msg>)
    requires Monotone(cfg.machine) && Accounts(cfg, st0, st, log) && Flushed(cfg, st).error.None?
    ensures Accounts(cfg, st0, Flushed(cfg, st).state, log + es)
    ensures Releases(es, cfg.machine.round(st.machine), Queue(st.future, cfg.machine.round(st.machine)))
  {
    var current := cfg.machine.round(st.machine);
    var queue := Queue(st.future, current);
    es := ReleaseAll(cfg, st0.machine, st.machine, log, current, queue);
    HandlingMonotone(cfg.machine, st.machine, queue);
    ReleasesEffect(log, es, current, queue, 0);
    ConservesFlush(st0.future, log, st.future, es, current);
    DropsOnlyPastReleases(log, es, current);
    DropsOnlyPastLater(log + es, current, cfg.machine.round(HandledAll(cfg.machine, st.machine, queue).state));
  }

  // ---- whole runs --------------------------------------------------------------------------------

  lemma CoversSnoc<S, Msg(!new), Out>(cfg: Config<S, Msg, Out>, ops: seq<Op>, log: Log<Msg>, op: Op, es: Log<Msg>)
    requires Covers(cfg, ops, log) && Explains(cfg, op, es)
    ensures Covers(cfg, ops + [op], log + es)
  {
    assert (ops + [op])[..|ops|] == ops;
  }

  lemma ConservesDrain<Msg>(before: Future<Msg>, log: Log<Msg>, after: Future<Msg>)
    requires Conserves(before, log, after)
    ensures Conserves(before, log + [Drained], after)
  {
    forall r: u16
      ensures ConservesAt(before, log + [Drained], after, r)
    {
      assert ConservesAt(before, log, after, r);
      DrainQueues(log, r);
    }
  }

  lemma DrainQueues<Msg>(log: Log<Msg>, r: u16)
    ensures Kept(log + [Drained], r) == Kept(log, r) && HandedOver(log + [Drained], r) == HandedOver(log, r)
  {
    QueuesSnoc(log, Drained, r);
  }

  /** One more call of `step_encode`. */
  lemma AccountEncode<S(!new), Msg(!new), Out>(cfg: Config<S, Msg, Out>, st0: State<S, Msg>, st: State<S, Msg>,
                                               log: Log<Msg>)
    requires Monotone(cfg.machine) && Accounts(cfg, st0, st, log)
    ensures Accounts(cfg, st0, Emitted(cfg, st).0, log + [Drained])
  {
    ReplayedSnoc(cfg, st0.machine, log, st.machine, Drained);
    StepMonotone(cfg, st.machine, Drained);
    ConservesDrain(st0.future, log, st.future);
    DropsOnlyPastSnoc(log, Drained, cfg.machine.round(st.machine), cfg.machine.round(cfg.machine.drain(st.machine).0));
  }

  /** What a call hands over. */
  ghost predicate HandsOver<S, Msg, Out>(cfg: Config<S, Msg, Out>, st0: State<S, Msg>, st: State<S, Msg>, op: Op,
                                         log: Log<Msg>, after: Log<Msg>, r: u16) {
    if EndsBatchIn(cfg, st, op, r) then
      HandedOver(log, r) <= HandedOver(after, r) && Queue(st0.future, r) <= HandedOver(after, r)
    else HandedOver(after, r) == HandedOver(log, r)
  }

  /** One more call of `step_decode`. */
  lemma AccountDecode<S(!new), Msg(!new), Out>(cfg: Config<S, Msg, Out>, st0: State<S, Msg>, st: State<S, Msg>,
                                               log: Log<Msg>, raw: seq<(u16, Bytes)>)
    returns (es: Log<Msg>)
    requires Monotone(cfg.machine) && Accounts(cfg, st0, st, log) && Decoded(cfg, st, raw).error.None?
    ensures Accounts(cfg, st0, Decoded(cfg, st, raw).state, log + es) && Explains(cfg, StepDecode(raw), es)
    ensures forall r: u16 :: HandsOver(cfg, st0, st, StepDecode(raw), log, log + es, r)
  {
    var mid := DecodedBatch(cfg, st, raw).state;
    var current := cfg.machine.round(mid.machine);
    var arrivals := AccountBatch(cfg, st0, st, log, raw);
    var releases := AccountFlush(cfg, st0, mid, log + arrivals);
    Grouped(log, arrivals, releases);
    es := arrivals + releases;
    ReleasesEffect(log + arrivals, releases, current, Queue(mid.future, current), 0);
    forall r: u16
      ensures HandsOver(cfg, st0, st, StepDecode(raw), log, log + es, r)
    {
      ArrivalsReleaseNothing(cfg, log, arrivals, raw, r);
      ReleasesEffect(log + arrivals, releases, current, Queue(mid.future, current), r);
      StartsWith(st0.future, log + arrivals, mid.future, r);
    }
  }

  lemma StartsWith<Msg>(before: Future<Msg>, log: Log<Msg>, after: Future<Msg>, r: u16)
    requires Conserves(before, log, after)
    ensures Queue(before, r) <= HandedOver(log, r) + Queue(after, r)
    ensures HandedOver(log, r) + [] == HandedOver(log, r)
  {
    assert ConservesAt(before, log, after, r);
  }

  lemma TimelyStep<S, Msg, Out>(cfg: Config<S, Msg, Out>, st0: State<S, Msg>, ops: seq<Op>, op: Op, log: Log<Msg>,
                                after: Log<Msg>)
    requires Timely(cfg, st0, ops, log)
    requires forall r: u16 :: HandsOver(cfg, st0, Ran(cfg, st0, ops).state, op, log, after, r)
    ensures Timely(cfg, st0, ops + [op], after)
  {
    assert (ops + [op])[..|ops|] == ops;
    forall r: u16
      ensures TimelyAt(cfg, st0, ops + [op], after, r)
    {
      assert TimelyAt(cfg, st0, ops, log, r);
      assert HandsOver(cfg, st0, Ran(cfg, st0, ops).state, op, log, after, r);
    }
  }

  /** One more call. */
  lemma AccountOp<S(!new), Msg(!new), Out>(cfg: Config<S, Msg, Out>, st0: State<S, Msg>, st: State<S, Msg>,
                                           log: Log<Msg>, op: Op)
    returns (es: Log<Msg>)
    requires Monotone(cfg.machine) && Accounts(cfg, st0, st, log) && After(cfg, st, op).error.None?
    ensures Accounts(cfg, st0, After(cfg, st, op).state, log + es) && Explains(cfg, op, es)
    ensures forall r: u16 :: HandsOver(cfg, st0, st, op, log, log + es, r)
  {
    match op
    case StepEncode =>
      es := [Drained];
      AccountEncode(cfg, st0, st, log);
      forall r: u16
        ensures HandsOver(cfg, st0, st, op, log, log + es, r)
      {
        DrainQueues(log, r);
      }
    case StepDecode(raw) =>
      es := AccountDecode(cfg, st0, st, log, raw);
  }

  lemma RanSnoc<S, Msg, Out>(cfg: Config<S, Msg, Out>, st0: State<S, Msg>, ops: seq<Op>, op: Op)
    ensures var before := Ran(cfg, st0, ops);
            Ran(cfg, st0, ops + [op]) == if before.error.Some? then before else After(cfg, before.state, op)
  {
    assert (ops + [op])[..|ops|] == ops;
  }

  /** The log explains the run. */
  ghost predicate Logs<S, Msg(!new), Out>(cfg: Config<S, Msg, Out>, st0: State<S, Msg>, ops: seq<Op>, log: Log<Msg>) {
    && Accounts(cfg, st0, Ran(cfg, st0, ops).state, log)
    && Covers(cfg, ops, log)
    && Timely(cfg, st0, ops, log)
  }

  lemma AccountNext<S(!new), Msg(!new), Out>(cfg: Config<S, Msg, Out>, st0: State<S, Msg>, ops: seq<Op>, log: Log<Msg>,
                                             op: Op)
    returns (after: Log<Msg>)
    requires Monotone(cfg.machine) && Logs(cfg, st0, ops, log)
    requires Ran(cfg, st0, ops).error.None? && Ran(cfg, st0, ops + [op]).error.None?
    ensures Logs(cfg, st0, ops + [op], after)
  {
    RanSnoc(cfg, st0, ops, op);
    var es := AccountOp(cfg, st0, Ran(cfg, st0, ops).state, log, op);
    after := log + es;
    CoversSnoc(cfg, ops, log, op, es);
    TimelyStep(cfg, st0, ops, op, log, after);
  }

  lemma NothingHappened<S, Msg(!new), Out>(cfg: Config<S, Msg, Out>, st0: State<S, Msg>)
    ensures Logs(cfg, st0, [], [])
  {
    forall r: u16
      ensures ConservesAt(st0.future, [], st0.future, r)
    {
      NothingMore(Queue(st0.future, r));
    }
  }

  lemma SplitLast<T>(xs: seq<T>)
    requires xs != []
    ensures xs == xs[..|xs| - 1] + [xs[|xs| - 1]]
  {
  }

  lemma {:induction false} AccountRun<S(!new), Msg(!new), Out>(cfg: Config<S, Msg, Out>, st0: State<S, Msg>, ops: seq<Op>)
    returns (log: Log<Msg>)
    requires Monotone(cfg.machine) && Ran(cfg, st0, ops).error.None?
    ensures Logs(cfg, st0, ops, log)
  {
    if ops == [] {
      log := [];
      NothingHappened(cfg, st0);
    } else {
      var earlier, last := ops[..|ops| - 1], ops[|ops| - 1];
      SplitLast(ops);
      RanSnoc(cfg, st0, earlier, last);
      var log0 := AccountRun(cfg, st0, earlier);
      log := AccountNext(cfg, st0, earlier, log0, last);
    }
  }

  /** Over every error-free run of calls of `step_encode` and `step_decode`, in any order, on a
      machine whose round never decreases: every message received is accepted once and meets the
      one fate its round calls for when it arrives; the machine is what the logged drains and
      deliveries make of it; per round, those that had to wait are handed over in order of
      arrival, not before their round, or still wait. */
  lemma EveryMessageAccounted<S(!new), Msg(!new), Out>(cfg: Config<S, Msg, Out>, s0: S, ops: seq<Op>)
    requires Monotone(cfg.machine) && Ran(cfg, Fresh(cfg, s0), ops).error.None?
    ensures exists log: Log<Msg> :: Logs(cfg, Fresh(cfg, s0), ops, log)
  {
    var log := AccountRun(cfg, Fresh(cfg, s0), ops);
  }

  // ---- replays -----------------------------------------------------------------------------------

  /** The headers read from a batch. */
  ghost predicate HeadersMatch<S, Msg, Out>(cfg: Config<S, Msg, Out>, headers: seq<Header>, input: seq<(u16, Bytes)>) {
    && |headers| == |input|
    && forall i :: 0 <= i < |input| ==>
         Decode(cfg.codec, input[i].1).Ok? && Decode(cfg.codec, input[i].1).value.0 == headers[i]
  }

  lemma {:induction false} HeadersOfArrivals<S, Msg, Out>(cfg: Config<S, Msg, Out>, log: Log<Msg>, es: Log<Msg>,
                                                          input: seq<(u16, Bytes)>, raw: seq<(u16, Bytes)>)
    requires HeadersMatch(cfg, Headers(log), input) && ArriveAll(cfg, es, raw)
    ensures HeadersMatch(cfg, Headers(log + es), input + raw)
    decreases |es|
  {
    NothingMore(log);
    NothingMore(input);
    if es != [] {
      HeadNext(log, es);
      HeadNext(input, raw);
      HeaderSnoc(log, es[0]);
      HeadersMatchSnoc(cfg, Headers(log), input, es[0].h, raw[0]);
      HeadersOfArrivals(cfg, log + [es[0]], es[1..], input + [raw[0]], raw[1..]);
    }
  }

  lemma HeadersMatchSnoc<S, Msg, Out>(cfg: Config<S, Msg, Out>, headers: seq<Header>, input: seq<(u16, Bytes)>,
                                      h: Header, m: (u16, Bytes))
    requires HeadersMatch(cfg, headers, input) && Decode(cfg.codec, m.1).Ok? && Decode(cfg.codec, m.1).value.0 == h
    ensures HeadersMatch(cfg, headers + [h], input + [m])
  {
  }

  lemma {:induction false} ReleasesHaveNoHeaders<Msg>(log: Log<Msg>, es: Log<Msg>)
    requires AllReleased(es)
    ensures Headers(log + es) == Headers(log)
    decreases |es|
  {
    NothingMore(log);
    if es != [] {
      HeadNext(log, es);
      HeaderSnoc(log, es[0]);
      ReleasesHaveNoHeaders(log + [es[0]], es[1..]);
    }
  }

  lemma HeadersOfCall<S, Msg(!new), Out>(cfg: Config<S, Msg, Out>, ops: seq<Op>, log: Log<Msg>, op: Op, es: Log<Msg>)
    requires HeadersMatch(cfg, Headers(log), Inputs(ops)) && Explains(cfg, op, es)
    ensures HeadersMatch(cfg, Headers(log + es), Inputs(ops + [op]))
  {
    assert (ops + [op])[..|ops|] == ops;
    match op
    case StepEncode =>
      HeaderSnoc(log, Drained);
      NothingMore(Inputs(ops));
    case StepDecode(raw) =>
      var arrivals, releases: Log<Msg> :|
        es == arrivals + releases && ArriveAll(cfg, arrivals, raw) && AllReleased(releases);
      HeadersOfArrivals(cfg, log, arrivals, Inputs(ops), raw);
      ReleasesHaveNoHeaders(log + arrivals, releases);
      Grouped(log, arrivals, releases);
  }

  lemma LastCall<S, Msg(!new), Out>(cfg: Config<S, Msg, Out>, ops: seq<Op>, log: Log<Msg>)
    returns (before: Log<Msg>, es: Log<Msg>)
    requires ops != [] && Covers(cfg, ops, log)
    ensures log == before + es && Covers(cfg, ops[..|ops| - 1], before) && Explains(cfg, ops[|ops| - 1], es)
  {
    before, es :| log == before + es && Covers(cfg, ops[..|ops| - 1], before) && Explains(cfg, ops[|ops| - 1], es);
  }

  /** The headers of a log are those of the inputs, in order. */
  lemma {:induction false} HeadersOfInputs<S, Msg(!new), Out>(cfg: Config<S, Msg, Out>, ops: seq<Op>, log: Log<Msg>)
    requires Covers(cfg, ops, log)
    ensures HeadersMatch(cfg, Headers(log), Inputs(ops))
  {
    if ops != [] {
      var earlier, last := ops[..|ops| - 1], ops[|ops| - 1];
      var before, es := LastCall(cfg, ops, log);
      HeadersOfInputs(cfg, earlier, before);
      HeadersOfCall(cfg, earlier, before, last, es);
      SplitLast(ops);
    }
  }

  /** No two messages of an error-free run carry the same sender, round and recipient field: a
      replayed or repeated envelope always ends the run with an error. */
  lemma NoDuplicates<S(!new), Msg(!new), Out>(cfg: Config<S, Msg, Out>, s0: S, ops: seq<Op>, i: nat, j: nat)
    requires Monotone(cfg.machine) && i < j < |Inputs(ops)|
    requires Ran(cfg, Fresh(cfg, s0), ops).error.None?
    ensures Inputs(ops)[i].1 != Inputs(ops)[j].1
    ensures Decode(cfg.codec, Inputs(ops)[i].1).Ok? && Decode(cfg.codec, Inputs(ops)[j].1).Ok?
    ensures TripleOf(Decode(cfg.codec, Inputs(ops)[i].1).value.0)
            != TripleOf(Decode(cfg.codec, Inputs(ops)[j].1).value.0)
  {
    var log := AccountRun(cfg, Fresh(cfg, s0), ops);
    HeadersOfInputs(cfg, ops, log);
    assert Differ(Headers(log), i, j);
  }

  // ---- when a buffered message is handed over ----------------------------------------------------

  /** A call whose batch is read without error hands the machine exactly the buffer of the round
      in which the batch ends, in order up to the first failure, and forgets that buffer even
      then; all other rounds keep theirs. */
  lemma CallHandsOver<S, Msg, Out>(cfg: Config<S, Msg, Out>, st: State<S, Msg>, raw: seq<(u16, Bytes)>, r: u16)
    requires DecodedBatch(cfg, st, raw).error.None?
    ensures var mid, end := DecodedBatch(cfg, st, raw).state, Decoded(cfg, st, raw);
            var round := cfg.machine.round(mid.machine);
            var handled := HandledAll(cfg.machine, mid.machine, if round in mid.future then mid.future[round] else []);
            && end.state.machine == handled.state
            && end.error == (if handled.ok then None else Some(Protocol))
            && (handled.ok ==> end.state.currentRound == cfg.machine.round(handled.state))
            && round !in end.state.future
            && (r != round ==> (r in end.state.future <==> r in mid.future))
            && (r != round && r in mid.future ==> end.state.future[r] == mid.future[r])
            && end.state.seen == mid.seen && end.state.metrics == mid.metrics
  {
  }

  /** Over an error-free run, the messages waiting for a round are handed over, all of them and
      in order, if and only if some call ends its batch with the machine in that round; otherwise
      all of them still wait. */
  lemma HandedOverIff<S(!new), Msg(!new), Out>(cfg: Config<S, Msg, Out>, st0: State<S, Msg>, ops: seq<Op>, r: u16)
    requires Monotone(cfg.machine) && Ran(cfg, st0, ops).error.None? && Queue(st0.future, r) != []
    ensures exists log: Log<Msg> ::
              && Logs(cfg, st0, ops, log)
              && (Queue(st0.future, r) <= HandedOver(log, r) <==> Reaches(cfg, st0, ops, r))
              && (!Reaches(cfg, st0, ops, r) ==> Queue(st0.future, r) <= Queue(Ran(cfg, st0, ops).state.future, r))
  {
    var log := AccountRun(cfg, st0, ops);
    StartsWith(st0.future, log, Ran(cfg, st0, ops).state.future, r);
    TimelyIff(cfg, st0, ops, log, r);
  }

  lemma TimelyIff<S, Msg, Out>(cfg: Config<S, Msg, Out>, st0: State<S, Msg>, ops: seq<Op>, log: Log<Msg>, r: u16)
    requires Timely(cfg, st0, ops, log) && Queue(st0.future, r) != []
    requires Queue(st0.future, r) <= HandedOver(log, r) + Queue(Ran(cfg, st0, ops).state.future, r)
    ensures Queue(st0.future, r) <= HandedOver(log, r) <==> Reaches(cfg, st0, ops, r)
    ensures !Reaches(cfg, st0, ops, r) ==> Queue(st0.future, r) <= Queue(Ran(cfg, st0, ops).state.future, r)
  {
    assert TimelyAt(cfg, st0, ops, log, r);
    if !Reaches(cfg, st0, ops, r) {
      assert [] + Queue(Ran(cfg, st0, ops).state.future, r) == Queue(Ran(cfg, st0, ops).state.future, r);
    }
  }

  lemma {:induction false} BatchKeepsPast<S(!new), Msg(!new), Out>(
      cfg: Config<S, Msg, Out>, st: State<S, Msg>, raw: seq<(u16, Bytes)>, r: u16)
    requires Monotone(cfg.machine) && r < cfg.machine.round(st.machine)
    ensures var after := DecodedBatch(cfg, st, raw).state;
            r < cfg.machine.round(after.machine) && Queue(after.future, r) == Queue(st.future, r)
    decreases |raw|
  {
    if raw != [] {
      var one := DecodedOne(cfg, st, raw[0].0, raw[0].1);
      if one.error.None? {
        BatchKeepsPast(cfg, one.state, raw[1..], r);
      }
    }
  }

  /** A buffered message whose round the machine has left behind is never delivered and never
      leaves the buffer, whatever is called and arrives later. */
  lemma {:induction false} StrandedForever<S(!new), Msg(!new), Out>(
      cfg: Config<S, Msg, Out>, st: State<S, Msg>, ops: seq<Op>, r: u16)
    requires Monotone(cfg.machine) && r < cfg.machine.round(st.machine)
    ensures var after := Ran(cfg, st, ops).state;
            r < cfg.machine.round(after.machine) && Queue(after.future, r) == Queue(st.future, r)
    ensures !Reaches(cfg, st, ops, r)
  {
    if ops != [] {
      var earlier, last := ops[..|ops| - 1], ops[|ops| - 1];
      StrandedForever(cfg, st, earlier, r);
      var before := Ran(cfg, st, earlier);
      if last.StepDecode? {
        BatchKeepsPast(cfg, before.state, last.raw, r);
        var batch := DecodedBatch(cfg, before.state, last.raw).state;
        HandlingMonotone(cfg.machine, batch.machine, Queue(batch.future, cfg.machine.round(batch.machine)));
      }
    }
  }

  // ---- a session that strands a message ------------------------------------------------------------

  /** A machine that skips a round: the first message takes it from round one to round three. */
  function Skipper(): Machine<bool, Bytes, ()> {
    Machine((skipped: bool, from: u16, msg: Bytes) => Handled(true, true), (skipped: bool) => (skipped, []),
            (skipped: bool) => if skipped then 3 else 1, (skipped: bool) => skipped, (skipped: bool) => Some(()))
  }

  /** Three parties; payloads are bytes. */
  function SkipperConfig(id: SessionId): Config<bool, Bytes, ()> {
    Config(Skipper(), PayloadCodec((msg: Bytes) => msg, (bytes: Bytes) => Some(bytes)), id, 7, 1, [1, 2, 3])
  }

  const PAYLOAD: Bytes := [0x2A]

  /** A broadcast of party `from` in the given round. */
  function SkipperLetter(id: SessionId, round: u16, from: u16): (u16, Bytes) {
    (from, Encoded(SkipperConfig(id).codec, Header(id, 7, round, from, BROADCAST), PAYLOAD))
  }

  lemma OneMessage<S, Msg, Out>(cfg: Config<S, Msg, Out>, st: State<S, Msg>, m: (u16, Bytes))
    ensures DecodedBatch(cfg, st, [m]) == DecodedOne(cfg, st, m.0, m.1)
  {
    var one := DecodedOne(cfg, st, m.0, m.1);
    if one.error.None? {
      assert DecodedBatch(cfg, one.state, [m][1..]) == one;
    }
  }

  /** The runner in round one, with the message of round two in its buffer. */
  predicate Buffered(st: State<bool, Bytes>) {
    !st.machine && st.seen == {(2, 2, BROADCAST)} && st.future == map[2 := [(2, PAYLOAD)]]
  }

  lemma SkipperBuffers(id: SessionId)
    ensures var step := Decoded(SkipperConfig(id), Fresh(SkipperConfig(id), false), [SkipperLetter(id, 2, 2)]);
            step.error.None? && Buffered(step.state)
  {
    var cfg := SkipperConfig(id);
    var st := Fresh(cfg, false);
    DecodeEncoded(cfg.codec, Header(id, 7, 2, 2, BROADCAST), PAYLOAD);
    OneMessage(cfg, st, SkipperLetter(id, 2, 2));
    assert [] + [(2, PAYLOAD)] == [(2, PAYLOAD)];
    assert Enqueued(st.future, 2, 2, PAYLOAD) == map[2 := [(2, PAYLOAD)]];
    var mid := DecodedBatch(cfg, st, [SkipperLetter(id, 2, 2)]).state;
    assert Buffered(mid) && Queue(mid.future, 1) == [];
    assert mid.future - {1} == mid.future;
  }

  /** The message of round one takes the machine past round two. */
  lemma SkipperSkips(id: SessionId, st: State<bool, Bytes>)
    requires Buffered(st)
    ensures var step := Decoded(SkipperConfig(id), st, [SkipperLetter(id, 1, 3)]);
            step.error.None? && step.state.machine && step.state.future == st.future
  {
    var cfg := SkipperConfig(id);
    DecodeEncoded(cfg.codec, Header(id, 7, 1, 3, BROADCAST), PAYLOAD);
    OneMessage(cfg, st, SkipperLetter(id, 1, 3));
    assert st.future - {3} == st.future;
  }

  lemma RanTwo<S, Msg, Out>(cfg: Config<S, Msg, Out>, st: State<S, Msg>, a: Op, b: Op)
    requires After(cfg, st, a).error.None?
    ensures Ran(cfg, st, [a, b]) == After(cfg, After(cfg, st, a).state, b)
  {
    assert [a, b][..1] == [a] && [a][..0] == [];
    assert Ran(cfg, st, []) == Step(st, None);
    assert Ran(cfg, st, [a]) == After(cfg, st, a);
  }

  /** A message of round two arrives in round one and is buffered; then a message of round one
      takes the machine to round three. No error occurs, and the buffered message is stranded. */
  lemma SkippedRoundStrands(id: SessionId)
    ensures Monotone(Skipper())
    ensures var cfg := SkipperConfig(id);
            var early, late := StepDecode([SkipperLetter(id, 2, 2)]), StepDecode([SkipperLetter(id, 1, 3)]);
            var step := Ran(cfg, Fresh(cfg, false), [early, late]);
            && step.error.None? && cfg.machine.round(step.state.machine) == 3
            && Queue(step.state.future, 2) == [(2, PAYLOAD)]
  {
    var cfg := SkipperConfig(id);
    var a, b := StepDecode([SkipperLetter(id, 2, 2)]), StepDecode([SkipperLetter(id, 1, 3)]);
    SkipperBuffers(id);
    SkipperSkips(id, After(cfg, Fresh(cfg, false), a).state);
    RanTwo(cfg, Fresh(cfg, false), a, b);
  }
}
