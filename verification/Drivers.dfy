/** The direct driver: it drains all machines and routes every message. */
module Drivers {
  import opened Outcomes
  import opened Codec
  import opened Runner

  // ---- the orchestrator --------------------------------------------------------------------------

  type Pending<+Msg> = seq<(u16, Outgoing<Msg>)>

  function Tagged<Msg>(id: u16, outs: seq<Outgoing<Msg>>): Pending<Msg> {
    seq(|outs|, i requires 0 <= i < |outs| => (id, outs[i]))
  }

  /** Every machine drained, in order: the states and what they had to send. */
  function Drained<S, Msg, Out>(m: Machine<S, Msg, Out>, ids: seq<u16>, ss: seq<S>): (seq<S>, Pending<Msg>)
    requires |ids| == |ss|
  {
    if ss == [] then ([], [])
    else
      var n := |ss| - 1;
      var (before, pending) := Drained(m, ids[..n], ss[..n]);
      var (s, outs) := m.drain(ss[n]);
      (before + [s], pending + Tagged(ids[n], outs))
  }

  lemma {:induction false} DrainedLength<S, Msg, Out>(m: Machine<S, Msg, Out>, ids: seq<u16>, ss: seq<S>)
    requires |ids| == |ss|
    ensures |Drained(m, ids, ss).0| == |ss|
  {
    if ss != [] {
      DrainedLength(m, ids[..|ss| - 1], ss[..|ss| - 1]);
    }
  }

  /** The position a party id is looked up at: the last machine with that id. */
  function IndexOf(ids: seq<u16>, id: u16): (r: Option<nat>)
    ensures r.Some? ==> r.value < |ids| && ids[r.value] == id && id !in ids[r.value + 1..]
    ensures r.None? ==> id !in ids
  {
    if ids == [] then None
    else if ids[|ids| - 1] == id then Some(|ids| - 1)
    else IndexOf(ids[..|ids| - 1], id)
  }

  /** A broadcast handed to the first k machines but the sender's, stopping at a failure. */
  function BroadcastTo<S, Msg, Out>(m: Machine<S, Msg, Out>, ids: seq<u16>, ss: seq<S>, from: u16, msg: Msg, k: nat)
    : (h: Handled<seq<S>>)
    requires |ids| == |ss| && k <= |ss|
    ensures |h.state| == |ss|
  {
    if k == 0 then Handled(ss, true)
    else
      var h := BroadcastTo(m, ids, ss, from, msg, k - 1);
      if !h.ok || ids[k - 1] == from then h
      else
        var after := m.handle(h.state[k - 1], from, msg);
        Handled(h.state[k - 1 := after.state], after.ok)
  }

  function RoutedOne<S, Msg, Out>(m: Machine<S, Msg, Out>, ids: seq<u16>, ss: seq<S>, from: u16, out: Outgoing<Msg>)
    : (h: Handled<seq<S>>)
    requires |ids| == |ss|
    ensures |h.state| == |ss|
  {
    match out.to
    case Broadcast => BroadcastTo(m, ids, ss, from, out.msg, |ss|)
    case Party(to) =>
      match IndexOf(ids, to)
      case None => Handled(ss, true)
      case Some(i) =>
        var after := m.handle(ss[i], from, out.msg);
        Handled(ss[i := after.state], after.ok)
  }

  /** The first k pending messages routed, stopping at a failure. */
  function RoutedAll<S, Msg, Out>(m: Machine<S, Msg, Out>, ids: seq<u16>, ss: seq<S>, pending: Pending<Msg>, k: nat)
    : (h: Handled<seq<S>>)
    requires |ids| == |ss| && k <= |pending|
    ensures |h.state| == |ss|
  {
    if k == 0 then Handled(ss, true)
    else
      var h := RoutedAll(m, ids, ss, pending, k - 1);
      if !h.ok then h else RoutedOne(m, ids, h.state, pending[k - 1].0, pending[k - 1].1)
  }

  function OrchestratorRound<S, Msg, Out>(m: Machine<S, Msg, Out>, ids: seq<u16>, ss: seq<S>): (h: Handled<seq<S>>)
    requires |ids| == |ss|
    ensures |h.state| == |ss|
  {
    DrainedLength(m, ids, ss);
    var (drained, pending) := Drained(m, ids, ss);
    RoutedAll(m, ids, drained, pending, |pending|)
  }

  predicate AllDone<S, Msg, Out>(m: Machine<S, Msg, Out>, ss: seq<S>) {
    forall i :: 0 <= i < |ss| ==> m.isDone(ss[i])
  }

  function OrchestratorRun<S, Msg, Out>(m: Machine<S, Msg, Out>, ids: seq<u16>, ss: seq<S>, rounds: nat)
    : (h: Handled<seq<S>>)
    requires |ids| == |ss|
    ensures |h.state| == |ss|
    decreases rounds
  {
    if rounds == 0 || AllDone(m, ss) then Handled(ss, true)
    else
      var h := OrchestratorRound(m, ids, ss);
      if !h.ok then h else OrchestratorRun(m, ids, h.state, rounds - 1)
  }

  function Finished<S, Msg, Out>(m: Machine<S, Msg, Out>, ss: seq<S>): seq<Option<Out>> {
    seq(|ss|, i requires 0 <= i < |ss| => m.finish(ss[i]))
  }

  /** `run`: one output per machine, or nothing when some `handle` failed. */
  function OrchestratorOutputs<S, Msg, Out>(m: Machine<S, Msg, Out>, ids: seq<u16>, ss: seq<S>, rounds: nat)
    : Option<seq<Option<Out>>>
    requires |ids| == |ss|
  {
    var h := OrchestratorRun(m, ids, ss, rounds);
    if h.ok then Some(Finished(m, h.state)) else None
  }

  // ---- what every machine hears --------------------------------------------------------------------

  /** Machine j gets a message: it is the last one with the id the message is addressed to, or the
      message is a broadcast of a party with another id. */
  predicate Reaches(ids: seq<u16>, j: nat, from: u16, to: Recipient)
    requires j < |ids|
  {
    match to
    case Party(id) => ids[j] == id && id !in ids[j + 1..]
    case Broadcast => ids[j] != from
  }

  /** The messages of one sender that machine j gets, in order, each with its sender. */
  function Heard<Msg>(ids: seq<u16>, j: nat, from: u16, outs: seq<Outgoing<Msg>>): seq<(u16, Msg)>
    requires j < |ids|
  {
    if outs == [] then []
    else
      var last := outs[|outs| - 1];
      Heard(ids, j, from, outs[..|outs| - 1]) + if Reaches(ids, j, from, last.to) then [(from, last.msg)] else []
  }

  /** What machine j hears of the first k machines' messages. */
  function HeardOfAll<S, Msg, Out>(m: Machine<S, Msg, Out>, ids: seq<u16>, ss: seq<S>, j: nat, k: nat): seq<(u16, Msg)>
    requires |ids| == |ss| && j < |ids| && k <= |ids|
  {
    if k == 0 then []
    else HeardOfAll(m, ids, ss, j, k - 1) + Heard(ids, j, ids[k - 1], m.drain(ss[k - 1]).1)
  }

  /** Machine j drained, after it handled all it hears. */
  function Listened<S, Msg, Out>(m: Machine<S, Msg, Out>, ids: seq<u16>, ss: seq<S>, j: nat): Handled<S>
    requires |ids| == |ss| && j < |ids|
  {
    HandledAll(m, m.drain(ss[j]).0, HeardOfAll(m, ids, ss, j, |ids|))
  }

  /** One round, each machine on its own. */
  function Round<S, Msg, Out>(m: Machine<S, Msg, Out>, ids: seq<u16>, ss: seq<S>): (parts: seq<Handled<S>>)
    requires |ids| == |ss|
    ensures |parts| == |ss|
  {
    seq(|ss|, j requires 0 <= j < |ss| => Listened(m, ids, ss, j))
  }

  predicate AllOk<S>(parts: seq<Handled<S>>) {
    forall j :: 0 <= j < |parts| ==> parts[j].ok
  }

  function States<S>(parts: seq<Handled<S>>): (ss: seq<S>)
    ensures |ss| == |parts|
  {
    seq(|parts|, j requires 0 <= j < |parts| => parts[j].state)
  }

  /** The states after these rounds, or nothing when some machine failed. */
  function Conversation<S, Msg, Out>(m: Machine<S, Msg, Out>, ids: seq<u16>, ss: seq<S>, rounds: nat): Option<seq<S>>
    requires |ids| == |ss|
    decreases rounds
  {
    if rounds == 0 || AllDone(m, ss) then Some(ss)
    else if AllOk(Round(m, ids, ss)) then Conversation(m, ids, States(Round(m, ids, ss)), rounds - 1)
    else None
  }

  class Orchestrator<S, Msg, Out> {
    const machine: Machine<S, Msg, Out>
    const ids: seq<u16>
    const maxRounds: u16
    var states: seq<S>

    ghost predicate Valid()
      reads this
    {
      |ids| == |states|
    }

    constructor (machine: Machine<S, Msg, Out>, ids: seq<u16>, states: seq<S>, maxRounds: u16)
      requires |ids| == |states|
      ensures Valid() && this.machine == machine && this.ids == ids && this.states == states && this.maxRounds == maxRounds
    {
      this.machine, this.ids, this.states, this.maxRounds := machine, ids, states, maxRounds;
    }

    /** Collects what every machine has to send. */
    method DrainAll() returns (pending: Pending<Msg>)
      requires Valid()
      modifies this
      ensures Valid() && (states, pending) == Drained(machine, ids, old(states))
    {
      pending := [];
      ghost var was := states;
      DrainedLength(machine, ids, states);
      for i := 0 to |states|
        invariant |states| == |was| && states[i..] == was[i..]
        invariant (states[..i], pending) == Drained(machine, ids[..i], was[..i])
      {
        var (s, outs) := machine.drain(states[i]);
        assert was[..i + 1][..i] == was[..i] && ids[..i + 1][..i] == ids[..i];
        states := states[i := s];
        pending := pending + Tagged(ids[i], outs);
        assert states[..i + 1] == states[..i] + [s];
      }
      assert was[..|was|] == was && ids[..|was|] == ids && states[..|was|] == states;
    }

    method Deliver(from: u16, out: Outgoing<Msg>) returns (ok: bool)
      requires Valid()
      modifies this
      ensures Valid() && Handled(states, ok) == RoutedOne(machine, ids, old(states), from, out)
    {
      match out.to
      case Party(to) =>
        var index := IndexOf(ids, to);
        if index.None? {
          return true;
        }
        var after := machine.handle(states[index.value], from, out.msg);
        states := states[index.value := after.state];
        ok := after.ok;
      case Broadcast =>
        ghost var was := states;
        var failed := false;
        var k := 0;
        while k < |states| && !failed
          invariant |states| == |was| && k <= |was|
          invariant Handled(states, !failed) == BroadcastTo(machine, ids, was, from, out.msg, k)
        {
          if ids[k] != from {
            var after := machine.handle(states[k], from, out.msg);
            states := states[k := after.state];
            failed := !after.ok;
          }
          k := k + 1;
        }
        ok := !failed;
        if failed {
          FailureStays(machine, ids, was, from, out.msg, k, |was|);
        }
    }

    method Run() returns (outputs: Option<seq<Option<Out>>>)
      requires Valid()
      modifies this
      ensures outputs == OrchestratorOutputs(machine, ids, old(states), maxRounds)
      ensures var heard := Conversation(machine, ids, old(states), maxRounds);
              outputs == if heard.Some? then Some(Finished(machine, heard.value)) else None
    {
      ghost var was := states;
      var round := 0;
      while round < maxRounds && !AllDone(machine, states)
        invariant Valid() && |states| == |was| && 0 <= round <= maxRounds
        invariant OrchestratorRun(machine, ids, states, maxRounds - round)
               == OrchestratorRun(machine, ids, was, maxRounds)
        decreases maxRounds - round
      {
        ghost var before := states;
        var pending := DrainAll();
        ghost var drained := states;
        var i := 0;
        while i < |pending|
          invariant Valid() && |states| == |was| && i <= |pending|
          invariant Handled(states, true) == RoutedAll(machine, ids, drained, pending, i)
        {
          var ok := Deliver(pending[i].0, pending[i].1);
          i := i + 1;
          if !ok {
            RoutingFailureStays(machine, ids, drained, pending, i, |pending|);
            RunIsConversation(machine, ids, was, maxRounds);
            return None;
          }
        }
        round := round + 1;
      }
      RunIsConversation(machine, ids, was, maxRounds);
      outputs := Some(Finished(machine, states));
    }
  }

  lemma {:induction false} FailureStays<S, Msg, Out>(m: Machine<S, Msg, Out>, ids: seq<u16>, ss: seq<S>, from: u16,
                                                     msg: Msg, k: nat, l: nat)
    requires |ids| == |ss| && k <= l <= |ss| && !BroadcastTo(m, ids, ss, from, msg, k).ok
    ensures BroadcastTo(m, ids, ss, from, msg, l) == BroadcastTo(m, ids, ss, from, msg, k)
  {
    if k < l {
      FailureStays(m, ids, ss, from, msg, k, l - 1);
    }
  }

  lemma {:induction false} RoutingFailureStays<S, Msg, Out>(m: Machine<S, Msg, Out>, ids: seq<u16>, ss: seq<S>,
                                                            pending: Pending<Msg>, k: nat, l: nat)
    requires |ids| == |ss| && k <= l <= |pending| && !RoutedAll(m, ids, ss, pending, k).ok
    ensures RoutedAll(m, ids, ss, pending, l) == RoutedAll(m, ids, ss, pending, k)
  {
    if k < l {
      RoutingFailureStays(m, ids, ss, pending, k, l - 1);
    }
  }

  // ---- routing is hearing --------------------------------------------------------------------------

  /** All machines together are what each is on its own; a failure is the failure of one. */
  ghost predicate Merges<S>(h: Handled<seq<S>>, parts: seq<Handled<S>>) {
    && |h.state| == |parts|
    && (h.ok <==> AllOk(parts))
    && (h.ok ==> forall j :: 0 <= j < |parts| ==> h.state[j] == parts[j].state)
  }

  function Told<S, Msg, Out>(m: Machine<S, Msg, Out>, s: S, reached: bool, from: u16, msg: Msg): Handled<S> {
    if reached then m.handle(s, from, msg) else Handled(s, true)
  }

  /** One message, each machine on its own; only the first k are told. */
  ghost function ToldFirst<S, Msg, Out>(
      m: Machine<S, Msg, Out>, ids: seq<u16>, ss: seq<S>, from: u16, out: Outgoing<Msg>, k: nat)
    : (parts: seq<Handled<S>>)
    requires |ids| == |ss|
    ensures |parts| == |ss|
  {
    seq(|ss|, j requires 0 <= j < |ss| => Told(m, ss[j], j < k && Reaches(ids, j, from, out.to), from, out.msg))
  }

  ghost function ToldAll<S, Msg, Out>(m: Machine<S, Msg, Out>, ids: seq<u16>, ss: seq<S>, from: u16, out: Outgoing<Msg>)
    : (parts: seq<Handled<S>>)
    requires |ids| == |ss|
    ensures |parts| == |ss|
  {
    seq(|ss|, j requires 0 <= j < |ss| => Told(m, ss[j], Reaches(ids, j, from, out.to), from, out.msg))
  }

  lemma {:induction false} BroadcastMerges<S, Msg, Out>(m: Machine<S, Msg, Out>, ids: seq<u16>, ss: seq<S>, from: u16,
                                                        msg: Msg, k: nat)
    requires |ids| == |ss| && k <= |ss|
    ensures Merges(BroadcastTo(m, ids, ss, from, msg, k), ToldFirst(m, ids, ss, from, Outgoing(Broadcast, msg), k))
  {
    if k > 0 {
      var before := ToldFirst(m, ids, ss, from, Outgoing(Broadcast, msg), k - 1);
      var after := ToldFirst(m, ids, ss, from, Outgoing(Broadcast, msg), k);
      BroadcastMerges(m, ids, ss, from, msg, k - 1);
      assert before[k - 1] == Handled(ss[k - 1], true) && after == before[k - 1 := after[k - 1]];
      MergesUpdate(BroadcastTo(m, ids, ss, from, msg, k - 1), before, k - 1, after[k - 1]);
    }
  }

  /** The next machine, when no machine before it failed. */
  lemma MergesUpdate<S>(h: Handled<seq<S>>, parts: seq<Handled<S>>, i: nat, part: Handled<S>)
    requires Merges(h, parts) && i < |parts| && parts[i].ok
    ensures h.ok ==> Merges(Handled(h.state[i := part.state], part.ok), parts[i := part])
    ensures !h.ok ==> Merges(h, parts[i := part])
  {
    if h.ok {
      assert parts[i := part][i] == part;
    } else {
      var j :| 0 <= j < |parts| && !parts[j].ok;
      assert parts[i := part][j] == parts[j];
    }
  }

  /** A message to one party reaches the machine its id is looked up at. */
  lemma OneReached(ids: seq<u16>, from: u16, id: u16, j: nat)
    requires j < |ids|
    ensures Reaches(ids, j, from, Party(id)) <==> IndexOf(ids, id) == Some(j)
  {
    var r := IndexOf(ids, id);
    if r.Some? && j < r.value {
      assert ids[j + 1..][r.value - j - 1] == id;
    }
  }

  lemma RoutedMerges<S, Msg, Out>(m: Machine<S, Msg, Out>, ids: seq<u16>, ss: seq<S>, from: u16, out: Outgoing<Msg>)
    requires |ids| == |ss|
    ensures Merges(RoutedOne(m, ids, ss, from, out), ToldAll(m, ids, ss, from, out))
  {
    var parts := ToldAll(m, ids, ss, from, out);
    match out.to
    case Broadcast =>
      BroadcastMerges(m, ids, ss, from, out.msg, |ss|);
      assert parts == ToldFirst(m, ids, ss, from, out, |ss|);
    case Party(id) =>
      forall j | 0 <= j < |ids|
        ensures Reaches(ids, j, from, out.to) <==> IndexOf(ids, id) == Some(j)
      {
        OneReached(ids, from, id, j);
      }
      if IndexOf(ids, id).Some? {
        assert parts[IndexOf(ids, id).value] == m.handle(ss[IndexOf(ids, id).value], from, out.msg);
      }
  }

  /** The pending messages machine j gets. */
  ghost function HeardIn<Msg>(ids: seq<u16>, j: nat, pending: Pending<Msg>): seq<(u16, Msg)>
    requires j < |ids|
  {
    if pending == [] then []
    else
      var (from, out) := pending[|pending| - 1];
      HeardIn(ids, j, pending[..|pending| - 1]) + if Reaches(ids, j, from, out.to) then [(from, out.msg)] else []
  }

  ghost function AfterPending<S, Msg, Out>(m: Machine<S, Msg, Out>, ids: seq<u16>, ss: seq<S>, pending: Pending<Msg>)
    : (parts: seq<Handled<S>>)
    requires |ids| == |ss|
    ensures |parts| == |ss|
  {
    seq(|ss|, j requires 0 <= j < |ss| => HandledAll(m, ss[j], HeardIn(ids, j, pending)))
  }

  lemma OneMoreHeard<S, Msg, Out>(m: Machine<S, Msg, Out>, s: S, ids: seq<u16>, j: nat, pending: Pending<Msg>, k: nat)
    requires j < |ids| && k < |pending|
    ensures var before := HandledAll(m, s, HeardIn(ids, j, pending[..k]));
            var (from, out) := pending[k];
            HandledAll(m, s, HeardIn(ids, j, pending[..k + 1]))
            == if before.ok then Told(m, before.state, Reaches(ids, j, from, out.to), from, out.msg) else before
  {
    var (from, out) := pending[k];
    assert pending[..k + 1][..k] == pending[..k];
    NothingMore(HeardIn(ids, j, pending[..k]));
    HandledSnoc(m, s, HeardIn(ids, j, pending[..k]), (from, out.msg));
  }

  /** One more message, when all machines so far merge. */
  lemma MergesNext<S, Msg, Out>(m: Machine<S, Msg, Out>, ids: seq<u16>, ss: seq<S>, pending: Pending<Msg>, k: nat,
                                h: Handled<seq<S>>)
    requires |ids| == |ss| && k < |pending| && Merges(h, AfterPending(m, ids, ss, pending[..k]))
    ensures var h' := if h.ok then RoutedOne(m, ids, h.state, pending[k].0, pending[k].1) else h;
            Merges(h', AfterPending(m, ids, ss, pending[..k + 1]))
  {
    var (from, out) := pending[k];
    var parts, parts' := AfterPending(m, ids, ss, pending[..k]), AfterPending(m, ids, ss, pending[..k + 1]);
    forall j | 0 <= j < |ss|
      ensures parts'[j] == if parts[j].ok then Told(m, parts[j].state, Reaches(ids, j, from, out.to), from, out.msg)
                           else parts[j]
    {
      OneMoreHeard(m, ss[j], ids, j, pending, k);
    }
    if h.ok {
      RoutedMerges(m, ids, h.state, from, out);
      assert parts' == ToldAll(m, ids, h.state, from, out);
    }
  }

  lemma {:induction false} RoutingMerges<S, Msg, Out>(m: Machine<S, Msg, Out>, ids: seq<u16>, ss: seq<S>,
                                                      pending: Pending<Msg>, k: nat)
    requires |ids| == |ss| && k <= |pending|
    ensures Merges(RoutedAll(m, ids, ss, pending, k), AfterPending(m, ids, ss, pending[..k]))
  {
    if k > 0 {
      RoutingMerges(m, ids, ss, pending, k - 1);
      MergesNext(m, ids, ss, pending, k - 1, RoutedAll(m, ids, ss, pending, k - 1));
    }
  }

  lemma HeardInSnoc<Msg>(ids: seq<u16>, j: nat, pending: Pending<Msg>, from: u16, out: Outgoing<Msg>)
    requires j < |ids|
    ensures HeardIn(ids, j, pending + [(from, out)])
            == HeardIn(ids, j, pending) + if Reaches(ids, j, from, out.to) then [(from, out.msg)] else []
  {
    assert (pending + [(from, out)])[..|pending|] == pending;
  }

  lemma TaggedSnoc<Msg>(pending: Pending<Msg>, from: u16, outs: seq<Outgoing<Msg>>)
    requires outs != []
    ensures pending + Tagged(from, outs)
            == pending + Tagged(from, outs[..|outs| - 1]) + [(from, outs[|outs| - 1])]
  {
  }

  /** One sender's messages behind others. */
  lemma {:induction false} HeardBehind<Msg>(ids: seq<u16>, j: nat, pending: Pending<Msg>, from: u16,
                                            outs: seq<Outgoing<Msg>>)
    requires j < |ids|
    ensures HeardIn(ids, j, pending + Tagged(from, outs)) == HeardIn(ids, j, pending) + Heard(ids, j, from, outs)
    decreases |outs|
  {
    if outs == [] {
      NothingMore(pending);
      NothingMore(HeardIn(ids, j, pending));
    } else {
      var init, last := outs[..|outs| - 1], outs[|outs| - 1];
      TaggedSnoc(pending, from, outs);
      HeardBehind(ids, j, pending, from, init);
      HeardInSnoc(ids, j, pending + Tagged(from, init), from, last);
      Grouped(HeardIn(ids, j, pending), Heard(ids, j, from, init),
              if Reaches(ids, j, from, last.to) then [(from, last.msg)] else []);
    }
  }

  /** Draining is what it is for each machine, and each hears the right messages. */
  lemma {:induction false} DrainedHeard<S, Msg, Out>(m: Machine<S, Msg, Out>, ids: seq<u16>, ss: seq<S>, j: nat, k: nat)
    requires |ids| == |ss| && j < |ids| && k <= |ids|
    ensures HeardIn(ids, j, Drained(m, ids[..k], ss[..k]).1) == HeardOfAll(m, ids, ss, j, k)
    ensures |Drained(m, ids[..k], ss[..k]).0| == k
    ensures j < k ==> Drained(m, ids[..k], ss[..k]).0[j] == m.drain(ss[j]).0
  {
    if k > 0 {
      DrainedHeard(m, ids, ss, j, k - 1);
      assert ids[..k][..k - 1] == ids[..k - 1] && ss[..k][..k - 1] == ss[..k - 1];
      HeardBehind(ids, j, Drained(m, ids[..k - 1], ss[..k - 1]).1, ids[k - 1], m.drain(ss[k - 1]).1);
    }
  }

  /** A round of the orchestrator makes every machine handle exactly the messages addressed to it
      and the broadcasts of the others, in sending order, each under its sender's id. */
  lemma RoundIsHeard<S, Msg, Out>(m: Machine<S, Msg, Out>, ids: seq<u16>, ss: seq<S>)
    requires |ids| == |ss|
    ensures Merges(OrchestratorRound(m, ids, ss), Round(m, ids, ss))
  {
    DrainedLength(m, ids, ss);
    var (drained, pending) := Drained(m, ids, ss);
    assert ids[..|ids|] == ids && ss[..|ss|] == ss && pending[..|pending|] == pending;
    RoutingMerges(m, ids, drained, pending, |pending|);
    forall j | 0 <= j < |ss|
      ensures AfterPending(m, ids, drained, pending)[j] == Round(m, ids, ss)[j]
    {
      DrainedHeard(m, ids, ss, j, |ids|);
    }
    assert AfterPending(m, ids, drained, pending) == Round(m, ids, ss);
  }

  /** The orchestrator's outputs are those of the conversation. */
  lemma {:induction false} RunIsConversation<S, Msg, Out>(
      m: Machine<S, Msg, Out>, ids: seq<u16>, ss: seq<S>, rounds: nat)
    requires |ids| == |ss|
    ensures var heard := Conversation(m, ids, ss, rounds);
            OrchestratorOutputs(m, ids, ss, rounds) == if heard.Some? then Some(Finished(m, heard.value)) else None
    decreases rounds
  {
    if rounds > 0 && !AllDone(m, ss) {
      RoundIsHeard(m, ids, ss);
      var h := OrchestratorRound(m, ids, ss);
      if h.ok {
        assert h.state == States(Round(m, ids, ss));
        RunIsConversation(m, ids, h.state, rounds - 1);
      }
    }
  }

  /** Handling never fails. */
  ghost predicate NeverFails<S(!new), Msg(!new), Out>(m: Machine<S, Msg, Out>) {
    forall s: S, from: u16, msg: Msg :: m.handle(s, from, msg).ok
  }

  /** What a broadcast does to one machine. */
  lemma {:induction false} BroadcastAt<S(!new), Msg(!new), Out>(m: Machine<S, Msg, Out>, ids: seq<u16>, ss: seq<S>,
                                                               from: u16, msg: Msg, k: nat, j: nat)
    requires NeverFails(m) && |ids| == |ss| && k <= |ss| && j < |ss|
    ensures var h := BroadcastTo(m, ids, ss, from, msg, k);
            h.ok && h.state[j] == if j < k && ids[j] != from then m.handle(ss[j], from, msg).state else ss[j]
  {
    if k > 0 {
      BroadcastAt(m, ids, ss, from, msg, k - 1, j);
      BroadcastAt(m, ids, ss, from, msg, k - 1, k - 1);
    }
  }
}
