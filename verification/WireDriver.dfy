/** The wire driver: all parties round-robin over one in-memory network. */
module WireDriver {
  import opened Outcomes
  import opened Codec
  import opened Runner
  import Network

  datatype Session<+S, +Msg, +Out> = Session(
    runners: seq<State<S, Msg>>,
    results: seq<Option<Result<Out, SessionError>>>,
    net: Network.NetState)

  predicate Sized<S, Msg, Out>(w: Session<S, Msg, Out>, n: nat) {
    |w.runners| == |w.results| == n
  }

  /** Every party runs the same configuration under its own id. */
  function ConfigOf<S, Msg, Out>(base: Config<S, Msg, Out>, ids: seq<u16>, i: nat): Config<S, Msg, Out>
    requires i < |ids|
  {
    base.(myId := ids[i], parties := ids)
  }

  // ---- the phases on values ----------------------------------------------------------------------

  /** The first k encoded messages handed to the network. */
  function Carried(net: Network.NetState, from: u16, encoded: seq<(Recipient, Bytes)>, k: nat): Network.NetState
    requires k <= |encoded|
  {
    if k == 0 then net
    else
      var before := Carried(net, from, encoded, k - 1);
      match encoded[k - 1].0
      case Party(to) => Network.Sent(before, from, to, encoded[k - 1].1)
      case Broadcast => Network.Broadcasted(before, from, encoded[k - 1].1)
  }

  // ---- what the network carries where --------------------------------------------------------------

  /** What one message from `from` puts into p's mailbox: itself, when it is addressed to p, or a
      broadcast and p is not its sender. */
  function MailedOne(from: u16, message: (Recipient, Bytes), p: u16): Network.Mail {
    if message.0 == Party(p) || (message.0 == Broadcast && p != from) then [(from, message.1)] else []
  }

  function Mailed(from: u16, encoded: seq<(Recipient, Bytes)>, p: u16): Network.Mail {
    if encoded == [] then []
    else Mailed(from, encoded[..|encoded| - 1], p) + MailedOne(from, encoded[|encoded| - 1], p)
  }

  lemma CarriedNext(net: Network.NetState, from: u16, encoded: seq<(Recipient, Bytes)>, k: nat, p: u16)
    requires k < |encoded| && p in Carried(net, from, encoded, k).mailboxes
    ensures p in Carried(net, from, encoded, k + 1).mailboxes
    ensures Network.Mailbox(Carried(net, from, encoded, k + 1), p)
            == Network.Mailbox(Carried(net, from, encoded, k), p) + MailedOne(from, encoded[k], p)
  {
    var before := Carried(net, from, encoded, k);
    match encoded[k].0
    case Party(to) => Network.SendDelivers(before, from, to, encoded[k].1, p);
    case Broadcast => Network.BroadcastDelivers(before, from, encoded[k].1, p);
  }

  lemma {:induction false} CarriedPrefix(
      net: Network.NetState, from: u16, encoded: seq<(Recipient, Bytes)>, k: nat, p: u16)
    requires k <= |encoded| && p in net.mailboxes
    ensures p in Carried(net, from, encoded, k).mailboxes
    ensures Network.Mailbox(Carried(net, from, encoded, k), p) == Network.Mailbox(net, p) + Mailed(from, encoded[..k], p)
  {
    if k == 0 {
      NothingMore(Network.Mailbox(net, p));
    } else {
      CarriedPrefix(net, from, encoded, k - 1, p);
      CarriedNext(net, from, encoded, k - 1, p);
      MailedNext(from, encoded, k - 1, p);
      Grouped(Network.Mailbox(net, p), Mailed(from, encoded[..k - 1], p), MailedOne(from, encoded[k - 1], p));
    }
  }

  lemma MailedNext(from: u16, encoded: seq<(Recipient, Bytes)>, k: nat, p: u16)
    requires k < |encoded|
    ensures Mailed(from, encoded[..k + 1], p) == Mailed(from, encoded[..k], p) + MailedOne(from, encoded[k], p)
  {
    assert encoded[..k + 1][..k] == encoded[..k];
  }

  /** Every mailbox gets exactly the messages meant for it, in order, under the sender's id. */
  lemma CarriedDelivers(net: Network.NetState, from: u16, encoded: seq<(Recipient, Bytes)>, p: u16)
    requires p in net.mailboxes
    ensures p in Carried(net, from, encoded, |encoded|).mailboxes
    ensures Network.Mailbox(Carried(net, from, encoded, |encoded|), p) == Network.Mailbox(net, p) + Mailed(from, encoded, p)
  {
    CarriedPrefix(net, from, encoded, |encoded|, p);
    assert encoded[..|encoded|] == encoded;
  }

  function Outcome<S, Msg, Out>(cfg: Config<S, Msg, Out>, st: State<S, Msg>): Result<Out, SessionError> {
    match cfg.machine.finish(st.machine)
    case Some(out) => Ok(out)
    case None => Err(Protocol)
  }

  function SendingOne<S, Msg, Out>(
      base: Config<S, Msg, Out>, ids: seq<u16>, w: Session<S, Msg, Out>, i: nat): (w': Session<S, Msg, Out>)
    requires Sized(w, |ids|) && i < |ids|
    ensures Sized(w', |ids|)
  {
    if w.results[i].Some? then w
    else
      var (st, encoded) := Emitted(ConfigOf(base, ids, i), w.runners[i]);
      Session(w.runners[i := st], w.results, Carried(w.net, ids[i], encoded, |encoded|))
  }

  function ReceivingOne<S, Msg, Out>(
      base: Config<S, Msg, Out>, ids: seq<u16>, w: Session<S, Msg, Out>, i: nat): (w': Session<S, Msg, Out>)
    requires Sized(w, |ids|) && i < |ids|
    ensures Sized(w', |ids|)
  {
    var cfg := ConfigOf(base, ids, i);
    if w.results[i].Some? then w
    else if cfg.machine.isDone(w.runners[i].machine) then
      w.(results := w.results[i := Some(Outcome(cfg, w.runners[i]))])
    else
      var step := Decoded(cfg, w.runners[i], Network.Mailbox(w.net, ids[i]));
      Session(w.runners[i := step.state],
           if step.error.Some? then w.results[i := Some(Err(step.error.value))] else w.results,
           Network.Emptied(w.net, ids[i]))
  }

  function ClosingOne<S, Msg, Out>(
      base: Config<S, Msg, Out>, ids: seq<u16>, w: Session<S, Msg, Out>, i: nat): (w': Session<S, Msg, Out>)
    requires Sized(w, |ids|) && i < |ids|
    ensures Sized(w', |ids|)
  {
    var cfg := ConfigOf(base, ids, i);
    if w.results[i].Some? || !cfg.machine.isDone(w.runners[i].machine) then w
    else
      var (st, encoded) := Emitted(cfg, w.runners[i]);
      Session(w.runners[i := st], w.results[i := Some(Outcome(cfg, st))], Carried(w.net, ids[i], encoded, |encoded|))
  }

  /** A step applied to the parties 0 to k - 1 in turn. */
  function Fold<W>(step: (W, nat) -> W, w: W, k: nat): W {
    if k == 0 then w else step(Fold(step, w, k - 1), k - 1)
  }

  lemma {:induction false} FoldInvariant<W(!new)>(step: (W, nat) -> W, inv: (W, nat) -> bool, w: W, n: nat, k: nat)
    requires k <= n && inv(w, 0) && forall v: W, i: nat :: i < n && inv(v, i) ==> inv(step(v, i), i + 1)
    ensures inv(Fold(step, w, k), k)
  {
    if k > 0 {
      FoldInvariant(step, inv, w, n, k - 1);
    }
  }

  function SendStep<S, Msg, Out>(base: Config<S, Msg, Out>, ids: seq<u16>)
    : (Session<S, Msg, Out>, nat) -> Session<S, Msg, Out>
  {
    (w: Session<S, Msg, Out>, i: nat) => if Sized(w, |ids|) && i < |ids| then SendingOne(base, ids, w, i) else w
  }

  function ReceiveStep<S, Msg, Out>(base: Config<S, Msg, Out>, ids: seq<u16>)
    : (Session<S, Msg, Out>, nat) -> Session<S, Msg, Out>
  {
    (w: Session<S, Msg, Out>, i: nat) => if Sized(w, |ids|) && i < |ids| then ReceivingOne(base, ids, w, i) else w
  }

  function CloseStep<S, Msg, Out>(base: Config<S, Msg, Out>, ids: seq<u16>)
    : (Session<S, Msg, Out>, nat) -> Session<S, Msg, Out>
  {
    (w: Session<S, Msg, Out>, i: nat) => if Sized(w, |ids|) && i < |ids| then ClosingOne(base, ids, w, i) else w
  }

  function Sending<S, Msg, Out>(
      base: Config<S, Msg, Out>, ids: seq<u16>, w: Session<S, Msg, Out>, k: nat): Session<S, Msg, Out>
  {
    Fold(SendStep(base, ids), w, k)
  }

  function Receiving<S, Msg, Out>(
      base: Config<S, Msg, Out>, ids: seq<u16>, w: Session<S, Msg, Out>, k: nat): Session<S, Msg, Out>
  {
    Fold(ReceiveStep(base, ids), w, k)
  }

  function Closing<S, Msg, Out>(
      base: Config<S, Msg, Out>, ids: seq<u16>, w: Session<S, Msg, Out>, k: nat): Session<S, Msg, Out>
  {
    Fold(CloseStep(base, ids), w, k)
  }

  lemma {:induction false} PhasesKeepSize<S, Msg, Out>(
      base: Config<S, Msg, Out>, ids: seq<u16>, w: Session<S, Msg, Out>, k: nat)
    requires Sized(w, |ids|)
    ensures Sized(Sending(base, ids, w, k), |ids|)
    ensures Sized(Receiving(base, ids, w, k), |ids|)
    ensures Sized(Closing(base, ids, w, k), |ids|)
  {
    if k > 0 {
      PhasesKeepSize(base, ids, w, k - 1);
    }
  }

  /** What party j puts into p's mailbox in a sending phase: what its machine has to send, unless
      it has a result already. */
  ghost function PartyMail<S, Msg, Out>(
      base: Config<S, Msg, Out>, ids: seq<u16>, w: Session<S, Msg, Out>, j: nat, p: u16)
    : Network.Mail
    requires Sized(w, |ids|) && j < |ids|
  {
    if w.results[j].Some? then [] else Mailed(ids[j], Emitted(ConfigOf(base, ids, j), w.runners[j]).1, p)
  }

  /** The mail of the first k parties. */
  ghost function PhaseMail<S, Msg, Out>(
      base: Config<S, Msg, Out>, ids: seq<u16>, w: Session<S, Msg, Out>, k: nat, p: u16)
    : Network.Mail
    requires Sized(w, |ids|) && k <= |ids|
  {
    if k == 0 then [] else PhaseMail(base, ids, w, k - 1, p) + PartyMail(base, ids, w, k - 1, p)
  }

  /** Runner j after the first k parties have sent. */
  ghost predicate SentAt<S, Msg, Out>(base: Config<S, Msg, Out>, ids: seq<u16>, w: Session<S, Msg, Out>,
                                w': Session<S, Msg, Out>, k: nat, j: int)
    requires Sized(w, |ids|) && Sized(w', |ids|)
  {
    0 <= j < |ids| ==>
      && w'.results[j] == w.results[j]
      && w'.runners[j] == if j < k && w.results[j].None? then Emitted(ConfigOf(base, ids, j), w.runners[j]).0
                          else w.runners[j]
  }

  /** The runners and results after the first k parties have sent. */
  ghost predicate AllSent<S, Msg, Out>(base: Config<S, Msg, Out>, ids: seq<u16>, w: Session<S, Msg, Out>,
                                       w': Session<S, Msg, Out>, k: nat)
    requires Sized(w, |ids|)
  {
    Sized(w', |ids|) && forall j: int :: SentAt(base, ids, w, w', k, j)
  }

  lemma SendingNext<S, Msg, Out>(base: Config<S, Msg, Out>, ids: seq<u16>, w: Session<S, Msg, Out>, k: nat, p: u16)
    requires Sized(w, |ids|) && k < |ids| && p in w.net.mailboxes
    ensures var w' := SendingOne(base, ids, w, k);
            && p in w'.net.mailboxes
            && Network.Mailbox(w'.net, p) == Network.Mailbox(w.net, p) + PartyMail(base, ids, w, k, p)
  {
    if w.results[k].None? {
      CarriedDelivers(w.net, ids[k], Emitted(ConfigOf(base, ids, k), w.runners[k]).1, p);
    } else {
      NothingMore(Network.Mailbox(w.net, p));
    }
  }

  lemma SentNext<S, Msg, Out>(
      base: Config<S, Msg, Out>, ids: seq<u16>, w: Session<S, Msg, Out>, now: Session<S, Msg, Out>, k: nat)
    requires Sized(w, |ids|) && k < |ids| && AllSent(base, ids, w, now, k)
    ensures AllSent(base, ids, w, SendingOne(base, ids, now, k), k + 1)
  {
    var after := SendingOne(base, ids, now, k);
    var k' := k + 1;
    forall j: int
      ensures SentAt(base, ids, w, after, k', j)
    {
      assert SentAt(base, ids, w, now, k, j);
      assert SentAt(base, ids, w, now, k, k);
    }
  }

  /** The runners after the first k parties have sent. */
  lemma {:induction false} SendingRunners<S, Msg, Out>(
      base: Config<S, Msg, Out>, ids: seq<u16>, w: Session<S, Msg, Out>, k: nat)
    requires Sized(w, |ids|) && k <= |ids|
    ensures AllSent(base, ids, w, Sending(base, ids, w, k), k)
  {
    if k > 0 {
      SendingRunners(base, ids, w, k - 1);
      SentNext(base, ids, w, Sending(base, ids, w, k - 1), k - 1);
    }
  }

  lemma SendingMailNext<S, Msg, Out>(base: Config<S, Msg, Out>, ids: seq<u16>, w: Session<S, Msg, Out>, k: nat, p: u16)
    requires Sized(w, |ids|) && k < |ids| && p in Sending(base, ids, w, k).net.mailboxes
    ensures p in Sending(base, ids, w, k + 1).net.mailboxes
    ensures Network.Mailbox(Sending(base, ids, w, k + 1).net, p)
            == Network.Mailbox(Sending(base, ids, w, k).net, p) + PartyMail(base, ids, w, k, p)
  {
    var before := Sending(base, ids, w, k);
    SendingRunners(base, ids, w, k);
    SendingNext(base, ids, before, k, p);
    assert SentAt(base, ids, w, before, k, k);
  }

  /** A mailbox after the first k parties have sent. */
  lemma {:induction false} SendingMail<S, Msg, Out>(base: Config<S, Msg, Out>, ids: seq<u16>, w: Session<S, Msg, Out>,
                                                    k: nat, p: u16)
    requires Sized(w, |ids|) && k <= |ids| && p in w.net.mailboxes
    ensures p in Sending(base, ids, w, k).net.mailboxes
    ensures Network.Mailbox(Sending(base, ids, w, k).net, p) == Network.Mailbox(w.net, p) + PhaseMail(base, ids, w, k, p)
  {
    if k == 0 {
      NothingMore(Network.Mailbox(w.net, p));
    } else {
      SendingMail(base, ids, w, k - 1, p);
      SendingMailNext(base, ids, w, k - 1, p);
      Grouped(Network.Mailbox(w.net, p), PhaseMail(base, ids, w, k - 1, p), PartyMail(base, ids, w, k - 1, p));
    }
  }

  /** A whole sending phase: every known mailbox is extended by exactly what was meant for its
      owner, sender by sender; parties with a result are left alone. */
  lemma SendingDelivers<S, Msg, Out>(base: Config<S, Msg, Out>, ids: seq<u16>, w: Session<S, Msg, Out>, p: u16)
    requires Sized(w, |ids|) && p in w.net.mailboxes
    ensures var w' := Sending(base, ids, w, |ids|);
            && Sized(w', |ids|)
            && (forall j :: 0 <= j < |ids| ==>
                  && w'.results[j] == w.results[j]
                  && w'.runners[j] == if w.results[j].None? then Emitted(ConfigOf(base, ids, j), w.runners[j]).0
                                      else w.runners[j])
            && Network.Mailbox(w'.net, p) == Network.Mailbox(w.net, p) + PhaseMail(base, ids, w, |ids|, p)
  {
    SendingMail(base, ids, w, |ids|, p);
    SendingRunners(base, ids, w, |ids|);
    var w' := Sending(base, ids, w, |ids|);
    forall j | 0 <= j < |ids|
      ensures w'.results[j] == w.results[j]
      ensures w'.runners[j] == if w.results[j].None? then Emitted(ConfigOf(base, ids, j), w.runners[j]).0 else w.runners[j]
    {
      assert SentAt(base, ids, w, w', |ids|, j);
    }
  }

  function WireRound<S, Msg, Out>(
      base: Config<S, Msg, Out>, ids: seq<u16>, w: Session<S, Msg, Out>): (w': Session<S, Msg, Out>)
    requires Sized(w, |ids|)
    ensures Sized(w', |ids|)
  {
    var n := |ids|;
    PhasesKeepSize(base, ids, w, n);
    PhasesKeepSize(base, ids, Sending(base, ids, w, n), n);
    PhasesKeepSize(base, ids, Receiving(base, ids, Sending(base, ids, w, n), n), n);
    Closing(base, ids, Receiving(base, ids, Sending(base, ids, w, n), n), n)
  }

  predicate AllSettled<Out>(results: seq<Option<Result<Out, SessionError>>>) {
    forall i :: 0 <= i < |results| ==> results[i].Some?
  }

  predicate Settled<S, Msg, Out>(w: Session<S, Msg, Out>) {
    AllSettled(w.results)
  }

  function WireRun<S, Msg, Out>(
      base: Config<S, Msg, Out>, ids: seq<u16>, w: Session<S, Msg, Out>, rounds: nat): (w': Session<S, Msg, Out>)
    requires Sized(w, |ids|)
    ensures Sized(w', |ids|)
    decreases rounds
  {
    if rounds == 0 || Settled(w) then w else WireRun(base, ids, WireRound(base, ids, w), rounds - 1)
  }

  /** The run from w, with this many rounds left, ends in the target. */
  ghost predicate EndsIn<S, Msg, Out>(base: Config<S, Msg, Out>, ids: seq<u16>, w: Session<S, Msg, Out>, left: nat,
                                      target: Session<S, Msg, Out>) {
    Sized(w, |ids|) && WireRun(base, ids, w, left) == target
  }

  lemma EndsInStep<S, Msg, Out>(base: Config<S, Msg, Out>, ids: seq<u16>, w: Session<S, Msg, Out>, left: nat,
                                target: Session<S, Msg, Out>)
    requires EndsIn(base, ids, w, left, target)
    ensures if left == 0 || Settled(w) then w == target else EndsIn(base, ids, WireRound(base, ids, w), left - 1, target)
  {
  }

  function Started<S, Msg, Out>(
      base: Config<S, Msg, Out>, ids: seq<u16>, ss: seq<S>, net: Network.NetState): (w: Session<S, Msg, Out>)
    requires |ids| == |ss|
    ensures Sized(w, |ids|)
  {
    Session(seq(|ids|, i requires 0 <= i < |ids| => Fresh(ConfigOf(base, ids, i), ss[i])), seq(|ids|, _ => None), net)
  }

  /** What is returned: runners that did not settle exceeded the round limit. */
  function Returned<Out>(
      results: seq<Option<Result<Out, SessionError>>>, maxRounds: nat): seq<Result<Out, SessionError>>
  {
    seq(|results|, i requires 0 <= i < |results| =>
          if results[i].Some? then results[i].value else Err(MaxRoundsExceeded(maxRounds)))
  }

  // ---- the imperative driver -----------------------------------------------------------------------

  /** The runner objects, distinct, in the states of w. */
  ghost predicate Linked<S, Msg, Out>(
      base: Config<S, Msg, Out>, ids: seq<u16>, runners: seq<SessionRunner<S, Msg, Out>>, states: seq<State<S, Msg>>)
    reads runners
  {
    && |runners| == |states| == |ids|
    && (forall i, j :: 0 <= i < j < |runners| ==> runners[i] != runners[j])
    && forall i :: 0 <= i < |runners| ==>
         runners[i].cfg == ConfigOf(base, ids, i) && runners[i].Value() == states[i]
  }

  method CarryAll(network: Network.InMemoryNetwork, from: u16, encoded: seq<(Recipient, Bytes)>)
    modifies network
    ensures network.Value() == Carried(old(network.Value()), from, encoded, |encoded|)
  {
    for i := 0 to |encoded|
      invariant network.Value() == Carried(old(network.Value()), from, encoded, i)
    {
      match encoded[i].0
      case Party(to) => network.Send(from, to, encoded[i].1);
      case Broadcast => network.Broadcast(from, encoded[i].1);
    }
  }

  /** Encodes and hands everything to the network. */
  method SendOne<S, Msg, Out>(r: SessionRunner<S, Msg, Out>, network: Network.InMemoryNetwork, from: u16)
    modifies r, network
    ensures var (st, encoded) := Emitted(r.cfg, old(r.Value()));
            r.Value() == st && network.Value() == Carried(old(network.Value()), from, encoded, |encoded|)
  {
    var encoded := r.StepEncode();
    CarryAll(network, from, encoded);
  }

  method FinishRunner<S, Msg, Out>(r: SessionRunner<S, Msg, Out>) returns (result: Result<Out, SessionError>)
    ensures result == Outcome(r.cfg, r.Value())
  {
    match r.cfg.machine.finish(r.machine)
    case Some(out) => result := Ok(out);
    case None => result := Err(Protocol);
  }

  /** One runner sends; the others are untouched. */
  method SendIth<S, Msg, Out>(ghost base: Config<S, Msg, Out>, ids: seq<u16>, runners: seq<SessionRunner<S, Msg, Out>>,
                              i: nat, network: Network.InMemoryNetwork, ghost states: seq<State<S, Msg>>)
    requires i < |ids| && Linked(base, ids, runners, states)
    modifies runners[i], network
    ensures var (st, encoded) := Emitted(ConfigOf(base, ids, i), states[i]);
            && Linked(base, ids, runners, states[i := st])
            && network.Value() == Carried(old(network.Value()), ids[i], encoded, |encoded|)
  {
    SendOne(runners[i], network, ids[i]);
  }

  method SendTurn<S, Msg, Out>(
      ghost base: Config<S, Msg, Out>, ids: seq<u16>, runners: seq<SessionRunner<S, Msg, Out>>, i: nat,
      network: Network.InMemoryNetwork, results: seq<Option<Result<Out, SessionError>>>, ghost w: Session<S, Msg, Out>)
    requires i < |ids| && Sized(w, |ids|) && Linked(base, ids, runners, w.runners)
    requires network.Value() == w.net && results == w.results
    modifies runners[i], network
    ensures var w' := SendingOne(base, ids, w, i);
            Linked(base, ids, runners, w'.runners) && network.Value() == w'.net && results == w'.results
  {
    if results[i].None? {
      SendIth(base, ids, runners, i, network, w.runners);
    }
  }

  /** Phase 1: every unsettled runner encodes and sends. */
  method SendPhase<S, Msg, Out>(
      ghost base: Config<S, Msg, Out>, ids: seq<u16>, runners: seq<SessionRunner<S, Msg, Out>>,
      network: Network.InMemoryNetwork, results: seq<Option<Result<Out, SessionError>>>, ghost w: Session<S, Msg, Out>)
    requires Sized(w, |ids|) && Linked(base, ids, runners, w.runners) && network.Value() == w.net && results == w.results
    modifies runners, network
    ensures var w' := Sending(base, ids, w, |ids|);
            Linked(base, ids, runners, w'.runners) && network.Value() == w'.net && results == w'.results
  {
    ghost var now := w;
    for i := 0 to |ids|
      invariant Sized(now, |ids|) && now == Sending(base, ids, w, i)
      invariant Linked(base, ids, runners, now.runners) && network.Value() == now.net && results == now.results
    {
      SendTurn(base, ids, runners, i, network, results, now);
      now := SendingOne(base, ids, now, i);
    }
  }

  method ReceiveTurn<S, Msg, Out>(
      ghost base: Config<S, Msg, Out>, ids: seq<u16>, runners: seq<SessionRunner<S, Msg, Out>>, i: nat,
      network: Network.InMemoryNetwork, before: seq<Option<Result<Out, SessionError>>>, ghost w: Session<S, Msg, Out>)
    returns (results: seq<Option<Result<Out, SessionError>>>)
    requires i < |ids| && Sized(w, |ids|) && Linked(base, ids, runners, w.runners)
    requires network.Value() == w.net && before == w.results
    modifies runners[i], network
    ensures var w' := ReceivingOne(base, ids, w, i);
            Linked(base, ids, runners, w'.runners) && network.Value() == w'.net && results == w'.results
  {
    results := before;
    if results[i].Some? {
      return;
    }
    if runners[i].cfg.machine.isDone(runners[i].machine) {
      var result := FinishRunner(runners[i]);
      results := results[i := Some(result)];
    } else {
      var raw := network.Receive(ids[i]);
      var error := runners[i].StepDecode(raw);
      if error.Some? {
        results := results[i := Some(Err(error.value))];
      }
    }
  }

  /** Phase 2: every unsettled runner finishes, or receives and decodes. */
  method ReceivePhase<S, Msg, Out>(
      ghost base: Config<S, Msg, Out>, ids: seq<u16>, runners: seq<SessionRunner<S, Msg, Out>>,
      network: Network.InMemoryNetwork, before: seq<Option<Result<Out, SessionError>>>, ghost w: Session<S, Msg, Out>)
    returns (results: seq<Option<Result<Out, SessionError>>>)
    requires Sized(w, |ids|) && Linked(base, ids, runners, w.runners) && network.Value() == w.net && before == w.results
    modifies runners, network
    ensures var w' := Receiving(base, ids, w, |ids|);
            Linked(base, ids, runners, w'.runners) && network.Value() == w'.net && results == w'.results
  {
    results := before;
    ghost var now := w;
    for i := 0 to |ids|
      invariant Sized(now, |ids|) && now == Receiving(base, ids, w, i)
      invariant Linked(base, ids, runners, now.runners) && network.Value() == now.net && results == now.results
    {
      results := ReceiveTurn(base, ids, runners, i, network, results, now);
      now := ReceivingOne(base, ids, now, i);
    }
  }

  /** One finished runner sends what it still holds and gives its output. */
  method CloseIth<S, Msg, Out>(ghost base: Config<S, Msg, Out>, ids: seq<u16>, runners: seq<SessionRunner<S, Msg, Out>>,
                               i: nat, network: Network.InMemoryNetwork, ghost states: seq<State<S, Msg>>)
    returns (result: Result<Out, SessionError>)
    requires i < |ids| && Linked(base, ids, runners, states)
    modifies runners[i], network
    ensures var (st, encoded) := Emitted(ConfigOf(base, ids, i), states[i]);
            && Linked(base, ids, runners, states[i := st])
            && network.Value() == Carried(old(network.Value()), ids[i], encoded, |encoded|)
            && result == Outcome(ConfigOf(base, ids, i), st)
  {
    SendIth(base, ids, runners, i, network, states);
    result := FinishRunner(runners[i]);
  }

  method CloseTurn<S, Msg, Out>(
      ghost base: Config<S, Msg, Out>, ids: seq<u16>, runners: seq<SessionRunner<S, Msg, Out>>, i: nat,
      network: Network.InMemoryNetwork, before: seq<Option<Result<Out, SessionError>>>, ghost w: Session<S, Msg, Out>)
    returns (results: seq<Option<Result<Out, SessionError>>>)
    requires i < |ids| && Sized(w, |ids|) && Linked(base, ids, runners, w.runners)
    requires network.Value() == w.net && before == w.results
    modifies runners[i], network
    ensures var w' := ClosingOne(base, ids, w, i);
            Linked(base, ids, runners, w'.runners) && network.Value() == w'.net && results == w'.results
  {
    results := before;
    if results[i].None? && runners[i].cfg.machine.isDone(runners[i].machine) {
      var result := CloseIth(base, ids, runners, i, network, w.runners);
      results := results[i := Some(result)];
    }
  }

  /** Phase 3: runners that just finished send what they still hold. */
  method ClosePhase<S, Msg, Out>(
      ghost base: Config<S, Msg, Out>, ids: seq<u16>, runners: seq<SessionRunner<S, Msg, Out>>,
      network: Network.InMemoryNetwork, before: seq<Option<Result<Out, SessionError>>>, ghost w: Session<S, Msg, Out>)
    returns (results: seq<Option<Result<Out, SessionError>>>)
    requires Sized(w, |ids|) && Linked(base, ids, runners, w.runners) && network.Value() == w.net && before == w.results
    modifies runners, network
    ensures var w' := Closing(base, ids, w, |ids|);
            Linked(base, ids, runners, w'.runners) && network.Value() == w'.net && results == w'.results
  {
    results := before;
    ghost var now := w;
    for i := 0 to |ids|
      invariant Sized(now, |ids|) && now == Closing(base, ids, w, i)
      invariant Linked(base, ids, runners, now.runners) && network.Value() == now.net && results == now.results
    {
      results := CloseTurn(base, ids, runners, i, network, results, now);
      now := ClosingOne(base, ids, now, i);
    }
  }

  /** One pass of the outer loop. */
  method RunRound<S, Msg, Out>(ghost base: Config<S, Msg, Out>, ids: seq<u16>, runners: seq<SessionRunner<S, Msg, Out>>,
                               network: Network.InMemoryNetwork, before: seq<Option<Result<Out, SessionError>>>,
                               ghost w: Session<S, Msg, Out>)
    returns (results: seq<Option<Result<Out, SessionError>>>)
    requires Sized(w, |ids|) && Linked(base, ids, runners, w.runners) && network.Value() == w.net && before == w.results
    modifies runners, network
    ensures var w' := WireRound(base, ids, w);
            Linked(base, ids, runners, w'.runners) && network.Value() == w'.net && results == w'.results
  {
    ghost var sent := Sending(base, ids, w, |ids|);
    PhasesKeepSize(base, ids, w, |ids|);
    PhasesKeepSize(base, ids, sent, |ids|);
    SendPhase(base, ids, runners, network, before, w);
    results := ReceivePhase(base, ids, runners, network, before, sent);
    results := ClosePhase(base, ids, runners, network, results, Receiving(base, ids, sent, |ids|));
  }

  method NewRunners<S, Msg, Out>(base: Config<S, Msg, Out>, ids: seq<u16>, ss: seq<S>)
    returns (runners: seq<SessionRunner<S, Msg, Out>>)
    requires |ids| == |ss|
    ensures fresh(runners)
    ensures Linked(base, ids, runners, seq(|ids|, i requires 0 <= i < |ids| => Fresh(ConfigOf(base, ids, i), ss[i])))
  {
    runners := [];
    for i := 0 to |ids|
      invariant |runners| == i && fresh(runners)
      invariant forall a, b :: 0 <= a < b < i ==> runners[a] != runners[b]
      invariant forall a :: 0 <= a < i ==>
                  runners[a].cfg == ConfigOf(base, ids, a) && runners[a].Value() == Fresh(ConfigOf(base, ids, a), ss[a])
    {
      var r := new SessionRunner(ConfigOf(base, ids, i), ss[i]);
      runners := runners + [r];
    }
  }

  /** The outer loop. */
  method RunRounds<S, Msg, Out>(
      ghost base: Config<S, Msg, Out>, ids: seq<u16>, runners: seq<SessionRunner<S, Msg, Out>>,
      network: Network.InMemoryNetwork, maxRounds: u16, ghost start: Session<S, Msg, Out>)
    returns (results: seq<Option<Result<Out, SessionError>>>)
    requires Sized(start, |ids|) && Linked(base, ids, runners, start.runners) && network.Value() == start.net
    requires start.results == seq(|ids|, _ => None)
    modifies runners, network
    ensures var w := WireRun(base, ids, start, maxRounds);
            results == w.results && network.Value() == w.net
  {
    results := seq(|ids|, _ => None);
    ghost var w, target := start, WireRun(base, ids, start, maxRounds);
    var round := 0;
    ghost var left: nat := maxRounds;
    while round < maxRounds && !AllSettled(results)
      invariant round + left == maxRounds && EndsIn(base, ids, w, left, target)
      invariant Linked(base, ids, runners, w.runners) && network.Value() == w.net && results == w.results
      decreases left
    {
      EndsInStep(base, ids, w, left, target);
      results := RunRound(base, ids, runners, network, results, w);
      w := WireRound(base, ids, w);
      round, left := round + 1, left - 1;
    }
    EndsInStep(base, ids, w, left, target);
  }

  /** `run_multi_party_sync` */
  method RunMultiPartySync<S, Msg, Out>(base: Config<S, Msg, Out>, ids: seq<u16>, ss: seq<S>,
                                        network: Network.InMemoryNetwork, maxRounds: u16)
    returns (outputs: seq<Result<Out, SessionError>>)
    requires |ids| == |ss|
    modifies network
    ensures var w := WireRun(base, ids, Started(base, ids, ss, old(network.Value())), maxRounds);
            outputs == Returned(w.results, maxRounds) && network.Value() == w.net
    ensures var w := WireRun(base, ids, Started(base, ids, ss, old(network.Value())), maxRounds);
            && |outputs| == |ids|
            && forall i :: 0 <= i < |ids| ==>
                 outputs[i] == if w.results[i].Some? then w.results[i].value else Err(MaxRoundsExceeded(maxRounds))
  {
    var runners := NewRunners(base, ids, ss);
    var results := RunRounds(base, ids, runners, network, maxRounds, Started(base, ids, ss, network.Value()));
    outputs := Returned(results, maxRounds);
  }
}
