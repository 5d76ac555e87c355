/** One round of a wire session, told for each party and each mailbox on its own. */
module SessionRounds {
  import opened Outcomes
  import opened Codec
  import opened Runner
  import opened WireDriver
  import Network

  // ---- what a round is to one party ------------------------------------------------------------------

  /** Party i after its messages of this round were drained. */
  ghost function Drained<S, Msg, Out>(
      base: Config<S, Msg, Out>, ids: seq<u16>, w: Session<S, Msg, Out>, i: nat): State<S, Msg>
    requires Sized(w, |ids|) && i < |ids|
  {
    Emitted(ConfigOf(base, ids, i), w.runners[i]).0
  }

  /** Party i has no result and is not done when its messages were sent: it reads its mailbox. */
  ghost predicate Reads<S, Msg, Out>(base: Config<S, Msg, Out>, ids: seq<u16>, w: Session<S, Msg, Out>, i: int)
    requires Sized(w, |ids|)
  {
    0 <= i < |ids| && w.results[i].None? && !base.machine.isDone(Drained(base, ids, w, i).machine)
  }

  /** One of the first k parties reads p's mailbox. */
  ghost predicate ReadBefore<S, Msg, Out>(
      base: Config<S, Msg, Out>, ids: seq<u16>, w: Session<S, Msg, Out>, k: nat, p: u16)
    requires Sized(w, |ids|)
  {
    exists j :: 0 <= j < k && j < |ids| && ids[j] == p && Reads(base, ids, w, j)
  }

  /** p's mailbox once everybody has sent. */
  ghost function Delivered<S, Msg, Out>(
      base: Config<S, Msg, Out>, ids: seq<u16>, w: Session<S, Msg, Out>, p: u16): Network.Mail
    requires Sized(w, |ids|)
  {
    if p in w.net.mailboxes then w.net.mailboxes[p] + PhaseMail(base, ids, w, |ids|, p) else []
  }

  /** What party i finds in its mailbox. */
  ghost function Inbox<S, Msg, Out>(
      base: Config<S, Msg, Out>, ids: seq<u16>, w: Session<S, Msg, Out>, i: nat): Network.Mail
    requires Sized(w, |ids|) && i < |ids|
  {
    if ReadBefore(base, ids, w, i, ids[i]) then [] else Delivered(base, ids, w, ids[i])
  }

  ghost function Heard<S, Msg, Out>(
      base: Config<S, Msg, Out>, ids: seq<u16>, w: Session<S, Msg, Out>, i: nat): Step<S, Msg>
    requires Sized(w, |ids|) && i < |ids|
  {
    Decoded(ConfigOf(base, ids, i), Drained(base, ids, w, i), Inbox(base, ids, w, i))
  }

  /** Reading its mailbox made party i done. */
  ghost predicate Closes<S, Msg, Out>(base: Config<S, Msg, Out>, ids: seq<u16>, w: Session<S, Msg, Out>, i: nat)
    requires Sized(w, |ids|) && i < |ids|
  {
    && Reads(base, ids, w, i) && Heard(base, ids, w, i).error.None?
    && base.machine.isDone(Heard(base, ids, w, i).state.machine)
  }

  /** A party with a result is left alone. Any other is drained; when it is done then, it finishes;
      otherwise it reads its mailbox. An error is its result; when it is done now, it is drained
      once more and finishes. */
  ghost function PartyRound<S, Msg, Out>(base: Config<S, Msg, Out>, ids: seq<u16>, w: Session<S, Msg, Out>, i: nat)
    : (State<S, Msg>, Option<Result<Out, SessionError>>)
    requires Sized(w, |ids|) && i < |ids|
  {
    var cfg := ConfigOf(base, ids, i);
    if w.results[i].Some? then (w.runners[i], w.results[i])
    else if !Reads(base, ids, w, i) then
      (Drained(base, ids, w, i), Some(Outcome(cfg, Drained(base, ids, w, i))))
    else
      var step := Heard(base, ids, w, i);
      if step.error.Some? then (step.state, Some(Err(step.error.value)))
      else if base.machine.isDone(step.state.machine) then
        var last := Emitted(cfg, step.state).0;
        (last, Some(Outcome(cfg, last)))
      else (step.state, None)
  }

  /** What the first k parties put into p's mailbox when they close. */
  ghost function ClosingMail<S, Msg, Out>(
      base: Config<S, Msg, Out>, ids: seq<u16>, w: Session<S, Msg, Out>, k: nat, p: u16)
    : Network.Mail
    requires Sized(w, |ids|) && k <= |ids|
  {
    if k == 0 then []
    else
      ClosingMail(base, ids, w, k - 1, p)
      + if Closes(base, ids, w, k - 1) then
          Mailed(ids[k - 1], Emitted(ConfigOf(base, ids, k - 1), Heard(base, ids, w, k - 1).state).1, p)
        else []
  }

  /** p's mailbox after the round. */
  ghost function BoxAfter<S, Msg, Out>(
      base: Config<S, Msg, Out>, ids: seq<u16>, w: Session<S, Msg, Out>, p: u16): Network.Mail
    requires Sized(w, |ids|)
  {
    (if ReadBefore(base, ids, w, |ids|, p) then [] else Delivered(base, ids, w, p)) + ClosingMail(base, ids, w, |ids|, p)
  }

  // ---- the receiving phase ---------------------------------------------------------------------------

  /** Party j and its result once the first k parties had their turn to receive. */
  ghost predicate ReceivedAt<S, Msg, Out>(base: Config<S, Msg, Out>, ids: seq<u16>, w: Session<S, Msg, Out>,
                                          now: Session<S, Msg, Out>, k: nat, j: int)
    requires Sized(w, |ids|) && Sized(now, |ids|)
  {
    0 <= j < |ids| ==>
      if w.results[j].Some? then now.runners[j] == w.runners[j] && now.results[j] == w.results[j]
      else if j >= k then now.runners[j] == Drained(base, ids, w, j) && now.results[j] == None
      else if !Reads(base, ids, w, j) then
        && now.runners[j] == Drained(base, ids, w, j)
        && now.results[j] == Some(Outcome(ConfigOf(base, ids, j), Drained(base, ids, w, j)))
      else
        var step := Heard(base, ids, w, j);
        && now.runners[j] == step.state
        && now.results[j] == if step.error.Some? then Some(Err(step.error.value)) else None
  }

  ghost predicate BoxReceived<S, Msg, Out>(base: Config<S, Msg, Out>, ids: seq<u16>, w: Session<S, Msg, Out>,
                                           now: Session<S, Msg, Out>, k: nat, p: u16)
    requires Sized(w, |ids|)
  {
    && (p in now.net.mailboxes <==> p in w.net.mailboxes)
    && Network.Mailbox(now.net, p) == if ReadBefore(base, ids, w, k, p) then [] else Delivered(base, ids, w, p)
  }

  ghost predicate AllReceived<S, Msg, Out>(base: Config<S, Msg, Out>, ids: seq<u16>, w: Session<S, Msg, Out>,
                                           now: Session<S, Msg, Out>, k: nat)
    requires Sized(w, |ids|)
  {
    && Sized(now, |ids|)
    && (forall j: int :: ReceivedAt(base, ids, w, now, k, j))
    && forall p: u16 :: BoxReceived(base, ids, w, now, k, p)
  }

  predicate Knows(net: Network.NetState, p: u16) {
    p in net.mailboxes
  }

  lemma PostedKnows(net: Network.NetState, from: u16, to: Recipient, data: Bytes, p: u16)
    ensures to.Party? ==> Knows(Network.Sent(net, from, to.id, data), p) == Knows(net, p)
    ensures Knows(Network.Broadcasted(net, from, data), p) == Knows(net, p)
  {
  }

  lemma CarriedKnowsNext(net: Network.NetState, from: u16, encoded: seq<(Recipient, Bytes)>, k: nat, p: u16)
    requires k < |encoded|
    ensures Knows(Carried(net, from, encoded, k + 1), p) == Knows(Carried(net, from, encoded, k), p)
  {
    PostedKnows(Carried(net, from, encoded, k), from, encoded[k].0, encoded[k].1, p);
  }

  lemma {:induction false} CarriedKnows(
      net: Network.NetState, from: u16, encoded: seq<(Recipient, Bytes)>, k: nat, p: u16)
    requires k <= |encoded|
    ensures Knows(Carried(net, from, encoded, k), p) == Knows(net, p)
  {
    if k > 0 {
      var last := k - 1;
      CarriedKnowsNext(net, from, encoded, last, p);
      var before, after := Carried(net, from, encoded, last), Carried(net, from, encoded, last + 1);
      assert Knows(before, p) == Knows(net, p) by {
        CarriedKnows(net, from, encoded, last, p);
      }
      assert Knows(after, p) == Knows(net, p);
    }
  }

  lemma SendingKnowsNext<S, Msg, Out>(base: Config<S, Msg, Out>, ids: seq<u16>, w: Session<S, Msg, Out>, k: nat, p: u16)
    requires Sized(w, |ids|) && k < |ids|
    ensures Knows(SendingOne(base, ids, w, k).net, p) == Knows(w.net, p)
  {
    var encoded := Emitted(ConfigOf(base, ids, k), w.runners[k]).1;
    CarriedKnows(w.net, ids[k], encoded, |encoded|, p);
  }

  lemma {:induction false} SendingKnows<S, Msg, Out>(
      base: Config<S, Msg, Out>, ids: seq<u16>, w: Session<S, Msg, Out>, k: nat, p: u16)
    requires Sized(w, |ids|) && k <= |ids|
    ensures Knows(Sending(base, ids, w, k).net, p) == Knows(w.net, p)
  {
    if k > 0 {
      var last := k - 1;
      SendingKnows(base, ids, w, last, p);
      PhasesKeepSize(base, ids, w, last);
      SendingKnowsNext(base, ids, Sending(base, ids, w, last), last, p);
    }
  }

  lemma SentIsReceivedByNone<S, Msg, Out>(base: Config<S, Msg, Out>, ids: seq<u16>, w: Session<S, Msg, Out>)
    requires Sized(w, |ids|)
    ensures AllReceived(base, ids, w, Sending(base, ids, w, |ids|), 0)
  {
    var sent := Sending(base, ids, w, |ids|);
    SendingRunners(base, ids, w, |ids|);
    forall j: int
      ensures ReceivedAt(base, ids, w, sent, 0, j)
    {
      assert SentAt(base, ids, w, sent, |ids|, j);
    }
    forall p: u16
      ensures BoxReceived(base, ids, w, sent, 0, p)
    {
      SendingKnows(base, ids, w, |ids|, p);
      if p in w.net.mailboxes {
        SendingMail(base, ids, w, |ids|, p);
      }
    }
  }

  lemma ReadNext<S, Msg, Out>(base: Config<S, Msg, Out>, ids: seq<u16>, w: Session<S, Msg, Out>, k: nat, p: u16)
    requires Sized(w, |ids|) && k < |ids|
    ensures ReadBefore(base, ids, w, k + 1, p) <==> ReadBefore(base, ids, w, k, p) || (ids[k] == p && Reads(base, ids, w, k))
  {
    if ids[k] == p && Reads(base, ids, w, k) {
      var j := k;
      assert 0 <= j < k + 1 && ids[j] == p && Reads(base, ids, w, j);
    }
  }

  lemma ReceiverNext<S, Msg, Out>(
      base: Config<S, Msg, Out>, ids: seq<u16>, w: Session<S, Msg, Out>, now: Session<S, Msg, Out>, k: nat, j: int)
    requires Sized(w, |ids|) && k < |ids| && AllReceived(base, ids, w, now, k)
    ensures ReceivedAt(base, ids, w, ReceivingOne(base, ids, now, k), k + 1, j)
  {
    assert ReceivedAt(base, ids, w, now, k, j) && ReceivedAt(base, ids, w, now, k, k);
    assert BoxReceived(base, ids, w, now, k, ids[k]);
  }

  lemma BoxNext<S, Msg, Out>(
      base: Config<S, Msg, Out>, ids: seq<u16>, w: Session<S, Msg, Out>, now: Session<S, Msg, Out>, k: nat, p: u16)
    requires Sized(w, |ids|) && k < |ids| && AllReceived(base, ids, w, now, k)
    ensures BoxReceived(base, ids, w, ReceivingOne(base, ids, now, k), k + 1, p)
  {
    assert ReceivedAt(base, ids, w, now, k, k);
    assert BoxReceived(base, ids, w, now, k, p);
    ReadNext(base, ids, w, k, p);
  }

  lemma {:induction false} ReceivingRunners<S, Msg, Out>(
      base: Config<S, Msg, Out>, ids: seq<u16>, w: Session<S, Msg, Out>, k: nat)
    requires Sized(w, |ids|) && k <= |ids|
    ensures AllReceived(base, ids, w, Receiving(base, ids, Sending(base, ids, w, |ids|), k), k)
  {
    if k == 0 {
      SentIsReceivedByNone(base, ids, w);
    } else {
      var sent, last := Sending(base, ids, w, |ids|), k - 1;
      ReceivingRunners(base, ids, w, last);
      var now := Receiving(base, ids, sent, last);
      var after := ReceivingOne(base, ids, now, last);
      forall j: int
        ensures ReceivedAt(base, ids, w, after, k, j)
      {
        ReceiverNext(base, ids, w, now, last, j);
      }
      forall p: u16
        ensures BoxReceived(base, ids, w, after, k, p)
      {
        BoxNext(base, ids, w, now, last, p);
      }
    }
  }

  // ---- the closing phase -----------------------------------------------------------------------------

  ghost predicate ClosedAt<S, Msg, Out>(base: Config<S, Msg, Out>, ids: seq<u16>, w: Session<S, Msg, Out>,
                                        now: Session<S, Msg, Out>, k: nat, j: int)
    requires Sized(w, |ids|) && Sized(now, |ids|)
  {
    0 <= j < |ids| ==>
      if j < k || !Closes(base, ids, w, j) then (now.runners[j], now.results[j]) == PartyRound(base, ids, w, j)
      else now.runners[j] == Heard(base, ids, w, j).state && now.results[j] == None
  }

  ghost predicate BoxClosed<S, Msg, Out>(base: Config<S, Msg, Out>, ids: seq<u16>, w: Session<S, Msg, Out>,
                                         now: Session<S, Msg, Out>, k: nat, p: u16)
    requires Sized(w, |ids|) && k <= |ids|
  {
    p in w.net.mailboxes ==>
      && p in now.net.mailboxes
      && Network.Mailbox(now.net, p)
         == (if ReadBefore(base, ids, w, |ids|, p) then [] else Delivered(base, ids, w, p)) + ClosingMail(base, ids, w, k, p)
  }

  ghost predicate AllClosed<S, Msg, Out>(base: Config<S, Msg, Out>, ids: seq<u16>, w: Session<S, Msg, Out>,
                                         now: Session<S, Msg, Out>, k: nat)
    requires Sized(w, |ids|) && k <= |ids|
  {
    && Sized(now, |ids|)
    && (forall j: int :: ClosedAt(base, ids, w, now, k, j))
    && forall p: u16 :: BoxClosed(base, ids, w, now, k, p)
  }

  lemma CloserNext<S, Msg, Out>(
      base: Config<S, Msg, Out>, ids: seq<u16>, w: Session<S, Msg, Out>, now: Session<S, Msg, Out>, k: nat, j: int)
    requires Sized(w, |ids|) && k < |ids| && AllClosed(base, ids, w, now, k)
    ensures ClosedAt(base, ids, w, ClosingOne(base, ids, now, k), k + 1, j)
  {
    assert ClosedAt(base, ids, w, now, k, k);
    if j != k {
      assert ClosedAt(base, ids, w, now, k, j);
    }
  }

  lemma ClosingBoxNext<S, Msg, Out>(base: Config<S, Msg, Out>, ids: seq<u16>, w: Session<S, Msg, Out>,
                                    now: Session<S, Msg, Out>, k: nat, p: u16)
    requires Sized(w, |ids|) && k < |ids| && AllClosed(base, ids, w, now, k)
    ensures BoxClosed(base, ids, w, ClosingOne(base, ids, now, k), k + 1, p)
  {
    assert ClosedAt(base, ids, w, now, k, k);
    assert BoxClosed(base, ids, w, now, k, p);
    if p in w.net.mailboxes {
      var before := if ReadBefore(base, ids, w, |ids|, p) then [] else Delivered(base, ids, w, p);
      if Closes(base, ids, w, k) {
        var encoded := Emitted(ConfigOf(base, ids, k), Heard(base, ids, w, k).state).1;
        CarriedDelivers(now.net, ids[k], encoded, p);
        Grouped(before, ClosingMail(base, ids, w, k, p), Mailed(ids[k], encoded, p));
      } else {
        NothingMore(ClosingMail(base, ids, w, k, p));
      }
    }
  }

  lemma ReceivedIsClosedByNone<S, Msg, Out>(base: Config<S, Msg, Out>, ids: seq<u16>, w: Session<S, Msg, Out>,
                                            received: Session<S, Msg, Out>)
    requires Sized(w, |ids|) && AllReceived(base, ids, w, received, |ids|)
    ensures AllClosed(base, ids, w, received, 0)
  {
    forall j: int
      ensures ClosedAt(base, ids, w, received, 0, j)
    {
      assert ReceivedAt(base, ids, w, received, |ids|, j);
    }
    forall p: u16
      ensures BoxClosed(base, ids, w, received, 0, p)
    {
      assert BoxReceived(base, ids, w, received, |ids|, p);
      NothingMore(Network.Mailbox(received.net, p));
    }
  }

  lemma {:induction false} ClosingRunners<S, Msg, Out>(
      base: Config<S, Msg, Out>, ids: seq<u16>, w: Session<S, Msg, Out>, k: nat)
    requires Sized(w, |ids|) && k <= |ids|
    ensures AllClosed(base, ids, w, Closing(base, ids, Receiving(base, ids, Sending(base, ids, w, |ids|), |ids|), k), k)
  {
    var received := Receiving(base, ids, Sending(base, ids, w, |ids|), |ids|);
    if k == 0 {
      ReceivingRunners(base, ids, w, |ids|);
      ReceivedIsClosedByNone(base, ids, w, received);
    } else {
      var last := k - 1;
      ClosingRunners(base, ids, w, last);
      var now := Closing(base, ids, received, last);
      var after := ClosingOne(base, ids, now, last);
      forall j: int
        ensures ClosedAt(base, ids, w, after, k, j)
      {
        CloserNext(base, ids, w, now, last, j);
      }
      forall p: u16
        ensures BoxClosed(base, ids, w, after, k, p)
      {
        ClosingBoxNext(base, ids, w, now, last, p);
      }
    }
  }

  /** A whole round over the wire: every party, every result and every mailbox afterwards. */
  lemma RoundIs<S, Msg, Out>(base: Config<S, Msg, Out>, ids: seq<u16>, w: Session<S, Msg, Out>, i: nat, p: u16)
    requires Sized(w, |ids|) && i < |ids| && p in w.net.mailboxes
    ensures var w' := WireRound(base, ids, w);
            && (w'.runners[i], w'.results[i]) == PartyRound(base, ids, w, i)
            && p in w'.net.mailboxes
            && Network.Mailbox(w'.net, p) == BoxAfter(base, ids, w, p)
  {
    ClosingRunners(base, ids, w, |ids|);
    var w' := WireRound(base, ids, w);
    assert ClosedAt(base, ids, w, w', |ids|, i) && BoxClosed(base, ids, w, w', |ids|, p);
  }

  // ---- whole sessions --------------------------------------------------------------------------------

  ghost function Rounds<S, Msg, Out>(base: Config<S, Msg, Out>, ids: seq<u16>, w: Session<S, Msg, Out>, k: nat)
    : (w': Session<S, Msg, Out>)
    requires Sized(w, |ids|)
    ensures Sized(w', |ids|)
  {
    if k == 0 then w else WireRound(base, ids, Rounds(base, ids, w, k - 1))
  }

  /** When every party has its result, a round changes nothing. */
  lemma SettledStays<S(!new), Msg(!new), Out(!new)>(base: Config<S, Msg, Out>, ids: seq<u16>, w: Session<S, Msg, Out>)
    requires Sized(w, |ids|) && Settled(w)
    ensures WireRound(base, ids, w) == w
  {
    var n := |ids|;
    var inv := (v: Session<S, Msg, Out>, k: nat) => v == w;
    FoldInvariant(SendStep(base, ids), inv, w, n, n);
    FoldInvariant(ReceiveStep(base, ids), inv, w, n, n);
    FoldInvariant(CloseStep(base, ids), inv, w, n, n);
  }

  lemma {:induction false} RoundsFirst<S, Msg, Out>(
      base: Config<S, Msg, Out>, ids: seq<u16>, w: Session<S, Msg, Out>, k: nat)
    requires Sized(w, |ids|) && k > 0
    ensures Rounds(base, ids, w, k) == Rounds(base, ids, WireRound(base, ids, w), k - 1)
  {
    if k > 1 {
      RoundsFirst(base, ids, w, k - 1);
    }
  }

  /** Stopping early when every party has its result changes nothing: a session is that many rounds. */
  lemma {:induction false} RunIsRounds<S(!new), Msg(!new), Out(!new)>(
      base: Config<S, Msg, Out>, ids: seq<u16>, w: Session<S, Msg, Out>, rounds: nat)
    requires Sized(w, |ids|)
    ensures WireRun(base, ids, w, rounds) == Rounds(base, ids, w, rounds)
    decreases rounds
  {
    if rounds > 0 {
      var next, left := WireRound(base, ids, w), rounds - 1;
      RoundsFirst(base, ids, w, rounds);
      RunIsRounds(base, ids, next, left);
      if Settled(w) {
        SettledStays(base, ids, w);
      }
    }
  }

  // ---- sessions that stand still ---------------------------------------------------------------------

  /** Party i has its result, or has nothing to send, nothing to read and nothing buffered for its
      round, and is not done. */
  ghost predicate IdleAt<S, Msg, Out>(base: Config<S, Msg, Out>, ids: seq<u16>, w: Session<S, Msg, Out>, i: int)
    requires Sized(w, |ids|)
  {
    0 <= i < |ids| ==>
      && ids[i] in w.net.mailboxes
      && (w.results[i].None? ==>
            var s := w.runners[i].machine;
            && base.machine.drain(s) == (s, []) && !base.machine.isDone(s)
            && base.machine.round(s) !in w.runners[i].future
            && w.net.mailboxes[ids[i]] == [])
  }

  ghost predicate Idle<S, Msg, Out>(base: Config<S, Msg, Out>, ids: seq<u16>, w: Session<S, Msg, Out>) {
    Sized(w, |ids|) && forall i: int :: IdleAt(base, ids, w, i)
  }

  lemma IdleParty<S, Msg, Out>(base: Config<S, Msg, Out>, ids: seq<u16>, w: Session<S, Msg, Out>, i: nat, p: u16)
    requires Sized(w, |ids|) && i < |ids| && IdleAt(base, ids, w, i)
    ensures PartyMail(base, ids, w, i, p) == []
    ensures w.results[i].None? ==> Drained(base, ids, w, i) == w.runners[i]
  {
  }

  lemma {:induction false} IdleMail<S, Msg, Out>(
      base: Config<S, Msg, Out>, ids: seq<u16>, w: Session<S, Msg, Out>, k: nat, p: u16)
    requires Idle(base, ids, w) && k <= |ids|
    ensures PhaseMail(base, ids, w, k, p) == []
  {
    if k > 0 {
      var last := k - 1;
      assert IdleAt(base, ids, w, last);
      IdleParty(base, ids, w, last, p);
      assert PhaseMail(base, ids, w, last, p) == [] by {
        IdleMail(base, ids, w, last, p);
      }
    }
  }

  /** Reading an empty mailbox. */
  lemma NothingHeard<S, Msg, Out>(cfg: Config<S, Msg, Out>, st: State<S, Msg>)
    requires cfg.machine.round(st.machine) !in st.future
    ensures var step := Decoded(cfg, st, []);
            step.error.None? && step.state == st.(currentRound := cfg.machine.round(st.machine))
  {
    assert st.future - {cfg.machine.round(st.machine)} == st.future;
  }

  lemma IdleHears<S, Msg, Out>(base: Config<S, Msg, Out>, ids: seq<u16>, w: Session<S, Msg, Out>, i: nat)
    requires Idle(base, ids, w) && i < |ids|
    ensures !Closes(base, ids, w, i)
    ensures var (st, result) := PartyRound(base, ids, w, i);
            result == w.results[i] && st.machine == w.runners[i].machine && st.future == w.runners[i].future
  {
    assert IdleAt(base, ids, w, i);
    if w.results[i].None? {
      IdleParty(base, ids, w, i, ids[i]);
      IdleMail(base, ids, w, |ids|, ids[i]);
      NothingMore(w.net.mailboxes[ids[i]]);
      NothingHeard(ConfigOf(base, ids, i), w.runners[i]);
      assert Inbox(base, ids, w, i) == [];
    }
  }

  lemma {:induction false} IdleCloses<S, Msg, Out>(
      base: Config<S, Msg, Out>, ids: seq<u16>, w: Session<S, Msg, Out>, k: nat, p: u16)
    requires Idle(base, ids, w) && k <= |ids|
    ensures ClosingMail(base, ids, w, k, p) == []
  {
    if k > 0 {
      var last := k - 1;
      assert !Closes(base, ids, w, last) by {
        IdleHears(base, ids, w, last);
      }
      assert ClosingMail(base, ids, w, last, p) == [] by {
        IdleCloses(base, ids, w, last, p);
      }
    }
  }

  lemma IdleRound<S, Msg, Out>(base: Config<S, Msg, Out>, ids: seq<u16>, w: Session<S, Msg, Out>, i: int)
    requires Idle(base, ids, w)
    ensures var w' := WireRound(base, ids, w);
            IdleAt(base, ids, w', i) && (0 <= i < |ids| ==> w'.results[i] == w.results[i])
  {
    if 0 <= i < |ids| {
      assert IdleAt(base, ids, w, i);
      RoundIs(base, ids, w, i, ids[i]);
      IdleHears(base, ids, w, i);
      IdleMail(base, ids, w, |ids|, ids[i]);
      IdleCloses(base, ids, w, |ids|, ids[i]);
      NothingMore(w.net.mailboxes[ids[i]]);
    }
  }

  /** A session that stands still does so forever: whoever has no result then never gets one. */
  lemma {:induction false} IdleForever<S, Msg, Out>(
      base: Config<S, Msg, Out>, ids: seq<u16>, w: Session<S, Msg, Out>, rounds: nat)
    requires Idle(base, ids, w)
    ensures WireRun(base, ids, w, rounds).results == w.results
    decreases rounds
  {
    if rounds > 0 && !Settled(w) {
      var w' := WireRound(base, ids, w);
      forall i: int
        ensures IdleAt(base, ids, w', i) && (0 <= i < |ids| ==> w'.results[i] == w.results[i])
      {
        IdleRound(base, ids, w, i);
      }
      IdleForever(base, ids, w', rounds - 1);
    }
  }
}
