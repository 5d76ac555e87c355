/** The logged runs of every runner of a wire session. */
module SessionLedger {
  import opened Outcomes
  import opened Codec
  import opened Runner
  import opened RunnerLedger
  import opened WireDriver
  import Network
  import ToyDkg
  import ToyRuns
  import ToyWire

  // ---- the runs of one runner ----------------------------------------------------------------------

  /** The machine was found done, possibly just before its last messages were drained. */
  ghost predicate WasDone<S(!new), Msg(!new), Out>(m: Machine<S, Msg, Out>, s: S) {
    m.isDone(s) || exists t: S :: m.isDone(t) && m.drain(t).0 == s
  }

  /** A runner and its result after these calls. An error of the run is the result; a result
      without error is what a machine that was found done finishes with. */
  ghost predicate RunsTo<S(!new), Msg(!new), Out>(cfg: Config<S, Msg, Out>, s0: S, ops: seq<Op>, st: State<S, Msg>,
                                                  result: Option<Result<Out, SessionError>>) {
    var step := Ran(cfg, Fresh(cfg, s0), ops);
    && step.state == st
    && if step.error.Some? then result == Some(Err(step.error.value))
       else if result.None? then true
       else
         && WasDone(cfg.machine, st.machine)
         && match cfg.machine.finish(st.machine)
            case Some(out) => result == Some(Ok(out))
            case None => result == Some(Err(Protocol))
  }

  /** One more call on a runner without a result. */
  lemma OneMoreCall<S(!new), Msg(!new), Out>(cfg: Config<S, Msg, Out>, s0: S, ops: seq<Op>, st: State<S, Msg>, op: Op,
                                             result: Option<Result<Out, SessionError>>)
    requires RunsTo<S, Msg, Out>(cfg, s0, ops, st, None)
    requires var step := After(cfg, st, op);
             if step.error.Some? then result == Some(Err(step.error.value))
             else result.None? || (result == Some(Outcome(cfg, step.state)) && WasDone(cfg.machine, step.state.machine))
    ensures RunsTo(cfg, s0, ops + [op], After(cfg, st, op).state, result)
  {
    RanSnoc(cfg, Fresh(cfg, s0), ops, op);
  }

  /** Everything a run returned for sending. */
  ghost function Outputs<S, Msg, Out>(
      cfg: Config<S, Msg, Out>, st0: State<S, Msg>, ops: seq<Op>): seq<(Recipient, Bytes)>
  {
    if ops == [] then []
    else
      var before := Ran(cfg, st0, ops[..|ops| - 1]);
      Outputs(cfg, st0, ops[..|ops| - 1])
      + if before.error.None? && ops[|ops| - 1].StepEncode? then Emitted(cfg, before.state).1 else []
  }

  lemma OutputsSnoc<S, Msg, Out>(cfg: Config<S, Msg, Out>, st0: State<S, Msg>, ops: seq<Op>, op: Op)
    requires Ran(cfg, st0, ops).error.None?
    ensures Outputs(cfg, st0, ops + [op])
            == if op.StepEncode? then Outputs(cfg, st0, ops) + Emitted(cfg, Ran(cfg, st0, ops).state).1
               else Outputs(cfg, st0, ops)
    ensures Inputs(ops + [op]) == if op.StepDecode? then Inputs(ops) + op.raw else Inputs(ops)
  {
    assert (ops + [op])[..|ops|] == ops;
    NothingMore(Outputs(cfg, st0, ops));
    NothingMore(Inputs(ops));
  }

  lemma MailedSnoc(from: u16, a: seq<(Recipient, Bytes)>, e: (Recipient, Bytes), p: u16)
    ensures Mailed(from, a + [e], p) == Mailed(from, a, p) + MailedOne(from, e, p)
  {
    assert (a + [e])[..|a|] == a;
  }

  lemma {:induction false} MailedAppend(from: u16, a: seq<(Recipient, Bytes)>, b: seq<(Recipient, Bytes)>, p: u16)
    ensures Mailed(from, a + b, p) == Mailed(from, a, p) + Mailed(from, b, p)
    decreases |b|
  {
    if b == [] {
      NothingMore(a);
      NothingMore(Mailed(from, a, p));
    } else {
      var n := |b| - 1;
      var init, e := b[..n], b[n];
      MailedAppend(from, a, init, p);
      InitLast(a, b);
      MailedSnoc(from, a + init, e, p);
      Grouped(Mailed(from, a, p), Mailed(from, init, p), MailedOne(from, e, p));
    }
  }

  lemma InitLast<T>(a: seq<T>, b: seq<T>)
    requires b != []
    ensures a + b == a + b[..|b| - 1] + [b[|b| - 1]]
  {
  }

  // ---- the runs of a session -----------------------------------------------------------------------

  /** What party j's calls put into p's mailbox. */
  ghost function MailedBy<S, Msg, Out>(
      base: Config<S, Msg, Out>, ids: seq<u16>, ss: seq<S>, j: nat, ops: seq<Op>, p: u16)
    : multiset<(u16, Bytes)>
    requires |ss| == |ids| && j < |ids|
  {
    multiset(Mailed(ids[j], Outputs(ConfigOf(base, ids, j), Fresh(ConfigOf(base, ids, j), ss[j]), ops), p))
  }

  /** What the calls of each party put into p's mailbox. */
  ghost function Bags<S, Msg, Out>(base: Config<S, Msg, Out>, ids: seq<u16>, ss: seq<S>, opss: seq<seq<Op>>, p: u16)
    : (bags: seq<multiset<(u16, Bytes)>>)
    requires |ss| == |opss| == |ids|
    ensures |bags| == |ids|
  {
    seq(|ids|, j requires 0 <= j < |ids| => MailedBy(base, ids, ss, j, opss[j], p))
  }

  /** The first k bags together. */
  ghost function Summed<T>(bags: seq<multiset<T>>, k: nat): multiset<T>
    requires k <= |bags|
  {
    if k == 0 then multiset{} else Summed(bags, k - 1) + bags[k - 1]
  }

  /** What the calls of all parties put into p's mailbox. */
  ghost function MailedTo<S, Msg, Out>(base: Config<S, Msg, Out>, ids: seq<u16>, ss: seq<S>, opss: seq<seq<Op>>, p: u16)
    : multiset<(u16, Bytes)>
    requires |ss| == |opss| == |ids|
  {
    Summed(Bags(base, ids, ss, opss, p), |ids|)
  }

  /** One of two summands grew by d. */
  lemma Grown<T>(a: multiset<T>, b: multiset<T>, d: multiset<T>, early: bool, last: bool)
    requires !(early && last)
    ensures (a + if early then d else multiset{}) + (b + if last then d else multiset{})
            == (a + b) + if early || last then d else multiset{}
  {
  }

  lemma {:induction false} SummedUpdate<T>(bags: seq<multiset<T>>, i: nat, d: multiset<T>, k: nat)
    requires i < |bags| && k <= |bags|
    ensures Summed(bags[i := bags[i] + d], k) == Summed(bags, k) + if i < k then d else multiset{}
  {
    if k > 0 {
      SummedUpdate(bags, i, d, k - 1);
      Grown(Summed(bags, k - 1), bags[k - 1], d, i < k - 1, i == k - 1);
      assert k - 1 != i ==> bags[k - 1] + multiset{} == bags[k - 1];
    }
  }

  /** Only party i made a call, which put d into p's mailbox. */
  lemma MailedToUpdate<S, Msg, Out>(
      base: Config<S, Msg, Out>, ids: seq<u16>, ss: seq<S>, opss: seq<seq<Op>>, i: nat, ops: seq<Op>, p: u16,
      d: multiset<(u16, Bytes)>)
    requires |ss| == |opss| == |ids| && i < |ids|
    requires MailedBy(base, ids, ss, i, ops, p) == MailedBy(base, ids, ss, i, opss[i], p) + d
    ensures MailedTo(base, ids, ss, opss[i := ops], p) == MailedTo(base, ids, ss, opss, p) + d
  {
    var bags := Bags(base, ids, ss, opss, p);
    assert Bags(base, ids, ss, opss[i := ops], p) == bags[i := bags[i] + d];
    SummedUpdate(bags, i, d, |ids|);
  }

  ghost predicate RunAt<S(!new), Msg(!new), Out>(
      base: Config<S, Msg, Out>, ids: seq<u16>, ss: seq<S>, w: Session<S, Msg, Out>, opss: seq<seq<Op>>, i: int)
    requires |ss| == |opss| == |ids| && Sized(w, |ids|)
  {
    0 <= i < |ids| ==> RunsTo(ConfigOf(base, ids, i), ss[i], opss[i], w.runners[i], w.results[i])
  }

  /** Party i has read, or still has in its mailbox, exactly what was there at the start and what
      the calls of all parties put there. */
  ghost predicate MailAt<S, Msg, Out>(base: Config<S, Msg, Out>, ids: seq<u16>, ss: seq<S>, net0: Network.NetState,
                                      w: Session<S, Msg, Out>, opss: seq<seq<Op>>, i: int)
    requires |ss| == |opss| == |ids|
  {
    0 <= i < |ids| ==>
      && ids[i] in w.net.mailboxes
      && multiset(Inputs(opss[i])) + multiset(Network.Mailbox(w.net, ids[i]))
         == multiset(Network.Mailbox(net0, ids[i])) + MailedTo(base, ids, ss, opss, ids[i])
  }

  ghost predicate AllRun<S(!new), Msg(!new), Out>(
      base: Config<S, Msg, Out>, ids: seq<u16>, ss: seq<S>, w: Session<S, Msg, Out>, opss: seq<seq<Op>>)
    requires |ss| == |opss| == |ids| && Sized(w, |ids|)
  {
    forall i: int :: RunAt(base, ids, ss, w, opss, i)
  }

  ghost predicate AllMail<S, Msg, Out>(base: Config<S, Msg, Out>, ids: seq<u16>, ss: seq<S>, net0: Network.NetState,
                                       w: Session<S, Msg, Out>, opss: seq<seq<Op>>)
    requires |ss| == |opss| == |ids|
  {
    forall i: int :: MailAt(base, ids, ss, net0, w, opss, i)
  }

  /** Distinct parties, all with a mailbox. */
  ghost predicate Known(ids: seq<u16>, net: Network.NetState) {
    ToyRuns.Unique(ids) && forall i :: 0 <= i < |ids| ==> ids[i] in net.mailboxes
  }

  /** The calls made so far explain runners, results and mailboxes. */
  ghost predicate Explained<S(!new), Msg(!new), Out>(
      base: Config<S, Msg, Out>, ids: seq<u16>, ss: seq<S>, net0: Network.NetState, w: Session<S, Msg, Out>,
      opss: seq<seq<Op>>)
    requires |ss| == |ids|
  {
    && |opss| == |ids| && Sized(w, |ids|)
    && AllRun(base, ids, ss, w, opss)
    && (Known(ids, net0) ==> AllMail(base, ids, ss, net0, w, opss))
  }

  ghost predicate Explainable<S(!new), Msg(!new), Out>(
      base: Config<S, Msg, Out>, ids: seq<u16>, ss: seq<S>, net0: Network.NetState, w: Session<S, Msg, Out>)
    requires |ss| == |ids|
  {
    exists opss: seq<seq<Op>> :: Explained(base, ids, ss, net0, w, opss)
  }

  /** Party i made a call; the other runners are as before. */
  lemma RunsUpdate<S(!new), Msg(!new), Out>(
      base: Config<S, Msg, Out>, ids: seq<u16>, ss: seq<S>, w: Session<S, Msg, Out>, w': Session<S, Msg, Out>,
      opss: seq<seq<Op>>, i: nat, ops: seq<Op>)
    requires |ss| == |opss| == |ids| && i < |ids| && Sized(w, |ids|) && Sized(w', |ids|)
    requires AllRun(base, ids, ss, w, opss)
    requires forall j :: 0 <= j < |ids| && j != i ==> w'.runners[j] == w.runners[j] && w'.results[j] == w.results[j]
    requires RunsTo(ConfigOf(base, ids, i), ss[i], ops, w'.runners[i], w'.results[i])
    ensures AllRun(base, ids, ss, w', opss[i := ops])
  {
    var opss' := opss[i := ops];
    forall j: int
      ensures RunAt(base, ids, ss, w', opss', j)
    {
      assert RunAt(base, ids, ss, w, opss, j);
    }
  }

  lemma MultisetAppend<T>(a: seq<T>, b: seq<T>)
    ensures multiset(a + b) == multiset(a) + multiset(b)
  {
  }

  lemma Balance<T>(inputs: multiset<T>, box: multiset<T>, start: multiset<T>, sent: multiset<T>, d: multiset<T>)
    requires inputs + box == start + sent
    ensures inputs + (box + d) == start + (sent + d)
  {
    assert inputs + (box + d) == (inputs + box) + d;
    assert start + (sent + d) == (start + sent) + d;
  }

  lemma Moved<T>(inputs: multiset<T>, box: multiset<T>)
    ensures inputs + box + multiset{} == inputs + box
  {
  }

  /** What a call of `step_encode` adds to the caller's mail. */
  lemma EncodeMails<S, Msg, Out>(base: Config<S, Msg, Out>, ids: seq<u16>, ss: seq<S>, ops: seq<Op>, st: State<S, Msg>,
                                 i: nat, p: u16)
    requires |ss| == |ids| && i < |ids|
    requires Ran(ConfigOf(base, ids, i), Fresh(ConfigOf(base, ids, i), ss[i]), ops) == Step(st, None)
    ensures Inputs(ops + [StepEncode]) == Inputs(ops)
    ensures MailedBy(base, ids, ss, i, ops + [StepEncode], p)
            == MailedBy(base, ids, ss, i, ops, p) + multiset(Mailed(ids[i], Emitted(ConfigOf(base, ids, i), st).1, p))
  {
    var cfg := ConfigOf(base, ids, i);
    var sent, encoded := Outputs(cfg, Fresh(cfg, ss[i]), ops), Emitted(cfg, st).1;
    OutputsSnoc(cfg, Fresh(cfg, ss[i]), ops, StepEncode);
    MailedAppend(ids[i], sent, encoded, p);
    MultisetAppend(Mailed(ids[i], sent, p), Mailed(ids[i], encoded, p));
  }

  /** A call of `step_decode` adds nothing to the caller's mail. */
  lemma DecodeMails<S, Msg, Out>(
      base: Config<S, Msg, Out>, ids: seq<u16>, ss: seq<S>, ops: seq<Op>, raw: seq<(u16, Bytes)>, i: nat, p: u16)
    requires |ss| == |ids| && i < |ids|
    requires Ran(ConfigOf(base, ids, i), Fresh(ConfigOf(base, ids, i), ss[i]), ops).error.None?
    ensures multiset(Inputs(ops + [StepDecode(raw)])) == multiset(Inputs(ops)) + multiset(raw)
    ensures MailedBy(base, ids, ss, i, ops + [StepDecode(raw)], p) == MailedBy(base, ids, ss, i, ops, p) + multiset{}
  {
    var cfg := ConfigOf(base, ids, i);
    OutputsSnoc(cfg, Fresh(cfg, ss[i]), ops, StepDecode(raw));
    MultisetAppend(Inputs(ops), raw);
  }

  lemma BoxAfterCarrying(net: Network.NetState, from: u16, encoded: seq<(Recipient, Bytes)>, p: u16)
    requires p in net.mailboxes
    ensures var net' := Carried(net, from, encoded, |encoded|);
            && p in net'.mailboxes
            && multiset(Network.Mailbox(net', p)) == multiset(Network.Mailbox(net, p)) + multiset(Mailed(from, encoded, p))
  {
    CarriedDelivers(net, from, encoded, p);
    MultisetAppend(Network.Mailbox(net, p), Mailed(from, encoded, p));
  }

  /** Party i's call of `step_encode`, whose messages the network carried. */
  lemma EncodeMail<S(!new), Msg(!new), Out>(
      base: Config<S, Msg, Out>, ids: seq<u16>, ss: seq<S>, net0: Network.NetState, w: Session<S, Msg, Out>,
      w': Session<S, Msg, Out>, opss: seq<seq<Op>>, i: nat, j: int)
    requires |ss| == |opss| == |ids| && i < |ids| && Sized(w, |ids|)
    requires Ran(ConfigOf(base, ids, i), Fresh(ConfigOf(base, ids, i), ss[i]), opss[i]) == Step(w.runners[i], None)
    requires w'.net == var encoded := Emitted(ConfigOf(base, ids, i), w.runners[i]).1;
                       Carried(w.net, ids[i], encoded, |encoded|)
    requires MailAt(base, ids, ss, net0, w, opss, j)
    ensures MailAt(base, ids, ss, net0, w', opss[i := opss[i] + [StepEncode]], j)
  {
    if 0 <= j < |ids| {
      var p, encoded := ids[j], Emitted(ConfigOf(base, ids, i), w.runners[i]).1;
      var d := multiset(Mailed(ids[i], encoded, p));
      BoxAfterCarrying(w.net, ids[i], encoded, p);
      EncodeMails(base, ids, ss, opss[i], w.runners[i], i, p);
      MailedToUpdate(base, ids, ss, opss, i, opss[i] + [StepEncode], p, d);
      Balance(multiset(Inputs(opss[j])), multiset(Network.Mailbox(w.net, p)), multiset(Network.Mailbox(net0, p)),
              MailedTo(base, ids, ss, opss, p), d);
    }
  }

  /** Party i's call of `step_decode` on its mailbox. */
  lemma DecodeMail<S(!new), Msg(!new), Out>(
      base: Config<S, Msg, Out>, ids: seq<u16>, ss: seq<S>, net0: Network.NetState, w: Session<S, Msg, Out>,
      w': Session<S, Msg, Out>, opss: seq<seq<Op>>, i: nat, j: int)
    requires |ss| == |opss| == |ids| && i < |ids| && Sized(w, |ids|) && ToyRuns.Unique(ids)
    requires Ran(ConfigOf(base, ids, i), Fresh(ConfigOf(base, ids, i), ss[i]), opss[i]).error.None?
    requires w'.net == Network.Emptied(w.net, ids[i])
    requires MailAt(base, ids, ss, net0, w, opss, j)
    ensures MailAt(base, ids, ss, net0, w', opss[i := opss[i] + [StepDecode(Network.Mailbox(w.net, ids[i]))]], j)
  {
    if 0 <= j < |ids| {
      var p, raw := ids[j], Network.Mailbox(w.net, ids[i]);
      DecodeMails(base, ids, ss, opss[i], raw, i, p);
      MailedToUpdate(base, ids, ss, opss, i, opss[i] + [StepDecode(raw)], p, multiset{});
      Moved(multiset(Network.Mailbox(net0, p)), MailedTo(base, ids, ss, opss, p));
      if j == i {
        Moved(multiset(Inputs(opss[i])), multiset(raw));
      } else {
        assert ids[j] != ids[i];
      }
    }
  }

  // ---- the phases ----------------------------------------------------------------------------------

  lemma EncodeKeeps<S(!new), Msg(!new), Out>(
      base: Config<S, Msg, Out>, ids: seq<u16>, ss: seq<S>, net0: Network.NetState, w: Session<S, Msg, Out>,
      w': Session<S, Msg, Out>, opss: seq<seq<Op>>, i: nat)
    requires |ss| == |ids| && i < |ids| && Explained(base, ids, ss, net0, w, opss) && w.results[i].None?
    requires Sized(w', |ids|)
    requires var (st, encoded) := Emitted(ConfigOf(base, ids, i), w.runners[i]);
             && w'.runners == w.runners[i := st] && w'.net == Carried(w.net, ids[i], encoded, |encoded|)
             && (w'.results == w.results
                 || (w'.results == w.results[i := Some(Outcome(ConfigOf(base, ids, i), st))]
                     && ConfigOf(base, ids, i).machine.isDone(w.runners[i].machine)))
    ensures Explained(base, ids, ss, net0, w', opss[i := opss[i] + [StepEncode]])
  {
    assert RunAt(base, ids, ss, w, opss, i);
    OneMoreCall(ConfigOf(base, ids, i), ss[i], opss[i], w.runners[i], StepEncode, w'.results[i]);
    RunsUpdate(base, ids, ss, w, w', opss, i, opss[i] + [StepEncode]);
    if Known(ids, net0) {
      var opss' := opss[i := opss[i] + [StepEncode]];
      forall j: int
        ensures MailAt(base, ids, ss, net0, w', opss', j)
      {
        assert MailAt(base, ids, ss, net0, w, opss, j);
        EncodeMail(base, ids, ss, net0, w, w', opss, i, j);
      }
    }
  }

  lemma SendKeeps<S(!new), Msg(!new), Out(!new)>(
      base: Config<S, Msg, Out>, ids: seq<u16>, ss: seq<S>, net0: Network.NetState, w: Session<S, Msg, Out>, i: nat)
    requires |ss| == |ids| && i < |ids| && Explainable(base, ids, ss, net0, w)
    ensures Explainable(base, ids, ss, net0, SendingOne(base, ids, w, i))
  {
    var opss: seq<seq<Op>> :| Explained(base, ids, ss, net0, w, opss);
    if w.results[i].None? {
      EncodeKeeps(base, ids, ss, net0, w, SendingOne(base, ids, w, i), opss, i);
    }
  }

  lemma DecodeKeeps<S(!new), Msg(!new), Out>(
      base: Config<S, Msg, Out>, ids: seq<u16>, ss: seq<S>, net0: Network.NetState, w: Session<S, Msg, Out>,
      opss: seq<seq<Op>>, i: nat)
    requires |ss| == |ids| && i < |ids| && Explained(base, ids, ss, net0, w, opss) && w.results[i].None?
    requires !ConfigOf(base, ids, i).machine.isDone(w.runners[i].machine)
    ensures var op := StepDecode(Network.Mailbox(w.net, ids[i]));
            Explained(base, ids, ss, net0, ReceivingOne(base, ids, w, i), opss[i := opss[i] + [op]])
  {
    var w', op := ReceivingOne(base, ids, w, i), StepDecode(Network.Mailbox(w.net, ids[i]));
    assert RunAt(base, ids, ss, w, opss, i);
    OneMoreCall(ConfigOf(base, ids, i), ss[i], opss[i], w.runners[i], op, w'.results[i]);
    RunsUpdate(base, ids, ss, w, w', opss, i, opss[i] + [op]);
    if Known(ids, net0) {
      var opss' := opss[i := opss[i] + [op]];
      forall j: int
        ensures MailAt(base, ids, ss, net0, w', opss', j)
      {
        assert MailAt(base, ids, ss, net0, w, opss, j);
        DecodeMail(base, ids, ss, net0, w, w', opss, i, j);
      }
    }
  }

  lemma FinishKeeps<S(!new), Msg(!new), Out>(
      base: Config<S, Msg, Out>, ids: seq<u16>, ss: seq<S>, net0: Network.NetState, w: Session<S, Msg, Out>,
      opss: seq<seq<Op>>, i: nat)
    requires |ss| == |ids| && i < |ids| && Explained(base, ids, ss, net0, w, opss) && w.results[i].None?
    requires ConfigOf(base, ids, i).machine.isDone(w.runners[i].machine)
    ensures Explained(base, ids, ss, net0, ReceivingOne(base, ids, w, i), opss)
  {
    var w' := ReceivingOne(base, ids, w, i);
    assert RunAt(base, ids, ss, w, opss, i);
    RunsUpdate(base, ids, ss, w, w', opss, i, opss[i]);
    assert opss[i := opss[i]] == opss;
    if Known(ids, net0) {
      forall j: int
        ensures MailAt(base, ids, ss, net0, w', opss, j)
      {
        assert MailAt(base, ids, ss, net0, w, opss, j);
      }
    }
  }

  lemma ReceiveKeeps<S(!new), Msg(!new), Out(!new)>(
      base: Config<S, Msg, Out>, ids: seq<u16>, ss: seq<S>, net0: Network.NetState, w: Session<S, Msg, Out>, i: nat)
    requires |ss| == |ids| && i < |ids| && Explainable(base, ids, ss, net0, w)
    ensures Explainable(base, ids, ss, net0, ReceivingOne(base, ids, w, i))
  {
    var opss: seq<seq<Op>> :| Explained(base, ids, ss, net0, w, opss);
    if w.results[i].None? {
      if ConfigOf(base, ids, i).machine.isDone(w.runners[i].machine) {
        FinishKeeps(base, ids, ss, net0, w, opss, i);
      } else {
        DecodeKeeps(base, ids, ss, net0, w, opss, i);
      }
    }
  }

  lemma CloseKeeps<S(!new), Msg(!new), Out(!new)>(
      base: Config<S, Msg, Out>, ids: seq<u16>, ss: seq<S>, net0: Network.NetState, w: Session<S, Msg, Out>, i: nat)
    requires |ss| == |ids| && i < |ids| && Explainable(base, ids, ss, net0, w)
    ensures Explainable(base, ids, ss, net0, ClosingOne(base, ids, w, i))
  {
    var opss: seq<seq<Op>> :| Explained(base, ids, ss, net0, w, opss);
    if w.results[i].None? && ConfigOf(base, ids, i).machine.isDone(w.runners[i].machine) {
      EncodeKeeps(base, ids, ss, net0, w, ClosingOne(base, ids, w, i), opss, i);
    }
  }

  lemma RoundKeeps<S(!new), Msg(!new), Out(!new)>(
      base: Config<S, Msg, Out>, ids: seq<u16>, ss: seq<S>, net0: Network.NetState, w: Session<S, Msg, Out>)
    requires |ss| == |ids| && Explainable(base, ids, ss, net0, w)
    ensures Explainable(base, ids, ss, net0, WireRound(base, ids, w))
  {
    var n := |ids|;
    var inv := (v: Session<S, Msg, Out>, i: nat) => Explainable(base, ids, ss, net0, v);
    forall v: Session<S, Msg, Out>, i: nat | i < n && inv(v, i)
      ensures inv(SendStep(base, ids)(v, i), i + 1)
      ensures inv(ReceiveStep(base, ids)(v, i), i + 1)
      ensures inv(CloseStep(base, ids)(v, i), i + 1)
    {
      SendKeeps(base, ids, ss, net0, v, i);
      ReceiveKeeps(base, ids, ss, net0, v, i);
      CloseKeeps(base, ids, ss, net0, v, i);
    }
    FoldInvariant(SendStep(base, ids), inv, w, n, n);
    var sent := Sending(base, ids, w, n);
    FoldInvariant(ReceiveStep(base, ids), inv, sent, n, n);
    var received := Receiving(base, ids, sent, n);
    FoldInvariant(CloseStep(base, ids), inv, received, n, n);
  }

  lemma {:induction false} RunKeeps<S(!new), Msg(!new), Out(!new)>(
      base: Config<S, Msg, Out>, ids: seq<u16>, ss: seq<S>, net0: Network.NetState, w: Session<S, Msg, Out>,
      rounds: nat)
    requires |ss| == |ids| && Explainable(base, ids, ss, net0, w)
    ensures Explainable(base, ids, ss, net0, WireRun(base, ids, w, rounds))
    decreases rounds
  {
    if rounds > 0 && !Settled(w) {
      RoundKeeps(base, ids, ss, net0, w);
      RunKeeps(base, ids, ss, net0, WireRound(base, ids, w), rounds - 1);
    }
  }

  lemma {:induction false} NothingSummed<T>(bags: seq<multiset<T>>, k: nat)
    requires k <= |bags| && forall j :: 0 <= j < |bags| ==> bags[j] == multiset{}
    ensures Summed(bags, k) == multiset{}
  {
    if k > 0 {
      NothingSummed(bags, k - 1);
    }
  }

  lemma StartExplained<S(!new), Msg(!new), Out>(
      base: Config<S, Msg, Out>, ids: seq<u16>, ss: seq<S>, net: Network.NetState)
    requires |ss| == |ids|
    ensures Explainable(base, ids, ss, net, Started(base, ids, ss, net))
  {
    var w := Started(base, ids, ss, net);
    var opss: seq<seq<Op>> := seq(|ids|, _ => []);
    forall i: int
      ensures RunAt(base, ids, ss, w, opss, i)
      ensures Known(ids, net) ==> MailAt(base, ids, ss, net, w, opss, i)
    {
      if 0 <= i < |ids| {
        NothingSummed(Bags(base, ids, ss, opss, ids[i]), |ids|);
      }
    }
    assert Explained(base, ids, ss, net, w, opss);
  }

  /** Every session over the wire, of any machines and any number of rounds, is explained by the
      calls made on each runner: the runner is where its calls lead, its result is the error of
      its run or what a machine that was found done finishes with, and, for distinct parties
      that all have a mailbox, everything meant for a party, and nothing else, was read by it or
      is in its mailbox. */
  lemma SessionExplained<S(!new), Msg(!new), Out(!new)>(
      base: Config<S, Msg, Out>, ids: seq<u16>, ss: seq<S>, net: Network.NetState, rounds: nat)
    requires |ss| == |ids|
    ensures Explainable(base, ids, ss, net, WireRun(base, ids, Started(base, ids, ss, net), rounds))
  {
    StartExplained(base, ids, ss, net);
    RunKeeps(base, ids, ss, net, Started(base, ids, ss, net), rounds);
  }

  /** In every session over the wire, of any number of rounds, of a machine whose round never
      decreases, the calls made on a runner that has not failed are explained by a log: what it
      received was accepted once and delivered, still waits, or came too late. */
  lemma EveryRunnerAccounted<S(!new), Msg(!new), Out(!new)>(
      base: Config<S, Msg, Out>, ids: seq<u16>, ss: seq<S>, net: Network.NetState, rounds: nat, i: nat)
    requires |ss| == |ids| && i < |ids| && Monotone(base.machine)
    requires var w := WireRun(base, ids, Started(base, ids, ss, net), rounds);
             w.results[i].None? || w.results[i].value.Ok?
    ensures var cfg, w := ConfigOf(base, ids, i), WireRun(base, ids, Started(base, ids, ss, net), rounds);
            exists ops: seq<Op>, log: Log<Msg> ::
              Ran(cfg, Fresh(cfg, ss[i]), ops) == Step(w.runners[i], None) && Logs(cfg, Fresh(cfg, ss[i]), ops, log)
  {
    var cfg, w := ConfigOf(base, ids, i), WireRun(base, ids, Started(base, ids, ss, net), rounds);
    SessionExplained(base, ids, ss, net, rounds);
    var opss: seq<seq<Op>> :| Explained(base, ids, ss, net, w, opss);
    assert RunAt(base, ids, ss, w, opss, i);
    var log := AccountRun(cfg, Fresh(cfg, ss[i]), opss[i]);
  }

  // ---- when a party has its result -----------------------------------------------------------------

  /** A party that has its result is left alone. */
  lemma ResultStays<S(!new), Msg(!new), Out(!new)>(
      base: Config<S, Msg, Out>, ids: seq<u16>, w: Session<S, Msg, Out>, i: nat)
    requires Sized(w, |ids|) && i < |ids| && w.results[i].Some?
    ensures var w' := WireRound(base, ids, w); w'.results[i] == w.results[i] && w'.runners[i] == w.runners[i]
  {
    var n := |ids|;
    var inv := (v: Session<S, Msg, Out>, k: nat) =>
                 Sized(v, n) && v.results[i] == w.results[i] && v.runners[i] == w.runners[i];
    FoldInvariant(SendStep(base, ids), inv, w, n, n);
    var sent := Sending(base, ids, w, n);
    FoldInvariant(ReceiveStep(base, ids), inv, sent, n, n);
    var received := Receiving(base, ids, sent, n);
    FoldInvariant(CloseStep(base, ids), inv, received, n, n);
  }

  lemma {:induction false} ResultStaysForever<S(!new), Msg(!new), Out(!new)>(
      base: Config<S, Msg, Out>, ids: seq<u16>, w: Session<S, Msg, Out>, i: nat, rounds: nat)
    requires Sized(w, |ids|) && i < |ids| && w.results[i].Some?
    ensures var w' := WireRun(base, ids, w, rounds); w'.results[i] == w.results[i] && w'.runners[i] == w.runners[i]
    decreases rounds
  {
    if rounds > 0 && !Settled(w) {
      ResultStays(base, ids, w, i);
      ResultStaysForever(base, ids, WireRound(base, ids, w), i, rounds - 1);
    }
  }

  /** After every round, a party without a result has a machine that is not done. */
  lemma DoneIsSettled<S(!new), Msg(!new), Out(!new)>(
      base: Config<S, Msg, Out>, ids: seq<u16>, w: Session<S, Msg, Out>, i: nat)
    requires Sized(w, |ids|) && i < |ids|
    ensures var w' := WireRound(base, ids, w);
            w'.results[i].None? ==> !base.machine.isDone(w'.runners[i].machine)
  {
    var n := |ids|;
    PhasesKeepSize(base, ids, w, n);
    PhasesKeepSize(base, ids, Sending(base, ids, w, n), n);
    var received := Receiving(base, ids, Sending(base, ids, w, n), n);
    var inv := (v: Session<S, Msg, Out>, k: nat) =>
                 Sized(v, n) && (i < k && v.results[i].None? ==> !base.machine.isDone(v.runners[i].machine));
    FoldInvariant(CloseStep(base, ids), inv, received, n, n);
  }

  // ---- the toy key generation ----------------------------------------------------------------------

  lemma RoundTriples(ids: seq<u16>, me: u16, t: Triple)
    ensures var others := ToyRuns.Others(ids, me);
            t in ToyWire.SeenIn(ids, 2, me, others) <==> t.0 in others && (t.1 == 1 || t.1 == 2) && t.2 == BROADCAST
  {
  }

  /** In a toy session that runs to its end, every party has accepted exactly one broadcast of
      each round from each other party, and nothing is left in its buffer. */
  lemma ToySessionAccounted(hash: ToyDkg.Hash, base: ToyWire.ToyConfig, ids: seq<u16>, net: Network.NetState,
                            rounds: nat, i: nat)
    requires ToyWire.Configured(hash, base) && ToyRuns.Parties(ids) && ToyWire.EmptyBoxes(ids, net)
    requires rounds >= 2 && i < |ids|
    ensures var cfg, me := ConfigOf(base, ids, i), ids[i];
            var start := Fresh(cfg, ToyRuns.Machines(hash, ids)[i]);
            var w := WireRun(base, ids, Started(base, ids, ToyRuns.Machines(hash, ids), net), rounds);
            exists ops: seq<Op>, log: Log<ToyDkg.Msg> ::
              && Ran(cfg, start, ops) == Step(w.runners[i], None) && Logs(cfg, start, ops, log)
              && (forall t: Triple :: HasTriple(Headers(log), t)
                    <==> t.0 in ToyRuns.Others(ids, me) && (t.1 == 1 || t.1 == 2) && t.2 == BROADCAST)
              && w.runners[i].future == map[]
  {
    var ss := ToyRuns.Machines(hash, ids);
    var w1 := Started(base, ids, ss, net);
    var w := WireRun(base, ids, w1, rounds);
    ToyDkg.ToyIsMonotone(hash);
    ToyWire.StartIsReady(hash, base, ids, net);
    ToyWire.WireResults(hash, base, ids, w1, rounds);
    EveryRunnerAccounted(base, ids, ss, net, rounds, i);
    var cfg := ConfigOf(base, ids, i);
    var ops: seq<Op>, log: Log<ToyDkg.Msg> :|
      Ran(cfg, Fresh(cfg, ss[i]), ops) == Step(w.runners[i], None) && Logs(cfg, Fresh(cfg, ss[i]), ops, log);
    forall t: Triple
      ensures HasTriple(Headers(log), t)
              <==> t.0 in ToyRuns.Others(ids, ids[i]) && (t.1 == 1 || t.1 == 2) && t.2 == BROADCAST
    {
      assert SeenExactly(Headers(log), {}, w.runners[i].seen, t);
      RoundTriples(ids, ids[i], t);
    }
  }
}
