/** The two-party ping-pong session: the one that needs point-to-point messages handed over ahead
    of their round. */
module PingPong {
  import opened Outcomes
  import opened Codec
  import opened Runner
  import opened WireDriver
  import opened SessionRounds
  import Network

  // ---- the players -----------------------------------------------------------------------------------

  datatype Ball = Ping | Pong

  datatype Phase = AwaitsPong | AwaitsPing | Finished

  datatype Player = Player(peer: u16, phase: Phase, outbox: seq<Outgoing<Ball>>, round: u16)

  function Initiator(peer: u16): Player {
    Player(peer, AwaitsPong, [Outgoing(Party(peer), Ping)], 1)
  }

  function Responder(peer: u16): Player {
    Player(peer, AwaitsPing, [], 0)
  }

  /** `handle`: anything but the awaited ball from the peer is refused. */
  function Hit(p: Player, from: u16, ball: Ball): Handled<Player> {
    if from != p.peer then Handled(p, false)
    else if p.phase == AwaitsPing && ball == Ping then
      Handled(Player(p.peer, Finished, p.outbox + [Outgoing(Party(p.peer), Pong)], 2), true)
    else if p.phase == AwaitsPong && ball == Pong then
      Handled(p.(phase := Finished, round := 2), true)
    else Handled(p, false)
  }

  function PlayerMachine(): Machine<Player, Ball, string> {
    Machine(
      (p: Player, from: u16, ball: Ball) => Hit(p, from, ball),
      (p: Player) => (p.(outbox := []), p.outbox),
      (p: Player) => p.round,
      (p: Player) => p.phase == Finished,
      (p: Player) => if p.phase == Finished then Some("done") else None)
  }

  type Rules = Config<Player, Ball, string>
  type Match = Session<Player, Ball, string>

  /** Two players with different ids and empty mailboxes, and any payload encoding that
      round-trips. */
  ghost predicate Table(base: Rules, a: u16, b: u16, net: Network.NetState) {
    && base.machine == PlayerMachine() && RoundTrips(base.codec) && a != b
    && a in net.mailboxes && b in net.mailboxes && net.mailboxes[a] == [] && net.mailboxes[b] == []
  }

  function Opening(base: Rules, a: u16, b: u16, net: Network.NetState): (w: Match)
    ensures Sized(w, |[a, b]|)
  {
    Started(base, [a, b], [Initiator(b), Responder(a)], net)
  }

  function Letter(base: Rules, round: u16, from: u16, to: u16, ball: Ball): (u16, Bytes) {
    (from, Encoded(base.codec, Header(base.sessionId, base.protocolId, round, from, to), ball))
  }

  // ---- one letter ------------------------------------------------------------------------------------

  lemma OneOut(cfg: Rules, round: u16, to: u16, ball: Ball)
    ensures EncodedAll(cfg, round, [Outgoing(Party(to), ball)])
            == [(Party(to), Encoded(cfg.codec, Header(cfg.sessionId, cfg.protocolId, round, cfg.myId, to), ball))]
  {
    var outs := [Outgoing(Party(to), ball)];
    assert outs[..0] == [];
    assert EncodedAll(cfg, round, outs[..0]) == [];
  }

  lemma OneMailed(from: u16, to: u16, bytes: Bytes, p: u16)
    ensures Mailed(from, [(Party(to), bytes)], p) == if p == to then [(from, bytes)] else []
    ensures Mailed(from, [], p) == []
  {
    var one := [(Party(to), bytes)];
    assert one[..|one| - 1] == [];
    assert Mailed(from, one[..|one| - 1], p) == [];
    assert Mailed(from, one, p) == [] + MailedOne(from, one[0], p);
  }

  /** A single letter of a later round, from the only other party. */
  lemma EarlyLetter(cfg: Rules, st: State<Player, Ball>, round: u16, from: u16, to: u16, ball: Ball)
    requires cfg.machine == PlayerMachine() && RoundTrips(cfg.codec) && |cfg.parties| == 2
    requires st.seen == {} && st.future == map[] && round > st.machine.round && Hit(st.machine, from, ball).ok
    ensures var step := Decoded(cfg, st, [Letter(cfg, round, from, to, ball)]);
            && step.error.None?
            && step.state.machine == (if to != 0xFFFF then Hit(st.machine, from, ball).state else st.machine)
            && step.state.future == if to != 0xFFFF then map[] else map[round := [(from, ball)]]
  {
    var letter := Letter(cfg, round, from, to, ball);
    var h := Header(cfg.sessionId, cfg.protocolId, round, from, to);
    DecodeEncoded(cfg.codec, h, ball);
    MessageError(cfg, st, from, letter.1);
    MessageEffect(cfg, st, from, letter.1);
    var one := DecodedOne(cfg, st, from, letter.1);
    assert [letter][1..] == [];
    assert DecodedBatch(cfg, one.state, []) == Step(one.state, None);
    assert DecodedBatch(cfg, st, [letter]) == one;
    NothingHeard(cfg, one.state);
    var letters: seq<(u16, Ball)> := [];
    assert letters + [(from, ball)] == [(from, ball)];
  }

  // ---- the first round: the serve --------------------------------------------------------------------

  /** What the two players put into the mailboxes when they are drained first. */
  lemma Served(base: Rules, a: u16, b: u16, net: Network.NetState, p: u16)
    requires Table(base, a, b, net)
    ensures var w, ids := Opening(base, a, b, net), [a, b];
            && Drained(base, ids, w, 0).machine == Player(b, AwaitsPong, [], 1)
            && Drained(base, ids, w, 0).seen == {} && Drained(base, ids, w, 0).future == map[]
            && Drained(base, ids, w, 1).machine == Responder(a)
            && Drained(base, ids, w, 1).seen == {} && Drained(base, ids, w, 1).future == map[]
            && PhaseMail(base, ids, w, 2, p) == if p == b then [Letter(base, 1, a, b, Ping)] else []
  {
    var w, ids := Opening(base, a, b, net), [a, b];
    OneOut(ConfigOf(base, ids, 0), 1, b, Ping);
    OneMailed(a, b, Letter(base, 1, a, b, Ping).1, p);
    OneMailed(b, a, [], p);
    NothingMore(PartyMail(base, ids, w, 0, p));
    assert PhaseMail(base, ids, w, 1, p) == PartyMail(base, ids, w, 0, p);
  }

  /** The initiator hears nothing, the responder hears the serve. */
  lemma ServeHeard(base: Rules, a: u16, b: u16, net: Network.NetState)
    requires Table(base, a, b, net)
    ensures var w, ids := Opening(base, a, b, net), [a, b];
            && Reads(base, ids, w, 0) && Reads(base, ids, w, 1)
            && Inbox(base, ids, w, 0) == [] && Inbox(base, ids, w, 1) == [Letter(base, 1, a, b, Ping)]
            && Heard(base, ids, w, 0).error.None?
            && Heard(base, ids, w, 0).state.machine == Player(b, AwaitsPong, [], 1)
            && Heard(base, ids, w, 0).state.seen == {} && Heard(base, ids, w, 0).state.future == map[]
  {
    var w, ids := Opening(base, a, b, net), [a, b];
    Served(base, a, b, net, a);
    Served(base, a, b, net, b);
    NothingHeard(ConfigOf(base, ids, 0), Drained(base, ids, w, 0));
  }

  /** The responder after the serve: it answers, unless its id is the broadcast marker. */
  lemma ServeReturned(base: Rules, a: u16, b: u16, net: Network.NetState)
    requires Table(base, a, b, net)
    ensures var w, ids := Opening(base, a, b, net), [a, b];
            && Heard(base, ids, w, 1).error.None?
            && Heard(base, ids, w, 1).state.machine
               == (if b != 0xFFFF then Player(a, Finished, [Outgoing(Party(a), Pong)], 2) else Responder(a))
            && Heard(base, ids, w, 1).state.future == if b != 0xFFFF then map[] else map[1 := [(a, Ping)]]
  {
    var w, ids := Opening(base, a, b, net), [a, b];
    ServeHeard(base, a, b, net);
    Served(base, a, b, net, b);
    EarlyLetter(ConfigOf(base, ids, 1), Drained(base, ids, w, 1), 1, a, b, Ping);
  }

  lemma ReturnMailed(base: Rules, a: u16, b: u16, net: Network.NetState, p: u16)
    requires Table(base, a, b, net)
    ensures ClosingMail(base, [a, b], Opening(base, a, b, net), 2, p)
            == if b != 0xFFFF && p == a then [Letter(base, 2, b, a, Pong)] else []
  {
    var w, ids := Opening(base, a, b, net), [a, b];
    ServeHeard(base, a, b, net);
    ServeReturned(base, a, b, net);
    assert ClosingMail(base, ids, w, 1, p) == [];
    if b != 0xFFFF {
      OneOut(ConfigOf(base, ids, 1), 2, a, Pong);
      OneMailed(b, a, Letter(base, 2, b, a, Pong).1, p);
    }
  }

  /** After the first round. */
  ghost predicate Returning(base: Rules, a: u16, b: u16, w: Match) {
    && Sized(w, 2) && a in w.net.mailboxes && b in w.net.mailboxes
    && w.results[0] == None && w.runners[0].machine == Player(b, AwaitsPong, [], 1)
    && w.runners[0].seen == {} && w.runners[0].future == map[]
    && w.net.mailboxes[a] == (if b != 0xFFFF then [Letter(base, 2, b, a, Pong)] else [])
    && w.net.mailboxes[b] == []
    && if b != 0xFFFF then w.results[1] == Some(Ok("done"))
       else w.results[1] == None && w.runners[1].machine == Responder(a) && 0 !in w.runners[1].future
  }

  /** The players after the first round, each on its own. */
  lemma FirstPlayed(base: Rules, a: u16, b: u16, net: Network.NetState)
    requires Table(base, a, b, net)
    ensures var w, ids := Opening(base, a, b, net), [a, b];
            var (first, second) := (PartyRound(base, ids, w, 0), PartyRound(base, ids, w, 1));
            && first.1 == None && first.0.machine == Player(b, AwaitsPong, [], 1)
            && first.0.seen == {} && first.0.future == map[]
            && second.1 == (if b != 0xFFFF then Some(Ok("done")) else None)
            && (b == 0xFFFF ==> second.0.machine == Responder(a) && 0 !in second.0.future)
  {
    ServeHeard(base, a, b, net);
    ServeReturned(base, a, b, net);
  }

  lemma FirstBoxes(base: Rules, ids: seq<u16>, a: u16, b: u16, net: Network.NetState)
    requires ids == [a, b] && Table(base, a, b, net)
    ensures var w := Opening(base, a, b, net);
            && BoxAfter(base, ids, w, a) == (if b != 0xFFFF then [Letter(base, 2, b, a, Pong)] else [])
            && BoxAfter(base, ids, w, b) == []
  {
    var w := Opening(base, a, b, net);
    assert ReadBefore(base, ids, w, |ids|, a) && ReadBefore(base, ids, w, |ids|, b) by {
      ServeHeard(base, a, b, net);
      BothRead(base, a, b, w);
    }
    ReturnMailed(base, a, b, net, a);
    ReturnMailed(base, a, b, net, b);
    BoxRead(base, ids, w, a);
    BoxRead(base, ids, w, b);
  }

  /** A mailbox that was read holds only what was put into it afterwards. */
  lemma BoxRead(base: Rules, ids: seq<u16>, w: Match, p: u16)
    requires Sized(w, |ids|) && ReadBefore(base, ids, w, |ids|, p)
    ensures BoxAfter(base, ids, w, p) == ClosingMail(base, ids, w, |ids|, p)
  {
  }

  lemma FirstRound(base: Rules, ids: seq<u16>, a: u16, b: u16, net: Network.NetState)
    requires ids == [a, b] && Table(base, a, b, net)
    ensures Returning(base, a, b, WireRound(base, ids, Opening(base, a, b, net)))
  {
    var w := Opening(base, a, b, net);
    FirstPlayed(base, a, b, net);
    FirstBoxes(base, ids, a, b, net);
    RoundIs(base, ids, w, 0, a);
    RoundIs(base, ids, w, 1, b);
  }

  lemma BothRead(base: Rules, a: u16, b: u16, w: Match)
    requires Sized(w, 2) && Reads(base, [a, b], w, 0) && Reads(base, [a, b], w, 1)
    ensures ReadBefore(base, [a, b], w, 2, a) && ReadBefore(base, [a, b], w, 2, b)
  {
    assert [a, b][0] == a && [a, b][1] == b;
  }

  /** Who has finished with what: the responder when its id is not the broadcast marker, the
      initiator when neither id is. */
  ghost predicate Score(a: u16, b: u16, results: seq<Option<Result<string, SessionError>>>) {
    && |results| == 2
    && results[0] == (if a != 0xFFFF && b != 0xFFFF then Some(Ok("done")) else None)
    && results[1] == if b != 0xFFFF then Some(Ok("done")) else None
  }

  // ---- the second round: the return ------------------------------------------------------------------

  lemma NothingServed(base: Rules, a: u16, b: u16, w: Match, p: u16)
    requires base.machine == PlayerMachine() && b != 0xFFFF && Returning(base, a, b, w)
    ensures PhaseMail(base, [a, b], w, 2, p) == []
  {
    assert PartyMail(base, [a, b], w, 0, p) == [];
    assert PhaseMail(base, [a, b], w, 1, p) == [];
  }

  /** The initiator after the second round: it is done, unless its id is the broadcast marker. */
  lemma ReturnHeard(base: Rules, a: u16, b: u16, w: Match)
    requires base.machine == PlayerMachine() && RoundTrips(base.codec) && a != b && b != 0xFFFF
    requires Returning(base, a, b, w)
    ensures var ids := [a, b];
            && Reads(base, ids, w, 0) && !Closes(base, ids, w, 1)
            && PhaseMail(base, ids, w, 2, a) == [] && PhaseMail(base, ids, w, 2, b) == []
            && Heard(base, ids, w, 0).error.None?
            && Heard(base, ids, w, 0).state.machine
               == (if a != 0xFFFF then Player(b, Finished, [], 2) else Player(b, AwaitsPong, [], 1))
            && Heard(base, ids, w, 0).state.future == if a != 0xFFFF then map[] else map[2 := [(b, Pong)]]
  {
    var ids := [a, b];
    NothingServed(base, a, b, w, a);
    NothingServed(base, a, b, w, b);
    NothingMore(w.net.mailboxes[a]);
    assert Drained(base, ids, w, 0) == w.runners[0];
    assert Inbox(base, ids, w, 0) == [Letter(base, 2, b, a, Pong)];
    EarlyLetter(ConfigOf(base, ids, 0), w.runners[0], 2, b, a, Pong);
  }

  lemma NothingClosed(base: Rules, a: u16, b: u16, w: Match, p: u16)
    requires base.machine == PlayerMachine() && RoundTrips(base.codec) && a != b && b != 0xFFFF
    requires Returning(base, a, b, w)
    ensures ClosingMail(base, [a, b], w, 2, p) == []
  {
    var ids := [a, b];
    ReturnHeard(base, a, b, w);
    assert Mailed(a, Emitted(ConfigOf(base, ids, 0), Heard(base, ids, w, 0).state).1, p) == [];
    assert ClosingMail(base, ids, w, 1, p) == [];
  }

  /** The players after the second round, each on its own. */
  lemma ReturnPlayed(base: Rules, a: u16, b: u16, w: Match)
    requires base.machine == PlayerMachine() && RoundTrips(base.codec) && a != b && b != 0xFFFF
    requires Returning(base, a, b, w)
    ensures var (st, result) := PartyRound(base, [a, b], w, 0);
            && result == (if a != 0xFFFF then Some(Ok("done")) else None)
            && (a == 0xFFFF ==> st.machine == Player(b, AwaitsPong, [], 1) && 1 !in st.future)
    ensures PartyRound(base, [a, b], w, 1).1 == Some(Ok("done"))
  {
    ReturnHeard(base, a, b, w);
  }

  lemma BoxEmpty(base: Rules, ids: seq<u16>, w: Match, p: u16)
    requires |ids| == 2 && Sized(w, |ids|) && ClosingMail(base, ids, w, |ids|, p) == []
    requires ReadBefore(base, ids, w, |ids|, p) || Delivered(base, ids, w, p) == []
    ensures BoxAfter(base, ids, w, p) == []
  {
  }

  lemma BoxesEmpty(base: Rules, ids: seq<u16>, a: u16, b: u16, w: Match)
    requires ids == [a, b] && base.machine == PlayerMachine() && RoundTrips(base.codec) && a != b && b != 0xFFFF
    requires Returning(base, a, b, w)
    ensures BoxAfter(base, ids, w, a) == [] && BoxAfter(base, ids, w, b) == []
  {
    assert ReadBefore(base, ids, w, 2, a) by {
      ReturnHeard(base, a, b, w);
      assert ids[0] == a;
    }
    assert Delivered(base, ids, w, b) == [] by {
      NothingServed(base, a, b, w, b);
    }
    NothingClosed(base, a, b, w, a);
    NothingClosed(base, a, b, w, b);
    BoxEmpty(base, ids, w, a);
    BoxEmpty(base, ids, w, b);
  }

  /** The mailboxes are empty, and a player without a result awaits a ball that it will not get. */
  ghost predicate Missed(a: u16, b: u16, w: Match) {
    && Sized(w, 2) && a in w.net.mailboxes && b in w.net.mailboxes
    && w.net.mailboxes[a] == [] && w.net.mailboxes[b] == []
    && (w.results[0].None? ==> w.runners[0].machine == Player(b, AwaitsPong, [], 1) && 1 !in w.runners[0].future)
    && (w.results[1].None? ==> w.runners[1].machine == Responder(a) && 0 !in w.runners[1].future)
  }

  lemma SecondRound(base: Rules, ids: seq<u16>, a: u16, b: u16, w: Match)
    requires ids == [a, b] && base.machine == PlayerMachine() && RoundTrips(base.codec) && a != b && b != 0xFFFF
    requires Returning(base, a, b, w)
    ensures var w' := WireRound(base, ids, w);
            Score(a, b, w'.results) && Missed(a, b, w')
  {
    ReturnPlayed(base, a, b, w);
    BoxesEmpty(base, ids, a, b, w);
    RoundIs(base, ids, w, 0, a);
    RoundIs(base, ids, w, 1, b);
  }

  /** A player that missed a ball stands still. */
  lemma StandsStill(base: Rules, ids: seq<u16>, a: u16, b: u16, w: Match)
    requires ids == [a, b] && base.machine == PlayerMachine() && Missed(a, b, w)
    ensures Idle(base, ids, w)
  {
    forall i: int
      ensures IdleAt(base, ids, w, i)
    {
      assert ids[0] == a && ids[1] == b;
    }
  }

  // ---- the match -------------------------------------------------------------------------------------

  /** A run that stands still after its first round. */
  lemma OneRound(base: Rules, ids: seq<u16>, w: Match, rounds: nat)
    requires Sized(w, |ids|) && !Settled(w) && rounds >= 1 && Idle(base, ids, WireRound(base, ids, w))
    ensures WireRun(base, ids, w, rounds).results == WireRound(base, ids, w).results
  {
    IdleForever(base, ids, WireRound(base, ids, w), rounds - 1);
  }

  /** A run that stands still after its second round. */
  lemma TwoRounds(base: Rules, ids: seq<u16>, w: Match, rounds: nat)
    requires Sized(w, |ids|) && !Settled(w) && !Settled(WireRound(base, ids, w)) && rounds >= 2
    requires Idle(base, ids, WireRound(base, ids, WireRound(base, ids, w)))
    ensures WireRun(base, ids, w, rounds).results == WireRound(base, ids, WireRound(base, ids, w)).results
  {
    OneRound(base, ids, WireRound(base, ids, w), rounds - 1);
  }

  /** The ping-pong session with at least two rounds: the responder finishes exactly when its id is
      not the broadcast marker 0xFFFF, the initiator exactly when neither id is. Whoever does not
      finish exceeds the round limit. */
  lemma MatchEnds(base: Rules, ids: seq<u16>, a: u16, b: u16, net: Network.NetState, rounds: nat)
    requires ids == [a, b] && Table(base, a, b, net) && rounds >= 2
    ensures var outputs := Returned(WireRun(base, ids, Opening(base, a, b, net), rounds).results, rounds);
            && |outputs| == 2
            && outputs[0] == (if a != 0xFFFF && b != 0xFFFF then Ok("done") else Err(MaxRoundsExceeded(rounds)))
            && outputs[1] == if b != 0xFFFF then Ok("done") else Err(MaxRoundsExceeded(rounds))
  {
    var w := Opening(base, a, b, net);
    FirstRound(base, ids, a, b, net);
    var w' := WireRound(base, ids, w);
    if b == 0xFFFF {
      StandsStill(base, ids, a, b, w');
      OneRound(base, ids, w, rounds);
    } else {
      SecondRound(base, ids, a, b, w');
      StandsStill(base, ids, a, b, WireRound(base, ids, w'));
      TwoRounds(base, ids, w, rounds);
    }
  }
}
