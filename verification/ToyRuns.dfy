/** The toy key generation under both drivers, for every number of parties: agreement,
    termination, and equality of the two drivers' outputs. Whole rounds are folds over the
    parties in any order a map iteration may give. */
module ToyRuns {
  import opened Outcomes
  import opened Codec
  import opened Runner
  import opened ToyDkg
  import opened Drivers

  ghost predicate Unique(xs: seq<u16>) {
    forall i, j :: 0 <= i < j < |xs| ==> xs[i] != xs[j]
  }

  /** A session of at least two parties with distinct ids. */
  ghost predicate Parties(ids: seq<u16>) {
    2 <= |ids| < 0x1_0000 && Unique(ids)
  }

  /** A list without one party. */
  function Others(xs: seq<u16>, me: u16): (os: seq<u16>)
    ensures forall x :: x in os <==> x in xs && x != me
  {
    if xs == [] then []
    else
      var n := |xs| - 1;
      Others(xs[..n], me) + if xs[n] != me then [xs[n]] else []
  }

  lemma OthersSnoc(xs: seq<u16>, x: u16, me: u16)
    ensures Others(xs + [x], me) == Others(xs, me) + if x != me then [x] else []
  {
    assert (xs + [x])[..|xs|] == xs;
  }

  lemma {:induction false} OthersUnique(xs: seq<u16>, me: u16)
    requires Unique(xs)
    ensures Unique(Others(xs, me))
    ensures |Others(xs, me)| == if me in xs then |xs| - 1 else |xs|
  {
    if xs != [] {
      var n := |xs| - 1;
      OthersUnique(xs[..n], me);
      assert xs == xs[..n] + [xs[n]];
      assert xs[n] !in xs[..n];
    }
  }

  function Secrets(xs: seq<u16>): seq<Bytes> {
    seq(|xs|, i requires 0 <= i < |xs| => Secret(xs[i]))
  }

  /** The common output. */
  function GroupKey(hash: Hash, ids: seq<u16>): Bytes {
    Combined(hash, Secrets(ids))
  }

  // ---- closed forms of a party's state --------------------------------------------------------

  function Commitments(hash: Hash, senders: seq<u16>): map<u16, Digest> {
    map id | id in senders :: hash(Secret(id))
  }

  function Openings(senders: seq<u16>): map<u16, Bytes> {
    map id | id in senders :: Secret(id)
  }

  /** What a party sends in round r. */
  function Payload(hash: Hash, r: u16, id: u16): Msg {
    if r == 1 then Commitment(hash(Secret(id))) else Reveal(Secret(id))
  }

  function Announcement(hash: Hash, r: u16, id: u16): Outgoing<Msg> {
    Outgoing(Broadcast, Payload(hash, r, id))
  }

  /** A party in round r that has sent and has heard the given senders. */
  function Progress(hash: Hash, ids: seq<u16>, r: u16, me: u16, heard: seq<u16>): Toy
    requires 2 <= |ids| < 0x1_0000
  {
    var complete := |heard| == |ids| - 1;
    if r == 1 then
      Toy(|ids|, if complete then 2 else 1, Secret(me), Commitments(hash, heard), map[],
          if complete then [Announcement(hash, 2, me)] else [], false, None)
    else
      Toy(|ids|, 2, Secret(me), Commitments(hash, Others(ids, me)), Openings(heard), [], complete,
          if complete then Some(Combined(hash, ValuesIn(Openings(heard), Openings(heard).Keys, 0x1_0000) + [Secret(me)]))
          else None)
  }

  /** A party that still has to send in round r. */
  function Ready(hash: Hash, ids: seq<u16>, r: u16, me: u16): Toy
    requires 2 <= |ids| < 0x1_0000
  {
    Progress(hash, ids, r, me, []).(outbox := [Announcement(hash, r, me)])
  }

  function Members(xs: seq<u16>): set<u16> {
    set x | x in xs
  }

  lemma {:induction false} MembersOfUnique(xs: seq<u16>)
    requires Unique(xs)
    ensures |Members(xs)| == |xs|
  {
    if xs == [] {
      assert Members(xs) == {};
    } else {
      var n := |xs| - 1;
      MembersOfUnique(xs[..n]);
      assert xs == xs[..n] + [xs[n]];
      assert xs[n] !in xs[..n];
      assert Members(xs) == Members(xs[..n]) + {xs[n]};
    }
  }

  lemma MapSizes(hash: Hash, xs: seq<u16>)
    requires Unique(xs)
    ensures |Commitments(hash, xs)| == |xs| && |Openings(xs)| == |xs|
  {
    MembersOfUnique(xs);
    assert Commitments(hash, xs).Keys == Members(xs) == Openings(xs).Keys;
  }

  lemma UniqueSnoc(xs: seq<u16>, x: u16)
    requires Unique(xs) && x !in xs
    ensures Unique(xs + [x])
  {
  }

  lemma CommitmentsSnoc(hash: Hash, heard: seq<u16>, from: u16)
    requires Unique(heard) && from !in heard
    ensures Commitments(hash, heard + [from]) == Commitments(hash, heard)[from := hash(Secret(from))]
    ensures |Commitments(hash, heard + [from])| == |heard| + 1
  {
    UniqueSnoc(heard, from);
    MapSizes(hash, heard + [from]);
  }

  lemma OpeningsSnoc(hash: Hash, heard: seq<u16>, from: u16)
    requires Unique(heard) && from !in heard
    ensures Openings(heard + [from]) == Openings(heard)[from := Secret(from)]
    ensures |Openings(heard + [from])| == |heard| + 1
  {
    UniqueSnoc(heard, from);
    MapSizes(hash, heard + [from]);
  }

  lemma CollectStep(hash: Hash, ids: seq<u16>, me: u16, heard: seq<u16>, from: u16)
    requires 2 <= |ids| < 0x1_0000
    requires Unique(heard) && from !in heard && |heard| < |ids| - 1
    ensures Committed(Progress(hash, ids, 1, me, heard), from, hash(Secret(from)))
            == Progress(hash, ids, 1, me, heard + [from])
  {
    CommitmentsSnoc(hash, heard, from);
    assert OthersCount(|ids|) == |ids| - 1;
  }

  lemma OpenStep(hash: Hash, ids: seq<u16>, me: u16, heard: seq<u16>, from: u16)
    requires 2 <= |ids| < 0x1_0000
    requires Unique(heard) && from !in heard && |heard| < |ids| - 1 && from in Others(ids, me)
    ensures Revealed(hash, Progress(hash, ids, 2, me, heard), from, Secret(from))
            == Progress(hash, ids, 2, me, heard + [from])
  {
    OpeningsSnoc(hash, heard, from);
    assert OthersCount(|ids|) == |ids| - 1;
    assert Commitments(hash, Others(ids, me))[from] == hash(Secret(from));
  }

  /** Hearing one more sender. */
  lemma ProgressStep(hash: Hash, ids: seq<u16>, r: u16, me: u16, heard: seq<u16>, from: u16)
    requires 2 <= |ids| < 0x1_0000 && (r == 1 || r == 2)
    requires Unique(heard) && from !in heard && |heard| < |ids| - 1 && from in Others(ids, me)
    ensures HandledToy(hash, Progress(hash, ids, r, me, heard), from, Payload(hash, r, from))
            == Progress(hash, ids, r, me, heard + [from])
    ensures Progress(hash, ids, r, me, heard).round == r
  {
    if r == 1 {
      CollectStep(hash, ids, me, heard, from);
    } else {
      OpenStep(hash, ids, me, heard, from);
    }
  }

  // ---- the common output ---------------------------------------------------------------------------

  lemma {:induction false} ValuesAgree(m: map<u16, Bytes>, m': map<u16, Bytes>, s: set<u16>, bound: nat)
    requires s <= m.Keys && s <= m'.Keys && bound <= 0x1_0000
    requires forall k :: k in s ==> m[k] == m'[k]
    ensures ValuesIn(m, s, bound) == ValuesIn(m', s, bound)
  {
    if bound > 0 {
      ValuesAgree(m, m', s, bound - 1);
    }
  }

  lemma SecretsSnoc(xs: seq<u16>, x: u16)
    ensures Secrets(xs + [x]) == Secrets(xs) + [Secret(x)]
    ensures multiset(Secrets(xs + [x])) == multiset(Secrets(xs)) + multiset{Secret(x)}
  {
    assert Secrets(xs + [x]) == Secrets(xs) + [Secret(x)];
  }

  lemma {:induction false} OpeningsContents(xs: seq<u16>)
    requires Unique(xs)
    ensures multiset(ValuesIn(Openings(xs), Openings(xs).Keys, 0x1_0000)) == multiset(Secrets(xs))
  {
    var m := Openings(xs);
    if xs == [] {
      assert m.Keys == {};
      ValuesOfNothing(m, 0x1_0000);
    } else {
      var n := |xs| - 1;
      var x := xs[n];
      assert xs == xs[..n] + [x];
      OpeningsContents(xs[..n]);
      SecretsSnoc(xs[..n], x);
      ValuesWithout(m, m.Keys, x, 0x1_0000);
      assert m.Keys - {x} == Openings(xs[..n]).Keys;
      ValuesAgree(m, Openings(xs[..n]), m.Keys - {x}, 0x1_0000);
    }
  }

  lemma {:induction false} OthersContents(xs: seq<u16>, me: u16)
    requires Unique(xs)
    ensures multiset(Secrets(xs))
            == multiset(Secrets(Others(xs, me))) + if me in xs then multiset{Secret(me)} else multiset{}
  {
    if xs != [] {
      var n := |xs| - 1;
      var x := xs[n];
      assert xs == xs[..n] + [x];
      OthersContents(xs[..n], me);
      OthersSnoc(xs[..n], x, me);
      SecretsSnoc(xs[..n], x);
      SecretsSnoc(Others(xs[..n], me), x);
      assert Others(xs[..n], me) + [] == Others(xs[..n], me);
    }
  }

  /** A party that has heard all others is done, and holds the common output. */
  lemma AllHeard(hash: Hash, ids: seq<u16>, me: u16)
    requires Parties(ids) && me in ids
    ensures var t := Progress(hash, ids, 2, me, Others(ids, me));
            t.done && t.result == Some(GroupKey(hash, ids)) && t.outbox == []
    ensures Progress(hash, ids, 1, me, Others(ids, me)) == Ready(hash, ids, 2, me)
  {
    var os := Others(ids, me);
    OthersUnique(ids, me);
    OpeningsContents(os);
    OthersContents(ids, me);
    var values := ValuesIn(Openings(os), Openings(os).Keys, 0x1_0000);
    assert multiset(values + [Secret(me)]) == multiset(values) + multiset{Secret(me)};
    SortedForgetsOrder(values + [Secret(me)], Secrets(ids));
    assert Openings([]) == map[];
  }

  /** How many of the first k parties a party has heard. */
  lemma HeardSoFar(ids: seq<u16>, j: nat, k: nat)
    requires Parties(ids) && j < |ids| && k < |ids|
    ensures var heard := Others(ids[..k], ids[j]);
            && Unique(heard) && ids[k] !in heard
            && Others(ids[..k + 1], ids[j]) == heard + (if j != k then [ids[k]] else [])
            && (j != k ==> |heard| < |ids| - 1 && ids[k] in Others(ids, ids[j]))
  {
    OthersUnique(ids[..k], ids[j]);
    assert ids[..k + 1] == ids[..k] + [ids[k]];
    OthersSnoc(ids[..k], ids[k], ids[j]);
    if j < k {
      assert ids[..k][j] == ids[j];
    }
  }

  // ---- the orchestrator --------------------------------------------------------------------------

  lemma {:induction false} DrainedAnnouncements(hash: Hash, ids: seq<u16>, ss: seq<Toy>)
    requires |ids| == |ss| && forall i :: 0 <= i < |ss| ==> |ss[i].outbox| == 1
    ensures var (after, pending) := Drained(ToyMachine(hash), ids, ss);
            && |after| == |pending| == |ss|
            && forall i :: 0 <= i < |ss| ==> after[i] == ss[i].(outbox := []) && pending[i] == (ids[i], ss[i].outbox[0])
  {
    if ss != [] {
      var n := |ss| - 1;
      DrainedAnnouncements(hash, ids[..n], ss[..n]);
      assert Tagged(ids[n], ss[n].outbox) == [(ids[n], ss[n].outbox[0])];
    }
  }

  lemma BroadcastEffect(hash: Hash, ids: seq<u16>, ss: seq<Toy>, from: u16, msg: Msg)
    requires |ids| == |ss| > 0
    ensures var h := BroadcastTo(ToyMachine(hash), ids, ss, from, msg, |ss|);
            && h.ok
            && forall j :: 0 <= j < |ss| ==>
                 h.state[j] == if ids[j] != from then HandledToy(hash, ss[j], from, msg) else ss[j]
  {
    var m := ToyMachine(hash);
    forall j | 0 <= j < |ss|
      ensures var h := BroadcastTo(m, ids, ss, from, msg, |ss|);
              h.ok && h.state[j] == if ids[j] != from then HandledToy(hash, ss[j], from, msg) else ss[j]
    {
      BroadcastAt(m, ids, ss, from, msg, |ss|, j);
    }
    BroadcastAt(m, ids, ss, from, msg, |ss|, 0);
  }

  /** All parties after hearing the first k. */
  function Heard(hash: Hash, ids: seq<u16>, r: u16, k: nat): seq<Toy>
    requires 2 <= |ids| < 0x1_0000 && k <= |ids|
  {
    seq(|ids|, j requires 0 <= j < |ids| => Progress(hash, ids, r, ids[j], Others(ids[..k], ids[j])))
  }

  function AllReady(hash: Hash, ids: seq<u16>, r: u16): seq<Toy>
    requires 2 <= |ids| < 0x1_0000
  {
    seq(|ids|, j requires 0 <= j < |ids| => Ready(hash, ids, r, ids[j]))
  }

  lemma HeardOne(hash: Hash, ids: seq<u16>, r: u16, k: nat, j: nat)
    requires Parties(ids) && (r == 1 || r == 2) && k < |ids| && j < |ids|
    ensures Progress(hash, ids, r, ids[j], Others(ids[..k + 1], ids[j]))
            == var before := Progress(hash, ids, r, ids[j], Others(ids[..k], ids[j]));
               if ids[j] != ids[k] then HandledToy(hash, before, ids[k], Payload(hash, r, ids[k])) else before
  {
    HeardSoFar(ids, j, k);
    var heard := Others(ids[..k], ids[j]);
    assert heard + [] == heard;
    if j != k {
      ProgressStep(hash, ids, r, ids[j], heard, ids[k]);
    }
  }

  lemma HeardStep(hash: Hash, ids: seq<u16>, r: u16, k: nat)
    requires Parties(ids) && (r == 1 || r == 2) && k < |ids|
    ensures RoutedOne(ToyMachine(hash), ids, Heard(hash, ids, r, k), ids[k], Announcement(hash, r, ids[k]))
            == Handled(Heard(hash, ids, r, k + 1), true)
  {
    var ss, now := Heard(hash, ids, r, k), Heard(hash, ids, r, k + 1);
    var msg := Payload(hash, r, ids[k]);
    BroadcastEffect(hash, ids, ss, ids[k], msg);
    var h := BroadcastTo(ToyMachine(hash), ids, ss, ids[k], msg, |ids|);
    forall j | 0 <= j < |ids|
      ensures h.state[j] == now[j]
    {
      HeardOne(hash, ids, r, k, j);
    }
    assert h.state == now;
  }

  lemma {:induction false} RoutedAnnouncements(hash: Hash, ids: seq<u16>, r: u16, pending: Pending<Msg>, k: nat)
    requires Parties(ids) && (r == 1 || r == 2) && k <= |ids| == |pending|
    requires forall i :: 0 <= i < |ids| ==> pending[i] == (ids[i], Announcement(hash, r, ids[i]))
    ensures RoutedAll(ToyMachine(hash), ids, Heard(hash, ids, r, 0), pending, k) == Handled(Heard(hash, ids, r, k), true)
  {
    if k > 0 {
      RoutedAnnouncements(hash, ids, r, pending, k - 1);
      HeardStep(hash, ids, r, k - 1);
    }
  }

  /** One orchestrated round: everyone hears everyone. */
  lemma OrchestratedRound(hash: Hash, ids: seq<u16>, r: u16)
    requires Parties(ids) && (r == 1 || r == 2)
    ensures OrchestratorRound(ToyMachine(hash), ids, AllReady(hash, ids, r)) == Handled(Heard(hash, ids, r, |ids|), true)
  {
    var ss := AllReady(hash, ids, r);
    DrainedAnnouncements(hash, ids, ss);
    var (drained, pending) := Drained(ToyMachine(hash), ids, ss);
    assert ids[..0] == [];
    assert drained == Heard(hash, ids, r, 0);
    RoutedAnnouncements(hash, ids, r, pending, |ids|);
  }

  /** The machines a session starts from. */
  function Machines(hash: Hash, ids: seq<u16>): seq<Toy>
    requires |ids| < 0x1_0000
  {
    seq(|ids|, i requires 0 <= i < |ids| => Started(hash, ids[i], |ids|))
  }

  lemma RoundsConnect(hash: Hash, ids: seq<u16>)
    requires Parties(ids)
    ensures Machines(hash, ids) == AllReady(hash, ids, 1)
    ensures Heard(hash, ids, 1, |ids|) == AllReady(hash, ids, 2)
    ensures AllDone(ToyMachine(hash), Heard(hash, ids, 2, |ids|))
    ensures Finished(ToyMachine(hash), Heard(hash, ids, 2, |ids|)) == seq(|ids|, _ => Some(GroupKey(hash, ids)))
  {
    assert ids[..|ids|] == ids;
    assert Commitments(hash, []) == map[];
    forall j | 0 <= j < |ids|
      ensures Heard(hash, ids, 1, |ids|)[j] == Ready(hash, ids, 2, ids[j])
      ensures Heard(hash, ids, 2, |ids|)[j].done && Heard(hash, ids, 2, |ids|)[j].result == Some(GroupKey(hash, ids))
    {
      AllHeard(hash, ids, ids[j]);
    }
  }

  lemma RunUnfolds<S, M, O>(m: Machine<S, M, O>, ids: seq<u16>, ss: seq<S>, next: seq<S>, rounds: nat)
    requires |ids| == |ss| && !AllDone(m, ss) && OrchestratorRound(m, ids, ss) == Handled(next, true)
    ensures OrchestratorRun(m, ids, ss, rounds) == if rounds == 0 then Handled(ss, true) else OrchestratorRun(m, ids, next, rounds - 1)
  {
  }

  lemma NoneFinished(hash: Hash, ids: seq<u16>, r: u16)
    requires Parties(ids)
    ensures !AllDone(ToyMachine(hash), AllReady(hash, ids, r))
    ensures r == 1 || r == 2 ==> Finished(ToyMachine(hash), AllReady(hash, ids, r)) == seq(|ids|, _ => None)
  {
    assert !AllReady(hash, ids, r)[0].done;
  }

  /** Agreement and termination under the orchestrator: with two rounds allowed every party
      finishes with the same output; with fewer, none finishes. */
  lemma OrchestratorAgrees(hash: Hash, ids: seq<u16>, rounds: nat)
    requires Parties(ids)
    ensures OrchestratorOutputs(ToyMachine(hash), ids, Machines(hash, ids), rounds)
            == Some(seq(|ids|, _ => if rounds >= 2 then Some(GroupKey(hash, ids)) else None))
  {
    var m := ToyMachine(hash);
    var s1, s2, s3 := AllReady(hash, ids, 1), AllReady(hash, ids, 2), Heard(hash, ids, 2, |ids|);
    RoundsConnect(hash, ids);
    OrchestratedRound(hash, ids, 1);
    OrchestratedRound(hash, ids, 2);
    NoneFinished(hash, ids, 1);
    NoneFinished(hash, ids, 2);
    RunUnfolds(m, ids, s1, s2, rounds);
    if rounds >= 1 {
      RunUnfolds(m, ids, s2, s3, rounds - 1);
    }
    if rounds >= 2 {
      assert OrchestratorRun(m, ids, s3, rounds - 2) == Handled(s3, true);
    }
  }

  /** A session of one party hears nothing and never finishes, whatever the limit. */
  lemma {:induction false} LonePartyNeverFinishes(hash: Hash, id: u16, t: Toy, rounds: nat)
    requires !t.done && t.result == None && |t.outbox| <= 1 && forall o :: o in t.outbox ==> o.to == Broadcast
    ensures OrchestratorOutputs(ToyMachine(hash), [id], [t], rounds) == Some([None])
    decreases rounds
  {
    var m := ToyMachine(hash);
    if rounds == 0 {
      assert Finished(m, [t]) == [None];
    } else {
      var after := t.(outbox := []);
      LoneRound(hash, id, t);
      LonePartyNeverFinishes(hash, id, after, rounds - 1);
      assert !m.isDone([t][0]);
      assert OrchestratorRun(m, [id], [t], rounds) == OrchestratorRun(m, [id], [after], rounds - 1);
    }
  }

  lemma LoneRound(hash: Hash, id: u16, t: Toy)
    requires |t.outbox| <= 1 && forall o :: o in t.outbox ==> o.to == Broadcast
    ensures OrchestratorRound(ToyMachine(hash), [id], [t]) == Handled([t.(outbox := [])], true)
  {
    var m, after := ToyMachine(hash), t.(outbox := []);
    assert Drained(m, [id][..0], [t][..0]) == ([], []);
    var pending := Tagged(id, t.outbox);
    assert [] + [after] == [after] && [] + pending == pending;
    assert [t][0] == t && [id][0] == id;
    assert Drained(m, [id], [t]) == ([after], pending);
    if |t.outbox| == 1 {
      var o := t.outbox[0];
      assert o in t.outbox && pending == [(id, o)];
      assert BroadcastTo(m, [id], [after], id, o.msg, 0) == Handled([after], true);
      assert BroadcastTo(m, [id], [after], id, o.msg, 1) == Handled([after], true);
      assert RoutedAll(m, [id], [after], pending, 0) == Handled([after], true);
    }
  }
}
