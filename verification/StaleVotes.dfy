/** Why votes of an earlier election must not be counted between the reset of the vote counter and
    the request for votes: a run from a quiet cluster that elects two masters in one epoch. */
module StaleVotes {
  import opened SlotTable
  import opened ClusterBus
  import opened Election

  /** Masters 1 to 5; 6 and 7 are slaves of the failed master 1, in whose place the node last voted
      at `voted`. */
  function Cast(voted: int): map<Node, Peer> {
    map[1 := Peer(true, None, true, voted), 2 := Peer(true, None, false, 0), 3 := Peer(true, None, false, 0),
        4 := Peer(true, None, false, 0), 5 := Peer(true, None, false, 0),
        6 := Peer(false, Some(1), false, 0), 7 := Peer(false, Some(1), false, 0)]
  }

  const ZERO: map<Node, nat> := map[1 := 0, 2 := 0, 3 := 0, 4 := 0, 5 := 0, 6 := 0, 7 := 0]

  /** Each master owns one slot. */
  ghost predicate Shared(t: Table) {
    Agree(t) && t.bitmaps.Keys == {1, 2, 3, 4, 5, 6, 7} && t.slots == [Some(1), Some(2), Some(3), Some(4), Some(5)]
  }

  /** What changes in the run: the current epoch, the last vote and its time, and the campaign. */
  datatype Campaign = Campaign(current: nat, vote: nat, votedAt: int, auth: nat, count: nat, asked: bool)

  const QUIET := Campaign(7, 0, 0, 0, 0, false)

  function Seen(t: Table, me: Node, l: Campaign): View {
    View(me, Cast(l.votedAt), ZERO, t, NoBits(5), l.current, l.vote, l.auth, l.count, l.asked, 5)
  }

  /** The voters: all masters, in every epoch. */
  function Masters(epoch: nat): set<Node> {
    {1, 2, 3, 4, 5}
  }

  function Request(t: Table, from: Node, epoch: nat): Message
    requires 1 in t.bitmaps
  {
    AuthRequest(Header(from, epoch, 0, t.bitmaps[1], Some(1)), false)
  }

  function Vote(t: Table, from: Node, to: Node, epoch: nat): Message
    requires from in t.bitmaps
  {
    AuthAck(Header(from, epoch, 0, t.bitmaps[from], None), to)
  }

  const GO := Clock(false, false, false, false, false, false)
  const RETRY := Clock(false, false, false, true, false, false)
  const TIMEOUTS := 2

  // ---------------------------------------------------------------------------
  // The cluster
  // ---------------------------------------------------------------------------

  lemma NoSlots() returns (t: Table)
    ensures Agree(t) && t.bitmaps.Keys == {} && t.slots == [None, None, None, None, None]
  {
    t := Table([None, None, None, None, None], map[], map[]);
    assert forall j :: 0 <= j < 5 ==> OwnerKnown(t, j);
  }

  lemma SevenNodes() returns (t: Table)
    ensures Agree(t) && t.bitmaps.Keys == {1, 2, 3, 4, 5, 6, 7} && t.slots == [None, None, None, None, None]
  {
    hide Agree, AddNode;
    t := NoSlots();
    t := AddNode(AddNode(AddNode(AddNode(AddNode(AddNode(AddNode(t, 1), 2), 3), 4), 5), 6), 7);
  }

  /** The first k masters have their slots. */
  lemma {:induction false} FirstSlots(k: nat) returns (t: Table)
    requires k <= 5
    ensures Agree(t) && t.bitmaps.Keys == {1, 2, 3, 4, 5, 6, 7} && |t.slots| == 5
    ensures forall j :: 0 <= j < 5 ==> t.slots[j] == if j < k then Some(j + 1) else None
  {
    hide Agree, AddSlot;
    if k == 0 {
      t := SevenNodes();
    } else {
      t := FirstSlots(k - 1);
      AddSlotKeeps(t, k, k - 1);
      t := AddSlot(t, k, k - 1);
    }
  }

  lemma FiveSlots() returns (t: Table)
    ensures Shared(t)
  {
    hide Agree;
    t := FirstSlots(5);
  }

  lemma SharedFacts(t: Table)
    requires Shared(t)
    ensures Agree(t) && t.numslots.Keys == t.bitmaps.Keys == ZERO.Keys && |t.slots| == 5
    ensures forall n :: n in t.bitmaps ==> |t.bitmaps[n]| == 5
    ensures forall n :: n in {1, 2, 3, 4, 5} ==> t.numslots[n] > 0
  {
    hide Agree;
    AgreeKeys(t);
    forall n | n in t.bitmaps
      ensures |t.bitmaps[n]| == 5
    {
      BitmapLength(t, n);
    }
    forall n | n in {1, 2, 3, 4, 5}
      ensures t.numslots[n] > 0
    {
      NumslotsZero(t, n);
      assert t.slots[n - 1] == Some(n);
    }
  }

  lemma AgreeKeys(t: Table)
    requires Agree(t)
    ensures t.numslots.Keys == t.bitmaps.Keys
  {
  }

  lemma BitmapLength(t: Table, n: Node)
    requires Agree(t) && n in t.bitmaps
    ensures |t.bitmaps[n]| == |t.slots|
  {
    assert NodeAgrees(t, n);
  }

  lemma SeenFormed(t: Table, me: Node, l: Campaign)
    requires Shared(t) && me in ZERO
    ensures Formed(Seen(t, me, l))
  {
    hide Agree;
    SharedFacts(t);
    var v := Seen(t, me, l);
    assert forall n :: n in v.peers ==> MasterKnown(v, n);
  }

  // ---------------------------------------------------------------------------
  // What the handlers do to such views
  // ---------------------------------------------------------------------------

  lemma Learns(t: Table, me: Node, l: Campaign, h: Header)
    requires Shared(t) && me in ZERO && h.sender in ZERO && h.configEpoch == 0
    ensures Formed(Seen(t, me, l))
    ensures Learn(Seen(t, me, l), h) == Seen(t, me, l.(current := Max(l.current, h.currentEpoch)))
  {
    hide Formed;
    SeenFormed(t, me, l);
    assert ZERO[h.sender := 0] == ZERO;
  }

  lemma FitsSeen(t: Table, me: Node, l: Campaign, m: Message)
    requires Shared(t) && me in ZERO && m.hdr.sender in ZERO && m.hdr.sender != me && !m.Update? && |m.hdr.slots| == 5
    ensures Fits(Seen(t, me, l), m)
  {
  }

  /** A slave of the failed master asks for votes in the next epoch. */
  lemma Asks(t: Table, n: Node, l: Campaign)
    requires Shared(t) && n in {6, 7} && !l.asked
    ensures Formed(Seen(t, n, l))
    ensures OnFailover(Seen(t, n, l), GO)
         == Outcome(Seen(t, n, l.(current := l.current + 1, auth := l.current + 1, asked := true)),
                    {Request(t, n, l.current + 1)}, false)
  {
    hide Formed;
    SharedFacts(t);
    SeenFormed(t, n, l);
    SeenFormed(t, n, l.(current := l.current + 1, auth := l.current + 1, asked := true));
  }

  /** It starts over: the counter is cleared. */
  lemma StartsOver(t: Table, n: Node, l: Campaign)
    requires Shared(t) && n in {6, 7}
    ensures Formed(Seen(t, n, l))
    ensures OnFailover(Seen(t, n, l), RETRY).view == Seen(t, n, l.(count := 0, asked := false))
    ensures !OnFailover(Seen(t, n, l), RETRY).won
  {
    hide Formed;
    SharedFacts(t);
    SeenFormed(t, n, l);
  }

  /** It has three votes and wins. */
  lemma Wins3(t: Table, n: Node, l: Campaign)
    requires Shared(t) && n in {6, 7} && l.asked && l.count >= 3
    ensures Formed(Seen(t, n, l)) && OnFailover(Seen(t, n, l), GO).won
  {
    hide Formed, ReplaceMaster;
    SharedFacts(t);
    SeenFormed(t, n, l);
  }

  /** A master that has not voted in the epoch, nor for two timeouts, votes. */
  lemma Votes(t: Table, n: Node, l: Campaign, from: Node, epoch: nat, now: int)
    requires Shared(t) && n in {2, 3, 4, 5} && from in {6, 7}
    requires l.current <= epoch && l.vote != epoch && now - l.votedAt >= TIMEOUTS
    ensures var v, m := Seen(t, n, l), Request(t, from, epoch);
      && Formed(v) && Fits(v, m)
      && OnAuthRequest(v, m, now, TIMEOUTS)
         == (Seen(t, n, l.(current := epoch, vote := epoch, votedAt := now)), {Vote(t, n, from, epoch)})
  {
    hide Formed, Agree, Seen, Superseded;
    SharedFacts(t);
    FitsSeen(t, n, l, Request(t, from, epoch));
    Learns(t, n, l, Request(t, from, epoch).hdr);
    Granted(t, n, l.(current := epoch), from, epoch, now);
  }

  /** Such a master, once it has learned the epoch, meets every condition. */
  lemma Granted(t: Table, n: Node, l: Campaign, from: Node, epoch: nat, now: int)
    requires Shared(t) && n in {2, 3, 4, 5} && from in {6, 7}
    requires l.current == epoch && l.vote != epoch && now - l.votedAt >= TIMEOUTS
    ensures var v, m := Seen(t, n, l), Request(t, from, epoch);
      && Formed(v) && Fits(v, m) && MayVote(v, m, now, TIMEOUTS) && BuildHeader(v) == Vote(t, n, from, epoch).hdr
      && v.peers[from].slaveOf == Some(1)
      && v.(peers := v.peers[1 := v.peers[1].(votedTime := now)], lastVoteEpoch := epoch)
         == Seen(t, n, l.(vote := epoch, votedAt := now))
  {
    hide Formed, Agree;
    SharedFacts(t);
    SeenFormed(t, n, l);
    FitsSeen(t, n, l, Request(t, from, epoch));
    NotSuperseded(t, n, l, Request(t, from, epoch).hdr);
    assert Cast(l.votedAt)[1 := Cast(l.votedAt)[1].(votedTime := now)] == Cast(now);
  }

  lemma NotSuperseded(t: Table, n: Node, l: Campaign, h: Header)
    requires Shared(t) && n in ZERO && |h.slots| == 5
    ensures Formed(Seen(t, n, l)) && !Superseded(Seen(t, n, l), h)
  {
    hide Formed;
    SeenFormed(t, n, l);
  }

  /** A slave that overhears a request takes over its epoch. */
  lemma Overhears(t: Table, n: Node, l: Campaign, from: Node, epoch: nat)
    requires Shared(t) && n in {6, 7} && from in {6, 7} && n != from
    ensures var v, m := Seen(t, n, l), Request(t, from, epoch);
      && Formed(v) && Fits(v, m) && OnAuthRequest(v, m, 0, TIMEOUTS) ==
          (Seen(t, n, l.(current := Max(l.current, epoch))), {})
  {
    hide Formed, Agree;
    SharedFacts(t);
    FitsSeen(t, n, l, Request(t, from, epoch));
    Learns(t, n, l, Request(t, from, epoch).hdr);
  }

  /** A vote of an epoch that is not older than its own is counted. */
  lemma CountsVote(t: Table, n: Node, l: Campaign, from: Node, epoch: nat)
    requires Shared(t) && n in {6, 7} && from in {2, 3, 4, 5} && epoch >= l.auth
    ensures var v, m := Seen(t, n, l), Vote(t, from, n, epoch);
      && Formed(v) && Fits(v, m)
      && OnAuthAck(v, m) == Seen(t, n, l.(current := Max(l.current, epoch), count := l.count + 1))
  {
    hide Formed, Agree;
    SharedFacts(t);
    FitsSeen(t, n, l, Vote(t, from, n, epoch));
    Learns(t, n, l, Vote(t, from, n, epoch).hdr);
  }

  // ---------------------------------------------------------------------------
  // Steps and runs
  // ---------------------------------------------------------------------------

  /** A run that keeps to the electorate. */
  ghost predicate Runs(s: System, steps: seq<Step>, t: System) {
    SystemFormed(s) && SystemFormed(t) && Reaches(s, steps, t) && ElectorateRun(s, steps, Masters)
  }

  lemma One(s: System, step: Step)
    requires SystemFormed(s) && Enabled(s, step) && ByElectorate(s, step, Masters)
    ensures Runs(s, [step], Next(s, step))
  {
    assert [step][1..] == [];
  }

  lemma {:induction false} Then(s: System, a: seq<Step>, t: System, b: seq<Step>, u: System)
    requires Runs(s, a, t) && Runs(t, b, u)
    ensures Runs(s, a + b, u)
    decreases |a|
  {
    hide Next, Enabled, ByElectorate;
    if |a| == 0 {
      assert a + b == b;
    } else {
      assert (a + b)[1..] == a[1..] + b;
      Then(Next(s, a[0]), a[1..], t, b, u);
    }
  }

  lemma FiveMasters()
    ensures forall e :: |Masters(e)| == 5
  {
    assert {1, 2, 3, 4, 5} == {1, 2, 3, 4} + {5} && |{1, 2, 3, 4}| == 4;
  }

  /** Node n is in the state l. */
  ghost predicate At(s: System, table: Table, n: Node, l: Campaign) {
    n in s.views && s.views[n] == Seen(table, n, l)
  }

  /** The system after n moved to l; messages only get more, votes are counted once. */
  ghost predicate Moved(s: System, r: System, table: Table, n: Node, l: Campaign) {
    r.views == s.views[n := Seen(table, n, l)] && s.sent <= r.sent && s.wins <= r.wins
  }

  lemma Ask(s: System, table: Table, n: Node, l: Campaign) returns (r: System, steps: seq<Step>)
    requires Shared(table) && SystemFormed(s) && n in {6, 7} && At(s, table, n, l) && !l.asked
    ensures Runs(s, steps, r) && Moved(s, r, table, n, l.(current := l.current + 1, auth := l.current + 1,
        asked := true))
    ensures Request(table, n, l.current + 1) in r.sent && r.counted == s.counted
  {
    hide SystemFormed, Formed, OnFailover, Seen, Reaches, Runs;
    Asks(table, n, l);
    One(s, FailoverCron(n, GO));
    r, steps := Next(s, FailoverCron(n, GO)), [FailoverCron(n, GO)];
  }

  lemma StartOver(s: System, table: Table, n: Node, l: Campaign) returns (r: System, steps: seq<Step>)
    requires Shared(table) && SystemFormed(s) && n in {6, 7} && At(s, table, n, l)
    ensures Runs(s, steps, r) && Moved(s, r, table, n, l.(count := 0, asked := false)) && r.counted == s.counted
  {
    hide SystemFormed, Formed, OnFailover, Seen, Reaches, Runs;
    StartsOver(table, n, l);
    One(s, FailoverCron(n, RETRY));
    r, steps := Next(s, FailoverCron(n, RETRY)), [FailoverCron(n, RETRY)];
  }

  lemma Win(s: System, table: Table, n: Node, l: Campaign) returns (r: System, steps: seq<Step>)
    requires Shared(table) && SystemFormed(s) && n in {6, 7} && At(s, table, n, l) && l.asked && l.count >= 3
    ensures Runs(s, steps, r) && (n, l.auth) in r.wins && s.wins <= r.wins && s.sent <= r.sent && r.counted == s.counted
    ensures n in r.views && r.views == s.views[n := r.views[n]]
  {
    hide SystemFormed, Formed, OnFailover, Reaches, Runs, Masters;
    Wins3(table, n, l);
    FiveMasters();
    One(s, FailoverCron(n, GO));
    r, steps := Next(s, FailoverCron(n, GO)), [FailoverCron(n, GO)];
  }

  lemma CastVote(s: System, table: Table, n: Node, l: Campaign, from: Node, epoch: nat, now: int)
      returns (r: System, steps: seq<Step>)
    requires Shared(table) && SystemFormed(s) && n in {2, 3, 4, 5} && from in {6, 7} && At(s, table, n, l)
    requires l.current <= epoch && l.vote != epoch && now - l.votedAt >= TIMEOUTS &&
        Request(table, from, epoch) in s.sent
    ensures Runs(s, steps, r) && Moved(s, r, table, n, l.(current := epoch, vote := epoch, votedAt := now))
    ensures Vote(table, n, from, epoch) in r.sent && r.counted == s.counted
  {
    hide SystemFormed, Formed, OnAuthRequest, Seen, Reaches, Runs;
    Votes(table, n, l, from, epoch, now);
    var step := Deliver(n, Request(table, from, epoch), now, TIMEOUTS);
    One(s, step);
    r, steps := Next(s, step), [step];
  }

  lemma Overhear(s: System, table: Table, n: Node, l: Campaign, from: Node, epoch: nat)
      returns (r: System, steps: seq<Step>)
    requires Shared(table) && SystemFormed(s) && n in {6, 7} && from in {6, 7} && n != from && At(s, table, n, l)
    requires Request(table, from, epoch) in s.sent
    ensures Runs(s, steps, r) && Moved(s, r, table, n, l.(current := Max(l.current, epoch))) && r.counted == s.counted
  {
    hide SystemFormed, Formed, OnAuthRequest, Seen, Reaches, Runs;
    Overhears(table, n, l, from, epoch);
    var step := Deliver(n, Request(table, from, epoch), 0, TIMEOUTS);
    One(s, step);
    r, steps := Next(s, step), [step];
  }

  lemma CountVote(s: System, table: Table, n: Node, l: Campaign, from: Node, epoch: nat)
      returns (r: System, steps: seq<Step>)
    requires Shared(table) && SystemFormed(s) && n in {6, 7} && from in {2, 3, 4, 5} && At(s, table, n, l) &&
        epoch >= l.auth
    requires Vote(table, from, n, epoch) in s.sent && Vote(table, from, n, epoch) !in s.counted
    ensures Runs(s, steps, r) && Moved(s, r, table, n, l.(current := Max(l.current, epoch), count := l.count + 1))
    ensures r.counted == s.counted + {Vote(table, from, n, epoch)}
  {
    hide SystemFormed, Formed, OnAuthAck, Seen, Reaches, Runs;
    CountsVote(table, n, l, from, epoch);
    var step := Deliver(n, Vote(table, from, n, epoch), 0, TIMEOUTS);
    One(s, step);
    r, steps := Next(s, step), [step];
  }

  // ---------------------------------------------------------------------------
  // The run
  // ---------------------------------------------------------------------------

  /** The voters 2 and 3 after their votes in epoch 8, at time 10. */
  const VOTED := Campaign(8, 8, 10, 0, 0, false)

  /** In epoch 8 slave 6 asks for votes and gives up; the votes of 2 and 3 are still under way. */
  lemma FirstElection(s: System, t: Table) returns (r: System, steps: seq<Step>)
    requires Shared(t) && SystemFormed(s) && s.counted == {} && forall n :: n in {2, 3, 4, 5, 6, 7} ==>
        At(s, t, n, QUIET)
    ensures Runs(s, steps, r) && r.counted == {}
    ensures At(r, t, 2, VOTED) && At(r, t, 3, VOTED) && At(r, t, 4, QUIET) && At(r, t, 5, QUIET)
    ensures At(r, t, 6, Campaign(8, 0, 0, 8, 0, false)) && At(r, t, 7, Campaign(8, 0, 0, 0, 0, false))
    ensures Vote(t, 2, 6, 8) in r.sent && Vote(t, 3, 6, 8) in r.sent
  {
    hide Runs, SystemFormed, Seen, Request, Vote, Shared;
    SharedKeys(t);
    assert At(s, t, 2, QUIET) && At(s, t, 3, QUIET) && At(s, t, 4, QUIET) && At(s, t, 5, QUIET) && At(s, t, 7, QUIET);
    var s1, a := Ask(s, t, 6, QUIET);
    RunsForm(s, a, s1);
    var s2, b := Overhear(s1, t, 7, QUIET, 6, 8);
    Then(s, a, s1, b, s2);
    RunsForm(s1, b, s2);
    var s3, c := CastVote(s2, t, 2, QUIET, 6, 8, 10);
    Then(s, a + b, s2, c, s3);
    RunsForm(s2, c, s3);
    var s4, d := CastVote(s3, t, 3, QUIET, 6, 8, 10);
    Then(s, a + b + c, s3, d, s4);
    RunsForm(s3, d, s4);
    var e;
    r, e := StartOver(s4, t, 6, Campaign(8, 0, 0, 8, 0, true));
    Then(s, a + b + c + d, s4, e, r);
    steps := a + b + c + d + e;
  }

  /** The votes of epoch 8 arrive before 6 asks again; with the vote of 2 it wins epoch 9. */
  lemma StaleVictory(s: System, t: Table) returns (r: System, steps: seq<Step>)
    requires Shared(t) && SystemFormed(s) && s.counted == {}
    requires At(s, t, 2, VOTED) && At(s, t, 6, Campaign(8, 0, 0, 8, 0, false))
    requires Vote(t, 2, 6, 8) in s.sent && Vote(t, 3, 6, 8) in s.sent
    ensures Runs(s, steps, r) && (6, 9) in r.wins
    ensures 2 in r.views && 6 in r.views && r.views == s.views[2 := r.views[2]][6 := r.views[6]]
    ensures r.counted == {Vote(t, 2, 6, 8), Vote(t, 3, 6, 8), Vote(t, 2, 6, 9)}
  {
    hide Runs, SystemFormed, Seen, Request, Vote, Shared;
    SharedKeys(t);
    DistinctVotes(t);
    var s1, a := CountVote(s, t, 6, Campaign(8, 0, 0, 8, 0, false), 2, 8);
    RunsForm(s, a, s1);
    var s2, b := CountVote(s1, t, 6, Campaign(8, 0, 0, 8, 1, false), 3, 8);
    Then(s, a, s1, b, s2);
    RunsForm(s1, b, s2);
    var s3, c := Ask(s2, t, 6, Campaign(8, 0, 0, 8, 2, false));
    Then(s, a + b, s2, c, s3);
    RunsForm(s2, c, s3);
    var s4, d := CastVote(s3, t, 2, VOTED, 6, 9, 20);
    Then(s, a + b + c, s3, d, s4);
    RunsForm(s3, d, s4);
    var s5, e := CountVote(s4, t, 6, Campaign(9, 0, 0, 9, 2, true), 2, 9);
    Then(s, a + b + c + d, s4, e, s5);
    RunsForm(s4, e, s5);
    var f;
    r, f := Win(s5, t, 6, Campaign(9, 0, 0, 9, 3, true));
    Then(s, a + b + c + d + e, s5, f, r);
    steps := a + b + c + d + e + f;
  }

  /** Slave 7 asks for votes in epoch 9, which 3, 4 and 5 have not voted in. */
  lemma AskAndVote(s: System, t: Table) returns (r: System, steps: seq<Step>)
    requires Shared(t) && SystemFormed(s) && At(s, t, 7, Campaign(8, 0, 0, 0, 0, false))
    requires At(s, t, 3, VOTED) && At(s, t, 4, QUIET) && At(s, t, 5, QUIET)
    ensures Runs(s, steps, r) && s.wins <= r.wins && r.counted == s.counted
    ensures At(r, t, 7, Campaign(9, 0, 0, 9, 0, true))
    ensures Vote(t, 3, 7, 9) in r.sent && Vote(t, 4, 7, 9) in r.sent && Vote(t, 5, 7, 9) in r.sent
  {
    hide Runs, SystemFormed, Seen, Request, Vote, Shared;
    SharedKeys(t);
    var s1, a := Ask(s, t, 7, Campaign(8, 0, 0, 0, 0, false));
    RunsForm(s, a, s1);
    var s2, b := CastVote(s1, t, 3, VOTED, 7, 9, 20);
    Then(s, a, s1, b, s2);
    RunsForm(s1, b, s2);
    var s3, c := CastVote(s2, t, 4, QUIET, 7, 9, 20);
    Then(s, a + b, s2, c, s3);
    RunsForm(s2, c, s3);
    var d;
    r, d := CastVote(s3, t, 5, QUIET, 7, 9, 20);
    Then(s, a + b + c, s3, d, r);
    steps := a + b + c + d;
  }

  /** It is given the three votes and wins epoch 9, by the book. */
  lemma FairVictory(s: System, t: Table) returns (r: System, steps: seq<Step>)
    requires Shared(t) && SystemFormed(s) && At(s, t, 7, Campaign(9, 0, 0, 9, 0, true))
    requires var votes := {Vote(t, 3, 7, 9), Vote(t, 4, 7, 9), Vote(t, 5, 7, 9)}; votes <= s.sent && votes !! s.counted
    ensures Runs(s, steps, r) && s.wins <= r.wins && (7, 9) in r.wins
  {
    hide Runs, SystemFormed, Seen, Request, Vote, Shared;
    SharedKeys(t);
    DistinctVotes(t);
    var s1, a := CountVote(s, t, 7, Campaign(9, 0, 0, 9, 0, true), 3, 9);
    RunsForm(s, a, s1);
    var s2, b := CountVote(s1, t, 7, Campaign(9, 0, 0, 9, 1, true), 4, 9);
    Then(s, a, s1, b, s2);
    RunsForm(s1, b, s2);
    var s3, c := CountVote(s2, t, 7, Campaign(9, 0, 0, 9, 2, true), 5, 9);
    Then(s, a + b, s2, c, s3);
    RunsForm(s2, c, s3);
    var d;
    r, d := Win(s3, t, 7, Campaign(9, 0, 0, 9, 3, true));
    Then(s, a + b + c, s3, d, r);
    steps := a + b + c + d;
  }

  lemma RunsForm(s: System, steps: seq<Step>, t: System)
    requires Runs(s, steps, t)
    ensures SystemFormed(t)
  {
  }

  lemma SharedKeys(t: Table)
    requires Shared(t)
    ensures t.bitmaps.Keys == {1, 2, 3, 4, 5, 6, 7}
  {
  }

  lemma DistinctVotes(t: Table)
    requires Shared(t)
    ensures forall a, b, e, f, g, h ::
      a in t.bitmaps && f in t.bitmaps && Vote(t, a, b, e) == Vote(t, f, g, h) ==> a == f && b == g && e == h
  {
  }

  /** Six nodes in epoch 7, nothing sent, nobody campaigning. */
  lemma QuietCluster(t: Table) returns (s: System)
    requires Shared(t)
    ensures Initial(s) && s.views.Keys == {2, 3, 4, 5, 6, 7} && forall n :: n in s.views ==> At(s, t, n, QUIET)
  {
    hide Shared, Formed;
    s := System(map n: Node | n in {2, 3, 4, 5, 6, 7} :: Seen(t, n, QUIET), {}, {}, {});
    forall n | n in s.views
      ensures ViewFormed(s, n) && ViewDominates(s, n)
    {
      SeenFormed(t, n, QUIET);
      assert forall k :: k in ZERO ==> Below(s.views[n], k);
    }
  }

  /** TWO WINNERS. A run from a quiet cluster in which every vote is cast for a request, at most
      once per epoch, by one of five masters, and delivered at most once - and in which the slaves
      6 and 7 both win epoch 9: the votes for 6 cast in epoch 8 arrive after 6 cleared its counter
      and before it asked for votes in epoch 9. */
  lemma StaleVotesElectTwo() returns (s: System, steps: seq<Step>, t: System)
    ensures Initial(s) && Reaches(s, steps, t) && ElectorateRun(s, steps, Masters)
    ensures (6, 9) in t.wins && (7, 9) in t.wins && !StableRun(s, steps, Masters)
  {
    hide Runs, SystemFormed, Seen, Vote, Shared, Initial, StableRun, Reaches, ElectorateRun;
    var table := FiveSlots();
    SharedKeys(table);
    DistinctVotes(table);
    s := QuietCluster(table);
    InitialParts(s);
    var s1, a := FirstElection(s, table);
    RunsForm(s, a, s1);
    var s2, b := StaleVictory(s1, table);
    Then(s, a, s1, b, s2);
    RunsForm(s1, b, s2);
    var s3, c := AskAndVote(s2, table);
    Then(s, a + b, s2, c, s3);
    RunsForm(s2, c, s3);
    var d;
    t, d := FairVictory(s3, table);
    Then(s, a + b + c, s3, d, t);
    steps := a + b + c + d;
    RunsParts(s, steps, t);
    NotStable(s, steps, t);
  }

  lemma InitialParts(s: System)
    requires Initial(s)
    ensures SystemFormed(s) && s.counted == {}
  {
  }

  lemma RunsParts(s: System, steps: seq<Step>, t: System)
    requires Runs(s, steps, t)
    ensures SystemFormed(s) && Reaches(s, steps, t) && ElectorateRun(s, steps, Masters)
  {
  }

  lemma NotStable(s: System, steps: seq<Step>, t: System)
    requires Initial(s) && Reaches(s, steps, t) && (6, 9) in t.wins && (7, 9) in t.wins
    ensures !StableRun(s, steps, Masters)
  {
    hide Reaches, StableRun;
    if StableRun(s, steps, Masters) {
      ElectionSafety(s, steps, t, Masters);
    }
  }
}
