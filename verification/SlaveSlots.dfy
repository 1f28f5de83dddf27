/** In its own view a slave owns no slot, and the assertion on that when a node becomes a slave: what
    keeps it, over whole runs, and the one command that breaks it. */
module SlaveSlots {
  import opened SlotTable
  import opened ClusterBus
  import opened ClusterCommands
  import opened Election
  import opened RoleChanges

  /** In its own view a slave owns no slot. */
  ghost predicate SlaveBare(v: View) {
    v.me in v.peers && !v.peers[v.me].isMaster ==> Bare(v.table, v.me)
  }

  /** The view in which a claim has been processed, but no role changed yet. */
  function Claimed(v: View, n: Node, epoch: nat, claim: seq<bool>): (w: View)
    requires Formed(v) && n in v.peers && |claim| == |v.table.slots|
    ensures Formed(w) && w == v.(table := w.table)
  {
    var w := v.(table := Claim(v.table, JudgeOf(v), n, epoch, claim, |claim|));
    TableKeepsFormed(v, w.table);
    w
  }

  /** The claim makes this node a slave of the claimant. */
  ghost predicate MakesSlave(v: View, n: Node, epoch: nat, claim: seq<bool>)
    requires Formed(v) && n in v.peers && |claim| == |v.table.slots|
  {
    n != v.me && TakesFrom(v, Some(Mine(v)), n, epoch, claim) &&
        Claimed(v, n, epoch, claim).table.numslots[Mine(v)] == 0
  }

  /** When a claim makes this node a slave, the claimant is another node, and this node is left with
      no slot if and only if the claim wins every slot it owns. So the assertions of the code hold
      of every node that, as a slave, owns no slot. */
  lemma AssertionsHold(v: View, n: Node, epoch: nat, claim: seq<bool>)
    requires Formed(v) && n in v.peers && |claim| == |v.table.slots| && MakesSlave(v, n, epoch, claim)
    ensures n != v.me
    ensures Claimed(v, n, epoch, claim).table.numslots[v.me] == 0 <==>
            forall j :: 0 <= j < |claim| && v.table.slots[j] == Some(v.me) ==>
              Wins(v.table, JudgeOf(v), n, epoch, claim, j)
    ensures SlaveBare(v) ==> Claimed(v, n, epoch, claim).table.numslots[v.me] == 0
  {
    hide Agree, TakesFrom;
    var w := Claimed(v, n, epoch, claim);
    FormedFacts(w);
    NumslotsZero(w.table, v.me);
  }

  /** A claim of another node gives this one nothing. */
  lemma ClaimKeepsBare(v: View, n: Node, epoch: nat, claim: seq<bool>)
    requires Formed(v) && n in v.peers && |claim| == |v.table.slots| && n != v.me
    ensures Bare(v.table, v.me) ==> Bare(Claimed(v, n, epoch, claim).table, v.me)
  {
  }

  lemma UpdateSlotsBare(v: View, n: Node, epoch: nat, claim: seq<bool>)
    requires Formed(v) && n in v.peers && |claim| == |v.table.slots| && SlaveBare(v)
    ensures SlaveBare(UpdateSlots(v, n, epoch, claim))
  {
    hide Agree, TakesFrom;
    if n != v.me {
      ClaimKeepsBare(v, n, epoch, claim);
      if MakesSlave(v, n, epoch, claim) {
        AssertionsHold(v, n, epoch, claim);
        FormedFacts(Claimed(v, n, epoch, claim));
        NumslotsZero(Claimed(v, n, epoch, claim).table, v.me);
      }
    }
  }

  lemma LearnRoleBare(v: View, h: Header)
    requires Formed(v) && h.sender in v.peers && h.sender != v.me && SlaveBare(v)
    ensures SlaveBare(LearnRole(v, h))
  {
    hide Agree;
  }

  lemma TakeInBare(v: View, h: Header)
    requires Formed(v) && Fits(v, Ping(h)) && SlaveBare(v)
    ensures SlaveBare(TakeIn(v, h))
  {
    hide Agree, Formed, SlaveBare, LearnRole, UpdateSlots, Dirty;
    LearnRoleBare(v, h);
    var w := LearnRole(v, h);
    if w.peers[h.sender].isMaster && Dirty(w, h) {
      UpdateSlotsBare(w, h.sender, h.configEpoch, h.slots);
    }
  }

  /** Only roles and ownership matter. */
  lemma SameBare(v: View, w: View)
    requires SlaveBare(v) && w.me == v.me && w.peers == v.peers && w.table == v.table
    ensures SlaveBare(w)
  {
  }

  lemma OnPingBare(v: View, h: Header)
    requires Formed(v) && Fits(v, Ping(h)) && SlaveBare(v)
    ensures SlaveBare(OnPing(v, h).0)
  {
    hide Formed, TakeIn, SlaveBare, Corrections, BuildHeader, Dirty, LearnRole;
    SameBare(v, Learn(v, h));
    TakeInBare(Learn(v, h), h);
    SameBare(TakeIn(Learn(v, h), h), OnPing(v, h).0);
  }

  lemma OnUpdateBare(v: View, m: Message)
    requires Formed(v) && m.Update? && Fits(v, m) && SlaveBare(v)
    ensures SlaveBare(OnUpdate(v, m))
  {
    hide Agree, Formed, UpdateSlots;
    var learned := Learn(v, m.hdr);
    FormedFacts(learned);
    if m.about in learned.peers && learned.configEpoch[m.about] < m.epoch {
      var w := SetNodeAsMaster(learned, m.about);
      var x := w.(configEpoch := w.configEpoch[m.about := m.epoch]);
      EpochsKeepFormed(w, x);
      UpdateSlotsBare(x, m.about, m.epoch, m.claim);
    }
  }

  lemma OnAuthRequestBare(v: View, m: Message, now: int, twoTimeouts: int)
    requires Formed(v) && m.AuthRequest? && Fits(v, m) && SlaveBare(v)
    ensures SlaveBare(OnAuthRequest(v, m, now, twoTimeouts).0)
  {
    hide Agree, MayVote, BuildHeader;
  }

  lemma OnFailoverBare(v: View, c: Clock)
    requires Formed(v) && SlaveBare(v)
    ensures SlaveBare(OnFailover(v, c).view)
  {
    hide Agree, TakeOver, BuildHeader, FailoverDue;
  }

  /** While a PING is processed the assertion holds. */
  lemma PingAsserts(v: View, h: Header)
    requires Formed(v) && Fits(v, Ping(h)) && SlaveBare(v)
    ensures var w := LearnRole(Learn(v, h), h);
            MakesSlave(w, h.sender, h.configEpoch, h.slots) ==>
              Claimed(w, h.sender, h.configEpoch, h.slots).table.numslots[w.me] == 0
  {
    hide Formed, SlaveBare, LearnRole, MakesSlave, Claimed;
    SameBare(v, Learn(v, h));
    LearnRoleBare(Learn(v, h), h);
    var w := LearnRole(Learn(v, h), h);
    if MakesSlave(w, h.sender, h.configEpoch, h.slots) {
      AssertionsHold(w, h.sender, h.configEpoch, h.slots);
    }
  }

  // ---------------------------------------------------------------------------
  // Commands
  // ---------------------------------------------------------------------------

  /** ADDSLOTS is the one command that does not ask for the role of the node. */
  predicate GivesSlots(v: View, c: Command, empty: bool)
    requires Formed(v)
  {
    !v.peers[v.me].isMaster && c.AddSlots? && c.js != {} && Accepted(v, c, empty)
  }

  /** A command leaves a node that, as a slave, owns no slot like that, if and only if it does not
      add slots to a slave. */
  lemma CommandKeepsBareExactlyWhen(v: View, c: Command, empty: bool)
    requires Formed(v) && SlaveBare(v)
    ensures SlaveBare(Execute(v, c, empty)) <==> !GivesSlots(v, c, empty)
  {
    hide Agree, AddAll, DelAll, DelNodeSlots, Rebind;
    FormedFacts(v);
    if Accepted(v, c, empty) {
      if c.Replicate? {
        NumslotsZero(v.table, v.me);
      } else if GivesSlots(v, c, empty) {
        var j :| j in c.js;
        assert Execute(v, c, empty).table.slots[j] == Some(v.me);
      }
    }
  }

  /** The assertion holds when REPLICATE is accepted. */
  lemma ReplicateAsserts(v: View, n: Node, empty: bool)
    requires Formed(v) && SlaveBare(v) && Accepted(v, Replicate(n), empty)
    ensures n != v.me && v.table.numslots[v.me] == 0
  {
    hide Agree;
    FormedFacts(v);
    NumslotsZero(v.table, v.me);
  }

  // ---------------------------------------------------------------------------
  // Runs
  // ---------------------------------------------------------------------------

  /** A local change is a command that does not give slots to a slave, or it leaves the role of the
      node and the slots alone: failure flags, the size of the cluster. */
  ghost predicate ByTheBook(v: View, w: View) {
    Formed(v) ==>
      || (exists c, empty :: w == Execute(v, c, empty) && !GivesSlots(v, c, empty))
      || (w.me == v.me && v.me in w.peers && w.peers[v.me].isMaster == v.peers[v.me].isMaster && w.table == v.table)
  }

  lemma ByTheBookBare(v: View, w: View)
    requires Formed(v) && SlaveBare(v) && ByTheBook(v, w)
    ensures SlaveBare(w)
  {
    hide Execute, GivesSlots;
    if exists c, empty :: w == Execute(v, c, empty) && !GivesSlots(v, c, empty) {
      var c, empty :| w == Execute(v, c, empty) && !GivesSlots(v, c, empty);
      CommandKeepsBareExactlyWhen(v, c, empty);
    }
  }

  lemma ActBare(v: View, step: Step)
    requires Formed(v) && (step.Deliver? ==> Fits(v, step.m))
    requires step.Local? ==> IsLocal(v, step.v) && ByTheBook(v, step.v)
    requires SlaveBare(v)
    ensures SlaveBare(Act(v, step).view)
  {
    hide Formed, OnPing, OnUpdate, OnAuthRequest, OnFailover, Agree, BumpWithoutConsensus, BuildHeader, SlaveBare,
        ByTheBook;
    match step {
      case Deliver(_, m, now, twoTimeouts) =>
        match m {
          case Ping(h) => OnPingBare(v, h);
          case Update(_, _, _, _) => OnUpdateBare(v, m);
          case AuthRequest(_, _) => OnAuthRequestBare(v, m, now, twoTimeouts);
          case AuthAck(_, _) => SameBare(v, OnAuthAck(v, m));
        }
      case FailoverCron(_, c) => OnFailoverBare(v, c);
      case Bump(_) => SameBare(v, BumpWithoutConsensus(v));
      case Local(_, w) => ByTheBookBare(v, w);
      case _ =>
    }
  }

  ghost predicate ViewBare(s: System, n: Node) {
    n in s.views ==> SlaveBare(s.views[n])
  }

  ghost predicate AllBare(s: System) {
    forall n {:trigger ViewBare(s, n)} :: n in s.views ==> ViewBare(s, n)
  }

  /** No slots are given to a slave in the run. */
  ghost predicate RunByTheBook(s: System, steps: seq<Step>)
    requires SystemFormed(s)
    decreases |steps|
  {
    |steps| == 0 ||
    (&& Enabled(s, steps[0])
     && (steps[0].Local? ==> ByTheBook(s.views[steps[0].n], steps[0].v))
     && RunByTheBook(Next(s, steps[0]), steps[1..]))
  }

  /** In every run in which no slots are given to a slave by hand, no slave comes to own a slot; so
      the assertion on becoming a slave never fires. */
  lemma {:induction false} SlavesStayBare(s: System, steps: seq<Step>, t: System)
    requires SystemFormed(s) && AllBare(s) && Reaches(s, steps, t) && RunByTheBook(s, steps)
    ensures AllBare(t)
    decreases |steps|
  {
    hide Act, SlaveBare, Formed, ByTheBook;
    if |steps| == 0 {
    } else {
      var n, r := steps[0].n, Next(s, steps[0]);
      assert ViewFormed(s, n) && ViewBare(s, n);
      ActBare(s.views[n], steps[0]);
      forall k | k in r.views
        ensures ViewBare(r, k)
      {
        assert ViewBare(s, k);
      }
      SlavesStayBare(r, steps[1..], t);
    }
  }

  // ---------------------------------------------------------------------------
  // Slots given to a slave
  // ---------------------------------------------------------------------------

  lemma NoNodes()
    ensures Agree(Table([None, None], map[], map[]))
  {
    var t := Table([None, None], map[], map[]);
    assert forall j :: 0 <= j < 2 ==> OwnerKnown(t, j);
  }

  /** Three nodes and two slots, the first of which belongs to `owner`. */
  lemma ThreeNodes(owner: Node) returns (t: Table)
    requires owner in {1, 2}
    ensures Agree(t) && t.bitmaps.Keys == {1, 2, 3} && t.slots == [Some(owner), None]
  {
    hide Agree, AddNode, AddSlot;
    NoNodes();
    t := AddNode(AddNode(AddNode(Table([None, None], map[], map[]), 1), 2), 3);
    AddSlotKeeps(t, owner, 0);
    t := AddSlot(t, owner, 0);
  }

  const CAST: map<Node, Peer> :=
    map[1 := Peer(true, None, false, 0), 2 := Peer(true, None, false, 0), 3 := Peer(false, Some(1), false, 0)]

  /** Node `me` takes slot 0 for owned by `owner`, under the epoch that node 2 has in its view. */
  function Opinion(me: Node, t: Table, epoch: nat): View {
    View(me, CAST, map[1 := 0, 2 := epoch, 3 := 0], t, NoBits(2), epoch, 0, 0, 0, false, 2)
  }

  lemma OpinionFormed(me: Node, t: Table, epoch: nat)
    requires me in {2, 3} && Agree(t) && t.bitmaps.Keys == {1, 2, 3} && |t.slots| == 2
    ensures Formed(Opinion(me, t, epoch)) && Dominates(Opinion(me, t, epoch))
  {
    hide Agree;
    var v := Opinion(me, t, epoch);
    assert forall n :: n in v.peers ==> MasterKnown(v, n) && Below(v, n);
  }

  /** Node `me` sees slot 0 owned by `owner` and slot 1 by whom `second` says. */
  ghost predicate Sees(v: View, me: Node, owner: Node, second: Option<Node>, epoch: nat) {
    && Formed(v) && v == Opinion(me, v.table, epoch).(importing := v.importing) && v.importing == NoBits(2)
    && v.table.slots == [Some(owner), second]
  }

  /** Node 2 has taken slot 0 over under epoch 1; slave 3 of master 1 has not heard of it yet. */
  lemma TwoViews() returns (s: System)
    ensures Initial(s) && s.views.Keys == {2, 3} && AllBare(s)
    ensures Sees(s.views[2], 2, 2, None, 1) && Sees(s.views[3], 3, 1, None, 0)
  {
    hide Agree, Formed, Dominates;
    var t := ThreeNodes(2);
    var u := ThreeNodes(1);
    OpinionFormed(2, t, 1);
    OpinionFormed(3, u, 0);
    s := System(map[2 := Opinion(2, t, 1), 3 := Opinion(3, u, 0)], {}, {}, {});
    assert ViewFormed(s, 2) && ViewFormed(s, 3) && ViewDominates(s, 2) && ViewDominates(s, 3);
    assert ViewBare(s, 2) && ViewBare(s, 3);
  }

  /** ADDSLOTS 1 on slave 3. */
  lemma GiveSlot(v: View) returns (w: View)
    requires Sees(v, 3, 1, None, 0)
    ensures w == Execute(v, AddSlots({1}), true) && IsLocal(v, w) && Sees(w, 3, 1, Some(3), 0)
  {
    hide Formed, Agree, AddAll;
    w := Execute(v, AddSlots({1}), true);
    assert Close(v.importing, {1}) == NoBits(2);
  }

  /** Processing this PING comes to the claim of its sender, which turns the node into a slave that
      still owns a slot. */
  ghost predicate AssertionFails(v: View, h: Header) {
    && Formed(v) && Fits(v, Ping(h))
    && var w := LearnRole(Learn(v, h), h);
       && w.peers[h.sender].isMaster && Dirty(w, h) && MakesSlave(w, h.sender, h.configEpoch, h.slots)
       && Claimed(w, h.sender, h.configEpoch, h.slots).table.numslots[w.me] != 0
  }

  /** What the slave makes of the claim of node 2 on slot 0. */
  lemma ClaimHits(v: View, h: Header)
    requires Sees(v, 3, 1, Some(3), 0) && h.sender == 2 && h.currentEpoch == h.configEpoch == 1 && h.slaveOf == None
    requires h.slots == [true, false]
    ensures Fits(v, Ping(h)) && AssertionFails(v, h)
  {
    hide Agree, Claim, NodeAgrees, Formed;
    var w := LearnRole(Learn(v, h), h);
    assert w == Learn(v, h) && w.table == v.table && w.peers == CAST;
    FormedFacts(w);
    OwnBitmap(w.table, 2, 0);
    MineOf(w);
    assert Wins(w.table, JudgeOf(w), 2, 1, h.slots, 0);
    var x := Claimed(w, 2, 1, h.slots);
    assert x.table.slots[0] == Some(2) && x.table.slots[1] == Some(3);
    FormedFacts(x);
    NumslotsZero(x.table, 1);
    NumslotsZero(x.table, 3);
  }

  lemma OwnBitmap(t: Table, n: Node, j: nat)
    requires Agree(t) && n in t.bitmaps && j < |t.slots|
    ensures |t.bitmaps[n]| == |t.slots| && (t.bitmaps[n][j] <==> t.slots[j] == Some(n))
  {
    assert NodeAgrees(t, n);
  }

  lemma MineOf(v: View)
    requires Formed(v) && v.me == 3 && v.peers == CAST
    ensures Mine(v) == 1
  {
  }

  /** What node 2 publishes. */
  lemma ClaimSent(v: View)
    requires Sees(v, 2, 2, None, 1)
    ensures BuildHeader(v) == Header(2, 1, 1, [true, false], None)
  {
    hide Agree, Formed;
    FormedFacts(v);
    OwnBitmap(v.table, 2, 0);
    OwnBitmap(v.table, 2, 1);
  }

  /** GIVEN SLOTS. A run from an initial state: slave 3 is given a slot by hand, and node 2, which has
      taken over the only slot of the slave's master, sends a PING. When that is delivered, the
      slave turns to node 2 while it owns a slot: the assertion fails. */
  lemma SlotsGivenByHand() returns (s: System, steps: seq<Step>, t: System, h: Header)
    ensures Initial(s) && AllBare(s) && Reaches(s, steps, t) && SystemFormed(t)
    ensures 3 in t.views && Enabled(t, Deliver(3, Ping(h), 0, 0)) && AssertionFails(t.views[3], h)
  {
    hide Formed, Execute, Sees, AssertionFails, BuildHeader, Initial, AllBare;
    s := TwoViews();
    InitialForm(s);
    SeesFormed(s.views[3], 3, 1, None, 0);
    var w := GiveSlot(s.views[3]);
    var give, ping := Local(3, w), SendPing(2);
    var s1 := Next(s, give);
    assert ViewFormed(s, 2);
    ClaimSent(s1.views[2]);
    t := Next(s1, ping);
    h := Header(2, 1, 1, [true, false], None);
    SeesFormed(w, 3, 1, Some(3), 0);
    ClaimHits(w, h);
    steps := [give, ping];
    TwoSteps(s, give, ping);
  }

  lemma SeesFormed(v: View, me: Node, owner: Node, second: Option<Node>, epoch: nat)
    requires Sees(v, me, owner, second, epoch)
    ensures Formed(v) && v.me == me
  {
  }

  lemma InitialForm(s: System)
    requires Initial(s)
    ensures SystemFormed(s) && s.sent == {}
  {
  }

  lemma TwoSteps(s: System, a: Step, b: Step)
    requires SystemFormed(s) && Enabled(s, a) && Enabled(Next(s, a), b)
    ensures Reaches(s, [a, b], Next(Next(s, a), b))
  {
    hide Next, Enabled, SystemFormed;
    assert [a, b][1..] == [b] && [b][1..] == [];
    assert Reaches(Next(Next(s, a), b), [], Next(Next(s, a), b));
    assert Reaches(Next(s, a), [b], Next(Next(s, a), b));
  }
}
