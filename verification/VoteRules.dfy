/** When a vote is granted, counted and asked for, and which epochs are taken - each said on the view
    before and the message, in full and both ways. */
module VoteRules {
  import opened SlotTable
  import opened ClusterBus
  import opened RoleChanges
  import opened SlotMessages
  import opened SlotRepair

  ghost predicate Owns(t: Table, n: Node) {
    exists j :: 0 <= j < |t.slots| && t.slots[j] == Some(n)
  }

  lemma OwnsIs(t: Table, n: Node)
    requires Agree(t) && n in t.bitmaps
    ensures n in t.numslots && t.numslots[n] >= 0 && (Owns(t, n) <==> t.numslots[n] != 0)
  {
    NumslotsZero(t, n);
  }

  /** w is v with the epochs of the header read and otherwise the same. */
  ghost predicate OnlyLearned(v: View, h: Header, w: View) {
    && w == v.(currentEpoch := Max(v.currentEpoch, h.currentEpoch), configEpoch := w.configEpoch)
    && w.configEpoch.Keys == v.configEpoch.Keys
    && forall k :: k in v.configEpoch ==> w.configEpoch[k] == Recorded(v, h, k)
  }

  lemma LearnOnly(v: View, h: Header)
    requires Formed(v) && h.sender in v.peers
    ensures OnlyLearned(v, h, Learn(v, h)) && Formed(Learn(v, h))
  {
  }

  // ---------------------------------------------------------------------------
  // Votes
  // ---------------------------------------------------------------------------

  /** A claimed slot is recorded for a node under a greater epoch than the request's. */
  ghost predicate Overtaken(v: View, h: Header) {
    exists j :: 0 <= j < |h.slots| && j < |v.table.slots| && h.slots[j] && v.table.slots[j].Some? &&
        v.table.slots[j].value in v.configEpoch && v.configEpoch[v.table.slots[j].value] > h.configEpoch
  }

  /** The vote that candidate m.hdr.sender asks of this node, to replace its master x. */
  ghost predicate Deserves(v: View, m: Message, x: Node, now: int, twoTimeouts: int)
    requires m.AuthRequest?
  {
    && v.me in v.peers && v.peers[v.me].isMaster && Owns(v.table, v.me)
    && m.hdr.currentEpoch >= v.currentEpoch && v.lastVoteEpoch != m.hdr.currentEpoch
    && m.hdr.sender in v.peers && !v.peers[m.hdr.sender].isMaster && v.peers[m.hdr.sender].slaveOf == Some(x)
    && x in v.peers && (v.peers[x].failed || m.force)
    && now - v.peers[x].votedTime >= twoTimeouts
    && !Overtaken(v, m.hdr)
  }

  /** The master a candidate is recorded to serve. */
  function MasterOf(v: View, n: Node): Node {
    if n in v.peers && v.peers[n].slaveOf.Some? then v.peers[n].slaveOf.value else n
  }

  lemma OvertakenIs(v: View, h: Header, w: View)
    requires Formed(v) && Formed(w) && h.sender in v.peers && |h.slots| == |v.table.slots|
    requires w.table == v.table
    requires forall k :: k in v.configEpoch ==> k in w.configEpoch && w.configEpoch[k] == Recorded(v, h, k)
    ensures Superseded(w, h) <==> Overtaken(v, h)
  {
    hide Agree;
    FormedFacts(v);
    forall j | 0 <= j < |h.slots|
      ensures v.table.slots[j].Some? ==> v.table.slots[j].value in v.configEpoch
    {
      OwnerIsKnown(v.table, j);
    }
  }

  lemma MayVoteIs(v: View, m: Message, w: View, now: int, twoTimeouts: int)
    requires Formed(v) && m.AuthRequest? && Fits(v, m) && Formed(w) && OnlyLearned(v, m.hdr, w)
    ensures Fits(w, m) && (MayVote(w, m, now, twoTimeouts) <==>
              Deserves(v, m, MasterOf(v, m.hdr.sender), now, twoTimeouts))
  {
    hide Agree, Superseded, Overtaken, Owns;
    FormedFacts(v);
    OvertakenIs(v, m.hdr, w);
    OwnsIs(v.table, v.me);
    assert MasterKnown(v, m.hdr.sender);
  }

  /** A vote is granted exactly when it is deserved: this node is a master with slots, the request is
      not of an older epoch, it has not voted in that epoch, the candidate is a slave whose master is
      recorded as failed (or the request is forced), the last vote about that master is at least two
      timeouts ago, and no claimed slot is recorded under a greater epoch. Then the vote is sent to
      the candidate and noted, with its epoch and time; else only epochs are learned. */
  lemma VoteExactlyWhen(v: View, m: Message, now: int, twoTimeouts: int)
    requires Formed(v) && m.AuthRequest? && Fits(v, m)
    ensures var (w, ms) := OnAuthRequest(v, m, now, twoTimeouts); var x := MasterOf(v, m.hdr.sender);
            if Deserves(v, m, x, now, twoTimeouts) then
              && (exists a :: ms == {a} && a.AuthAck? && a.to == m.hdr.sender &&
                    Speaks(a.hdr, v, Recorded(v, m.hdr, Served(v))) && a.hdr.currentEpoch == m.hdr.currentEpoch)
              && w.lastVoteEpoch == m.hdr.currentEpoch
              && w.peers == v.peers[x := v.peers[x].(votedTime := now)]
              && OnlyLearned(v, m.hdr, w.(lastVoteEpoch := v.lastVoteEpoch, peers := v.peers))
            else ms == {} && OnlyLearned(v, m.hdr, w)
  {
    hide Agree, MayVote, BuildHeader, Learn, Deserves, Recorded;
    var learned := Learn(v, m.hdr);
    LearnOnly(v, m.hdr);
    MayVoteIs(v, m, learned, now, twoTimeouts);
    if MayVote(learned, m, now, twoTimeouts) {
      DeservesParts(v, m, MasterOf(v, m.hdr.sender), now, twoTimeouts);
      HeaderSpeaks(learned);
      var a := AuthAck(BuildHeader(learned), m.hdr.sender);
      assert OnAuthRequest(v, m, now, twoTimeouts).1 == {a};
      SpeaksToo(BuildHeader(learned), v, learned, m.hdr);
    }
  }

  lemma DeservesParts(v: View, m: Message, x: Node, now: int, twoTimeouts: int)
    requires m.AuthRequest? && Deserves(v, m, x, now, twoTimeouts)
    ensures m.hdr.currentEpoch >= v.currentEpoch && x in v.peers && now - v.peers[x].votedTime >= twoTimeouts
    ensures m.hdr.sender in v.peers && v.peers[m.hdr.sender].slaveOf == Some(x)
    ensures v.lastVoteEpoch != m.hdr.currentEpoch && (v.peers[x].failed || m.force) && !Overtaken(v, m.hdr)
  {
  }

  lemma SpeaksToo(h: Header, v: View, w: View, learned: Header)
    requires Formed(v) && OnlyLearned(v, learned, w)
    requires Served(w) in w.configEpoch && Speaks(h, w, w.configEpoch[Served(w)])
    ensures Speaks(h, v, Recorded(v, learned, Served(v)))
  {
  }

  // ---------------------------------------------------------------------------
  // Counting
  // ---------------------------------------------------------------------------

  /** A vote counts exactly when it comes from a master that owns a slot and is not of an older epoch
      than the election. */
  lemma CountsExactlyWhen(v: View, m: Message)
    requires Formed(v) && m.AuthAck? && Fits(v, m)
    ensures var w := OnAuthAck(v, m); var counts :=
              v.peers[m.hdr.sender].isMaster && Owns(v.table, m.hdr.sender) && m.hdr.currentEpoch >= v.authEpoch;
            && w.authCount == v.authCount + (if counts then 1 else 0)
            && OnlyLearned(v, m.hdr, w.(authCount := v.authCount))
  {
    hide Agree, Learn, Owns;
    FormedFacts(v);
    LearnOnly(v, m.hdr);
    OwnsIs(v.table, m.hdr.sender);
  }

  // ---------------------------------------------------------------------------
  // Campaigning
  // ---------------------------------------------------------------------------

  /** This slave is to replace its master: recorded as failed, or a manual failover is under way; with
      slots to take over; and with data that is not too old. */
  ghost predicate IsDue(v: View, c: Clock) {
    && v.me in v.peers && !v.peers[v.me].isMaster && v.peers[v.me].slaveOf.Some? && Served(v) in v.peers
    && (v.peers[Served(v)].failed || c.manual) && Owns(v.table, Served(v)) && (!c.tooOld || c.manual)
  }

  /** It is the time of the attempt. */
  predicate InTime(c: Clock) {
    !c.retry && !c.early && !c.expired
  }

  /** One header is sent, which speaks for this view. */
  ghost predicate Announces(ms: set<Message>, v: View) {
    exists m :: ms == {m} && m.Ping? && Served(v) in v.configEpoch && Speaks(m.hdr, v, v.configEpoch[Served(v)])
  }

  lemma DueIs(v: View, c: Clock)
    requires Formed(v)
    ensures FailoverDue(v, c) <==> IsDue(v, c)
  {
    hide Agree, Owns;
    FormedFacts(v);
    assert MasterKnown(v, v.me);
    if Served(v) in v.peers {
      OwnsIs(v.table, Served(v));
    }
  }

  /** A pass of the failover handler, exactly: when it wins, when it asks for votes - in the next epoch
      and on behalf of the master - when it clears its votes, and when it does nothing. */
  lemma CampaignExactlyWhen(v: View, c: Clock)
    requires Formed(v)
    ensures var o := OnFailover(v, c); var due := IsDue(v, c);
            && (o.won <==> due && InTime(c) && v.authSent && v.authCount > v.size / 2)
            && ((exists m :: m in o.sent && m.AuthRequest?) <==> due && InTime(c) && !v.authSent)
            && (forall m :: m in o.sent && m.AuthRequest? ==>
                  && m.force == c.force && m.hdr.currentEpoch == v.currentEpoch + 1
                  && Served(v) in v.configEpoch && Speaks(m.hdr, v, v.configEpoch[Served(v)])
                  && o.sent == {m}
                  && o.view == v.(currentEpoch := v.currentEpoch + 1, authEpoch := v.currentEpoch + 1,
                                  authSent := true))
            && (due && c.retry ==> o.view == v.(authCount := 0, authSent := false) && Announces(o.sent, v))
            && (o.won ==> Announces(o.sent, o.view))
            && (!due || (!c.retry && !InTime(c)) || (InTime(c) && v.authSent && v.authCount <= v.size / 2) ==>
                  o.view == v && o.sent == {})
  {
    hide Agree, FailoverDue, IsDue, BuildHeader, ReplaceMaster;
    DueIs(v, c);
    HeaderSpeaks(v);
    if FailoverDue(v, c) {
      if c.retry {
        assert OnFailover(v, c).sent == {Ping(BuildHeader(v))};
      } else if OnFailover(v, c).won {
        var w := OnFailover(v, c).view;
        HeaderSpeaks(w);
        assert OnFailover(v, c).sent == {Ping(BuildHeader(w))};
      } else if InTime(c) && !v.authSent {
        var w := RequestVotes(v);
        HeaderSpeaks(w);
        assert AuthRequest(BuildHeader(w), c.force) in OnFailover(v, c).sent;
      }
    }
  }

  /** A candidate and a voter that agree on slots, epochs and on the failure: the request is granted, if
      the voter has not voted in that epoch nor too recently about that master. */
  lemma AgreedRequestIsGranted(w: View, c: Clock, m: Message, v: View, now: int, twoTimeouts: int)
    requires Formed(w) && m in OnFailover(w, c).sent && m.AuthRequest?
    requires Formed(v) && Fits(v, m) && v.table == w.table && v.configEpoch == w.configEpoch
    requires v.currentEpoch <= w.currentEpoch + 1 && v.lastVoteEpoch != w.currentEpoch + 1
    requires v.peers[v.me].isMaster && Owns(v.table, v.me) && m.hdr.sender == w.me
    requires !v.peers[w.me].isMaster && v.peers[w.me].slaveOf == Some(Served(w)) && Served(w) in v.peers
    requires v.peers[Served(w)].failed && now - v.peers[Served(w)].votedTime >= twoTimeouts
    ensures OnAuthRequest(v, m, now, twoTimeouts).1 != {}
  {
    hide Agree, OnFailover, OnAuthRequest, Owns;
    CampaignExactlyWhen(w, c);
    VoteExactlyWhen(v, m, now, twoTimeouts);
  }

  // ---------------------------------------------------------------------------
  // Epochs
  // ---------------------------------------------------------------------------

  /** This node knows of no epoch greater than its own config epoch. */
  predicate OwnIsGreatest(v: View)
    requires v.me in v.configEpoch
  {
    v.currentEpoch <= v.configEpoch[v.me] && forall n :: n in v.configEpoch ==> v.configEpoch[n] <= v.configEpoch[v.me]
  }

  /** A bump takes an epoch greater than every one known, exactly when the own one is zero or not the
      greatest; nothing else changes. */
  lemma BumpTakesNew(v: View)
    requires Formed(v) && forall n :: n in v.configEpoch ==> v.configEpoch[n] <= v.currentEpoch
    ensures v.me in v.configEpoch
    ensures var r := BumpWithoutConsensus(v);
            if v.configEpoch[v.me] != 0 && OwnIsGreatest(v) then r == v
            else
              && r == v.(currentEpoch := r.currentEpoch, configEpoch := v.configEpoch[v.me := r.currentEpoch])
              && r.currentEpoch == v.currentEpoch + 1 && OwnIsGreatest(r)
              && forall n :: n in v.configEpoch ==> v.configEpoch[n] < r.configEpoch[v.me]
  {
    hide Agree;
    FormedFacts(v);
  }

  /** Two masters with one config epoch, and the sender of the PING has the greater name. */
  ghost predicate Collides(v: View, h: Header, r: View) {
    && v.me in r.peers && h.sender in r.peers && r.peers[v.me].isMaster && r.peers[h.sender].isMaster
    && v.me in v.configEpoch && h.configEpoch == v.configEpoch[v.me] == Recorded(v, h, h.sender) && h.sender > v.me
  }

  /** The epochs after a PING: the greater ones are adopted; after a collision this node, which is then
      still a master, moves to an epoch greater than every one it knows. */
  lemma PingEpochs(v: View, h: Header)
    requires Formed(v) && Fits(v, Ping(h))
    ensures var r := OnPing(v, h).0; var max := Max(v.currentEpoch, h.currentEpoch);
            && r.configEpoch.Keys == v.configEpoch.Keys && v.me in v.configEpoch
            && (forall k :: k in v.configEpoch && k != v.me ==> r.configEpoch[k] == Recorded(v, h, k))
            && r.currentEpoch == (if Collides(v, h, r) then max + 1 else max)
            && r.configEpoch[v.me] == if Collides(v, h, r) then max + 1 else v.configEpoch[v.me]
  {
    hide Agree, Learn, TakeIn, Corrections, BuildHeader, Dirty, LearnRole;
    FormedFacts(v);
    LearnOnly(v, h);
    var learned := Learn(v, h);
    var taken := TakeIn(learned, h);
    TakenSameEpochs(learned, h);
    FormedFacts(taken);
  }

  lemma TakenSameEpochs(v: View, h: Header)
    requires Formed(v) && Fits(v, Ping(h))
    ensures var r := TakeIn(v, h); r.configEpoch == v.configEpoch && r.currentEpoch == v.currentEpoch && r.me == v.me
  {
  }
}
