/** What PING and UPDATE do to slots and roles, said slot by slot on the view before and the message;
    and that a node which claims a slot it has lost is set right by the answer. */
module SlotMessages {
  import opened SlotTable
  import opened ClusterBus
  import opened RoleChanges

  /** The config epoch recorded for n once a header was read. */
  function Recorded(v: View, h: Header, n: Node): nat {
    var before := if n in v.configEpoch then v.configEpoch[n] else 0;
    if n == h.sender && h.configEpoch > before then h.configEpoch else before
  }

  /** A claim of slot j by n under this epoch takes it: it is not being imported, and it is free or
      recorded for another node under a smaller epoch. */
  predicate Yields(v: View, h: Header, n: Node, epoch: nat, claimed: bool, j: nat)
    requires j < |v.table.slots| == |v.importing|
  {
    claimed && !v.importing[j] &&
    match v.table.slots[j]
    case None => true
    case Some(o) => o != n && Recorded(v, h, o) < epoch
  }

  /** The record of a node that announces itself as a master. */
  function AsMaster(p: Peer): Peer {
    if p.isMaster then p else p.(isMaster := true, slaveOf := None)
  }

  /** The record of a node that announces a master, which is noted if it is known. */
  function AsSlave(p: Peer, h: Header, known: set<Node>): Peer {
    p.(isMaster := false, slaveOf := if h.slaveOf.Some? && h.slaveOf.value in known then h.slaveOf else p.slaveOf)
  }

  /** The node whose slots this node serves or stands by for. */
  function Served(v: View): Node {
    if v.me in v.peers && !v.peers[v.me].isMaster && v.peers[v.me].slaveOf.Some?
    then v.peers[v.me].slaveOf.value else v.me
  }

  /** Only the role of n may have changed, and this node's: it follows n if its own last slot, or its
      master's, was lost, and then imports nothing any more if it was a master. */
  ghost predicate RolesAfter(v: View, r: View, n: Node)
    requires |r.table.slots| == |v.table.slots| && v.me in v.peers && r.peers.Keys == v.peers.Keys
  {
    && (forall k :: k in v.peers && k != n && k != v.me ==> r.peers[k] == v.peers[k])
    && if n != v.me && LostOne(v.table, r.table, Served(v)) && Bare(r.table, Served(v))
       then
         && r.peers[v.me] == v.peers[v.me].(isMaster := false, slaveOf := Some(n))
         && r.importing == if v.peers[v.me].isMaster then NoBits(|v.importing|) else v.importing
       else (n != v.me ==> r.peers[v.me] == v.peers[v.me]) && r.importing == v.importing
  }

  // ---------------------------------------------------------------------------
  // A claim
  // ---------------------------------------------------------------------------

  /** w is v with the header's epochs read, and perhaps another role of n. */
  ghost predicate Prepared(v: View, h: Header, w: View, n: Node) {
    && Formed(v) && Formed(w) && w.me == v.me && w.table == v.table && w.importing == v.importing
    && w.peers.Keys == v.peers.Keys && (forall k :: k in v.peers && k != n ==> w.peers[k] == v.peers[k])
    && (forall k :: k in v.peers && k != n ==> w.configEpoch[k] == Recorded(v, h, k))
  }

  lemma OwnerIsKnown(t: Table, j: nat)
    requires Agree(t) && j < |t.slots|
    ensures t.slots[j].Some? ==> t.slots[j].value in t.bitmaps
  {
    assert OwnerKnown(t, j);
  }

  lemma ClaimTakesSlots(v: View, h: Header, w: View, n: Node, epoch: nat, claim: seq<bool>)
    requires Prepared(v, h, w, n) && n in v.peers && n != v.me && |claim| == |v.table.slots|
    ensures Formed(w) && |v.importing| == |v.table.slots|
    ensures var r := UpdateSlots(w, n, epoch, claim);
            && r.configEpoch == w.configEpoch
            && forall j :: 0 <= j < |v.table.slots| ==>
                 r.table.slots[j] == if Yields(v, h, n, epoch, claim[j], j) then Some(n) else v.table.slots[j]
  {
    hide Agree, Claim;
    FormedFacts(v);
    FormedFacts(w);
    var r := UpdateSlots(w, n, epoch, claim);
    forall j | 0 <= j < |v.table.slots|
      ensures Wins(w.table, JudgeOf(w), n, epoch, claim, j) <==> Yields(v, h, n, epoch, claim[j], j)
    {
      OwnerIsKnown(v.table, j);
    }
  }

  lemma ClaimMoves(v: View, h: Header, w: View, n: Node, epoch: nat, claim: seq<bool>)
    requires Prepared(v, h, w, n) && n in v.peers && n != v.me && |claim| == |v.table.slots|
    ensures Formed(w) && |v.importing| == |v.table.slots|
    ensures var r := UpdateSlots(w, n, epoch, claim);
            && RolesAfter(v, r, n) && r.peers[n] == w.peers[n] && r.configEpoch == w.configEpoch
            && forall j :: 0 <= j < |v.table.slots| ==>
                 r.table.slots[j] == if Yields(v, h, n, epoch, claim[j], j) then Some(n) else v.table.slots[j]
  {
    hide Agree, UpdateSlots, Yields, LostOne, Bare;
    ClaimTakesSlots(v, h, w, n, epoch, claim);
    FollowsTheClaimant(w, n, epoch, claim);
  }

  // ---------------------------------------------------------------------------
  // UPDATE
  // ---------------------------------------------------------------------------

  /** An UPDATE is news about its node: a known one, recorded under a smaller epoch. */
  predicate IsNews(v: View, m: Message)
    requires m.Update?
  {
    m.about in v.peers && Recorded(v, m.hdr, m.about) < m.epoch
  }

  lemma LearnedIs(v: View, h: Header)
    requires Formed(v) && h.sender in v.peers
    ensures var w := Learn(v, h);
            && Formed(w) && w.me == v.me && w.peers == v.peers && w.table == v.table && w.importing == v.importing
            && w.configEpoch.Keys == v.configEpoch.Keys == v.peers.Keys
            && forall k :: k in v.peers ==> w.configEpoch[k] == Recorded(v, h, k)
  {
  }

  lemma SelfUpdate(x: View, epoch: nat, claim: seq<bool>)
    requires Formed(x) && |claim| == |x.table.slots|
    ensures UpdateSlots(x, x.me, epoch, claim) == x
  {
  }

  lemma NothingMoved(v: View, x: View, n: Node)
    requires x.table == v.table && x.importing == v.importing && x.peers.Keys == v.peers.Keys && v.me in v.peers
    requires forall k :: k in v.peers && k != n ==> x.peers[k] == v.peers[k]
    ensures RolesAfter(v, x, n)
  {
  }

  lemma NoNewsTaken(v: View, m: Message)
    requires Formed(v) && m.Update? && Fits(v, m)
    ensures !IsNews(v, m) ==> OnUpdate(v, m) == Learn(v, m.hdr)
  {
    hide UpdateSlots;
    LearnedIs(v, m.hdr);
  }

  /** The view when the slots of the news are about to be taken in. */
  lemma NewsTaken(v: View, m: Message) returns (x: View)
    requires Formed(v) && m.Update? && Fits(v, m) && IsNews(v, m)
    ensures Prepared(v, m.hdr, x, m.about) && OnUpdate(v, m) == UpdateSlots(x, m.about, m.epoch, m.claim)
    ensures x.peers[m.about] == AsMaster(v.peers[m.about]) && x.configEpoch[m.about] == m.epoch
  {
    hide UpdateSlots, Learn, Agree;
    FormedFacts(v);
    LearnedIs(v, m.hdr);
    var w := SetNodeAsMaster(Learn(v, m.hdr), m.about);
    x := w.(configEpoch := w.configEpoch[m.about := m.epoch]);
    EpochsKeepFormed(w, x);
  }

  /** News about another node makes it a master under the epoch given and moves to it exactly the
      slots claimed for it that yield; this node follows it if that took its last slot. News about
      this node itself moves none, nor does anything that is not news. */
  lemma UpdateMoves(v: View, m: Message)
    requires Formed(v) && m.Update? && Fits(v, m)
    ensures |v.importing| == |v.table.slots| && v.me in v.peers
    ensures var r := OnUpdate(v, m);
            if !IsNews(v, m) then r.table == v.table && r.peers == v.peers && r.importing == v.importing
            else
              && r.peers[m.about] == AsMaster(v.peers[m.about]) && r.configEpoch[m.about] == m.epoch
              && RolesAfter(v, r, m.about)
              && forall j :: 0 <= j < |v.table.slots| ==>
                   r.table.slots[j] ==
                   if m.about != v.me && Yields(v, m.hdr, m.about, m.epoch, m.claim[j], j)
                   then Some(m.about) else v.table.slots[j]
  {
    hide Agree, UpdateSlots, Yields, Learn, OnUpdate, RolesAfter;
    FormedFacts(v);
    LearnedIs(v, m.hdr);
    NoNewsTaken(v, m);
    if IsNews(v, m) {
      var x := NewsTaken(v, m);
      if m.about != v.me {
        ClaimMoves(v, m.hdr, x, m.about, m.epoch, m.claim);
      } else {
        SelfUpdate(x, m.epoch, m.claim);
        NothingMoved(v, x, m.about);
      }
    }
  }

  // ---------------------------------------------------------------------------
  // PING
  // ---------------------------------------------------------------------------

  lemma ResolvedIs(v: View, h: Header)
    requires Formed(v) && h.sender in v.peers
    ensures var r := ResolveCollision(v, h);
            r.peers == v.peers && r.table == v.table && r.importing == v.importing && r.me == v.me
  {
  }

  lemma SlaveTakenIn(v: View, h: Header)
    requires Formed(v) && Fits(v, Ping(h)) && h.slaveOf.Some?
    ensures var r := TakeIn(v, h); var n := h.sender;
            && r.peers == v.peers[n := AsSlave(v.peers[n], h, v.peers.Keys)] && r.importing == v.importing
            && forall j :: 0 <= j < |v.table.slots| ==>
                 r.table.slots[j] ==
                 if v.peers[n].isMaster && v.table.slots[j] == Some(n) then None else v.table.slots[j]
  {
    hide Agree, UpdateSlots, DelNodeSlots;
  }

  lemma CleanYieldsNothing(v: View, h: Header, x: View)
    requires Formed(v) && Formed(x) && Fits(v, Ping(h)) && x.table == v.table && x.peers.Keys == v.peers.Keys
    requires x.peers[h.sender].isMaster && !Dirty(x, h)
    ensures |v.importing| == |v.table.slots|
    ensures forall j :: 0 <= j < |v.table.slots| ==> !Yields(v, h, h.sender, h.configEpoch, h.slots[j], j)
  {
    assert NodeAgrees(v.table, h.sender);
  }

  lemma MasterLearned(w: View, h: Header)
    requires Formed(w) && Fits(w, Ping(h)) && h.slaveOf.None?
    ensures var x := LearnRole(w, h);
            && x == w.(peers := x.peers) && x.peers[h.sender] == AsMaster(w.peers[h.sender])
            && forall k :: k in w.peers && k != h.sender ==> x.peers[k] == w.peers[k]
  {
  }

  lemma SameRoles(v: View, r: View, q: View, n: Node)
    requires |r.table.slots| == |v.table.slots| && v.me in v.peers && r.peers.Keys == v.peers.Keys
    requires RolesAfter(v, r, n) && q.peers == r.peers && q.table == r.table && q.importing == r.importing
    ensures RolesAfter(v, q, n)
  {
  }

  lemma MasterTakenIn(v: View, h: Header, w: View)
    requires Formed(v) && Fits(v, Ping(h)) && h.slaveOf.None? && w == Learn(v, h)
    ensures |v.importing| == |v.table.slots| && v.me in v.peers
    ensures var r := TakeIn(w, h); var n := h.sender;
            && r.peers.Keys == v.peers.Keys && r.peers[n] == AsMaster(v.peers[n]) && RolesAfter(v, r, n)
            && forall j :: 0 <= j < |v.table.slots| ==>
                 r.table.slots[j] ==
                 if Yields(v, h, n, h.configEpoch, h.slots[j], j) then Some(n) else v.table.slots[j]
  {
    hide Agree, UpdateSlots, Yields, Learn, Dirty, LearnRole, RolesAfter;
    FormedFacts(v);
    LearnedIs(v, h);
    var x := LearnRole(w, h);
    MasterLearned(w, h);
    if Dirty(x, h) {
      ClaimMoves(v, h, x, h.sender, h.configEpoch, h.slots);
    } else {
      CleanYieldsNothing(v, h, x);
      NothingMoved(v, x, h.sender);
    }
  }

  /** A master's PING makes it a master here and moves to it exactly the slots it claims that yield;
      a slave's PING makes it a slave of the master it names, if that is known, and takes its slots
      away if it was a master; this node follows a master that took its last slot. */
  lemma PingMoves(v: View, h: Header)
    requires Formed(v) && Fits(v, Ping(h))
    ensures |v.importing| == |v.table.slots| && v.me in v.peers
    ensures var r := OnPing(v, h).0; var n := h.sender;
            if h.slaveOf.None? then
              && r.peers[n] == AsMaster(v.peers[n]) && RolesAfter(v, r, n)
              && forall j :: 0 <= j < |v.table.slots| ==>
                   r.table.slots[j] ==
                   if Yields(v, h, n, h.configEpoch, h.slots[j], j) then Some(n) else v.table.slots[j]
            else
              && r.peers == v.peers[n := AsSlave(v.peers[n], h, v.peers.Keys)] && r.importing == v.importing
              && forall j :: 0 <= j < |v.table.slots| ==>
                   r.table.slots[j] ==
                   if v.peers[n].isMaster && v.table.slots[j] == Some(n) then None else v.table.slots[j]
  {
    hide Agree, UpdateSlots, Yields, Learn, ResolveCollision, Corrections, BuildHeader, TakeIn, RolesAfter;
    FormedFacts(v);
    LearnedIs(v, h);
    var learned := Learn(v, h);
    if h.slaveOf.None? {
      MasterTakenIn(v, h, learned);
    } else {
      SlaveTakenIn(learned, h);
    }
    ResolvedIs(TakeIn(learned, h), h);
    if h.slaveOf.None? {
      SameRoles(v, TakeIn(learned, h), OnPing(v, h).0, h.sender);
    }
  }
}
