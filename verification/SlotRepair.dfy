/** The answers to a PING: the header sent back, and the UPDATE to a sender that claims a slot it has
    lost. They set the sender right - each for the owner it can. */
module SlotRepair {
  import opened SlotTable
  import opened ClusterBus
  import opened RoleChanges
  import opened SlotMessages

  /** The header of a view speaks for the node it serves: itself, or the master of a slave. */
  ghost predicate Speaks(h: Header, v: View, epoch: nat) {
    && h.sender == v.me && h.configEpoch == epoch && v.me in v.peers && h.slaveOf == v.peers[v.me].slaveOf
    && |h.slots| == |v.table.slots|
    && forall j :: 0 <= j < |h.slots| ==> (h.slots[j] <==> v.table.slots[j] == Some(Served(v)))
  }

  lemma HeaderSpeaks(v: View)
    requires Formed(v)
    ensures Served(v) in v.configEpoch && Speaks(BuildHeader(v), v, v.configEpoch[Served(v)])
    ensures BuildHeader(v).currentEpoch == v.currentEpoch
  {
    assert MasterKnown(v, v.me);
    assert NodeAgrees(v.table, Served(v));
  }

  /** Once this PING is processed, slot j is recorded for another node than the sender, under a
      greater epoch than the sender claims it with. */
  ghost predicate LostBySender(v: View, h: Header, t: Table, j: nat) {
    && j < |h.slots| && j < |t.slots| && h.slots[j] && t.slots[j].Some?
    && t.slots[j].value != h.sender && Recorded(v, h, t.slots[j].value) > h.configEpoch
  }

  /** What an UPDATE that answers a PING says: the first slot that was lost, its owner, that owner's
      epoch and all its slots. */
  ghost predicate Corrects(v: View, h: Header, t: Table, u: Message, j: nat) {
    && u.Update? && LostBySender(v, h, t, j) && (forall i :: 0 <= i < j ==> !LostBySender(v, h, t, i))
    && t.slots[j] == Some(u.about) && u.epoch == Recorded(v, h, u.about) && u.hdr.sender == v.me
    && |u.claim| == |t.slots| && forall i :: 0 <= i < |t.slots| ==> (u.claim[i] <==> t.slots[i] == Some(u.about))
  }

  lemma TakenIs(v: View, h: Header) returns (w: View)
    requires Formed(v) && Fits(v, Ping(h))
    ensures w == TakeIn(Learn(v, h), h) && Formed(w) && Fits(w, Ping(h)) && w.me == v.me
    ensures w.table == OnPing(v, h).0.table && w.peers == OnPing(v, h).0.peers && w.peers.Keys == v.peers.Keys
    ensures forall k :: k in v.peers ==> k in w.configEpoch && w.configEpoch[k] == Recorded(v, h, k)
  {
    hide Learn, TakeIn, ResolveCollision, Corrections, BuildHeader, Dirty, LearnRole, Agree;
    LearnedIs(v, h);
    w := TakeIn(Learn(v, h), h);
    FormedFacts(w);
    ResolvedIs(w, h);
  }

  lemma OutdatedIs(v: View, h: Header, w: View, j: nat)
    requires Formed(v) && Formed(w) && Fits(v, Ping(h)) && w.peers.Keys == v.peers.Keys
    requires |w.table.slots| == |v.table.slots|
    requires forall k :: k in v.peers ==> k in w.configEpoch && w.configEpoch[k] == Recorded(v, h, k)
    requires j < |h.slots|
    ensures Outdated(w, h, j) <==> LostBySender(v, h, w.table, j)
  {
    hide Agree;
    FormedFacts(w);
    OwnerIsKnown(w.table, j);
  }

  lemma CorrectionIs(v: View, h: Header, w: View)
    requires Formed(v) && Formed(w) && Fits(v, Ping(h)) && Fits(w, Ping(h)) && w.me == v.me
    requires w.peers.Keys == v.peers.Keys && |w.table.slots| == |v.table.slots|
    requires forall k :: k in v.peers ==> k in w.configEpoch && w.configEpoch[k] == Recorded(v, h, k)
    ensures (exists j :: LostBySender(v, h, w.table, j)) <==> Corrections(w, h) != {}
    ensures forall u :: u in Corrections(w, h) ==> exists j :: Corrects(v, h, w.table, u, j)
  {
    hide Agree, FirstOutdated, LostBySender, Outdated, BuildHeader, Recorded;
    FormedFacts(w);
    forall j | 0 <= j < |h.slots|
      ensures Outdated(w, h, j) <==> LostBySender(v, h, w.table, j)
    {
      OutdatedIs(v, h, w, j);
    }
    LostInRange(v, h, w.table);
    var first := FirstOutdated(w, h, 0);
    if first.Some? {
      var j := first.value;
      assert Outdated(w, h, j) && LostBySender(v, h, w.table, j);
      LostParts(v, h, w.table, j);
      OwnerIsKnown(w.table, j);
      var n := w.table.slots[j].value;
      var u := UpdateAbout(w, n);
      HeaderSpeaks(w);
      OwnSlots(w.table, n);
      assert forall i :: 0 <= i < j ==> !Outdated(w, h, i);
      assert Corrects(v, h, w.table, u, j);
    }
  }

  lemma LostInRange(v: View, h: Header, t: Table)
    ensures forall j: nat :: LostBySender(v, h, t, j) ==> j < |h.slots|
  {
  }

  lemma LostParts(v: View, h: Header, t: Table, j: nat)
    requires LostBySender(v, h, t, j)
    ensures j < |h.slots| && j < |t.slots| && t.slots[j].Some? && t.slots[j].value != h.sender && h.slots[j]
    ensures Recorded(v, h, t.slots[j].value) > h.configEpoch
  {
  }

  lemma OwnSlots(t: Table, n: Node)
    requires Agree(t) && n in t.bitmaps
    ensures |t.bitmaps[n]| == |t.slots|
    ensures forall i :: 0 <= i < |t.slots| ==> (t.bitmaps[n][i] <==> t.slots[i] == Some(n))
  {
    assert NodeAgrees(t, n);
  }

  /** The slots in the header are not those recorded, once roles are known, for the sender or, if it is
      a slave, for its master. */
  ghost predicate Differs(h: Header, r: View) {
    && h.sender in r.peers
    && var n := if h.slaveOf.None? then Some(h.sender) else r.peers[h.sender].slaveOf;
       n.Some? && exists j :: 0 <= j < |h.slots| && j < |r.table.slots| && h.slots[j] != (r.table.slots[j] == n)
  }

  lemma KnownMaster(w: View, n: Node)
    requires Formed(w) && n in w.peers && w.peers[n].slaveOf.Some?
    ensures w.peers[n].slaveOf.value in w.peers
  {
    assert MasterKnown(w, n);
  }

  lemma SlaveDirtyIs(v: View, h: Header)
    requires Formed(v) && Fits(v, Ping(h)) && h.slaveOf.Some?
    ensures Dirty(LearnRole(Learn(v, h), h), h) <==> Differs(h, OnPing(v, h).0)
  {
    hide Agree, Learn, ResolveCollision, Corrections, BuildHeader, UpdateSlots, LearnRole;
    var w := LearnRole(Learn(v, h), h);
    LearnedIs(v, h);
    FormedFacts(w);
    var y := TakenIs(v, h);
    SlaveLearned(Learn(v, h), h);
    var n := w.peers[h.sender].slaveOf;
    if n.Some? {
      KnownMaster(w, h.sender);
      OwnSlots(w.table, n.value);
    }
  }

  lemma SlaveLearned(w: View, h: Header)
    requires Formed(w) && Fits(w, Ping(h)) && h.slaveOf.Some?
    ensures TakeIn(w, h) == LearnRole(w, h) && !LearnRole(w, h).peers[h.sender].isMaster
  {
    hide UpdateSlots, DelNodeSlots, Agree;
  }

  lemma MasterDirtyIs(v: View, h: Header, j: nat)
    requires Formed(v) && Fits(v, Ping(h)) && h.slaveOf.None? && LostBySender(v, h, OnPing(v, h).0.table, j)
    ensures Dirty(LearnRole(Learn(v, h), h), h) && Differs(h, OnPing(v, h).0)
  {
    hide Agree, Learn, ResolveCollision, Corrections, BuildHeader, UpdateSlots, LearnRole, OnPing, RolesAfter, Yields;
    var w := LearnRole(Learn(v, h), h);
    LearnedIs(v, h);
    FormedFacts(w);
    PingMoves(v, h);
    MasterLearned(Learn(v, h), h);
    OwnSlots(w.table, h.sender);
    assert h.slots[j] && w.table.slots[j] != Some(h.sender);
  }

  lemma DirtyIs(v: View, h: Header)
    requires Formed(v) && Fits(v, Ping(h))
    ensures var r := OnPing(v, h).0; var w := LearnRole(Learn(v, h), h);
            && (h.slaveOf.Some? ==> (Dirty(w, h) <==> Differs(h, r)))
            && (h.slaveOf.None? && (exists j :: LostBySender(v, h, r.table, j)) ==> Dirty(w, h) && Differs(h, r))
  {
    hide Formed, OnPing, Learn, LearnRole, Dirty, Differs, LostBySender;
    var r := OnPing(v, h).0;
    if h.slaveOf.Some? {
      SlaveDirtyIs(v, h);
    } else if exists j :: LostBySender(v, h, r.table, j) {
      var j :| LostBySender(v, h, r.table, j);
      MasterDirtyIs(v, h, j);
    }
  }

  /** The answers to a PING. One is a header that speaks for this node as it was before slots were
      taken in. There is an UPDATE if and only if the sender claims a slot that is another's under a
      greater epoch and its slots are not the recorded ones; it names the owner of the first such
      slot, with its epoch and slots. There is nothing else. */
  lemma PingAnswered(v: View, h: Header)
    requires Formed(v) && Fits(v, Ping(h))
    ensures var (r, ms) := OnPing(v, h);
            && (exists p :: p in ms && p.Ping? && Speaks(p.hdr, v, Recorded(v, h, Served(v))) &&
                  p.hdr.currentEpoch == Max(v.currentEpoch, h.currentEpoch) &&
                  forall m :: m in ms && m != p ==> m.Update?)
            && ((exists m :: m in ms && m.Update?) <==>
                  (exists j :: LostBySender(v, h, r.table, j)) && Differs(h, r))
            && forall m :: m in ms && m.Update? ==> exists j :: Corrects(v, h, r.table, m, j)
  {
    hide Agree, Learn, TakeIn, ResolveCollision, Corrections, BuildHeader, LearnRole, Dirty, Differs, LostBySender,
        Recorded, Corrects;
    var w := TakenIs(v, h);
    CorrectionIs(v, h, w);
    DirtyIs(v, h);
    var learned := Learn(v, h);
    LearnedIs(v, h);
    HeaderSpeaks(learned);
    LearnedEpoch(v, h);
    var p := Ping(BuildHeader(learned));
    assert p in OnPing(v, h).1;
  }

  lemma LearnedEpoch(v: View, h: Header)
    requires Formed(v) && h.sender in v.peers
    ensures Learn(v, h).currentEpoch == Max(v.currentEpoch, h.currentEpoch)
  {
  }

  // ---------------------------------------------------------------------------
  // Repair
  // ---------------------------------------------------------------------------

  /** The slot of w for which the answer u was sent. */
  ghost predicate Disputed(v: View, h: Header, w: View, u: Message, j: nat) {
    && u.Update? && j < |h.slots| == |v.table.slots| == |w.table.slots|
    && h.slots[j] && w.table.slots[j] == Some(w.me) && u.about != w.me
    && Formed(v) && Fits(v, Ping(h)) && OnPing(v, h).0.table.slots[j] == Some(u.about)
    && h.configEpoch < u.epoch
  }

  lemma DisputedSlot(v: View, h: Header, w: View, u: Message) returns (j: nat)
    requires Formed(v) && Fits(v, Ping(h)) && u in OnPing(v, h).1 && u.Update?
    requires Formed(w) && w.me == h.sender && h == BuildHeader(w) && w.peers[w.me].isMaster
    ensures Disputed(v, h, w, u, j) && Corrects(v, h, OnPing(v, h).0.table, u, j)
  {
    hide OnPing, BuildHeader, Agree, Recorded;
    PingAnswered(v, h);
    HeaderSpeaks(w);
    var t := OnPing(v, h).0.table;
    j :| Corrects(v, h, t, u, j);
    LostParts(v, h, t, j);
  }

  /** A master that claims a slot it has lost draws an UPDATE about the new owner. Once it receives
      that, with its slots still as they were, it gives the slot to the owner named if and only if it
      does not import the slot and the UPDATE is news to it. */
  lemma UpdateRepairs(v: View, h: Header, w: View, u: Message) returns (j: nat)
    requires Formed(v) && Fits(v, Ping(h)) && u in OnPing(v, h).1 && u.Update?
    requires Formed(w) && w.me == h.sender && h == BuildHeader(w) && w.peers[w.me].isMaster && Fits(w, u)
    ensures Disputed(v, h, w, u, j) && |w.importing| == |w.table.slots|
    ensures OnUpdate(w, u).table.slots[j] == Some(u.about) <==> !w.importing[j] && IsNews(w, u)
  {
    hide OnPing, OnUpdate, BuildHeader, Agree, IsNews, RolesAfter;
    j := DisputedSlot(v, h, w, u);
    HeaderSpeaks(w);
    UpdateMoves(w, u);
    assert Recorded(w, u.hdr, w.me) == w.configEpoch[w.me];
  }

  /** An UPDATE of a master about itself is never news: its epoch is in the header of the same message,
      which is read first. */
  lemma UpdateAboutItself(v: View, h: Header, w: View, u: Message)
    requires Formed(v) && Fits(v, Ping(h)) && u in OnPing(v, h).1 && u.Update?
    requires u.about == v.me && OnPing(v, h).0.peers[v.me].isMaster && Formed(w) && Fits(w, u)
    ensures !IsNews(w, u) && OnUpdate(w, u).table == w.table
  {
    hide Agree, Learn, TakeIn, ResolveCollision, LearnRole, Dirty, Recorded, BuildHeader, FirstOutdated, OnUpdate;
    var taken := TakenIs(v, h);
    HeaderSpeaks(taken);
    assert u == UpdateAbout(taken, u.about);
    assert u.epoch == u.hdr.configEpoch && u.hdr.sender == u.about;
    RecordedAtLeast(w, u.hdr);
    UpdateMoves(w, u);
  }

  lemma RecordedAtLeast(w: View, h: Header)
    ensures Recorded(w, h, h.sender) >= h.configEpoch
  {
  }

  /** ... but then the header that answers the same PING repairs: the slot goes to the master that
      sent it unless it is being imported. */
  lemma HeaderRepairs(v: View, h: Header, w: View, u: Message) returns (j: nat, p: Message)
    requires Formed(v) && Fits(v, Ping(h)) && u in OnPing(v, h).1 && u.Update? && u.about == v.me
    requires v.peers[v.me].isMaster && v.peers[v.me].slaveOf.None?
    requires Formed(w) && w.me == h.sender && h == BuildHeader(w) && w.peers[w.me].isMaster && v.me in w.peers
    requires |w.table.slots| == |v.table.slots|
    ensures Disputed(v, h, w, u, j) && |w.importing| == |w.table.slots|
    ensures p in OnPing(v, h).1 && p.Ping? && Fits(w, p)
    ensures OnPing(w, p.hdr).0.table.slots[j] == Some(v.me) <==> !w.importing[j]
  {
    hide OnPing, BuildHeader, Agree, RolesAfter;
    j := DisputedSlot(v, h, w, u);
    PingAnswered(v, h);
    p :| p in OnPing(v, h).1 && p.Ping? && Speaks(p.hdr, v, Recorded(v, h, Served(v)));
    HeaderSpeaks(w);
    PingMoves(v, h);
    assert v.table.slots[j] == Some(v.me);
    PingMoves(w, p.hdr);
    assert Recorded(w, p.hdr, w.me) == w.configEpoch[w.me];
  }

  /** Nodes that agree do not correct each other. */
  lemma AgreeingIsQuiet(v: View, w: View)
    requires Formed(v) && Formed(w) && w.table == v.table && w.configEpoch == v.configEpoch && w.me != v.me
    requires w.peers[w.me].isMaster <==> w.peers[w.me].slaveOf.None?
    ensures var h := BuildHeader(w); Fits(v, Ping(h)) && forall m :: m in OnPing(v, h).1 ==> !m.Update?
  {
    hide OnPing, BuildHeader, Agree, RolesAfter;
    var h := BuildHeader(w);
    FormedFacts(v);
    FormedFacts(w);
    HeaderSpeaks(w);
    PingAnswered(v, h);
    PingMoves(v, h);
    var t := OnPing(v, h).0.table;
    forall j: nat
      ensures !LostBySender(v, h, t, j)
    {
      if j < |h.slots| {
        assert h.slots[j] ==> v.table.slots[j] == Some(Served(w));
      }
    }
  }
}
