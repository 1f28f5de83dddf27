/** Slot claims converge: whatever the order and however often the masters' claims arrive, an
    observing master binds every slot to its greatest-epoch claimant. */
module SlotConvergence {
  import opened SlotTable
  import opened ClusterBus

  /** A master of its own that owns nothing and imports nothing. */
  ghost predicate Observer(v: View) {
    && Formed(v) && v.peers[v.me].isMaster
    && (forall j :: 0 <= j < |v.importing| ==> !v.importing[j])
    && (forall j :: 0 <= j < |v.table.slots| ==> v.table.slots[j] != Some(v.me))
  }

  /** Headers of known masters, one claim per master, no two masters with the same epoch. */
  ghost predicate Claims(v: View, hs: set<Header>) {
    && (forall h :: h in hs ==> Fits(v, Ping(h)) && h.slaveOf.None?)
    && (forall g, h :: g in hs && h in hs && g.sender == h.sender ==>
        g.slots == h.slots && g.configEpoch == h.configEpoch)
    && (forall g, h :: g in hs && h in hs && g.configEpoch == h.configEpoch ==> g.sender == h.sender)
  }

  /** o is the greatest-epoch claimant of slot j among hs, or nobody when there is no claim. */
  ghost predicate IsBest(o: Option<Node>, hs: set<Header>, j: nat) {
    match o
    case None => forall h :: h in hs ==> !Claiming(h, j)
    case Some(n) => exists h :: Leads(h, hs, j) && h.sender == n
  }

  /** The claim of h on slot j is among hs, and none of them has a greater epoch. */
  ghost predicate Leads(h: Header, hs: set<Header>, j: nat) {
    h in hs && Claiming(h, j) && forall g :: g in hs && Claiming(g, j) ==> g.configEpoch <= h.configEpoch
  }

  ghost predicate Claiming(h: Header, j: nat) {
    j < |h.slots| && h.slots[j]
  }

  /** After hs were processed: their epochs are recorded and every slot has its best owner. */
  ghost predicate Settled(v: View, hs: set<Header>) {
    && Observer(v)
    && (forall h :: h in hs ==> h.sender in v.configEpoch && v.configEpoch[h.sender] == h.configEpoch)
    && (forall j :: 0 <= j < |v.table.slots| ==> IsBest(v.table.slots[j], hs, j))
  }

  /** What a claim of h leaves in slot j. */
  function After(v: View, h: Header, j: nat): Option<Node>
    requires j < |v.table.slots| == |h.slots|
  {
    var o := v.table.slots[j];
    if h.slots[j] && (o.None? || JudgeOf(v).Epoch(o.value) < h.configEpoch) then Some(h.sender) else o
  }

  lemma UpdateSlotsOfObserver(v: View, h: Header)
    requires Observer(v) && Fits(v, Ping(h)) && v.configEpoch[h.sender] == h.configEpoch
    ensures var w := UpdateSlots(v, h.sender, h.configEpoch, h.slots);
      && Observer(w) && w.peers == v.peers
      && forall j :: 0 <= j < |v.table.slots| ==> w.table.slots[j] == After(v, h, j)
  {
    hide Agree, NodeAgrees;
    assert Mine(v) == v.me;
    assert !TakesFrom(v, Some(v.me), h.sender, h.configEpoch, h.slots);
  }

  /** The comparison of bitmaps that skips the claim skips only claims that change nothing. */
  lemma CleanClaim(v: View, h: Header)
    requires Observer(v) && Fits(v, Ping(h)) && v.configEpoch[h.sender] == h.configEpoch
    requires v.table.bitmaps[h.sender] == h.slots
    ensures forall j :: 0 <= j < |v.table.slots| ==> v.table.slots[j] == After(v, h, j)
  {
    assert NodeAgrees(v.table, h.sender);
  }

  lemma RoleOfMaster(v: View, h: Header)
    requires Observer(v) && Fits(v, Ping(h)) && h.slaveOf.None?
    ensures var w := LearnRole(v, h); Observer(w) && w == v.(peers := w.peers) && w.peers[h.sender].isMaster
  {
    hide Agree, NodeAgrees;
  }

  lemma TakeInOfObserver(v: View, h: Header)
    requires Observer(v) && Fits(v, Ping(h)) && h.slaveOf.None? && v.configEpoch[h.sender] == h.configEpoch
    ensures var w := TakeIn(v, h);
      && Observer(w) && w.configEpoch == v.configEpoch
      && forall j :: 0 <= j < |v.table.slots| ==> w.table.slots[j] == After(v, h, j)
  {
    hide Formed, LearnRole, UpdateSlots, Observer;
    ObserverFormed(v);
    RoleOfMaster(v, h);
    var w := LearnRole(v, h);
    assert Fits(w, Ping(h)) by { FitsSame(v, w, h); }
    ObserverFormed(w);
    if Dirty(w, h) {
      UpdateSlotsOfObserver(w, h);
    } else {
      CleanClaim(w, h);
    }
  }

  lemma FitsSame(v: View, w: View, h: Header)
    requires Fits(v, Ping(h)) && w == v.(peers := w.peers) && w.peers.Keys == v.peers.Keys
    ensures Fits(w, Ping(h))
  {
  }

  lemma ObserverFormed(v: View)
    requires Observer(v)
    ensures Formed(v) && v.configEpoch.Keys == v.peers.Keys
  {
  }

  lemma LearnOfObserver(v: View, h: Header)
    requires Observer(v) && Fits(v, Ping(h)) && v.configEpoch[h.sender] <= h.configEpoch
    ensures var w := Learn(v, h);
            && Observer(w) && Fits(w, Ping(h)) && w.table == v.table
            && w.configEpoch == v.configEpoch[h.sender := h.configEpoch]
  {
    hide Agree;
  }

  lemma CollisionOfObserver(v: View, h: Header)
    requires Observer(v) && h.sender in v.peers
    ensures var w := ResolveCollision(v, h);
      && Observer(w) && w.table == v.table
      && forall n :: n in v.configEpoch && n != v.me ==> n in w.configEpoch && w.configEpoch[n] == v.configEpoch[n]
  {
    hide Agree;
  }

  /** One claim processed by the whole handler. */
  lemma PingOfObserver(v: View, h: Header)
    requires Observer(v) && Fits(v, Ping(h)) && h.slaveOf.None? && v.configEpoch[h.sender] <= h.configEpoch
    ensures var w := OnPing(v, h).0;
      && Observer(w) && w.me == v.me && w.peers.Keys == v.peers.Keys && |w.table.slots| == |v.table.slots|
      && w.configEpoch.Keys == v.configEpoch.Keys && w.configEpoch[h.sender] == h.configEpoch
      && (forall n :: n in v.configEpoch && n != h.sender && n != v.me ==> w.configEpoch[n] == v.configEpoch[n])
      && forall j :: 0 <= j < |v.table.slots| ==> w.table.slots[j] == After(Learn(v, h), h, j)
  {
    hide Formed, TakeIn, Learn, ResolveCollision, Observer, After;
    ObserverFormed(v);
    LearnOfObserver(v, h);
    var learned := Learn(v, h);
    ObserverFormed(learned);
    TakeInOfObserver(learned, h);
    var taken := TakeIn(learned, h);
    ObserverFormed(taken);
    CollisionOfObserver(taken, h);
    ObserverFormed(ResolveCollision(taken, h));
  }

  /** One slot: the old owner o, recorded under epoch e, against the claim of h. */
  lemma BestOfOne(o: Option<Node>, e: nat, r: Option<Node>, hs: set<Header>, h: Header, j: nat)
    requires IsBest(o, hs, j) && j < |h.slots|
    requires forall g :: g in hs && o == Some(g.sender) ==> g.configEpoch == e
    requires o == Some(h.sender) ==> e == h.configEpoch
    requires forall g :: g in hs && g.configEpoch == h.configEpoch ==> g.sender == h.sender
    requires r == if h.slots[j] && (o.None? || e < h.configEpoch) then Some(h.sender) else o
    ensures IsBest(r, hs + {h}, j)
  {
    if r == Some(h.sender) && r != o {
      if o.Some? {
        var g :| Leads(g, hs, j) && g.sender == o.value;
      }
      assert Leads(h, hs + {h}, j);
    } else if o.Some? {
      var g :| Leads(g, hs, j) && g.sender == o.value;
      assert Claiming(h, j) ==> h.configEpoch <= g.configEpoch;
      assert Leads(g, hs + {h}, j);
    }
  }

  /** Processing h adds it to the claims that are settled. */
  lemma PingSettles(v: View, hs: set<Header>, h: Header)
    requires Settled(v, hs) && Claims(v, hs + {h}) && v.configEpoch[h.sender] <= h.configEpoch
    ensures Settled(OnPing(v, h).0, hs + {h})
  {
    hide Formed, Learn, OnPing, Agree, IsBest, Observer;
    ObserverFormed(v);
    assert h in hs + {h};
    LearnOfObserver(v, h);
    PingOfObserver(v, h);
    var learned, w := Learn(v, h), OnPing(v, h).0;
    forall g | g in hs
      ensures g.sender in w.configEpoch && w.configEpoch[g.sender] == g.configEpoch
    {
      assert g in hs + {h};
    }
    forall j | 0 <= j < |w.table.slots|
      ensures IsBest(w.table.slots[j], hs + {h}, j)
    {
      var o := v.table.slots[j];
      var e := if o.Some? then JudgeOf(learned).Epoch(o.value) else 0;
      assert forall g :: g in hs ==> g in hs + {h};
      BestOfOne(o, e, w.table.slots[j], hs, h, j);
    }
  }

  // ---------------------------------------------------------------------------
  // Any order, any repetition
  // ---------------------------------------------------------------------------

  function Process(v: View, hs: seq<Header>): (r: View)
    requires Formed(v) && forall h :: h in hs ==> Fits(v, Ping(h))
    ensures Formed(r) && r.me == v.me && r.peers.Keys == v.peers.Keys && |r.table.slots| == |v.table.slots|
  {
    if |hs| == 0 then v
    else
      assert Fits(v, Ping(hs[|hs| - 1]));
      OnPing(Process(v, hs[..|hs| - 1]), hs[|hs| - 1]).0
  }

  ghost function Elements(hs: seq<Header>): set<Header> {
    set h | h in hs
  }

  /** No claimant is recorded under a greater epoch than the one it claims with. */
  ghost predicate Ready(v: View, hs: set<Header>) {
    forall h :: h in hs ==> h.sender in v.configEpoch && v.configEpoch[h.sender] <= h.configEpoch
  }

  lemma ClaimsFit(v: View, hs: seq<Header>, all: set<Header>)
    requires Claims(v, all) && Elements(hs) <= all
    ensures forall h :: h in hs ==> Fits(v, Ping(h))
  {
    assert forall h :: h in hs ==> h in Elements(hs);
  }

  lemma ClaimsSame(v: View, w: View, all: set<Header>)
    requires Claims(v, all) && w.me == v.me && w.peers.Keys == v.peers.Keys && |w.table.slots| == |v.table.slots|
    ensures Claims(w, all)
  {
  }

  lemma ReadyKept(v: View, h: Header, all: set<Header>)
    requires Observer(v) && Claims(v, all) && Ready(v, all) && h in all
    ensures Ready(OnPing(v, h).0, all)
  {
    hide OnPing, Observer, Formed;
    ObserverFormed(v);
    PingOfObserver(v, h);
  }

  lemma {:induction false} ProcessSettles(v: View, hs: seq<Header>, all: set<Header>)
    requires Observer(v) && Claims(v, all) && Ready(v, all) && Elements(hs) <= all
    requires forall j :: 0 <= j < |v.table.slots| ==> v.table.slots[j].None?
    ensures forall h :: h in hs ==> Fits(v, Ping(h))
    ensures Settled(Process(v, hs), Elements(hs)) && Ready(Process(v, hs), all)
  {
    hide OnPing, Observer, Formed, Fits;
    ObserverFormed(v);
    ClaimsFit(v, hs, all);
    if |hs| == 0 {
      assert Elements(hs) == {};
    } else {
      var init, last := hs[..|hs| - 1], hs[|hs| - 1];
      assert Elements(hs) == Elements(init) + {last};
      ClaimsFit(v, init, all);
      ProcessSettles(v, init, all);
      var w := Process(v, init);
      ClaimsSame(v, w, all);
      assert last in all;
      assert Claims(w, Elements(init) + {last}) by { FewerClaims(w, Elements(hs), all); }
      PingSettles(w, Elements(init), last);
      ReadyKept(w, last, all);
    }
  }

  lemma FewerClaims(v: View, some: set<Header>, all: set<Header>)
    requires Claims(v, all) && some <= all
    ensures Claims(v, some)
  {
  }

  /** CONVERGENCE. From an unassigned table, claims processed in any order and with any repetition
      bind every slot to the claimant with the greatest config epoch. */
  lemma ClaimsConverge(v: View, hs: seq<Header>)
    requires Observer(v) && Claims(v, Elements(hs)) && Ready(v, Elements(hs))
    requires forall j :: 0 <= j < |v.table.slots| ==> v.table.slots[j].None?
    ensures forall h :: h in hs ==> Fits(v, Ping(h))
    ensures forall j :: 0 <= j < |v.table.slots| ==> IsBest(Process(v, hs).table.slots[j], Elements(hs), j)
  {
    hide OnPing, Observer, Formed, Process, IsBest;
    ObserverFormed(v);
    ProcessSettles(v, hs, Elements(hs));
  }

  lemma BestIsUnique(o: Option<Node>, p: Option<Node>, v: View, hs: set<Header>, j: nat)
    requires Claims(v, hs) && IsBest(o, hs, j) && IsBest(p, hs, j)
    ensures o == p
  {
    if o.Some? && p.Some? {
      var g :| Leads(g, hs, j) && g.sender == o.value;
      var h :| Leads(h, hs, j) && h.sender == p.value;
    }
  }

  /** Two observers that start alike and receive the same claims, each in its own order, end with
      the same slot table. */
  lemma OrderDoesNotMatter(v: View, hs: seq<Header>, gs: seq<Header>)
    requires Observer(v) && Claims(v, Elements(hs)) && Ready(v, Elements(hs)) && Elements(gs) == Elements(hs)
    requires forall j :: 0 <= j < |v.table.slots| ==> v.table.slots[j].None?
    ensures (forall h :: h in hs ==> Fits(v, Ping(h))) && (forall h :: h in gs ==> Fits(v, Ping(h)))
    ensures Process(v, hs).table == Process(v, gs).table
  {
    hide OnPing, Observer, Process, IsBest;
    ObserverFormed(v);
    ClaimsConverge(v, hs);
    ClaimsConverge(v, gs);
    var t, u := Process(v, hs).table, Process(v, gs).table;
    forall j | 0 <= j < |t.slots|
      ensures t.slots[j] == u.slots[j]
    {
      BestIsUnique(t.slots[j], u.slots[j], v, Elements(hs), j);
    }
    AgreeDetermines(t, u);
  }
}
