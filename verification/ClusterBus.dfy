/** One node's view of the cluster and what each bus message does to it.

    `View` gathers the cluster state of one process and the records it keeps of every node it
    knows. Every handler is a function from view to view; the messages it sends are returned. */
module ClusterBus {
  import opened SlotTable

  datatype Peer = Peer(isMaster: bool, slaveOf: Option<Node>, failed: bool, votedTime: int)

  datatype View = View(
    me: Node,
    peers: map<Node, Peer>,
    configEpoch: map<Node, nat>,
    table: Table,
    importing: seq<bool>,
    currentEpoch: nat,
    lastVoteEpoch: nat,
    authEpoch: nat,
    authCount: nat,
    authSent: bool,
    size: nat)

  /** The part of a message header that carries configuration. */
  datatype Header = Header(sender: Node, currentEpoch: nat, configEpoch: nat, slots: seq<bool>, slaveOf: Option<Node>)

  datatype Message =
    | Ping(hdr: Header)
    | Update(hdr: Header, about: Node, epoch: nat, claim: seq<bool>)
    | AuthRequest(hdr: Header, force: bool)
    | AuthAck(hdr: Header, to: Node)

  ghost predicate MasterKnown(v: View, n: Node) {
    n in v.peers && v.peers[n].slaveOf.Some? ==> v.peers[n].slaveOf.value in v.peers
  }

  /** Every node named anywhere has a record, a slave knows its own master, the slot table agrees
      and bitmaps cover all slots. */
  ghost predicate Formed(v: View) {
    && v.me in v.peers && (v.peers[v.me].isMaster || v.peers[v.me].slaveOf.Some?)
    && v.configEpoch.Keys == v.peers.Keys && v.table.bitmaps.Keys == v.peers.Keys
    && Agree(v.table)
    && |v.importing| == |v.table.slots|
    && (forall n {:trigger MasterKnown(v, n)} :: n in v.peers ==> MasterKnown(v, n))
  }

  lemma FormedFacts(v: View)
    requires Formed(v)
    ensures v.me in v.peers && (v.peers[v.me].isMaster || v.peers[v.me].slaveOf.Some?)
    ensures v.configEpoch.Keys == v.peers.Keys == v.table.bitmaps.Keys == v.table.numslots.Keys
    ensures Agree(v.table) && |v.importing| == |v.table.slots|
  {
  }

  /** What a message may carry to a node: known sender, bitmaps of the right length. */
  ghost predicate Fits(v: View, m: Message) {
    && m.hdr.sender in v.peers && m.hdr.sender != v.me
    && |m.hdr.slots| == |v.table.slots|
    && (m.Update? ==> |m.claim| == |v.table.slots|)
  }

  /** This node or, for a slave, its master. */
  function Mine(v: View): (n: Node)
    requires Formed(v)
    ensures n in v.peers
  {
    assert MasterKnown(v, v.me);
    if v.peers[v.me].isMaster then v.me else v.peers[v.me].slaveOf.value
  }

  function Max(a: nat, b: nat): nat {
    if a < b then b else a
  }

  // ---------------------------------------------------------------------------
  // Parts of the handlers
  // ---------------------------------------------------------------------------

  /** Epochs published in a header are adopted when they are newer. */
  function LearnEpochs(v: View, h: Header): View
    requires h.sender in v.configEpoch
  {
    v.(currentEpoch := Max(v.currentEpoch, h.currentEpoch),
       configEpoch := v.configEpoch[h.sender := Max(v.configEpoch[h.sender], h.configEpoch)])
  }

  lemma PeerKeepsFormed(v: View, n: Node, q: Peer)
    requires Formed(v) && n in v.peers && (q.slaveOf.Some? ==> q.slaveOf.value in v.peers)
    requires n == v.me ==> q.isMaster || q.slaveOf.Some?
    ensures Formed(v.(peers := v.peers[n := q]))
  {
    var r := v.(peers := v.peers[n := q]);
    forall m | m in r.peers
      ensures MasterKnown(r, m)
    {
      assert MasterKnown(v, m);
    }
  }

  lemma TableKeepsFormed(v: View, t: Table)
    requires Formed(v) && Agree(t) && t.bitmaps.Keys == v.table.bitmaps.Keys && |t.slots| == |v.table.slots|
    ensures Formed(v.(table := t))
  {
    forall m | m in v.peers
      ensures MasterKnown(v.(table := t), m)
    {
      assert MasterKnown(v, m);
    }
  }

  lemma EpochsKeepFormed(v: View, r: View)
    requires Formed(v) && r.configEpoch.Keys == v.configEpoch.Keys && |r.importing| == |v.importing|
    requires r.me == v.me && r.peers == v.peers && r.table == v.table
    ensures Formed(r)
  {
    forall m | m in v.peers
      ensures MasterKnown(r, m)
    {
      assert MasterKnown(v, m);
    }
  }

  function SetNodeAsMaster(v: View, n: Node): (r: View)
    requires Formed(v) && n in v.peers
    ensures Formed(r) && r == v.(peers := r.peers) && r.peers.Keys == v.peers.Keys
  {
    if v.peers[n].isMaster then v
    else
      PeerKeepsFormed(v, n, v.peers[n].(isMaster := true, slaveOf := None));
      v.(peers := v.peers[n := v.peers[n].(isMaster := true, slaveOf := None)])
  }

  /** A sender that announces a master: if it was a master itself it loses its slots. */
  function LearnSlave(v: View, n: Node, master: Node): (r: View)
    requires Formed(v) && n in v.peers && n != v.me
    ensures Formed(r) && r == v.(peers := r.peers, table := r.table) && r.peers.Keys == v.peers.Keys
    ensures |r.table.slots| == |v.table.slots|
  {
    var p := v.peers[n];
    var t := if p.isMaster then DelNodeSlots(v.table, n, |v.table.slots|) else v.table;
    var q := p.(isMaster := false, slaveOf := if master in v.peers then Some(master) else p.slaveOf);
    assert MasterKnown(v, n);
    TableKeepsFormed(v, t);
    PeerKeepsFormed(v.(table := t), n, q);
    v.(table := t, peers := v.peers[n := q])
  }

  /** The role a sender announces. */
  function LearnRole(v: View, h: Header): (r: View)
    requires Formed(v) && h.sender in v.peers && h.sender != v.me
    ensures Formed(r) && r == v.(peers := r.peers, table := r.table) && r.peers.Keys == v.peers.Keys
    ensures |r.table.slots| == |v.table.slots|
  {
    if h.slaveOf.None? then SetNodeAsMaster(v, h.sender) else LearnSlave(v, h.sender, h.slaveOf.value)
  }

  /** Become a replica of n. */
  function SetMaster(v: View, n: Node): (r: View)
    requires Formed(v) && n in v.peers
    ensures Formed(r) && r == v.(peers := r.peers, importing := r.importing) && r.peers.Keys == v.peers.Keys
  {
    var p := v.peers[v.me];
    var q := p.(isMaster := false, slaveOf := Some(n));
    var open := if p.isMaster then NoBits(|v.importing|) else v.importing;
    PeerKeepsFormed(v, v.me, q);
    EpochsKeepFormed(v.(peers := v.peers[v.me := q]), v.(peers := v.peers[v.me := q], importing := open));
    v.(peers := v.peers[v.me := q], importing := open)
  }

  function JudgeOf(v: View): Judge {
    Judge(v.configEpoch, v.importing)
  }

  /** A claim takes a slot from `mine`. */
  predicate TakesFrom(v: View, mine: Option<Node>, n: Node, epoch: nat, claim: seq<bool>)
    requires |claim| == |v.importing| == |v.table.slots|
  {
    exists j :: 0 <= j < |claim| && Wins(v.table, JudgeOf(v), n, epoch, claim, j) && v.table.slots[j] == mine
  }

  /** Slots claimed under a greater config epoch are rebound; a node whose (or whose master's)
      last slot went this way becomes a replica of the claimant. */
  function UpdateSlots(v: View, n: Node, epoch: nat, claim: seq<bool>): (r: View)
    requires Formed(v) && n in v.peers && |claim| == |v.table.slots|
    ensures Formed(r) && r == v.(peers := r.peers, table := r.table, importing := r.importing)
    ensures r.peers.Keys == v.peers.Keys && |r.table.slots| == |v.table.slots|
  {
    if n == v.me then v
    else
      var mine := Mine(v);
      var w := v.(table := Claim(v.table, JudgeOf(v), n, epoch, claim, |claim|));
      TableKeepsFormed(v, w.table);
      if TakesFrom(v, Some(mine), n, epoch, claim) && w.table.numslots[mine] == 0 then SetMaster(w, n) else w
  }

  /** Two masters with one config epoch: the one with the smaller name takes a new epoch. */
  function HandleCollision(v: View, sender: Node): View
    requires Formed(v) && sender in v.peers
  {
    if v.configEpoch[sender] != v.configEpoch[v.me] || !v.peers[sender].isMaster || !v.peers[v.me].isMaster then v
    else if sender <= v.me then v
    else v.(currentEpoch := v.currentEpoch + 1, configEpoch := v.configEpoch[v.me := v.currentEpoch + 1])
  }

  /** This node's config epoch is the greatest epoch it knows of. */
  predicate GreatestIsMine(v: View)
    requires v.me in v.configEpoch
  {
    v.configEpoch[v.me] >= v.currentEpoch && forall n :: n in v.configEpoch ==> v.configEpoch[n] <= v.configEpoch[v.me]
  }

  /** A config epoch taken without asking anybody (after importing a slot). */
  function BumpWithoutConsensus(v: View): (r: View)
    requires Formed(v)
    ensures Formed(r) && r.me == v.me && r.peers == v.peers && r.table == v.table
  {
    EpochsKeepFormed(v, v.(currentEpoch := v.currentEpoch + 1,
        configEpoch := v.configEpoch[v.me := v.currentEpoch + 1]));
    if v.configEpoch[v.me] == 0 || !GreatestIsMine(v)
    then v.(currentEpoch := v.currentEpoch + 1, configEpoch := v.configEpoch[v.me := v.currentEpoch + 1])
    else v
  }

  // ---------------------------------------------------------------------------
  // Messages received and sent
  // ---------------------------------------------------------------------------

  /** A slave publishes its master's slots and config epoch. */
  function BuildHeader(v: View): Header
    requires Formed(v)
  {
    assert MasterKnown(v, v.me);
    var p := v.peers[v.me];
    var master := if !p.isMaster && p.slaveOf.Some? then p.slaveOf.value else v.me;
    Header(v.me, v.currentEpoch, v.configEpoch[master], v.table.bitmaps[master], p.slaveOf)
  }

  /** The sender's (or its master's) recorded bitmap differs from the one it sent. */
  predicate Dirty(v: View, h: Header)
    requires Formed(v) && h.sender in v.peers
  {
    assert MasterKnown(v, h.sender);
    var p := v.peers[h.sender];
    if p.isMaster then v.table.bitmaps[h.sender] != h.slots
    else p.slaveOf.Some? && v.table.bitmaps[p.slaveOf.value] != h.slots
  }

  /** Slot j is claimed by the sender but owned by a node with a greater config epoch. */
  predicate Outdated(v: View, h: Header, j: nat)
    requires Formed(v) && j < |h.slots| == |v.table.slots|
  {
    assert OwnerKnown(v.table, j);
    var o := v.table.slots[j];
    h.slots[j] && o.Some? && o != Some(h.sender) && v.configEpoch[o.value] > h.configEpoch
  }

  /** The first outdated slot, searched from j. */
  function FirstOutdated(v: View, h: Header, j: nat): (r: Option<nat>)
    requires Formed(v) && j <= |h.slots| == |v.table.slots|
    ensures r.Some? ==> j <= r.value < |h.slots| && Outdated(v, h, r.value)
    ensures var end := if r.Some? then r.value else |h.slots|;
            forall i {:trigger Outdated(v, h, i)} :: j <= i < end ==> !Outdated(v, h, i)
    decreases |h.slots| - j
  {
    if j == |h.slots| then None else if Outdated(v, h, j) then Some(j) else FirstOutdated(v, h, j + 1)
  }

  function UpdateAbout(v: View, n: Node): Message
    requires Formed(v) && n in v.peers
  {
    Update(BuildHeader(v), n, v.configEpoch[n], v.table.bitmaps[n])
  }

  /** The view after a header's role and slots were taken in. */
  function TakeIn(v: View, h: Header): (r: View)
    requires Formed(v) && Fits(v, Ping(h))
    ensures Formed(r) && r == v.(peers := r.peers, table := r.table, importing := r.importing)
    ensures r.peers.Keys == v.peers.Keys && |r.table.slots| == |v.table.slots|
  {
    var w := LearnRole(v, h);
    if w.peers[h.sender].isMaster && Dirty(w, h) then UpdateSlots(w, h.sender, h.configEpoch, h.slots) else w
  }

  /** The epochs of a header are taken in first, whatever the message. */
  function Learn(v: View, h: Header): (r: View)
    requires Formed(v) && h.sender in v.peers
    ensures Formed(r) && r == LearnEpochs(v, h)
  {
    EpochsKeepFormed(v, LearnEpochs(v, h));
    LearnEpochs(v, h)
  }

  /** An UPDATE about the newer owner of a slot the sender still claims. */
  function Corrections(v: View, h: Header): (ms: set<Message>)
    requires Formed(v) && Fits(v, Ping(h))
    ensures ms == {} || exists n :: n in v.peers && ms == {UpdateAbout(v, n)}
  {
    var first := FirstOutdated(v, h, 0);
    if first.None? then {}
    else
      assert OwnerKnown(v.table, first.value);
      {UpdateAbout(v, v.table.slots[first.value].value)}
  }

  /** A master that receives its own config epoch from another master. */
  function ResolveCollision(v: View, h: Header): (r: View)
    requires Formed(v) && h.sender in v.peers
    ensures Formed(r) && r.me == v.me && r.peers == v.peers && r.table == v.table
  {
    EpochsKeepFormed(v, HandleCollision(v, h.sender));
    if v.peers[v.me].isMaster && v.peers[h.sender].isMaster && h.configEpoch == v.configEpoch[v.me]
    then HandleCollision(v, h.sender) else v
  }

  /** A PING or PONG: the new view, and the messages sent while it was processed (the PONG, and
      a correction when the sender's slots differ from the recorded ones). */
  function OnPing(v: View, h: Header): (r: (View, set<Message>))
    requires Formed(v) && Fits(v, Ping(h))
    ensures Formed(r.0) && r.0.me == v.me && r.0.peers.Keys == v.peers.Keys && |r.0.table.slots| == |v.table.slots|
  {
    var learned := Learn(v, h);
    var taken := TakeIn(learned, h);
    var corrections := if Dirty(LearnRole(learned, h), h) then Corrections(taken, h) else {};
    (ResolveCollision(taken, h), {Ping(BuildHeader(learned))} + corrections)
  }

  /** An UPDATE about some node's slots. */
  function OnUpdate(v: View, m: Message): (r: View)
    requires Formed(v) && m.Update? && Fits(v, m)
    ensures Formed(r) && r.me == v.me && r.peers.Keys == v.peers.Keys && |r.table.slots| == |v.table.slots|
  {
    var learned := Learn(v, m.hdr);
    if m.about !in learned.peers || learned.configEpoch[m.about] >= m.epoch then learned
    else
      var w := SetNodeAsMaster(learned, m.about);
      var x := w.(configEpoch := w.configEpoch[m.about := m.epoch]);
      EpochsKeepFormed(w, x);
      UpdateSlots(x, m.about, m.epoch, m.claim)
  }

  /** A claimed slot is served here under a config epoch greater than the request's. */
  predicate Superseded(v: View, h: Header)
    requires Formed(v) && |h.slots| == |v.table.slots|
  {
    exists j :: 0 <= j < |h.slots| && h.slots[j] && v.table.slots[j].Some? &&
        JudgeOf(v).Epoch(v.table.slots[j].value) > h.configEpoch
  }

  /** The conditions for granting a vote, on the view that already learned the request's epochs. */
  predicate MayVote(v: View, m: Message, now: int, twoTimeouts: int)
    requires Formed(v) && m.AuthRequest? && Fits(v, m)
  {
    assert MasterKnown(v, m.hdr.sender);
    var p := v.peers[m.hdr.sender];
    && v.peers[v.me].isMaster && v.table.numslots[v.me] != 0
    && m.hdr.currentEpoch >= v.currentEpoch
    && v.lastVoteEpoch != v.currentEpoch
    && !p.isMaster && p.slaveOf.Some? && (v.peers[p.slaveOf.value].failed || m.force)
    && now - v.peers[p.slaveOf.value].votedTime >= twoTimeouts
    && !Superseded(v, m.hdr)
  }

  /** A request for a vote: the new view and, when the vote is granted, the acknowledgement. */
  function OnAuthRequest(v: View, m: Message, now: int, twoTimeouts: int): (r: (View, set<Message>))
    requires Formed(v) && m.AuthRequest? && Fits(v, m)
    ensures Formed(r.0) && r.0.me == v.me && r.0.peers.Keys == v.peers.Keys && |r.0.table.slots| == |v.table.slots|
  {
    var learned := Learn(v, m.hdr);
    if !MayVote(learned, m, now, twoTimeouts) then (learned, {})
    else
      assert MasterKnown(learned, m.hdr.sender);
      var master := learned.peers[m.hdr.sender].slaveOf.value;
      assert MasterKnown(learned, master);
      var voted := learned.peers[master].(votedTime := now);
      PeerKeepsFormed(learned, master, voted);
      var w := learned.(peers := learned.peers[master := voted]);
      EpochsKeepFormed(w, w.(lastVoteEpoch := w.currentEpoch));
      (w.(lastVoteEpoch := w.currentEpoch), {AuthAck(BuildHeader(learned), m.hdr.sender)})
  }

  /** This acknowledgement would be counted. */
  predicate Countable(v: View, h: Header)
    requires Formed(v) && h.sender in v.peers
  {
    v.peers[h.sender].isMaster && v.table.numslots[h.sender] > 0 && h.currentEpoch >= v.authEpoch
  }

  function OnAuthAck(v: View, m: Message): (r: View)
    requires Formed(v) && m.AuthAck? && Fits(v, m)
    ensures Formed(r) && r.me == v.me && r.peers.Keys == v.peers.Keys && |r.table.slots| == |v.table.slots|
  {
    var learned := Learn(v, m.hdr);
    if Countable(learned, m.hdr) then
      EpochsKeepFormed(learned, learned.(authCount := learned.authCount + 1));
      learned.(authCount := learned.authCount + 1)
    else learned
  }

  // ---------------------------------------------------------------------------
  // The election, from the slave's side
  // ---------------------------------------------------------------------------

  /** What clocks and configuration decide: a manual failover is under way, the data is too old,
      the retry time has elapsed, the start time is still ahead, the attempt has expired.
      `force` marks requests of a manual failover that was started but may still be waiting. */
  datatype Clock = Clock(force: bool, manual: bool, tooOld: bool, retry: bool, early: bool, expired: bool)

  datatype Outcome = Outcome(view: View, sent: set<Message>, won: bool)

  /** There is a master to replace, and this slave is fit to replace it. */
  predicate FailoverDue(v: View, c: Clock)
    requires Formed(v)
  {
    assert MasterKnown(v, v.me);
    var p := v.peers[v.me];
    && !p.isMaster && (v.peers[p.slaveOf.value].failed || c.manual) && v.table.numslots[p.slaveOf.value] != 0
    && (!c.tooOld || c.manual)
  }

  function Quorum(v: View): nat {
    v.size / 2 + 1
  }

  /** Ask for votes in a new epoch. */
  function RequestVotes(v: View): (r: View)
    requires Formed(v)
    ensures Formed(r) && r.peers.Keys == v.peers.Keys && r.me == v.me && |r.table.slots| == |v.table.slots|
  {
    var r := v.(currentEpoch := v.currentEpoch + 1, authEpoch := v.currentEpoch + 1, authSent := true);
    EpochsKeepFormed(v, r);
    r
  }

  /** Take the epoch of the election and the slots of the failed master. */
  function ReplaceMaster(v: View): (r: View)
    requires Formed(v) && !v.peers[v.me].isMaster
    ensures Formed(r) && r.peers.Keys == v.peers.Keys && r.me == v.me && |r.table.slots| == |v.table.slots|
  {
    var master := Mine(v);
    var w := v.(configEpoch := v.configEpoch[v.me := Max(v.configEpoch[v.me], v.authEpoch)]);
    EpochsKeepFormed(v, w);
    var x := SetNodeAsMaster(w, w.me);
    var t := TakeOver(x.table, master, x.me, |x.table.slots|);
    TableKeepsFormed(x, t);
    x.(table := t)
  }

  /** One pass of the slave failover handler. */
  function OnFailover(v: View, c: Clock): (r: Outcome)
    requires Formed(v)
    ensures Formed(r.view) && r.view.me == v.me && r.view.peers.Keys == v.peers.Keys &&
        |r.view.table.slots| == |v.table.slots|
  {
    if !FailoverDue(v, c) then Outcome(v, {}, false)
    else if c.retry then
      EpochsKeepFormed(v, v.(authCount := 0, authSent := false));
      Outcome(v.(authCount := 0, authSent := false), {Ping(BuildHeader(v))}, false)
    else if c.early || c.expired then Outcome(v, {}, false)
    else if !v.authSent then
      var w := RequestVotes(v);
      Outcome(w, {AuthRequest(BuildHeader(w), c.force)}, false)
    else if v.authCount >= Quorum(v) then
      var w := ReplaceMaster(v);
      Outcome(w, {Ping(BuildHeader(w))}, true)
    else Outcome(v, {}, false)
  }
}
