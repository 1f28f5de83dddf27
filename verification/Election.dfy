/** The cluster as a whole: nodes, the messages in flight, and every run of elections.

    A message that was sent may be delivered any number of times, in any order, or never - except
    that a vote (an acknowledgement) is delivered at most once. */
module Election {
  import opened SlotTable
  import opened ClusterBus

  // ---------------------------------------------------------------------------
  // Epoch dominance, one handler at a time
  // ---------------------------------------------------------------------------

  ghost predicate Below(v: View, n: Node) {
    n in v.configEpoch ==> v.configEpoch[n] <= v.currentEpoch
  }

  /** The current epoch of a node bounds every other epoch it keeps. */
  ghost predicate Dominates(v: View) {
    && v.lastVoteEpoch <= v.currentEpoch && v.authEpoch <= v.currentEpoch
    && forall n {:trigger Below(v, n)} :: n in v.configEpoch ==> Below(v, n)
  }

  /** ... and so does the current epoch in every message. */
  ghost predicate Bounded(m: Message) {
    m.hdr.configEpoch <= m.hdr.currentEpoch && (m.Update? ==> m.epoch <= m.hdr.currentEpoch)
  }

  ghost predicate AllBounded(ms: set<Message>) {
    forall m :: m in ms ==> Bounded(m)
  }

  /** Handlers that take no part in the election leave its fields alone. */
  ghost predicate ElectionSame(v: View, w: View) {
    && w.lastVoteEpoch == v.lastVoteEpoch && w.authEpoch == v.authEpoch
    && w.authCount == v.authCount && w.authSent == v.authSent && w.currentEpoch >= v.currentEpoch
  }

  lemma LearnDominates(v: View, h: Header)
    requires Formed(v) && h.sender in v.peers && Dominates(v) && h.configEpoch <= h.currentEpoch
    ensures Dominates(Learn(v, h)) && ElectionSame(v, Learn(v, h))
    ensures Learn(v, h).currentEpoch == Max(v.currentEpoch, h.currentEpoch)
  {
    var w := Learn(v, h);
    forall n | n in w.configEpoch
      ensures Below(w, n)
    {
      assert Below(v, n);
    }
  }

  /** Raising this node's config epoch together with the current epoch. */
  lemma RaiseDominates(v: View, w: View, n: Node, e: nat)
    requires Dominates(v) && n in v.configEpoch && e <= w.currentEpoch && v.currentEpoch <= w.currentEpoch
    requires w.configEpoch == v.configEpoch[n := e]
    requires w.lastVoteEpoch <= w.currentEpoch && w.authEpoch <= w.currentEpoch
    ensures Dominates(w)
  {
    forall m | m in w.configEpoch
      ensures Below(w, m)
    {
      assert Below(v, m);
    }
  }

  /** A change that leaves all epochs alone. */
  lemma SameEpochsDominate(v: View, w: View)
    requires Dominates(v) && w.configEpoch == v.configEpoch && w.currentEpoch == v.currentEpoch
    requires w.lastVoteEpoch <= w.currentEpoch && w.authEpoch <= w.currentEpoch
    ensures Dominates(w)
  {
    forall m | m in w.configEpoch
      ensures Below(w, m)
    {
      assert Below(v, m);
    }
  }

  lemma HeaderBounded(v: View)
    requires Formed(v) && Dominates(v)
    ensures BuildHeader(v).configEpoch <= BuildHeader(v).currentEpoch == v.currentEpoch && BuildHeader(v).sender == v.me
  {
    assert MasterKnown(v, v.me);
    var h := BuildHeader(v);
    assert Below(v, v.me) && (v.peers[v.me].slaveOf.Some? ==> Below(v, v.peers[v.me].slaveOf.value));
  }

  lemma UpdateAboutBounded(v: View, n: Node)
    requires Formed(v) && Dominates(v) && n in v.peers
    ensures Bounded(UpdateAbout(v, n))
  {
    HeaderBounded(v);
    assert Below(v, n);
  }

  lemma TakeInSame(v: View, h: Header)
    requires Formed(v) && Fits(v, Ping(h)) && Dominates(v)
    ensures Dominates(TakeIn(v, h)) && ElectionSame(v, TakeIn(v, h)) && TakeIn(v, h).currentEpoch == v.currentEpoch
  {
    SameEpochsDominate(v, TakeIn(v, h));
  }

  lemma CollisionDominates(v: View, h: Header)
    requires Formed(v) && h.sender in v.peers && Dominates(v)
    ensures Dominates(ResolveCollision(v, h)) && ElectionSame(v, ResolveCollision(v, h))
  {
    var w := ResolveCollision(v, h);
    if w != v {
      RaiseDominates(v, w, v.me, v.currentEpoch + 1);
    }
  }

  lemma OnPingKeeps(v: View, h: Header)
    requires Formed(v) && Fits(v, Ping(h)) && Dominates(v) && h.configEpoch <= h.currentEpoch
    ensures var (w, ms) := OnPing(v, h);
      Dominates(w) && ElectionSame(v, w) && AllBounded(ms) && forall m :: m in ms ==> m.Ping? || m.Update?
  {
    hide Learn, TakeIn, ResolveCollision, Corrections, BuildHeader, Dirty, LearnRole, Formed;
    var learned := Learn(v, h);
    LearnDominates(v, h);
    HeaderBounded(learned);
    var taken := TakeIn(learned, h);
    TakeInSame(learned, h);
    CollisionDominates(taken, h);
    var corrections := Corrections(taken, h);
    if corrections != {} {
      var n :| n in taken.peers && corrections == {UpdateAbout(taken, n)};
      UpdateAboutBounded(taken, n);
    }
  }

  lemma OnUpdateKeeps(v: View, m: Message)
    requires Formed(v) && m.Update? && Fits(v, m) && Dominates(v) && Bounded(m)
    ensures Dominates(OnUpdate(v, m)) && ElectionSame(v, OnUpdate(v, m))
  {
    var learned := Learn(v, m.hdr);
    LearnDominates(v, m.hdr);
    if m.about in learned.peers && learned.configEpoch[m.about] < m.epoch {
      RaiseDominates(learned, OnUpdate(v, m), m.about, m.epoch);
    }
  }

  lemma OnAuthRequestKeeps(v: View, m: Message, now: int, twoTimeouts: int)
    requires Formed(v) && m.AuthRequest? && Fits(v, m) && Dominates(v) && Bounded(m)
    ensures var (w, ms) := OnAuthRequest(v, m, now, twoTimeouts);
      && Dominates(w) && AllBounded(ms)
      && w.authEpoch == v.authEpoch && w.authCount == v.authCount && w.authSent == v.authSent
      && w.currentEpoch >= v.currentEpoch
      && if ms == {} then w.lastVoteEpoch == v.lastVoteEpoch
         else
           // one vote, in the epoch of the request, in which this node had not voted before
           && v.lastVoteEpoch < w.lastVoteEpoch == m.hdr.currentEpoch
           && exists a :: ms == {a} && a.AuthAck? && a.to == m.hdr.sender && a.hdr.sender == v.me &&
               a.hdr.currentEpoch == m.hdr.currentEpoch
  {
    var learned := Learn(v, m.hdr);
    LearnDominates(v, m.hdr);
    HeaderBounded(learned);
    if MayVote(learned, m, now, twoTimeouts) {
      var (w, ms) := OnAuthRequest(v, m, now, twoTimeouts);
      SameEpochsDominate(learned, w);
      assert ms == {AuthAck(BuildHeader(learned), m.hdr.sender)};
    }
  }

  lemma OnAuthAckKeeps(v: View, m: Message)
    requires Formed(v) && m.AuthAck? && Fits(v, m) && Dominates(v) && Bounded(m)
    ensures var w := OnAuthAck(v, m);
      && Dominates(w) && w.lastVoteEpoch == v.lastVoteEpoch && w.authEpoch == v.authEpoch && w.authSent == v.authSent
      && w.currentEpoch >= v.currentEpoch
      && w.authCount == v.authCount + (if Countable(Learn(v, m.hdr), m.hdr) then 1 else 0)
  {
    LearnDominates(v, m.hdr);
    SameEpochsDominate(Learn(v, m.hdr), OnAuthAck(v, m));
  }

  lemma OnFailoverKeeps(v: View, c: Clock)
    requires Formed(v) && Dominates(v)
    ensures var r := OnFailover(v, c);
      && Dominates(r.view) && AllBounded(r.sent) && r.view.lastVoteEpoch == v.lastVoteEpoch
      && r.view.currentEpoch >= v.currentEpoch
  {
    var r := OnFailover(v, c);
    HeaderBounded(v);
    assert Dominates(r.view) by {
      forall n | n in r.view.configEpoch
        ensures Below(r.view, n)
      {
        assert Below(v, n);
      }
    }
    HeaderBounded(r.view);
  }

  lemma BumpDominates(v: View)
    requires Formed(v) && Dominates(v)
    ensures Dominates(BumpWithoutConsensus(v)) && ElectionSame(v, BumpWithoutConsensus(v))
  {
    if BumpWithoutConsensus(v) != v {
      RaiseDominates(v, BumpWithoutConsensus(v), v.me, v.currentEpoch + 1);
    }
  }

  // ---------------------------------------------------------------------------
  // The system
  // ---------------------------------------------------------------------------

  /** `counted` holds the votes already delivered, `wins` every election won so far. */
  datatype System = System(views: map<Node, View>, sent: set<Message>, counted: set<Message>, wins: set<(Node, nat)>)

  datatype Step =
    | SendPing(n: Node)
    | Deliver(n: Node, m: Message, now: int, twoTimeouts: int)
    | FailoverCron(n: Node, clock: Clock)
    | Bump(n: Node)
    | Local(n: Node, v: View)

  ghost predicate ViewFormed(s: System, n: Node) {
    n in s.views ==> Formed(s.views[n]) && s.views[n].me == n
  }

  ghost predicate SystemFormed(s: System) {
    forall n {:trigger ViewFormed(s, n)} :: n in s.views ==> ViewFormed(s, n)
  }

  /** A change of roles, failure flags, slots, imports or cluster size on one node: anything that
      touches neither an epoch nor the election. */
  ghost predicate IsLocal(v: View, w: View) {
    && Formed(w)
    && w == v.(peers := w.peers, table := w.table, importing := w.importing, size := w.size)
  }

  ghost predicate Enabled(s: System, step: Step) {
    && step.n in s.views
    && match step
       case Deliver(n, m, _, _) => m in s.sent && Fits(s.views[n], m) && (m.AuthAck? ==> m.to == n && m !in s.counted)
       case Local(n, w) => IsLocal(s.views[n], w)
       case _ => true
  }

  /** What one step does: the node's new view, messages sent, votes consumed, elections won. */
  datatype Effect = Effect(view: View, sent: set<Message>, counted: set<Message>, wins: set<(Node, nat)>)

  ghost function Receive(v: View, m: Message, now: int, twoTimeouts: int): (e: Effect)
    requires Formed(v) && Fits(v, m)
    ensures Formed(e.view) && e.view.me == v.me
  {
    match m
    case Ping(h) => Effect(OnPing(v, h).0, OnPing(v, h).1, {}, {})
    case Update(_, _, _, _) => Effect(OnUpdate(v, m), {}, {}, {})
    case AuthRequest(_, _) =>
      var r := OnAuthRequest(v, m, now, twoTimeouts);
      Effect(r.0, r.1, {}, {})
    case AuthAck(_, _) => Effect(OnAuthAck(v, m), {}, {m}, {})
  }

  ghost function Act(v: View, step: Step): (e: Effect)
    requires Formed(v) && (step.Deliver? ==> Fits(v, step.m)) && (step.Local? ==> IsLocal(v, step.v))
    ensures Formed(e.view) && e.view.me == v.me
  {
    match step
    case SendPing(_) => Effect(v, {Ping(BuildHeader(v))}, {}, {})
    case Deliver(_, m, now, twoTimeouts) => Receive(v, m, now, twoTimeouts)
    case FailoverCron(n, c) =>
      var o := OnFailover(v, c);
      Effect(o.view, o.sent, {}, if o.won then {(v.me, v.authEpoch)} else {})
    case Bump(_) => Effect(BumpWithoutConsensus(v), {}, {}, {})
    case Local(_, w) => Effect(w, {}, {}, {})
  }

  /** One node takes one step. */
  ghost function Next(s: System, step: Step): (r: System)
    requires SystemFormed(s) && Enabled(s, step)
    ensures SystemFormed(r) && r.views.Keys == s.views.Keys
  {
    assert ViewFormed(s, step.n);
    var e := Act(s.views[step.n], step);
    var r := System(s.views[step.n := e.view], s.sent + e.sent, s.counted + e.counted, s.wins + e.wins);
    assert forall k :: k in r.views ==> ViewFormed(s, k) ==> ViewFormed(r, k);
    r
  }

  // ---------------------------------------------------------------------------
  // Epoch dominance over runs
  // ---------------------------------------------------------------------------

  ghost predicate ViewDominates(s: System, n: Node) {
    n in s.views ==> Dominates(s.views[n])
  }

  ghost predicate SystemDominated(s: System) {
    AllBounded(s.sent) && forall n {:trigger ViewDominates(s, n)} :: n in s.views ==> ViewDominates(s, n)
  }

  lemma ReceiveDominates(v: View, m: Message, now: int, twoTimeouts: int)
    requires Formed(v) && Fits(v, m) && Dominates(v) && Bounded(m)
    ensures var e := Receive(v, m, now, twoTimeouts);
      Dominates(e.view) && AllBounded(e.sent) && e.view.currentEpoch >= v.currentEpoch
  {
    hide OnPing, OnUpdate, OnAuthRequest, OnAuthAck, Formed, Dominates;
    match m
    case Ping(h) => OnPingKeeps(v, h);
    case Update(_, _, _, _) => OnUpdateKeeps(v, m);
    case AuthRequest(_, _) => OnAuthRequestKeeps(v, m, now, twoTimeouts);
    case AuthAck(_, _) => OnAuthAckKeeps(v, m);
  }

  lemma ActDominates(v: View, step: Step)
    requires Formed(v) && (step.Deliver? ==> Fits(v, step.m)) && (step.Local? ==> IsLocal(v, step.v))
    requires Dominates(v) && (step.Deliver? ==> Bounded(step.m))
    ensures var e := Act(v, step); Dominates(e.view) && AllBounded(e.sent) && e.view.currentEpoch >= v.currentEpoch
  {
    match step
    case SendPing(_) => HeaderBounded(v);
    case Deliver(_, m, now, twoTimeouts) => ReceiveDominates(v, m, now, twoTimeouts);
    case FailoverCron(_, c) => OnFailoverKeeps(v, c);
    case Bump(_) => BumpDominates(v);
    case Local(_, w) => SameEpochsDominate(v, w);
  }

  lemma NextDominated(s: System, step: Step)
    requires SystemFormed(s) && Enabled(s, step) && SystemDominated(s)
    ensures SystemDominated(Next(s, step)) && Next(s, step).views[step.n].currentEpoch >= s.views[step.n].currentEpoch
  {
    hide Act, Formed, Dominates, Bounded;
    assert ViewFormed(s, step.n) && ViewDominates(s, step.n);
    ActDominates(s.views[step.n], step);
    var r := Next(s, step);
    forall k | k in r.views
      ensures ViewDominates(r, k)
    {
      assert ViewDominates(s, k);
    }
  }

  /** A finite run: every step enabled where it is taken. */
  ghost predicate Reaches(s: System, steps: seq<Step>, t: System)
    requires SystemFormed(s)
    decreases |steps|
  {
    if |steps| == 0 then s == t else Enabled(s, steps[0]) && Reaches(Next(s, steps[0]), steps[1..], t)
  }

  /** EPOCH DOMINANCE. In every reachable state each node's current epoch is at least its vote,
      its election and every config epoch it records, and every message carries config epochs no
      greater than its own current epoch. */
  lemma {:induction false} EpochDominance(s: System, steps: seq<Step>, t: System)
    requires SystemFormed(s) && SystemDominated(s) && Reaches(s, steps, t)
    ensures SystemDominated(t)
    ensures forall n, k :: n in t.views && k in t.views[n].configEpoch ==>
      && t.views[n].configEpoch[k] <= t.views[n].currentEpoch
      && t.views[n].authEpoch <= t.views[n].currentEpoch
    ensures forall m :: m in t.sent ==>
      m.hdr.configEpoch <= m.hdr.currentEpoch && (m.Update? ==> m.epoch <= m.hdr.currentEpoch)
    decreases |steps|
  {
    if |steps| == 0 {
      forall n, k | n in t.views && k in t.views[n].configEpoch
        ensures t.views[n].configEpoch[k] <= t.views[n].currentEpoch && t.views[n].authEpoch <= t.views[n].currentEpoch
      {
        assert ViewDominates(t, n) && Below(t.views[n], k);
      }
    } else {
      NextDominated(s, steps[0]);
      EpochDominance(Next(s, steps[0]), steps[1..], t);
    }
  }

  // ---------------------------------------------------------------------------
  // Election safety
  // ---------------------------------------------------------------------------

  /** The voters of each epoch. A fixed set of slot-serving masters is the constant function. */
  type Electorate = nat -> set<Node>

  /** What elections take for granted of the electorate: who votes in an epoch belongs to it, and
      who wins an epoch counted a majority of it. */
  ghost predicate ByElectorate(s: System, step: Step, el: Electorate)
    requires SystemFormed(s) && Enabled(s, step)
  {
    assert ViewFormed(s, step.n);
    var v := s.views[step.n];
    && (step.FailoverCron? && OnFailover(v, step.clock).won ==> v.size == |el(v.authEpoch)|)
    && (step.Deliver? && step.m.AuthRequest? && OnAuthRequest(v, step.m, step.now, step.twoTimeouts).1 != {} ==>
          step.n in el(step.m.hdr.currentEpoch))
  }

  /** No vote is counted between the reset of the counter and the request for votes in a new epoch. */
  ghost predicate NoStaleVote(s: System, step: Step)
    requires SystemFormed(s) && Enabled(s, step)
  {
    assert ViewFormed(s, step.n);
    var v := s.views[step.n];
    step.Deliver? && step.m.AuthAck? && Countable(Learn(v, step.m.hdr), step.m.hdr) ==> v.authSent
  }

  ghost predicate Stable(s: System, step: Step, el: Electorate)
    requires SystemFormed(s) && Enabled(s, step)
  {
    ByElectorate(s, step, el) && NoStaleVote(s, step)
  }

  ghost predicate RequestOk(s: System, m: Message) {
    m in s.sent && m.AuthRequest? ==> m.hdr.sender in s.views && m.hdr.currentEpoch <= s.views[m.hdr.sender].authEpoch
  }

  /** A vote that was sent: cast by its sender at or before its last vote, for an epoch the
      candidate has asked for, by a member of that epoch's electorate. */
  ghost predicate AckOk(s: System, el: Electorate, m: Message) {
    m in s.sent && m.AuthAck? ==>
      && m.hdr.sender in s.views && m.hdr.currentEpoch <= s.views[m.hdr.sender].lastVoteEpoch
      && m.to in s.views && m.hdr.currentEpoch <= s.views[m.to].authEpoch
      && m.hdr.sender in el(m.hdr.currentEpoch)
  }

  /** A master votes at most once per epoch. */
  ghost predicate OneVote(s: System, a: Message, b: Message) {
    a in s.sent && b in s.sent && a.AuthAck? && b.AuthAck? && a.hdr.sender == b.hdr.sender &&
        a.hdr.currentEpoch == b.hdr.currentEpoch
    ==> a == b
  }

  /** The nodes whose votes for c in epoch e were delivered. */
  ghost function Supporters(ms: set<Message>, c: Node, e: nat): set<Node> {
    set m | m in ms && m.AuthAck? && m.to == c && m.hdr.currentEpoch == e :: m.hdr.sender
  }

  /** Every counted vote is a vote of the election under way; before the request there is none. */
  ghost predicate Tally(s: System, c: Node) {
    c in s.views ==>
      var v := s.views[c];
      if v.authSent then v.authCount <= |Supporters(s.counted, c, v.authEpoch)| else v.authCount == 0
  }

  ghost predicate WonByMajority(s: System, el: Electorate, c: Node, e: nat) {
    (c, e) in s.wins ==> |Supporters(s.counted, c, e)| >= |el(e)| / 2 + 1
  }

  ghost predicate VotesOk(s: System, el: Electorate) {
    && (forall m {:trigger RequestOk(s, m)} :: m in s.sent ==> RequestOk(s, m))
    && (forall m {:trigger AckOk(s, el, m)} :: m in s.sent ==> AckOk(s, el, m))
    && (forall a, b {:trigger OneVote(s, a, b)} :: a in s.sent && b in s.sent ==> OneVote(s, a, b))
    && s.counted <= s.sent
  }

  ghost predicate Inv(s: System, el: Electorate) {
    && SystemFormed(s) && SystemDominated(s) && VotesOk(s, el)
    && (forall c {:trigger Tally(s, c)} :: c in s.views ==> Tally(s, c))
    && (forall c, e {:trigger WonByMajority(s, el, c, e)} :: (c, e) in s.wins ==> WonByMajority(s, el, c, e))
  }

  /** Messages other than votes and requests, and election epochs that only grow. */
  lemma QuietVotes(s: System, r: System, el: Electorate, n: Node, ms: set<Message>)
    requires VotesOk(s, el) && n in s.views && n in r.views
    requires r.sent == s.sent + ms && r.counted <= r.sent && r.views == s.views[n := r.views[n]]
    requires forall m :: m in ms ==> m.Ping? || m.Update?
    requires r.views[n].authEpoch >= s.views[n].authEpoch && r.views[n].lastVoteEpoch >= s.views[n].lastVoteEpoch
    ensures VotesOk(r, el)
  {
    forall m | m in r.sent
      ensures RequestOk(r, m) && AckOk(r, el, m)
    {
      assert RequestOk(s, m) && AckOk(s, el, m);
    }
    forall a, b | a in r.sent && b in r.sent
      ensures OneVote(r, a, b)
    {
      assert OneVote(s, a, b);
    }
  }

  /** A granted vote. */
  lemma VoteVotes(s: System, r: System, el: Electorate, n: Node, req: Message, a: Message)
    requires VotesOk(s, el) && n in s.views && n in r.views && req in s.sent && req.AuthRequest? && req.hdr.sender != n
    requires r.sent == s.sent + {a} && r.counted == s.counted && r.views == s.views[n := r.views[n]]
    requires a.AuthAck? && a.to == req.hdr.sender && a.hdr.sender == n && a.hdr.currentEpoch == req.hdr.currentEpoch
    requires n in el(a.hdr.currentEpoch) && r.views[n].authEpoch == s.views[n].authEpoch
    requires s.views[n].lastVoteEpoch < r.views[n].lastVoteEpoch == a.hdr.currentEpoch
    ensures VotesOk(r, el)
  {
    assert RequestOk(s, req);
    forall m | m in r.sent
      ensures RequestOk(r, m) && AckOk(r, el, m)
    {
      assert RequestOk(s, m) && AckOk(s, el, m);
    }
    forall x, y | x in r.sent && y in r.sent
      ensures OneVote(r, x, y)
    {
      assert OneVote(s, x, y) && AckOk(s, el, x) && AckOk(s, el, y);
    }
  }

  /** A request for votes in a new epoch. */
  lemma RequestVotesOk(s: System, r: System, el: Electorate, n: Node, req: Message)
    requires VotesOk(s, el) && n in s.views && n in r.views
    requires r.sent == s.sent + {req} && r.counted == s.counted && r.views == s.views[n := r.views[n]]
    requires req.AuthRequest? && req.hdr.sender == n && req.hdr.currentEpoch == r.views[n].authEpoch
    requires r.views[n].authEpoch >= s.views[n].authEpoch && r.views[n].lastVoteEpoch == s.views[n].lastVoteEpoch
    ensures VotesOk(r, el)
  {
    forall m | m in r.sent
      ensures RequestOk(r, m) && AckOk(r, el, m)
    {
      assert RequestOk(s, m) && AckOk(s, el, m);
    }
    forall x, y | x in r.sent && y in r.sent
      ensures OneVote(r, x, y)
    {
      assert OneVote(s, x, y);
    }
  }

  lemma SupportersGrow(ms: set<Message>, m: Message, c: Node, e: nat)
    ensures Supporters(ms, c, e) <= Supporters(ms + {m}, c, e)
    ensures |Supporters(ms, c, e)| <= |Supporters(ms + {m}, c, e)|
  {
    SubsetSize(Supporters(ms, c, e), Supporters(ms + {m}, c, e));
  }

  lemma SameVote(s: System, el: Electorate, a: Message, b: Message)
    requires VotesOk(s, el) && a in s.sent && b in s.sent && a.AuthAck? && b.AuthAck?
    requires a.hdr.sender == b.hdr.sender && a.hdr.currentEpoch == b.hdr.currentEpoch
    ensures a == b
  {
    assert OneVote(s, a, b);
  }

  /** A vote counts for one node that had not been counted. */
  lemma NewSupporter(s: System, el: Electorate, m: Message)
    requires VotesOk(s, el) && m in s.sent && m.AuthAck? && m !in s.counted
    ensures |Supporters(s.counted + {m}, m.to, m.hdr.currentEpoch)| ==
        |Supporters(s.counted, m.to, m.hdr.currentEpoch)| + 1
  {
    var c, e, x := m.to, m.hdr.currentEpoch, m.hdr.sender;
    if x in Supporters(s.counted, c, e) {
      var m' :| m' in s.counted && m'.AuthAck? && m'.to == c && m'.hdr.currentEpoch == e && m'.hdr.sender == x;
      SameVote(s, el, m, m');
    }
    var before, after := Supporters(s.counted, c, e), Supporters(s.counted + {m}, c, e);
    assert m in s.counted + {m};
    assert after == before + {x} by {
      SupportersGrow(s.counted, m, c, e);
      assert x in after;
    }
  }

  lemma AckParts(s: System, el: Electorate, m: Message)
    requires VotesOk(s, el) && m in s.sent && m.AuthAck?
    ensures AckOk(s, el, m)
  {
  }

  lemma CountableEpoch(v: View, h: Header)
    requires Formed(v) && h.sender in v.peers
    ensures Countable(Learn(v, h), h) ==> h.currentEpoch >= v.authEpoch
  {
  }

  /** THE STALE VOTE. Delivering a vote keeps the tally if and only if the vote is not counted or
      this node has asked for votes since the counter was last cleared. */
  lemma TallyKeptExactly(s: System, step: Step, el: Electorate)
    requires Inv(s, el) && Enabled(s, step) && step.Deliver? && step.m.AuthAck?
    ensures ViewFormed(s, step.n)
    ensures Tally(Next(s, step), step.n) <==>
        (s.views[step.n].authSent || !Countable(Learn(s.views[step.n], step.m.hdr), step.m.hdr))
  {
    hide Formed, Dominates, Bounded, OnAuthAck, Learn, Countable, OneVote, Supporters, SystemFormed, SystemDominated;
    var n, m := step.n, step.m;
    InvParts(s, el, n);
    SentBounded(s, m);
    AckParts(s, el, m);
    var v := s.views[n];
    OnAuthAckKeeps(v, m);
    CountableEpoch(v, m.hdr);
    NewSupporter(s, el, m);
    SupportersGrow(s.counted, m, n, v.authEpoch);
  }

  // One lemma per kind of step -------------------------------------------------

  lemma OthersTally(s: System, r: System, n: Node)
    requires (forall c :: c in s.views ==> Tally(s, c)) && n in s.views && r.views.Keys == s.views.Keys
    requires r.views == s.views[n := r.views[n]] && r.counted == s.counted && Tally(r, n)
    ensures forall c {:trigger Tally(r, c)} :: c in r.views ==> Tally(r, c)
  {
    forall c | c in r.views
      ensures Tally(r, c)
    {
      assert Tally(s, c);
    }
  }

  lemma SameWins(s: System, r: System, el: Electorate)
    requires forall c, e {:trigger WonByMajority(s, el, c, e)} :: (c, e) in s.wins ==> WonByMajority(s, el, c, e)
    requires r.wins == s.wins && r.counted == s.counted
    ensures forall c, e {:trigger WonByMajority(r, el, c, e)} :: (c, e) in r.wins ==> WonByMajority(r, el, c, e)
  {
    forall c, e | (c, e) in r.wins
      ensures WonByMajority(r, el, c, e)
    {
      assert WonByMajority(s, el, c, e);
    }
  }

  /** Steps outside the election. */
  lemma QuietStep(s: System, step: Step, el: Electorate)
    requires Inv(s, el) && Enabled(s, step)
    requires step.SendPing? || step.Bump? || step.Local? || (step.Deliver? && (step.m.Ping? || step.m.Update?))
    ensures Inv(Next(s, step), el)
  {
    hide Formed, Dominates, Bounded, OnPing, OnUpdate, BumpWithoutConsensus, BuildHeader, VotesOk, SystemFormed,
        SystemDominated;
    var n := step.n;
    InvParts(s, el, n);
    var v, r := s.views[n], Next(s, step);
    NextDominated(s, step);
    match step {
      case Bump(_) => BumpDominates(v);
      case Deliver(_, m, _, _) =>
        SentBounded(s, m);
        if m.Ping? {
          OnPingKeeps(v, m.hdr);
        } else {
          OnUpdateKeeps(v, m);
        }
      case _ =>
    }
    QuietVotes(s, r, el, n, Act(v, step).sent);
    OthersTally(s, r, n);
    SameWins(s, r, el);
  }

  lemma InvParts(s: System, el: Electorate, n: Node)
    requires Inv(s, el) && n in s.views
    ensures ViewFormed(s, n) && ViewDominates(s, n) && Tally(s, n) && VotesOk(s, el) && s.counted <= s.sent
  {
  }

  lemma SentBounded(s: System, m: Message)
    requires SystemDominated(s) && m in s.sent
    ensures Bounded(m) && m.hdr.configEpoch <= m.hdr.currentEpoch
  {
  }

  /** A request for a vote is received. */
  lemma VoteStep(s: System, step: Step, el: Electorate)
    requires Inv(s, el) && Enabled(s, step) && step.Deliver? && step.m.AuthRequest? && Stable(s, step, el)
    ensures Inv(Next(s, step), el)
  {
    hide Formed, Dominates, Bounded, OnAuthRequest, VotesOk, SystemFormed, SystemDominated;
    var n, m := step.n, step.m;
    InvParts(s, el, n);
    SentBounded(s, m);
    var v, r := s.views[n], Next(s, step);
    NextDominated(s, step);
    OnAuthRequestKeeps(v, m, step.now, step.twoTimeouts);
    var ms := OnAuthRequest(v, m, step.now, step.twoTimeouts).1;
    if ms == {} {
      QuietVotes(s, r, el, n, ms);
    } else {
      var a :| ms == {a} && a.AuthAck? && a.to == m.hdr.sender && a.hdr.sender == v.me &&
          a.hdr.currentEpoch == m.hdr.currentEpoch;
      VoteVotes(s, r, el, n, m, a);
    }
    OthersTally(s, r, n);
    SameWins(s, r, el);
  }

  /** A vote is delivered. */
  lemma AckStep(s: System, step: Step, el: Electorate)
    requires Inv(s, el) && Enabled(s, step) && step.Deliver? && step.m.AuthAck? && Stable(s, step, el)
    ensures Inv(Next(s, step), el)
  {
    hide Formed, Dominates, Bounded, OnAuthAck, Learn, Countable, VotesOk, SystemFormed, SystemDominated, Supporters;
    var n, m := step.n, step.m;
    InvParts(s, el, n);
    SentBounded(s, m);
    var v, r := s.views[n], Next(s, step);
    NextDominated(s, step);
    OnAuthAckKeeps(v, m);
    QuietVotes(s, r, el, n, {});
    AckTallies(s, step, el);
    forall c, e | (c, e) in r.wins
      ensures WonByMajority(r, el, c, e)
    {
      assert WonByMajority(s, el, c, e);
      SupportersGrow(s.counted, m, c, e);
    }
  }

  lemma AckTallies(s: System, step: Step, el: Electorate)
    requires Inv(s, el) && Enabled(s, step) && step.Deliver? && step.m.AuthAck? && Stable(s, step, el)
    ensures forall c {:trigger Tally(Next(s, step), c)} :: c in Next(s, step).views ==> Tally(Next(s, step), c)
  {
    hide Formed, Dominates, Bounded, OnAuthAck, Learn, Countable, VotesOk, SystemFormed, SystemDominated, Supporters;
    var r := Next(s, step);
    TallyKeptExactly(s, step, el);
    forall c | c in r.views
      ensures Tally(r, c)
    {
      if c != step.n {
        assert Tally(s, c);
        SupportersGrow(s.counted, step.m, c, s.views[c].authEpoch);
      }
    }
  }

  /** The slave failover handler runs. */
  lemma FailoverStep(s: System, step: Step, el: Electorate)
    requires Inv(s, el) && Enabled(s, step) && step.FailoverCron? && Stable(s, step, el)
    ensures Inv(Next(s, step), el)
  {
    hide Formed, Dominates, Bounded, VotesOk, SystemFormed, SystemDominated, Supporters, OnFailover;
    var n, c := step.n, step.clock;
    InvParts(s, el, n);
    var v, r := s.views[n], Next(s, step);
    NextDominated(s, step);
    OnFailoverCases(v, c);
    var o := OnFailover(v, c);
    if o.view.authEpoch != v.authEpoch {
      var req :| o.sent == {req} && req.AuthRequest? && req.hdr.sender == v.me &&
          req.hdr.currentEpoch == o.view.authEpoch;
      RequestVotesOk(s, r, el, n, req);
    } else {
      QuietVotes(s, r, el, n, o.sent);
    }
    OthersTally(s, r, n);
    forall k, e | (k, e) in r.wins
      ensures WonByMajority(r, el, k, e)
    {
      assert (k, e) in s.wins ==> WonByMajority(s, el, k, e);
    }
  }

  lemma OnFailoverCases(v: View, c: Clock)
    requires Formed(v) && Dominates(v)
    ensures var o := OnFailover(v, c);
      && o.view.lastVoteEpoch == v.lastVoteEpoch
      && (o.won ==> v.authSent && v.authCount >= Quorum(v))
      && if o.view.authEpoch == v.authEpoch then
           // nothing, a cleared counter, or a victory
           && (forall m :: m in o.sent ==> m.Ping?)
           && ((o.view.authSent == v.authSent && o.view.authCount == v.authCount) ||
               (!o.view.authSent && o.view.authCount == 0))
         else
           // a request for votes in a fresh epoch
           && v.authEpoch < o.view.authEpoch && !o.won && !v.authSent && o.view.authSent
           && o.view.authCount == v.authCount
           && exists m :: o.sent == {m} && m.AuthRequest? && m.hdr.sender == v.me &&
               m.hdr.currentEpoch == o.view.authEpoch
  {
    var o := OnFailover(v, c);
    HeaderBounded(v);
    if o.view.authEpoch != v.authEpoch {
      OnFailoverKeeps(v, c);
      HeaderBounded(o.view);
      assert o.sent == {AuthRequest(BuildHeader(o.view), c.force)};
    }
  }

  lemma NextInv(s: System, step: Step, el: Electorate)
    requires Inv(s, el) && Enabled(s, step) && Stable(s, step, el)
    ensures Inv(Next(s, step), el)
  {
    hide Inv, Enabled, Stable, Next;
    match step {
      case FailoverCron(_, _) => FailoverStep(s, step, el);
      case Deliver(_, m, _, _) =>
        if m.AuthRequest? {
          VoteStep(s, step, el);
        } else if m.AuthAck? {
          AckStep(s, step, el);
        } else {
          QuietStep(s, step, el);
        }
      case _ => QuietStep(s, step, el);
    }
  }

  // ---------------------------------------------------------------------------
  // The theorem
  // ---------------------------------------------------------------------------

  ghost predicate StableRun(s: System, steps: seq<Step>, el: Electorate)
    requires SystemFormed(s)
    decreases |steps|
  {
    |steps| == 0 ||
    (Enabled(s, steps[0]) && Stable(s, steps[0], el) && StableRun(Next(s, steps[0]), steps[1..], el))
  }

  /** The same, with stale votes allowed. */
  ghost predicate ElectorateRun(s: System, steps: seq<Step>, el: Electorate)
    requires SystemFormed(s)
    decreases |steps|
  {
    |steps| == 0 ||
    (Enabled(s, steps[0]) && ByElectorate(s, steps[0], el) && ElectorateRun(Next(s, steps[0]), steps[1..], el))
  }

  /** Nothing sent, nobody campaigning. */
  ghost predicate Initial(s: System) {
    && SystemFormed(s) && SystemDominated(s)
    && s.sent == {} && s.counted == {} && s.wins == {}
    && forall n :: n in s.views ==> s.views[n].authCount == 0
  }

  lemma InitialInv(s: System, el: Electorate)
    requires Initial(s)
    ensures Inv(s, el)
  {
  }

  lemma {:induction false} RunInv(s: System, steps: seq<Step>, t: System, el: Electorate)
    requires Inv(s, el) && Reaches(s, steps, t) && StableRun(s, steps, el)
    ensures Inv(t, el)
    decreases |steps|
  {
    if |steps| == 0 {
    } else {
      NextInv(s, steps[0], el);
      RunInv(Next(s, steps[0]), steps[1..], t, el);
    }
  }

  /** Two majorities of one set meet. */
  lemma {:induction false} Intersect(a: set<Node>, b: set<Node>, all: set<Node>)
    requires a <= all && b <= all && |a| + |b| > |all|
    ensures a * b != {}
  {
    if a * b == {} {
      assert |a + b| == |a| + |b|;
      SubsetSize(a + b, all);
    }
  }

  lemma SupportersVoted(s: System, el: Electorate, c: Node, e: nat)
    requires VotesOk(s, el)
    ensures Supporters(s.counted, c, e) <= el(e)
  {
    forall x | x in Supporters(s.counted, c, e)
      ensures x in el(e)
    {
      var m :| m in s.counted && m.AuthAck? && m.to == c && m.hdr.currentEpoch == e && m.hdr.sender == x;
      AckParts(s, el, m);
    }
  }

  lemma OneWinner(s: System, el: Electorate, a: Node, b: Node, e: nat)
    requires Inv(s, el) && (a, e) in s.wins && (b, e) in s.wins
    ensures a == b
  {
    assert WonByMajority(s, el, a, e) && WonByMajority(s, el, b, e);
    var p, q := Supporters(s.counted, a, e), Supporters(s.counted, b, e);
    SupportersVoted(s, el, a, e);
    SupportersVoted(s, el, b, e);
    Intersect(p, q, el(e));
    var x :| x in p * q;
    var m :| m in s.counted && m.AuthAck? && m.to == a && m.hdr.currentEpoch == e && m.hdr.sender == x;
    var k :| k in s.counted && k.AuthAck? && k.to == b && k.hdr.currentEpoch == e && k.hdr.sender == x;
    SameVote(s, el, m, k);
  }

  /** ELECTION SAFETY. In every run in which voters and winners keep to the electorate of each
      epoch and no stale vote is counted, no two slaves win an election for the same epoch. */
  lemma ElectionSafety(s: System, steps: seq<Step>, t: System, el: Electorate)
    requires Initial(s) && Reaches(s, steps, t) && StableRun(s, steps, el)
    ensures forall a, b, e :: (a, e) in t.wins && (b, e) in t.wins ==> a == b
  {
    InitialInv(s, el);
    RunInv(s, steps, t, el);
    forall a, b, e | (a, e) in t.wins && (b, e) in t.wins
      ensures a == b
    {
      OneWinner(t, el, a, b, e);
    }
  }
}
