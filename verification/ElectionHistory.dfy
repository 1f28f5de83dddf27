/** Elections over whole runs: what every vote, every request and every victory rested on when it was
    cast, sent and won. */
module ElectionHistory {
  import opened SlotTable
  import opened ClusterBus
  import opened SlotMessages
  import opened SlotRepair
  import opened VoteRules
  import opened Election

  /** A step and the view of the node that took it, as it was before. */
  datatype Moment = Moment(step: Step, view: View)

  /** The moments of a run. */
  ghost function Trace(s: System, steps: seq<Step>): (ms: seq<Moment>)
    requires SystemFormed(s)
    decreases |steps|
  {
    if steps == [] || !Enabled(s, steps[0]) then []
    else [Moment(steps[0], s.views[steps[0].n])] + Trace(Next(s, steps[0]), steps[1..])
  }

  /** At this moment its node votes for the candidate that asked. */
  ghost predicate Votes(m: Moment) {
    m.step.Deliver? && m.step.m.AuthRequest? &&
        Deserves(m.view, m.step.m, MasterOf(m.view, m.step.m.hdr.sender), m.step.now, m.step.twoTimeouts)
  }

  /** ... by this acknowledgement. */
  ghost predicate CastAt(m: Moment, a: Message) {
    && Votes(m) && a.AuthAck? && a.hdr.sender == m.step.n && a.to == m.step.m.hdr.sender
    && a.hdr.currentEpoch == m.step.m.hdr.currentEpoch
  }

  ghost predicate AskedAt(m: Moment, r: Message) {
    && m.step.FailoverCron? && r.AuthRequest? && r.hdr.sender == m.step.n && r.force == m.step.clock.force
    && IsDue(m.view, m.step.clock) && InTime(m.step.clock) && !m.view.authSent
    && r.hdr.currentEpoch == m.view.currentEpoch + 1
  }

  ghost predicate WonAt(m: Moment, n: Node, e: nat) {
    && m.step.FailoverCron? && m.step.n == n && m.view.authEpoch == e
    && IsDue(m.view, m.step.clock) && InTime(m.step.clock)
    && m.view.authSent && m.view.authCount > m.view.size / 2
  }

  /** What is new after one step came about in its moment. */
  ghost predicate Explained(m: Moment, s: System, t: System) {
    && (forall a :: a in t.sent && a !in s.sent && a.AuthAck? ==> CastAt(m, a))
    && (forall r :: r in t.sent && r !in s.sent && r.AuthRequest? ==> AskedAt(m, r))
    && (forall n, e :: (n, e) in t.wins && (n, e) !in s.wins ==> WonAt(m, n, e))
  }

  lemma ActSends(v: View, step: Step)
    requires Formed(v) && (step.Deliver? ==> Fits(v, step.m)) && (step.Local? ==> IsLocal(v, step.v))
    ensures !(step.Deliver? && step.m.AuthRequest?) && !step.FailoverCron? ==>
              (forall m :: m in Act(v, step).sent ==> m.Ping? || m.Update?) && Act(v, step).wins == {}
  {
    hide OnUpdate, OnAuthRequest, OnAuthAck, OnFailover, BumpWithoutConsensus, OnPing, BuildHeader;
    if step.Deliver? && step.m.Ping? {
      PingAnswered(v, step.m.hdr);
    }
  }

  lemma OneStepExplained(s: System, step: Step)
    requires SystemFormed(s) && Enabled(s, step)
    ensures Explained(Moment(step, s.views[step.n]), s, Next(s, step))
  {
    hide Formed, OnUpdate, OnAuthRequest, OnAuthAck, OnFailover, BumpWithoutConsensus, OnPing, BuildHeader, Deserves,
        IsDue, Speaks, Recorded;
    assert ViewFormed(s, step.n);
    var v := s.views[step.n];
    ActSends(v, step);
    if step.Deliver? && step.m.AuthRequest? {
      VoteExactlyWhen(v, step.m, step.now, step.twoTimeouts);
      SpeakerIs(v, OnAuthRequest(v, step.m, step.now, step.twoTimeouts).1);
    } else if step.FailoverCron? {
      CampaignExactlyWhen(v, step.clock);
      CampaignSends(v, step.clock);
    }
  }

  lemma SpeakerIs(v: View, ms: set<Message>)
    ensures forall a, e :: a in ms && Speaks(a.hdr, v, e) ==> a.hdr.sender == v.me
  {
  }

  lemma CampaignSends(v: View, c: Clock)
    requires Formed(v)
    ensures forall m :: m in OnFailover(v, c).sent ==> !m.AuthAck? && m.hdr.sender == v.me
  {
    hide Agree, FailoverDue, ReplaceMaster;
  }

  /** Every vote sent in a run, every request for votes and every victory has its moment in the run:
      votes were deserved, and nobody asked or won without a failed master or a manual failover. */
  lemma {:induction false} EverythingExplained(s: System, steps: seq<Step>, t: System)
    requires SystemFormed(s) && Reaches(s, steps, t)
    ensures |Trace(s, steps)| == |steps|
    ensures forall a :: a in t.sent && a !in s.sent && a.AuthAck? ==>
      exists k :: 0 <= k < |steps| && CastAt(Trace(s, steps)[k], a)
    ensures forall r :: r in t.sent && r !in s.sent && r.AuthRequest? ==>
      exists k :: 0 <= k < |steps| && AskedAt(Trace(s, steps)[k], r)
    ensures forall n, e :: (n, e) in t.wins && (n, e) !in s.wins ==>
      exists k :: 0 <= k < |steps| && WonAt(Trace(s, steps)[k], n, e)
    decreases |steps|
  {
    hide Next, Enabled, CastAt, AskedAt, WonAt;
    if steps == [] {
    } else {
      var u := Next(s, steps[0]);
      var now, later := Trace(s, steps), Trace(u, steps[1..]);
      OneStepExplained(s, steps[0]);
      EverythingExplained(u, steps[1..], t);
      Later(now, later);
      forall a | a in t.sent && a !in s.sent && a.AuthAck?
        ensures exists k :: 0 <= k < |steps| && CastAt(now[k], a)
      {
        if a in u.sent {
          assert CastAt(now[0], a);
        } else {
          var k :| 0 <= k < |steps| - 1 && CastAt(later[k], a);
          assert CastAt(now[k + 1], a);
        }
      }
      forall r | r in t.sent && r !in s.sent && r.AuthRequest?
        ensures exists k :: 0 <= k < |steps| && AskedAt(now[k], r)
      {
        if r in u.sent {
          assert AskedAt(now[0], r);
        } else {
          var k :| 0 <= k < |steps| - 1 && AskedAt(later[k], r);
          assert AskedAt(now[k + 1], r);
        }
      }
      forall n, e | (n, e) in t.wins && (n, e) !in s.wins
        ensures exists k :: 0 <= k < |steps| && WonAt(now[k], n, e)
      {
        if (n, e) in u.wins {
          assert WonAt(now[0], n, e);
        } else {
          var k :| 0 <= k < |steps| - 1 && WonAt(later[k], n, e);
          assert WonAt(now[k + 1], n, e);
        }
      }
    }
  }

  lemma Later(now: seq<Moment>, later: seq<Moment>)
    requires now != [] && now == [now[0]] + later
    ensures |now| == |later| + 1 && forall k :: 0 <= k < |later| ==> now[k + 1] == later[k]
  {
  }

  // ---------------------------------------------------------------------------
  // Two votes about one master
  // ---------------------------------------------------------------------------

  ghost predicate SameVoteTimes(v: View, w: View) {
    w.peers.Keys == v.peers.Keys && forall k :: k in v.peers ==> w.peers[k].votedTime == v.peers[k].votedTime
  }

  lemma UpdateSlotsSameTimes(v: View, n: Node, epoch: nat, claim: seq<bool>)
    requires Formed(v) && n in v.peers && |claim| == |v.table.slots|
    ensures SameVoteTimes(v, UpdateSlots(v, n, epoch, claim))
  {
    hide Agree, Claim;
  }

  lemma LearnRoleSameTimes(v: View, h: Header)
    requires Formed(v) && h.sender in v.peers && h.sender != v.me
    ensures SameVoteTimes(v, LearnRole(v, h))
  {
    hide Agree, DelNodeSlots;
  }

  lemma OnPingSameTimes(v: View, h: Header)
    requires Formed(v) && Fits(v, Ping(h))
    ensures SameVoteTimes(v, OnPing(v, h).0)
  {
    hide Agree, Learn, LearnRole, UpdateSlots, ResolveCollision, Corrections, Dirty, BuildHeader;
    LearnedIs(v, h);
    var learned := Learn(v, h);
    LearnRoleSameTimes(learned, h);
    var w := LearnRole(learned, h);
    UpdateSlotsSameTimes(w, h.sender, h.configEpoch, h.slots);
    ResolvedIs(TakeIn(learned, h), h);
  }

  lemma OnUpdateSameTimes(v: View, m: Message)
    requires Formed(v) && m.Update? && Fits(v, m)
    ensures SameVoteTimes(v, OnUpdate(v, m))
  {
    hide Agree, Learn, UpdateSlots;
    LearnedIs(v, m.hdr);
    var learned := Learn(v, m.hdr);
    if m.about in learned.peers && learned.configEpoch[m.about] < m.epoch {
      var w := SetNodeAsMaster(learned, m.about);
      var x := w.(configEpoch := w.configEpoch[m.about := m.epoch]);
      EpochsKeepFormed(w, x);
      UpdateSlotsSameTimes(x, m.about, m.epoch, m.claim);
    }
  }

  lemma OnFailoverSameTimes(v: View, c: Clock)
    requires Formed(v)
    ensures SameVoteTimes(v, OnFailover(v, c).view)
  {
    hide Agree, TakeOver, FailoverDue, BuildHeader;
  }

  /** The last vote of n about x was not before this time. */
  ghost predicate VotedSince(s: System, n: Node, x: Node, time: int) {
    n in s.views && x in s.views[n].peers && s.views[n].peers[x].votedTime >= time
  }

  /** Timeouts are not negative, and what happens on a node besides messages does not touch the times
      of its votes. */
  ghost predicate KeepsTimes(s: System, step: Step) {
    && (step.Deliver? ==> step.twoTimeouts >= 0)
    && (step.Local? && step.n in s.views ==> SameVoteTimes(s.views[step.n], step.v))
  }

  ghost predicate RunKeepsTimes(s: System, steps: seq<Step>)
    requires SystemFormed(s)
    decreases |steps|
  {
    steps == [] || (Enabled(s, steps[0]) && KeepsTimes(s, steps[0]) && RunKeepsTimes(Next(s, steps[0]), steps[1..]))
  }

  /** A vote sets the time of its master; nothing else changes times. */
  lemma ActTimes(v: View, step: Step)
    requires Formed(v) && (step.Deliver? ==> Fits(v, step.m) && step.twoTimeouts >= 0)
    requires step.Local? ==> IsLocal(v, step.v) && SameVoteTimes(v, step.v)
    ensures var w := Act(v, step).view; var x := if step.Deliver? then MasterOf(v, step.m.hdr.sender) else v.me;
            if Votes(Moment(step, v)) then x in v.peers && w.peers == v.peers[x := v.peers[x].(votedTime := step.now)]
            else SameVoteTimes(v, w)
  {
    hide Formed, OnUpdate, OnAuthRequest, OnAuthAck, OnFailover, BumpWithoutConsensus, OnPing, BuildHeader, Deserves,
        Recorded, Speaks;
    match step {
      case Deliver(_, m, now, twoTimeouts) =>
        match m {
          case Ping(h) => OnPingSameTimes(v, h);
          case Update(_, _, _, _) => OnUpdateSameTimes(v, m);
          case AuthRequest(_, _) =>
            VoteExactlyWhen(v, m, now, twoTimeouts);
            if Votes(Moment(step, v)) {
              DeservesParts(v, m, MasterOf(v, m.hdr.sender), now, twoTimeouts);
            }
          case AuthAck(_, _) => CountsExactlyWhen(v, m);
        }
      case FailoverCron(_, c) => OnFailoverSameTimes(v, c);
      case _ =>
    }
  }

  lemma NextVotedSince(s: System, step: Step, n: Node, x: Node, time: int)
    requires SystemFormed(s) && Enabled(s, step) && KeepsTimes(s, step) && VotedSince(s, n, x, time)
    ensures VotedSince(Next(s, step), n, x, time)
  {
    hide Formed, Act, Votes;
    assert ViewFormed(s, step.n);
    var v := s.views[step.n];
    ActTimes(v, step);
    if step.n == n && Votes(Moment(step, v)) {
      VoteParts(Moment(step, v));
    }
  }

  lemma VoteParts(m: Moment)
    requires Votes(m)
    ensures m.step.Deliver? && m.step.m.AuthRequest?
    ensures var x := MasterOf(m.view, m.step.m.hdr.sender);
            x in m.view.peers && m.step.now - m.view.peers[x].votedTime >= m.step.twoTimeouts
  {
  }

  /** Votes about x that n casts later in a run are later by two timeouts. */
  lemma {:induction false} LaterVotes(s: System, steps: seq<Step>, t: System, n: Node, x: Node, time: int, k: nat)
    requires SystemFormed(s) && Reaches(s, steps, t) && RunKeepsTimes(s, steps) && VotedSince(s, n, x, time)
    requires k < |Trace(s, steps)| && Votes(Trace(s, steps)[k]) && Trace(s, steps)[k].step.n == n
    requires MasterOf(Trace(s, steps)[k].view, Trace(s, steps)[k].step.m.hdr.sender) == x
    ensures Trace(s, steps)[k].step.now - time >= Trace(s, steps)[k].step.twoTimeouts
    decreases |steps|
  {
    hide Next, Enabled, KeepsTimes, Votes;
    VoteParts(Trace(s, steps)[k]);
    if k == 0 {
    } else {
      NextVotedSince(s, steps[0], n, x, time);
      LaterVotes(Next(s, steps[0]), steps[1..], t, n, x, time, k - 1);
    }
  }

  lemma VoteSetsTime(s: System, step: Step, x: Node)
    requires SystemFormed(s) && Enabled(s, step) && KeepsTimes(s, step) && Votes(Moment(step, s.views[step.n]))
    requires x == MasterOf(s.views[step.n], step.m.hdr.sender)
    ensures VotedSince(Next(s, step), step.n, x, step.now)
  {
    hide Formed, Act, Votes;
    assert ViewFormed(s, step.n);
    VoteParts(Moment(step, s.views[step.n]));
    ActTimes(s.views[step.n], step);
  }

  /** Two votes of one node about one master are at least two timeouts apart. */
  lemma {:induction false} VotesAreSpaced(s: System, steps: seq<Step>, t: System, i: nat, k: nat)
    requires SystemFormed(s) && Reaches(s, steps, t) && RunKeepsTimes(s, steps)
    requires i < k < |Trace(s, steps)| && Votes(Trace(s, steps)[i]) && Votes(Trace(s, steps)[k])
    requires var a, b := Trace(s, steps)[i], Trace(s, steps)[k];
             && a.step.n == b.step.n
             && MasterOf(a.view, a.step.m.hdr.sender) == MasterOf(b.view, b.step.m.hdr.sender)
    ensures Trace(s, steps)[k].step.now - Trace(s, steps)[i].step.now >= Trace(s, steps)[k].step.twoTimeouts
    decreases |steps|
  {
    hide Next, Enabled, KeepsTimes, Votes;
    var a := Trace(s, steps)[i];
    VoteParts(a);
    var u := Next(s, steps[0]);
    if i == 0 {
      var x := MasterOf(a.view, a.step.m.hdr.sender);
      VoteSetsTime(s, steps[0], x);
      LaterVotes(u, steps[1..], t, a.step.n, x, a.step.now, k - 1);
    } else {
      VotesAreSpaced(u, steps[1..], t, i - 1, k - 1);
    }
  }
}
