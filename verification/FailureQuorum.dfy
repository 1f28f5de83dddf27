/** Runs of the failure detector, with the words that were heard kept on the side.

    In every run the reports a node holds are exactly the standing words of other masters, so
    local agreement marks a node failed if and only if a quorum of distinct nodes says so now. */
module FailureQuorum {
  import opened SlotTable
  import opened FailureReports

  datatype Word = Said(sender: Node, about: Node, failing: bool, time: int) | Gone(node: Node)

  datatype Step =
    | Tell(sender: Node, fromMaster: bool, about: Node, failing: bool, idle: bool)
    | Delete(node: Node)
    | Meet(node: Node)
    | Flag(node: Node, timedOut: bool, failed: bool)
    | Resize(size: nat, isMaster: bool)

  datatype System = System(m: Monitor, now: int, heard: seq<Word>)

  /** The time of r's failure report about n, unless r took it back or one of them is gone. */
  function Standing(heard: seq<Word>, r: Node, n: Node): Option<int> {
    if heard == [] then None
    else
      var last, before := heard[|heard| - 1], heard[..|heard| - 1];
      match last
      case Said(sender, about, failing, time) =>
        if sender == r && about == n then (if failing then Some(time) else None) else Standing(before, r, n)
      case Gone(node) =>
        if node == r || node == n then None else Standing(before, r, n)
  }

  /** A word that changes the reports: from a known master about a known node, not about this one. */
  predicate Counts(m: Monitor, step: Step)
    requires step.Tell?
  {
    step.fromMaster && step.sender in m.records && step.about in m.records && step.about != m.me
  }

  predicate Enabled(s: System, step: Step) {
    match step
    case Tell(_, _, _, _, _) => true
    case Delete(x) => x != s.m.me
    case Meet(x) => x !in s.m.records
    case Flag(n, _, _) => n in s.m.records
    case Resize(_, _) => true
  }

  function Next(s: System, step: Step, now: int): System
    requires Enabled(s, step)
  {
    match step
    case Tell(sender, fromMaster, about, failing, idle) =>
      System(Gossip(s.m, sender, fromMaster, about, failing, idle, now), now,
             if Counts(s.m, step) then s.heard + [Said(sender, about, failing, now)] else s.heard)
    case Delete(x) => System(Forget(s.m, x, now), now, s.heard + [Gone(x)])
    case Meet(x) => System(s.m.(records := s.m.records[x := Record(false, false, [])]), now, s.heard)
    case Flag(n, timedOut, failed) =>
      System(s.m.(records := s.m.records[n := Record(timedOut, failed, s.m.records[n].reports)]), now, s.heard)
    case Resize(size, isMaster) => System(s.m.(size := size, isMaster := isMaster), now, s.heard)
  }

  /** A run: each step with the time it happened at; the clock does not run backwards. */
  ghost predicate Reaches(s: System, run: seq<(Step, int)>, t: System)
    decreases |run|
  {
    if run == [] then s == t
    else Enabled(s, run[0].0) && run[0].1 >= s.now && Reaches(Next(s, run[0].0, run[0].1), run[1..], t)
  }

  // ---------------------------------------------------------------------------
  // The invariant
  // ---------------------------------------------------------------------------

  /** The reports about n, all of them standing words and no fresh standing word missing. */
  ghost predicate Faithful(m: Monitor, now: int, heard: seq<Word>, n: Node)
    requires n in m.records
  {
    var l := m.records[n].reports;
    && Unique(l)
    && (forall e :: e in l ==> Standing(heard, e.node, n) == Some(e.time))
    && (forall r :: Fresh(heard, r, n, now, m.validity) ==> Report(r, Standing(heard, r, n).value) in l)
  }

  predicate Fresh(heard: seq<Word>, r: Node, n: Node, now: int, validity: int) {
    Standing(heard, r, n).Some? && now - Standing(heard, r, n).value <= validity
  }

  /** Only words between known nodes stand, and none about this node. */
  ghost predicate Known(m: Monitor, heard: seq<Word>, r: Node, n: Node) {
    Standing(heard, r, n).Some? ==> r in m.records && n in m.records && n != m.me
  }

  ghost predicate Inv(s: System) {
    && s.m.me in s.m.records
    && (forall n {:trigger Faithful(s.m, s.now, s.heard, n)} :: n in s.m.records ==> Faithful(s.m, s.now, s.heard, n))
    && (forall r, n {:trigger Known(s.m, s.heard, r, n)} :: Known(s.m, s.heard, r, n))
  }

  /** Nothing heard yet. */
  ghost predicate Initial(s: System) {
    && s.m.me in s.m.records && s.heard == []
    && forall n :: n in s.m.records ==> s.m.records[n].reports == []
  }

  lemma InitialInv(s: System)
    requires Initial(s)
    ensures Inv(s)
  {
  }

  /** Time alone only makes words older. */
  lemma Later(m: Monitor, now: int, heard: seq<Word>, n: Node, later: int)
    requires n in m.records && Faithful(m, now, heard, n) && now <= later
    ensures Faithful(m, later, heard, n)
  {
    assert forall r :: Fresh(heard, r, n, later, m.validity) ==> Fresh(heard, r, n, now, m.validity);
  }

  lemma Heard(heard: seq<Word>, w: Word, r: Node, n: Node)
    ensures Standing(heard + [w], r, n) ==
            match w {
              case Said(sender, about, failing, time) =>
                if sender == r && about == n then (if failing then Some(time) else None) else Standing(heard, r, n)
              case Gone(node) => if node == r || node == n then None else Standing(heard, r, n)
            }
  {
    assert (heard + [w])[..|heard + [w]| - 1] == heard;
  }

  lemma CleanupKeeps(m: Monitor, now: int, heard: seq<Word>, n: Node)
    requires n in m.records && Faithful(m, now, heard, n)
    ensures Faithful(Put(m, n, Expire(m.records[n].reports, now, m.validity)), now, heard, n)
  {
    ExpireHolds(m.records[n].reports, now, m.validity);
  }

  lemma AddKeeps(m: Monitor, now: int, heard: seq<Word>, n: Node, r: Node)
    requires n in m.records && Faithful(m, now, heard, n)
    ensures Faithful(Put(m, n, AddReport(m.records[n].reports, r, now)), now, heard + [Said(r, n, true, now)], n)
  {
    AddReportHolds(m.records[n].reports, r, now);
    forall q
      ensures Standing(heard + [Said(r, n, true, now)], q, n) == if q == r then Some(now) else Standing(heard, q, n)
    {
      Heard(heard, Said(r, n, true, now), q, n);
    }
    assert forall q :: q != r && Fresh(heard + [Said(r, n, true, now)], q, n, now, m.validity) ==>
        Fresh(heard, q, n, now, m.validity);
  }

  lemma DelKeeps(m: Monitor, now: int, heard: seq<Word>, n: Node, r: Node)
    requires n in m.records && Faithful(m, now, heard, n)
    ensures var gone := Put(m, n, DelReport(m.records[n].reports, r, now, m.validity));
            Faithful(gone, now, heard + [Said(r, n, false, now)], n)
  {
    DelReportHolds(m.records[n].reports, r, now, m.validity);
    forall q
      ensures Standing(heard + [Said(r, n, false, now)], q, n) == if q == r then None else Standing(heard, q, n)
    {
      Heard(heard, Said(r, n, false, now), q, n);
    }
    assert forall q :: Fresh(heard + [Said(r, n, false, now)], q, n, now, m.validity) ==>
        Fresh(heard, q, n, now, m.validity);
  }

  /** Marking only cleans up the reports. */
  lemma MarkKeeps(m: Monitor, now: int, heard: seq<Word>, n: Node)
    requires n in m.records && Faithful(m, now, heard, n)
    ensures MarkIfNeeded(m, n, now).records.Keys == m.records.Keys
    ensures MarkIfNeeded(m, n, now) == m.(records := MarkIfNeeded(m, n, now).records)
    ensures Faithful(MarkIfNeeded(m, n, now), now, heard, n)
    ensures forall x :: x in m.records && x != n ==> MarkIfNeeded(m, n, now).records[x] == m.records[x]
  {
    CleanupKeeps(m, now, heard, n);
  }

  lemma GossipKeepsOthers(m: Monitor, sender: Node, fromMaster: bool, n: Node, failing: bool, idle: bool, now: int)
    ensures var r := Gossip(m, sender, fromMaster, n, failing, idle, now);
            && r == m.(records := r.records) && r.records.Keys == m.records.Keys
            && forall x :: x in m.records && x != n ==> r.records[x] == m.records[x]
  {
  }

  /** After the gossip about it, the node's reports are faithful to what was heard by then. */
  lemma GossipKeeps(s: System, step: Step, now: int)
    requires Inv(s) && step.Tell? && step.about in s.m.records && now >= s.now
    ensures var t := Next(s, step, now); step.about in t.m.records && Faithful(t.m, t.now, t.heard, step.about)
  {
    hide Faithful;
    var m, n := s.m, step.about;
    assert Faithful(m, s.now, s.heard, n);
    Later(m, s.now, s.heard, n, now);
    var heard := Next(s, step, now).heard;
    if Counts(m, step) {
      if step.failing {
        AddKeeps(m, now, s.heard, n, step.sender);
        MarkKeeps(Put(m, n, AddReport(m.records[n].reports, step.sender, now)), now, heard, n);
      } else {
        DelKeeps(m, now, s.heard, n, step.sender);
        CleanupKeeps(Put(m, n, DelReport(m.records[n].reports, step.sender, now, m.validity)), now, heard, n);
      }
    } else {
      CleanupKeeps(m, now, heard, n);
    }
  }

  lemma SameReports(m: Monitor, k: Monitor, now: int, heard: seq<Word>, n: Node)
    requires n in m.records && Faithful(m, now, heard, n)
    requires n in k.records && k.records[n].reports == m.records[n].reports && k.validity == m.validity
    ensures Faithful(k, now, heard, n)
  {
  }

  /** Words about other nodes do not matter. */
  lemma OtherWords(m: Monitor, now: int, heard: seq<Word>, w: Word, n: Node)
    requires n in m.records && Faithful(m, now, heard, n) && w.Said? && w.about != n
    ensures Faithful(m, now, heard + [w], n)
  {
    forall r
      ensures Standing(heard + [w], r, n) == Standing(heard, r, n)
    {
      Heard(heard, w, r, n);
    }
    assert forall r :: Fresh(heard + [w], r, n, now, m.validity) ==> Fresh(heard, r, n, now, m.validity);
  }

  lemma TellInv(s: System, step: Step, now: int)
    requires Inv(s) && step.Tell? && now >= s.now
    ensures Inv(Next(s, step, now))
  {
    hide Faithful, Gossip, Standing;
    var t := Next(s, step, now);
    GossipKeepsOthers(s.m, step.sender, step.fromMaster, step.about, step.failing, step.idle, now);
    var w := Said(step.sender, step.about, step.failing, now);
    forall n | n in t.m.records
      ensures Faithful(t.m, t.now, t.heard, n)
    {
      if n == step.about {
        GossipKeeps(s, step, now);
      } else {
        assert Faithful(s.m, s.now, s.heard, n);
        Later(s.m, s.now, s.heard, n, now);
        OtherWords(s.m, now, s.heard, w, n);
        SameReports(s.m, t.m, now, t.heard, n);
      }
    }
    forall r, n
      ensures Known(t.m, t.heard, r, n)
    {
      assert Known(s.m, s.heard, r, n);
      Heard(s.heard, w, r, n);
    }
  }

  lemma ForgetKeeps(m: Monitor, now: int, heard: seq<Word>, x: Node, n: Node)
    requires n in m.records && Faithful(m, now, heard, n) && n != x
    ensures Faithful(Forget(m, x, now), now, heard + [Gone(x)], n)
  {
    DelReportHolds(m.records[n].reports, x, now, m.validity);
    forall q
      ensures Standing(heard + [Gone(x)], q, n) == if q == x then None else Standing(heard, q, n)
    {
      Heard(heard, Gone(x), q, n);
    }
    assert forall q :: Fresh(heard + [Gone(x)], q, n, now, m.validity) ==> Fresh(heard, q, n, now, m.validity);
  }

  lemma DeleteInv(s: System, x: Node, now: int)
    requires Inv(s) && x != s.m.me && now >= s.now
    ensures Inv(Next(s, Delete(x), now))
  {
    hide Faithful, Standing;
    var t := Next(s, Delete(x), now);
    forall n | n in t.m.records
      ensures Faithful(t.m, t.now, t.heard, n)
    {
      assert Faithful(s.m, s.now, s.heard, n);
      Later(s.m, s.now, s.heard, n, now);
      ForgetKeeps(s.m, now, s.heard, x, n);
    }
    forall r, n
      ensures Known(t.m, t.heard, r, n)
    {
      assert Known(s.m, s.heard, r, n);
      Heard(s.heard, Gone(x), r, n);
    }
  }

  /** A new node starts with no reports, and none stands about it. */
  lemma MeetKeeps(s: System, x: Node, now: int)
    requires Inv(s) && x !in s.m.records
    ensures Faithful(Next(s, Meet(x), now).m, now, s.heard, x)
  {
    forall r
      ensures Standing(s.heard, r, x).None?
    {
      assert Known(s.m, s.heard, r, x);
    }
  }

  lemma QuietInv(s: System, step: Step, now: int)
    requires Inv(s) && (step.Meet? || step.Flag? || step.Resize?) && Enabled(s, step) && now >= s.now
    ensures Inv(Next(s, step, now))
  {
    hide Faithful, Standing;
    var t := Next(s, step, now);
    forall n | n in t.m.records
      ensures Faithful(t.m, t.now, t.heard, n)
    {
      if step.Meet? && n == step.node {
        MeetKeeps(s, n, now);
      } else {
        assert Faithful(s.m, s.now, s.heard, n);
        Later(s.m, s.now, s.heard, n, now);
        SameReports(s.m, t.m, now, s.heard, n);
      }
    }
    forall r, n
      ensures Known(t.m, t.heard, r, n)
    {
      assert Known(s.m, s.heard, r, n);
    }
  }

  lemma NextInv(s: System, step: Step, now: int)
    requires Inv(s) && Enabled(s, step) && now >= s.now
    ensures Inv(Next(s, step, now))
  {
    hide Inv;
    match step {
      case Tell(_, _, _, _, _) => TellInv(s, step, now);
      case Delete(x) => DeleteInv(s, x, now);
      case _ => QuietInv(s, step, now);
    }
  }

  lemma {:induction false} RunInv(s: System, run: seq<(Step, int)>, t: System)
    requires Inv(s) && Reaches(s, run, t)
    ensures Inv(t)
    decreases |run|
  {
    if run == [] {
    } else {
      NextInv(s, run[0].0, run[0].1);
      RunInv(Next(s, run[0].0, run[0].1), run[1..], t);
    }
  }

  // ---------------------------------------------------------------------------
  // The quorum
  // ---------------------------------------------------------------------------

  /** The nodes whose word that n has failed stands and is recent. */
  function Accusers(s: System, n: Node): set<Node> {
    set r | r in s.m.records && Fresh(s.heard, r, n, s.now, s.m.validity)
  }

  /** Everybody who saw the failure: the accusers, and this node if it is a master. */
  function Witnesses(s: System, n: Node): set<Node> {
    Accusers(s, n) + if s.m.isMaster then {s.m.me} else {}
  }

  /** The reports left after a cleanup are one for each accuser. */
  lemma ReportsAreAccusers(s: System, n: Node)
    requires Inv(s) && n in s.m.records
    ensures |Expire(s.m.records[n].reports, s.now, s.m.validity)| == |Accusers(s, n)|
  {
    var l := Expire(s.m.records[n].reports, s.now, s.m.validity);
    assert Faithful(s.m, s.now, s.heard, n);
    ExpireHolds(s.m.records[n].reports, s.now, s.m.validity);
    OneEach(l);
    forall r
      ensures r in Reporters(l) <==> r in Accusers(s, n)
    {
      assert Known(s.m, s.heard, r, n);
      if r in Accusers(s, n) {
        assert Report(r, Standing(s.heard, r, n).value) in l;
      }
    }
    assert Reporters(l) == Accusers(s, n);
  }

  /** A counted word of failure sets FAIL if and only if the node was suspected already and
      the accusers, plus one when this node is a master, make a quorum. */
  lemma FailExactlyAtQuorum(s: System, step: Step, now: int)
    requires Inv(s) && step.Tell? && step.failing && Counts(s.m, step) && now >= s.now
    ensures var t, n := Next(s, step, now), step.about;
            !s.m.records[n].failed && t.m.records[n].failed <==>
            && s.m.records[n].timedOut && !s.m.records[n].failed
            && |Accusers(t, n)| + (if s.m.isMaster then 1 else 0) >= s.m.size / 2 + 1
  {
    var n, t := step.about, Next(s, step, now);
    var added := Added(s, step, now);
    AddedInv(s, step, now);
    ReportsAreAccusers(added, n);
    assert Accusers(added, n) == Accusers(t, n);
  }

  /** The system once the report is added, before it is judged. */
  function Added(s: System, step: Step, now: int): System
    requires step.Tell? && Counts(s.m, step)
  {
    System(Put(s.m, step.about, AddReport(s.m.records[step.about].reports, step.sender, now)), now,
           Next(s, step, now).heard)
  }

  lemma AddedInv(s: System, step: Step, now: int)
    requires Inv(s) && step.Tell? && step.failing && Counts(s.m, step) && now >= s.now
    ensures Inv(Added(s, step, now))
  {
    hide Faithful, Standing;
    var u := Added(s, step, now);
    var w := Said(step.sender, step.about, true, now);
    forall n | n in u.m.records
      ensures Faithful(u.m, u.now, u.heard, n)
    {
      assert Faithful(s.m, s.now, s.heard, n);
      Later(s.m, s.now, s.heard, n, now);
      if n == step.about {
        AddKeeps(s.m, now, s.heard, n, step.sender);
      } else {
        OtherWords(s.m, now, s.heard, w, n);
        SameReports(s.m, u.m, now, u.heard, n);
      }
    }
    forall r, n
      ensures Known(u.m, u.heard, r, n)
    {
      assert Known(s.m, s.heard, r, n);
      Heard(s.heard, w, r, n);
    }
  }

  /** In every run a node holds at most one report per reporter, none from a deleted node, and
      each is that reporter's last word. */
  lemma ReportsInEveryRun(s: System, run: seq<(Step, int)>, t: System, n: Node)
    requires Initial(s) && Reaches(s, run, t) && n in t.m.records
    ensures Unique(t.m.records[n].reports)
    ensures forall e :: e in t.m.records[n].reports ==>
        e.node in t.m.records && Standing(t.heard, e.node, n) == Some(e.time)
  {
    InitialInv(s);
    RunInv(s, run, t);
    assert Faithful(t.m, t.now, t.heard, n);
    forall e | e in t.m.records[n].reports
      ensures e.node in t.m.records
    {
      assert Known(t.m, t.heard, e.node, n);
    }
  }

  /** No gossip in the run came from this node itself. */
  ghost predicate NoEcho(me: Node, run: seq<(Step, int)>) {
    forall i :: 0 <= i < |run| && run[i].0.Tell? ==> run[i].0.sender != me
  }

  ghost predicate Silent(s: System) {
    forall n :: Standing(s.heard, s.m.me, n).None?
  }

  lemma NextSilent(s: System, step: Step, now: int)
    requires Silent(s) && Enabled(s, step) && (step.Tell? ==> step.sender != s.m.me)
    ensures Silent(Next(s, step, now)) && Next(s, step, now).m.me == s.m.me
  {
    hide Standing, Gossip;
    var t := Next(s, step, now);
    if step.Tell? {
      GossipKeepsOthers(s.m, step.sender, step.fromMaster, step.about, step.failing, step.idle, now);
    }
    forall n
      ensures Standing(t.heard, s.m.me, n).None?
    {
      if t.heard != s.heard {
        Heard(s.heard, t.heard[|s.heard|], s.m.me, n);
        assert t.heard == s.heard + [t.heard[|s.heard|]];
      }
    }
  }

  lemma {:induction false} RunSilent(s: System, run: seq<(Step, int)>, t: System)
    requires Silent(s) && Reaches(s, run, t) && NoEcho(s.m.me, run)
    ensures Silent(t) && t.m.me == s.m.me
    decreases |run|
  {
    if run == [] {
    } else {
      NextSilent(s, run[0].0, run[0].1);
      RunSilent(Next(s, run[0].0, run[0].1), run[1..], t);
    }
  }

  /** After every run without echoes, a counted word of failure sets FAIL if and only if the
      node was suspected already and at least size/2 + 1 distinct nodes witness the failure, every
      other node by a word at most twice the node timeout old. */
  lemma FailNeedsQuorumOfNodes(s: System, run: seq<(Step, int)>, t: System, step: Step, now: int)
    requires Initial(s) && Reaches(s, run, t) && NoEcho(s.m.me, run)
    requires step.Tell? && step.failing && Counts(t.m, step) && step.sender != s.m.me && now >= t.now
    ensures var u, n := Next(t, step, now), step.about;
            !t.m.records[n].failed && u.m.records[n].failed <==>
            t.m.records[n].timedOut && !t.m.records[n].failed && |Witnesses(u, n)| >= t.m.size / 2 + 1
  {
    InitialInv(s);
    RunInv(s, run, t);
    RunSilent(s, run, t);
    NextSilent(t, step, now);
    FailExactlyAtQuorum(t, step, now);
    GossipKeepsOthers(t.m, step.sender, step.fromMaster, step.about, step.failing, step.idle, now);
    var u := Next(t, step, now);
    assert u.m.me !in Accusers(u, step.about);
  }

  /** Who says, with this word, that its node has failed: the sender, and everybody whose word of
      that is recent when it is heard. */
  function Speakers(s: System, step: Step, now: int): set<Node>
    requires step.Tell?
  {
    (set r | r in s.m.records && Fresh(s.heard, r, step.about, now, s.m.validity)) + {step.sender}
  }

  lemma SpeakersAccuse(s: System, step: Step, now: int)
    requires step.Tell? && step.failing && Counts(s.m, step)
    ensures Accusers(Next(s, step, now), step.about) == Speakers(s, step, now)
  {
    hide Standing, Gossip;
    GossipKeepsOthers(s.m, step.sender, step.fromMaster, step.about, step.failing, step.idle, now);
    forall r
      ensures r in Accusers(Next(s, step, now), step.about) <==> r in Speakers(s, step, now)
    {
      Heard(s.heard, Said(step.sender, step.about, true, now), r, step.about);
    }
  }

  /** With echoes allowed, a counted word of failure sets FAIL on fewer than a quorum of distinct
      nodes exactly when the node was suspected already, this node is a master whose own word is
      among those that are counted, and they are one short of a quorum. */
  lemma EchoMattersExactlyWhen(s: System, step: Step, now: int)
    requires Inv(s) && step.Tell? && step.failing && Counts(s.m, step) && now >= s.now
    ensures var u, n := Next(s, step, now), step.about;
            !s.m.records[n].failed && u.m.records[n].failed && |Witnesses(u, n)| < s.m.size / 2 + 1 <==>
            && s.m.records[n].timedOut && !s.m.records[n].failed && s.m.isMaster
            && s.m.me in Speakers(s, step, now) && |Speakers(s, step, now)| == s.m.size / 2
  {
    hide Inv, Gossip, Fresh;
    FailExactlyAtQuorum(s, step, now);
    SpeakersAccuse(s, step, now);
    GossipKeepsOthers(s.m, step.sender, step.fromMaster, step.about, step.failing, step.idle, now);
    var u := Next(s, step, now);
    if s.m.isMaster && s.m.me in Accusers(u, step.about) {
      assert Witnesses(u, step.about) == Accusers(u, step.about);
    }
  }

  /** A master of a three-master cluster that hears its own gossip marks node 1 failed alone. */
  lemma OwnEchoCountsTwice() returns (s: System, step: Step)
    ensures Initial(s) && s.m.isMaster && s.m.size == 3 && step.Tell? && step.about == 1 && Counts(s.m, step)
    ensures var u := Next(s, step, 0);
            1 in u.m.records && !s.m.records[1].failed && u.m.records[1].failed &&
                |Witnesses(u, 1)| == 1 < s.m.size / 2 + 1
  {
    var healthy := Record(false, false, []);
    s := System(Monitor(0, true, 3, 100, map[0 := healthy, 1 := Record(true, false, []), 2 := healthy]), 0, []);
    step := Tell(0, true, 1, true, false);
    InitialInv(s);
    FailExactlyAtQuorum(s, step, 0);
    var u := Next(s, step, 0);
    forall r
      ensures r in Witnesses(u, 1) <==> r == 0
    {
      Heard([], Said(0, 1, true, 0), r, 1);
      assert [] + [Said(0, 1, true, 0)] == u.heard;
    }
    assert Witnesses(u, 1) == {0};
    assert Accusers(u, 1) == {0};
  }
}
