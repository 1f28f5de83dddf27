/** Failure reports: what other masters said about a node, and the quorum that marks it failed. */
module FailureReports {
  import opened SlotTable

  datatype Report = Report(node: Node, time: int)

  /** What this node keeps about another: the two failure flags and the reports, oldest first. */
  datatype Record = Record(timedOut: bool, failed: bool, reports: seq<Report>)

  /** `validity` is twice the node timeout. */
  datatype Monitor = Monitor(me: Node, isMaster: bool, size: nat, validity: nat, records: map<Node, Record>)

  // ---------------------------------------------------------------------------
  // One list of reports
  // ---------------------------------------------------------------------------

  predicate From(l: seq<Report>, r: Node) {
    exists e :: e in l && e.node == r
  }

  /** No two reports from one node. */
  ghost predicate Unique(l: seq<Report>) {
    l == [] || (!From(l[1..], l[0].node) && Unique(l[1..]))
  }

  lemma UniqueCons(x: Report, t: seq<Report>)
    requires Unique(t) && !From(t, x.node)
    ensures Unique([x] + t)
  {
    assert ([x] + t)[1..] == t;
  }

  /** A new report, or a new time on the one that is there. */
  function AddReport(l: seq<Report>, r: Node, now: int): seq<Report> {
    if l == [] then [Report(r, now)]
    else if l[0].node == r then [Report(r, now)] + l[1..]
    else [l[0]] + AddReport(l[1..], r, now)
  }

  function Expire(l: seq<Report>, now: int, validity: int): seq<Report> {
    if l == [] then []
    else (if now - l[0].time > validity then [] else [l[0]]) + Expire(l[1..], now, validity)
  }

  function Remove(l: seq<Report>, r: Node): seq<Report> {
    if l == [] then [] else if l[0].node == r then l[1..] else [l[0]] + Remove(l[1..], r)
  }

  /** Old reports go too, but only when one from r was there. */
  function DelReport(l: seq<Report>, r: Node, now: int, validity: int): seq<Report> {
    if From(l, r) then Expire(Remove(l, r), now, validity) else l
  }

  lemma {:induction false} AddReportHolds(l: seq<Report>, r: Node, now: int)
    requires Unique(l)
    ensures Unique(AddReport(l, r, now))
    ensures forall e :: e in AddReport(l, r, now) <==> e == Report(r, now) || (e in l && e.node != r)
  {
    if l == [] {
      UniqueCons(Report(r, now), []);
    } else {
      assert l == [l[0]] + l[1..];
      if l[0].node == r {
        UniqueCons(Report(r, now), l[1..]);
      } else {
        AddReportHolds(l[1..], r, now);
        UniqueCons(l[0], AddReport(l[1..], r, now));
      }
    }
  }

  lemma {:induction false} ExpireHolds(l: seq<Report>, now: int, validity: int)
    requires Unique(l)
    ensures Unique(Expire(l, now, validity))
    ensures forall e :: e in Expire(l, now, validity) <==> e in l && now - e.time <= validity
  {
    if l == [] {
    } else {
      assert l == [l[0]] + l[1..];
      ExpireHolds(l[1..], now, validity);
      var t := Expire(l[1..], now, validity);
      if now - l[0].time <= validity {
        UniqueCons(l[0], t);
      } else {
        assert [] + t == t;
      }
    }
  }

  lemma {:induction false} RemoveHolds(l: seq<Report>, r: Node)
    requires Unique(l)
    ensures Unique(Remove(l, r))
    ensures forall e :: e in Remove(l, r) <==> e in l && e.node != r
  {
    if l == [] {
    } else {
      assert l == [l[0]] + l[1..];
      if l[0].node != r {
        RemoveHolds(l[1..], r);
        UniqueCons(l[0], Remove(l[1..], r));
      }
    }
  }

  lemma DelReportHolds(l: seq<Report>, r: Node, now: int, validity: int)
    requires Unique(l)
    ensures Unique(DelReport(l, r, now, validity))
    ensures forall e :: e in DelReport(l, r, now, validity) <==>
      e in l && e.node != r && (From(l, r) ==> now - e.time <= validity)
  {
    RemoveHolds(l, r);
    ExpireHolds(Remove(l, r), now, validity);
  }

  function Reporters(l: seq<Report>): set<Node> {
    set e | e in l :: e.node
  }

  /** With one report per node, the length of the list counts nodes. */
  lemma {:induction false} OneEach(l: seq<Report>)
    requires Unique(l)
    ensures |Reporters(l)| == |l|
  {
    if l == [] {
    } else {
      OneEach(l[1..]);
      assert l == [l[0]] + l[1..];
      assert Reporters(l) == {l[0].node} + Reporters(l[1..]);
      assert l[0].node !in Reporters(l[1..]);
    }
  }

  // ---------------------------------------------------------------------------
  // Operations on the monitor
  // ---------------------------------------------------------------------------

  function Put(m: Monitor, n: Node, l: seq<Report>): Monitor
    requires n in m.records
  {
    m.(records := m.records[n := m.records[n].(reports := l)])
  }

  function Voices(m: Monitor, n: Node, now: int): nat
    requires n in m.records
  {
    |Expire(m.records[n].reports, now, m.validity)| + if m.isMaster then 1 else 0
  }

  /** Local agreement: enough voices say that a node this one cannot reach has failed. */
  predicate Agreed(m: Monitor, n: Node, now: int)
    requires n in m.records
  {
    m.records[n].timedOut && !m.records[n].failed && Voices(m, n, now) >= m.size / 2 + 1
  }

  function MarkIfNeeded(m: Monitor, n: Node, now: int): Monitor
    requires n in m.records
  {
    if !m.records[n].timedOut || m.records[n].failed then m
    else
      var left := Expire(m.records[n].reports, now, m.validity);
      if Agreed(m, n, now) then m.(records := m.records[n := Record(false, true, left)])
      else Put(m, n, left)
  }

  /** One entry of a gossip section. `idle`: no ping is pending to the node it is about. */
  function Gossip(m: Monitor, sender: Node, fromMaster: bool, n: Node, failing: bool, idle: bool, now: int): Monitor {
    if n !in m.records then m
    else
      var a := if !fromMaster || sender !in m.records || n == m.me then m
               else if failing then MarkIfNeeded(Put(m, n, AddReport(m.records[n].reports, sender, now)), n, now)
               else Put(m, n, DelReport(m.records[n].reports, sender, now, m.validity));
      if !failing && idle then Put(a, n, Expire(a.records[n].reports, now, a.validity)) else a
  }

  function Forget(m: Monitor, x: Node, now: int): Monitor {
    m.(records := map n | n in m.records && n != x ::
         m.records[n].(reports := DelReport(m.records[n].reports, x, now, m.validity)))
  }

  // ---------------------------------------------------------------------------
  // One word of gossip
  // ---------------------------------------------------------------------------

  predicate StillValid(m: Monitor, e: Report, now: int) {
    now - e.time <= m.validity
  }

  /** The word is listened to: a known master says it about another node. */
  predicate Heeded(m: Monitor, sender: Node, fromMaster: bool, n: Node) {
    fromMaster && sender in m.records && n != m.me && n in m.records
  }

  /** Only the record a word is about can change, and its flags change only by a word of failure that
      is heeded, from suspected to failed. */
  lemma GossipTouches(m: Monitor, sender: Node, fromMaster: bool, n: Node, failing: bool, idle: bool, now: int)
    ensures var r := Gossip(m, sender, fromMaster, n, failing, idle, now);
            && r == m.(records := r.records) && r.records.Keys == m.records.Keys
            && (forall k :: k in m.records && k != n ==> r.records[k] == m.records[k])
            && (n in m.records ==>
                  var a, b := m.records[n], r.records[n];
                  || (b.timedOut == a.timedOut && b.failed == a.failed)
                  || (&& failing && Heeded(m, sender, fromMaster, n)
                      && a.timedOut && !a.failed && !b.timedOut && b.failed))
  {
    hide AddReport, Expire, DelReport, Voices;
  }

  lemma DelNothing(l: seq<Report>, r: Node, now: int, validity: int)
    ensures !From(l, r) ==> DelReport(l, r, now, validity) == l
  {
  }

  /** What one word does to the reports on its node. A word of failure that is heeded is noted with its
      time, in place of an older one of the same sender; another word that is heeded removes the
      sender's report, and with it the stale ones, but no valid one of others; a word that is not
      heeded changes nothing - except that stale reports go when no ping is pending and the word is
      not of failure. */
  lemma GossipReports(m: Monitor, sender: Node, fromMaster: bool, n: Node, failing: bool, idle: bool, now: int)
    requires n in m.records && Unique(m.records[n].reports)
    ensures n in Gossip(m, sender, fromMaster, n, failing, idle, now).records
    ensures var a, l := m.records[n], m.records[n].reports;
            var r := Gossip(m, sender, fromMaster, n, failing, idle, now).records[n].reports;
            && Unique(r)
            && if !Heeded(m, sender, fromMaster, n) then
                 if idle && !failing then forall e :: e in r <==> e in l && StillValid(m, e, now) else r == l
               else if failing then
                 forall e :: e in r <==>
                   (e == Report(sender, now) || (e in l && e.node != sender)) &&
                   (a.timedOut && !a.failed ==> StillValid(m, e, now))
               else
                 && (forall e :: e in r <==>
                       e in l && e.node != sender && (From(l, sender) || idle ==> StillValid(m, e, now)))
                 && (!From(l, sender) && !idle ==> r == l)
  {
    hide AddReport, Remove, Expire, DelReport;
    var l := m.records[n].reports;
    if !Heeded(m, sender, fromMaster, n) {
      ExpireHolds(l, now, m.validity);
    } else if failing {
      AddReportHolds(l, sender, now);
      ExpireHolds(AddReport(l, sender, now), now, m.validity);
    } else {
      DelReportHolds(l, sender, now, m.validity);
      DelNothing(l, sender, now, m.validity);
      ExpireHolds(DelReport(l, sender, now, m.validity), now, m.validity);
    }
  }

  /** Forgetting a node removes its record and its reports on others, and touches no flag. */
  lemma ForgetExactly(m: Monitor, x: Node, now: int, n: Node)
    requires n in m.records && Unique(m.records[n].reports)
    ensures var r := Forget(m, x, now);
            && r == m.(records := r.records) && r.records.Keys == m.records.Keys - {x}
            && (n != x ==>
                  && r.records[n].timedOut == m.records[n].timedOut && r.records[n].failed == m.records[n].failed
                  && forall e :: e in r.records[n].reports <==>
                       && e in m.records[n].reports && e.node != x
                       && (From(m.records[n].reports, x) ==> StillValid(m, e, now)))
  {
    hide DelReport;
    DelReportHolds(m.records[n].reports, x, now, m.validity);
  }
}
