/** The failure detector updated in place: lists walked entry by entry, nodes one by one. */
module FailureDetector {
  import opened SlotTable
  import opened FailureReports

  /** The first report from r, or the length of the list. */
  method Find(l: seq<Report>, r: Node) returns (i: nat)
    ensures IsFirst(l, r, i)
  {
    i := 0;
    while i < |l| && l[i].node != r
      invariant i <= |l| && forall j :: 0 <= j < i ==> l[j].node != r
    {
      i := i + 1;
    }
  }

  /** A walk over l from the front stopped at i: there is the first report from r, if there is one. */
  predicate IsFirst(l: seq<Report>, r: Node, i: nat) {
    i <= |l| && (forall j :: 0 <= j < i ==> l[j].node != r) && (i < |l| ==> l[i].node == r)
  }

  lemma FirstIsFrom(l: seq<Report>, r: Node, i: nat)
    requires IsFirst(l, r, i)
    ensures From(l, r) <==> i < |l|
  {
    if i < |l| {
      assert l[i] in l;
    }
  }

  lemma {:induction false} FirstIsRenewed(l: seq<Report>, r: Node, now: int, i: nat)
    requires IsFirst(l, r, i)
    ensures AddReport(l, r, now) == if i < |l| then l[i := Report(r, now)] else l + [Report(r, now)]
  {
    if i == 0 {
    } else {
      FirstIsRenewed(l[1..], r, now, i - 1);
    }
  }

  lemma {:induction false} FirstIsRemoved(l: seq<Report>, r: Node, i: nat)
    requires IsFirst(l, r, i)
    ensures Remove(l, r) == if i < |l| then l[..i] + l[i + 1..] else l
  {
    if i == 0 {
      assert l != [] ==> l[..0] + l[1..] == l[1..];
    } else {
      FirstIsRemoved(l[1..], r, i - 1);
      if i < |l| {
        assert l[..i] + l[i + 1..] == [l[0]] + (l[1..][..i - 1] + l[1..][i..]);
      }
    }
  }

  /** Entries are unlinked while the list is walked. */
  method DropExpired(reports: seq<Report>, now: int, validity: int) returns (l: seq<Report>)
    ensures l == Expire(reports, now, validity)
  {
    l := reports;
    var i := 0;
    while i < |l|
      invariant 0 <= i <= |l|
      invariant Expire(reports, now, validity) == l[..i] + Expire(l[i..], now, validity)
      decreases |l| - i
    {
      assert l[i..][1..] == l[i + 1..];
      if now - l[i].time > validity {
        ghost var before := l;
        l := l[..i] + l[i + 1..];
        assert l[..i] == before[..i] && l[i..] == before[i + 1..];
      } else {
        assert l[..i + 1] == l[..i] + [l[i]];
        i := i + 1;
      }
    }
    assert l[..i] == l && l[i..] == [];
  }

  class Detector {
    const me: Node
    const validity: nat
    var isMaster: bool
    var size: nat
    var records: map<Node, Record>

    ghost function Value(): Monitor
      reads this
    {
      Monitor(me, isMaster, size, validity, records)
    }

    constructor (name: Node, nodeTimeout: nat)
      ensures Value() == Monitor(name, true, 1, 2 * nodeTimeout, map[name := Record(false, false, [])])
    {
      me, validity, isMaster, size := name, 2 * nodeTimeout, true, 1;
      records := map[name := Record(false, false, [])];
    }

    /** Returns true when the report is new. */
    method AddFailureReport(failing: Node, sender: Node, now: int) returns (added: bool)
      requires failing in records
      modifies this`records
      ensures Value() == Put(old(Value()), failing, AddReport(old(records)[failing].reports, sender, now))
      ensures added == !From(old(records)[failing].reports, sender)
    {
      hide AddReport, From;
      var l := records[failing].reports;
      var i := Find(l, sender);
      FirstIsFrom(l, sender, i);
      FirstIsRenewed(l, sender, now, i);
      if i < |l| {
        l := l[i := l[i].(time := now)];
        added := false;
      } else {
        l := l + [Report(sender, now)];
        added := true;
      }
      records := records[failing := records[failing].(reports := l)];
    }

    method CleanupFailureReports(n: Node, now: int)
      requires n in records
      modifies this`records
      ensures Value() == Put(old(Value()), n, Expire(old(records)[n].reports, now, validity))
    {
      hide Expire;
      var l := DropExpired(records[n].reports, now, validity);
      records := records[n := records[n].(reports := l)];
    }

    /** Returns true when a report was removed. */
    method DelFailureReport(n: Node, sender: Node, now: int) returns (removed: bool)
      requires n in records
      modifies this`records
      ensures Value() == Put(old(Value()), n, DelReport(old(records)[n].reports, sender, now, validity))
      ensures removed == From(old(records)[n].reports, sender)
    {
      hide Expire, Remove, From;
      var l := records[n].reports;
      var i := Find(l, sender);
      FirstIsFrom(l, sender, i);
      FirstIsRemoved(l, sender, i);
      if i == |l| {
        assert records == records[n := records[n].(reports := l)];
        return false;
      }
      records := records[n := records[n].(reports := l[..i] + l[i + 1..])];
      CleanupFailureReports(n, now);
      removed := true;
    }

    method FailureReportsCount(n: Node, now: int) returns (count: nat)
      requires n in records
      modifies this`records
      ensures Value() == Put(old(Value()), n, Expire(old(records)[n].reports, now, validity))
      ensures count == |Expire(old(records)[n].reports, now, validity)|
    {
      CleanupFailureReports(n, now);
      count := |records[n].reports|;
    }

    method MarkNodeAsFailingIfNeeded(n: Node, now: int) returns (marked: bool)
      requires n in records
      modifies this`records
      ensures Value() == MarkIfNeeded(old(Value()), n, now) && marked == Agreed(old(Value()), n, now)
    {
      marked := false;
      if !records[n].timedOut {
        return;
      }
      if records[n].failed {
        return;
      }
      var failures := FailureReportsCount(n, now);
      if isMaster {
        failures := failures + 1;
      }
      if failures < size / 2 + 1 {
        return;
      }
      records := records[n := records[n].(timedOut := false, failed := true)];
      marked := true;
    }

    /** One entry of a gossip section. */
    method ProcessGossip(sender: Node, fromMaster: bool, n: Node, failing: bool, idle: bool, now: int)
      modifies this`records
      ensures Value() == Gossip(old(Value()), sender, fromMaster, n, failing, idle, now)
    {
      hide AddReport, DelReport, Expire, MarkIfNeeded;
      if n !in records {
        return;
      }
      MarkKeepsKeys(Value(), n, sender, now);
      if fromMaster && sender in records && n != me {
        if failing {
          var _ := AddFailureReport(n, sender, now);
          var _ := MarkNodeAsFailingIfNeeded(n, now);
        } else {
          var _ := DelFailureReport(n, sender, now);
        }
      }
      if !failing && idle {
        var _ := FailureReportsCount(n, now);
      }
    }

    /** Remove a node: first the reports it sent, then its record. */
    method DelNode(x: Node, now: int)
      modifies this`records
      ensures Value() == Forget(old(Value()), x, now)
    {
      hide DelReport;
      ghost var was := records;
      var todo := records.Keys;
      while todo != {}
        invariant records.Keys == was.Keys && todo <= was.Keys
        invariant forall n :: n in todo ==> records[n] == was[n]
        invariant forall n :: n in was && n !in todo && n != x ==>
          records[n] == was[n].(reports := DelReport(was[n].reports, x, now, validity))
        decreases todo
      {
        var n :| n in todo;
        if n != x {
          var _ := DelFailureReport(n, x, now);
        }
        todo := todo - {n};
      }
      records := records - {x};
      assert records == Forget(old(Value()), x, now).records;
    }
  }

  lemma MarkKeepsKeys(m: Monitor, n: Node, r: Node, now: int)
    requires n in m.records
    ensures n in MarkIfNeeded(Put(m, n, AddReport(m.records[n].reports, r, now)), n, now).records
  {
  }
}
