/** Config epoch collisions among masters resolve themselves, and quickly.

    Masters exchange headers, which may be delayed, reordered, duplicated or lost, and take a new
    config epoch only when they receive their own from a master with a greater name. */
module EpochCollision {
  import opened SlotTable
  import opened Bytes
  import B = ClusterBus

  /** The epochs one master keeps: the current epoch and the last config epoch seen of every master. */
  datatype Local = Local(current: nat, config: map<Node, nat>)

  datatype Hdr = Hdr(sender: Node, current: nat, config: nat)

  /** What a header does to the epochs of master `me`. */
  function Receive(me: Node, l: Local, h: Hdr): Local
    requires me in l.config && h.sender in l.config
  {
    var current := B.Max(l.current, h.current);
    var config := l.config[h.sender := B.Max(l.config[h.sender], h.config)];
    if h.config == config[me] && config[h.sender] == config[me] && h.sender > me
    then Local(current + 1, config[me := current + 1])
    else Local(current, config)
  }

  /** `Receive` is what the whole PING handler does to the epochs of a node that takes all senders
      for masters and stays a master itself. */
  lemma ReceiveIsHandler(v: B.View, h: B.Header)
    requires B.Formed(v) && B.Fits(v, B.Ping(h)) && h.slaveOf.None?
    requires var w := B.OnPing(v, h).0; w.peers[w.me].isMaster
    ensures var w := B.OnPing(v, h).0;
      Local(w.currentEpoch, w.configEpoch) ==
          Receive(v.me, Local(v.currentEpoch, v.configEpoch), Hdr(h.sender, h.currentEpoch, h.configEpoch))
  {
    hide B.Formed, B.UpdateSlots;
    var learned := B.Learn(v, h);
    var taken := B.TakeIn(learned, h);
    SenderStaysMaster(learned, h);
  }

  lemma SenderStaysMaster(v: B.View, h: B.Header)
    requires B.Formed(v) && B.Fits(v, B.Ping(h)) && h.slaveOf.None?
    ensures B.TakeIn(v, h).peers[h.sender].isMaster
  {
  }

  // ---------------------------------------------------------------------------
  // Runs
  // ---------------------------------------------------------------------------

  /** Besides the masters and every header ever sent: all config epochs a master has had, and how
      often it took a new one. */
  datatype Net = Net(nodes: map<Node, Local>, sent: set<Hdr>, taken: map<Node, set<nat>>, bumps: map<Node, nat>)

  datatype Step = Send(n: Node) | Deliver(n: Node, h: Hdr)

  ghost predicate Knows(s: Net, n: Node) {
    n in s.nodes ==> s.nodes[n].config.Keys == s.nodes.Keys
  }

  ghost predicate Formed(s: Net) {
    && s.taken.Keys == s.nodes.Keys && s.bumps.Keys == s.nodes.Keys
    && (forall n {:trigger Knows(s, n)} :: n in s.nodes ==> Knows(s, n))
    && (forall h :: h in s.sent ==> h.sender in s.nodes)
  }

  ghost predicate Enabled(s: Net, step: Step) {
    step.n in s.nodes && (step.Deliver? ==> step.h in s.sent && step.h.sender != step.n)
  }

  function Mine(s: Net, n: Node): nat
    requires n in s.nodes && n in s.nodes[n].config
  {
    s.nodes[n].config[n]
  }

  ghost function Next(s: Net, step: Step): (r: Net)
    requires Formed(s) && Enabled(s, step)
    ensures Formed(r) && r.nodes.Keys == s.nodes.Keys
  {
    assert Knows(s, step.n);
    match step
    case Send(n) =>
      var r := s.(sent := s.sent + {Hdr(n, s.nodes[n].current, Mine(s, n))});
      assert forall k :: k in r.nodes ==> Knows(s, k) ==> Knows(r, k);
      r
    case Deliver(n, h) =>
      var l := Receive(n, s.nodes[n], h);
      var moved := l.config[n] != Mine(s, n);
      var r := s.(nodes := s.nodes[n := l],
                  taken := s.taken[n := s.taken[n] + {l.config[n]}],
                  bumps := s.bumps[n := s.bumps[n] + (if moved then 1 else 0)]);
      assert forall k :: k in r.nodes ==> Knows(s, k) ==> Knows(r, k);
      r
  }

  /** Per master: its config epoch is the greatest it has had, one more than it has left, and it
      left only epochs that a greater-named master has had. */
  ghost predicate Good(s: Net, n: Node) {
    n in s.nodes && n in s.nodes[n].config && n in s.taken && n in s.bumps ==>
      && Mine(s, n) <= s.nodes[n].current
      && Mine(s, n) in s.taken[n] && |s.taken[n]| == s.bumps[n] + 1
      && (forall x :: x in s.taken[n] ==> x <= Mine(s, n))
      && (forall x :: x in s.taken[n] && x != Mine(s, n) ==> Inherited(s, n, x))
  }

  ghost predicate Inherited(s: Net, n: Node, x: nat) {
    exists m :: m in s.taken && m > n && x in s.taken[m]
  }

  ghost predicate HeaderOk(s: Net, h: Hdr) {
    h in s.sent && h.sender in s.taken ==> h.config in s.taken[h.sender] && h.config <= h.current
  }

  ghost predicate Inv(s: Net) {
    && Formed(s)
    && (forall n {:trigger Good(s, n)} :: n in s.nodes ==> Good(s, n))
    && (forall h {:trigger HeaderOk(s, h)} :: h in s.sent ==> HeaderOk(s, h))
  }

  lemma InheritedGrows(s: Net, r: Net, n: Node, x: nat)
    requires Inherited(s, n, x) && s.taken.Keys == r.taken.Keys
    requires forall m :: m in s.taken ==> s.taken[m] <= r.taken[m]
    ensures Inherited(r, n, x)
  {
    var m :| m in s.taken && m > n && x in s.taken[m];
    assert m in r.taken && x in r.taken[m];
  }

  lemma GoodGrows(s: Net, r: Net, n: Node)
    requires Good(s, n) && n in s.nodes && n in r.nodes && n in s.taken && n in s.bumps && n in s.nodes[n].config
    requires r.nodes[n] == s.nodes[n] && s.taken.Keys == r.taken.Keys && r.taken[n] == s.taken[n]
    requires n in r.bumps && r.bumps[n] == s.bumps[n]
    requires forall m :: m in s.taken ==> s.taken[m] <= r.taken[m]
    ensures Good(r, n)
  {
    forall x | x in r.taken[n] && x != Mine(r, n)
      ensures Inherited(r, n, x)
    {
      InheritedGrows(s, r, n, x);
    }
  }

  lemma NextInv(s: Net, step: Step)
    requires Inv(s) && Enabled(s, step)
    ensures Inv(Next(s, step))
  {
    var r := Next(s, step);
    var n := step.n;
    assert Knows(s, n) && Good(s, n);
    forall k | k in r.nodes
      ensures Good(r, k)
    {
      assert Knows(s, k) && Good(s, k);
      if step.Send? || k != n {
        GoodGrows(s, r, k);
      } else {
        DeliverGood(s, step);
      }
    }
    forall h | h in r.sent
      ensures HeaderOk(r, h)
    {
      assert HeaderOk(s, h);
    }
  }

  lemma DeliverGood(s: Net, step: Step)
    requires Inv(s) && Enabled(s, step) && step.Deliver?
    ensures Good(Next(s, step), step.n)
  {
    var r, n, h := Next(s, step), step.n, step.h;
    assert Knows(s, n) && Good(s, n) && HeaderOk(s, h);
    var before, after := Mine(s, n), Mine(r, n);
    if after == before {
      assert r.taken[n] == s.taken[n];
    } else {
      assert after > before && after !in s.taken[n];
    }
    forall x | x in r.taken[n] && x != after
      ensures Inherited(r, n, x)
    {
      if x == before {
        // it moved: the header that moved it carried its own epoch
        assert h.config == before && h.sender > n && before in r.taken[h.sender];
      } else {
        InheritedGrows(s, r, n, x);
      }
    }
  }

  /** Everything a set of masters has had. */
  ghost function Values(s: Net, ns: set<Node>): set<nat>
    requires ns <= s.taken.Keys
  {
    set n, x | n in ns && x in s.taken[n] :: x
  }

  ghost function Above(s: Net, n: Node): set<Node> {
    set m | m in s.nodes && m > n
  }

  lemma LeastOf(ns: set<Node>) returns (a: Node)
    requires ns != {}
    ensures a in ns && forall m :: m in ns ==> a <= m
    decreases ns
  {
    a :| a in ns;
    if ns != {a} {
      var b := LeastOf(ns - {a});
      assert forall m :: m in ns ==> m == a || m in ns - {a};
      if b < a {
        a := b;
      }
    }
  }

  /** An upward closed set of masters has never had more epochs than it has members: whatever its
      least member left behind, a greater member had. */
  lemma {:induction false} FewValues(s: Net, ns: set<Node>)
    requires Inv(s) && ns <= s.nodes.Keys
    requires forall n, m :: n in ns && m in s.nodes && m > n ==> m in ns
    ensures |Values(s, ns)| <= |ns|
    decreases ns
  {
    if ns == {} {
      assert Values(s, ns) == {};
    } else {
      var a := LeastOf(ns);
      var rest := ns - {a};
      FewValues(s, rest);
      assert Knows(s, a) && Good(s, a);
      forall x | x in Values(s, ns)
        ensures x in Values(s, rest) + {Mine(s, a)}
      {
        var n :| n in ns && x in s.taken[n];
        if n == a && x != Mine(s, a) {
          var m :| m in s.taken && m > a && x in s.taken[m];
          assert m in rest;
        } else if n != a {
          assert n in rest;
        }
      }
      SubsetSize(Values(s, ns), Values(s, rest) + {Mine(s, a)});
    }
  }

  /** A master with k greater-named masters takes a new config epoch at most k times. */
  lemma BumpsBound(s: Net, n: Node)
    requires Inv(s) && n in s.nodes
    ensures s.bumps[n] <= |Above(s, n)|
  {
    assert Knows(s, n) && Good(s, n);
    var above := Above(s, n);
    FewValues(s, above);
    forall x | x in s.taken[n]
      ensures x in Values(s, above) + {Mine(s, n)}
    {
      if x != Mine(s, n) {
        var m :| m in s.taken && m > n && x in s.taken[m];
        assert m in above;
      }
    }
    SubsetSize(s.taken[n], Values(s, above) + {Mine(s, n)});
  }

  ghost predicate Reaches(s: Net, steps: seq<Step>, t: Net)
    requires Formed(s)
    decreases |steps|
  {
    if |steps| == 0 then s == t else Enabled(s, steps[0]) && Reaches(Next(s, steps[0]), steps[1..], t)
  }

  /** Nothing sent, nobody moved: any config epochs, distinct or not. */
  ghost predicate Initial(s: Net) {
    && Formed(s) && s.sent == {}
    && forall n {:trigger Unmoved(s, n)} :: n in s.nodes ==> Unmoved(s, n)
  }

  ghost predicate Unmoved(s: Net, n: Node) {
    n in s.nodes && n in s.nodes[n].config && n in s.taken && n in s.bumps ==>
      Mine(s, n) <= s.nodes[n].current && s.taken[n] == {Mine(s, n)} && s.bumps[n] == 0
  }

  lemma {:induction false} RunInv(s: Net, steps: seq<Step>, t: Net)
    requires Inv(s) && Reaches(s, steps, t)
    ensures Inv(t) && t.nodes.Keys == s.nodes.Keys
    decreases |steps|
  {
    if |steps| == 0 {
    } else {
      NextInv(s, steps[0]);
      RunInv(Next(s, steps[0]), steps[1..], t);
    }
  }

  lemma InitialInv(s: Net)
    requires Initial(s)
    ensures Inv(s)
  {
    forall n | n in s.nodes
      ensures Good(s, n)
    {
      assert Knows(s, n) && Unmoved(s, n);
    }
  }

  lemma {:induction false} LinearBelowExponential(k: nat)
    ensures k <= Pow2(k) - 1
  {
    if k == 0 {
    } else {
      LinearBelowExponential(k - 1);
    }
  }

  /** TERMINATION. In every run the master with the greatest name never moves, and a master with k
      greater-named masters takes a new config epoch at most k times (hence at most 2^k - 1). */
  lemma CollisionsTerminate(s: Net, steps: seq<Step>, t: Net, n: Node)
    requires Initial(s) && Reaches(s, steps, t) && n in s.nodes
    ensures n in t.bumps && t.bumps[n] <= |Above(s, n)| <= Pow2(|Above(s, n)|) - 1
    ensures Above(s, n) == {} ==> t.bumps[n] == 0
  {
    hide Inv, Good, Formed, Reaches, Next;
    InitialInv(s);
    RunInv(s, steps, t);
    BumpsBound(t, n);
    assert Above(t, n) == Above(s, n);
    LinearBelowExponential(|Above(s, n)|);
    assert t.bumps.Keys == t.nodes.Keys by { InvKeys(t); }
  }

  lemma InvKeys(s: Net)
    requires Inv(s)
    ensures s.bumps.Keys == s.nodes.Keys
  {
  }

  // ---------------------------------------------------------------------------
  // What is reached when nothing moves any more
  // ---------------------------------------------------------------------------

  /** No record of a master's config epoch is ahead of the master itself. */
  ghost predicate RecordOk(s: Net, n: Node, m: Node) {
    n in s.nodes && m in s.nodes && m in s.nodes[n].config && m in s.nodes[m].config ==>
        s.nodes[n].config[m] <= Mine(s, m)
  }

  ghost predicate Recorded(s: Net) {
    forall n, m {:trigger RecordOk(s, n, m)} :: n in s.nodes && m in s.nodes ==> RecordOk(s, n, m)
  }

  lemma NextRecorded(s: Net, step: Step)
    requires Inv(s) && Enabled(s, step) && Recorded(s)
    ensures Recorded(Next(s, step))
  {
    var r := Next(s, step);
    forall n, m | n in r.nodes && m in r.nodes
      ensures RecordOk(r, n, m)
    {
      assert RecordOk(s, n, m) && Knows(s, n) && Knows(s, m) && Good(s, m);
      if step.Deliver? {
        assert HeaderOk(s, step.h);
      }
    }
  }

  lemma {:induction false} RunRecorded(s: Net, steps: seq<Step>, t: Net)
    requires Inv(s) && Recorded(s) && Reaches(s, steps, t)
    ensures Inv(t) && Recorded(t)
    decreases |steps|
  {
    if |steps| == 0 {
    } else {
      NextInv(s, steps[0]);
      NextRecorded(s, steps[0]);
      RunRecorded(Next(s, steps[0]), steps[1..], t);
    }
  }

  function ConfigEpoch(s: Net, n: Node): nat {
    if n in s.nodes && n in s.nodes[n].config then Mine(s, n) else 0
  }

  /** The header m would send now does not move n. */
  ghost predicate Rests(s: Net, n: Node, m: Node) {
    n in s.nodes && m in s.nodes && n != m && n in s.nodes[n].config && m in s.nodes[n].config &&
        m in s.nodes[m].config ==>
      Receive(n, s.nodes[n], Hdr(m, s.nodes[m].current, Mine(s, m))).config[n] == Mine(s, n)
  }

  /** RESOLUTION. In every reachable state: no header that could be sent now moves anybody if and
      only if all masters have distinct config epochs. */
  lemma RestsExactlyWhenDistinct(s: Net, steps: seq<Step>, t: Net)
    requires Initial(s) && Recorded(s) && Reaches(s, steps, t)
    ensures Inv(t)
    ensures (forall n, m :: n in t.nodes && m in t.nodes && n != m ==> Rests(t, n, m))
       <==> (forall n, m :: n in t.nodes && m in t.nodes && n != m ==> ConfigEpoch(t, n) != ConfigEpoch(t, m))
  {
    hide Inv, Recorded, Rests, Knows, Initial, Reaches;
    InitialInv(s);
    RunRecorded(s, steps, t);
    forall n, m | n in t.nodes && m in t.nodes && n != m
      ensures (Rests(t, n, m) && Rests(t, m, n)) <==> ConfigEpoch(t, n) != ConfigEpoch(t, m)
    {
      if n < m {
        PairRests(t, n, m);
      } else {
        PairRests(t, m, n);
      }
    }
  }

  lemma PairRests(t: Net, n: Node, m: Node)
    requires Inv(t) && Recorded(t) && n in t.nodes && m in t.nodes && n < m
    ensures (Rests(t, n, m) && Rests(t, m, n)) <==> ConfigEpoch(t, n) != ConfigEpoch(t, m)
  {
    assert Knows(t, n) && Knows(t, m) && RecordOk(t, n, m) && RecordOk(t, m, n) && Good(t, n) && Good(t, m);
  }
}
