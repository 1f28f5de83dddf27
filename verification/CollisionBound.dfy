/** The bound on moves after collisions is exact: a run in which every master moves as often as there
    are masters with a greater name. */
module CollisionBound {
  import opened SlotTable
  import opened EpochCollision

  function Names(k: nat): (names: set<Node>)
    ensures forall m: Node :: m in names <==> m <= k
  {
    if k == 0 then {0} else Names(k - 1) + {k}
  }

  /** What master n knows after it moved t times: its own epoch and those of the t greatest names. */
  function Knowledge(k: nat, n: Node, t: nat): Local {
    Local(t, map m: Node | m in Names(k) :: if m == n then t else if m + t > k then k - m else 0)
  }

  /** The header of the master with i greater names, once it has moved i times. */
  function Settled(k: nat, i: nat): Hdr
    requires i <= k
  {
    Hdr(k - i, i, i)
  }

  /** Moves of m when the masters with fewer than j greater names are done and the next one has
      moved t times. */
  function Moves(k: nat, j: nat, t: nat, m: Node): nat {
    if m + j > k then (if m <= k then k - m else 0) else if m + j == k then t else 0
  }

  ghost predicate NodeAt(s: Net, k: nat, j: nat, t: nat, m: Node) {
    && m in s.nodes && m in s.bumps
    && s.nodes[m] == Knowledge(k, m, Moves(k, j, t, m)) && s.bumps[m] == Moves(k, j, t, m)
  }

  ghost predicate Stage(s: Net, k: nat, j: nat, t: nat) {
    && t <= j <= k && Formed(s) && s.nodes.Keys == Names(k)
    && (forall m {:trigger NodeAt(s, k, j, t, m)} :: m in Names(k) ==> NodeAt(s, k, j, t, m))
    && (forall i {:trigger Settled(k, i)} :: 0 <= i < j ==> Settled(k, i) in s.sent)
  }

  /** A master that moved t times moves again when it hears of the next settled one. */
  lemma MovesOn(k: nat, n: Node, t: nat)
    requires n + t < k
    ensures n in Knowledge(k, n, t).config && k - t in Knowledge(k, n, t).config
    ensures Receive(n, Knowledge(k, n, t), Settled(k, t)) == Knowledge(k, n, t + 1)
  {
    var l := Receive(n, Knowledge(k, n, t), Settled(k, t));
    assert l.config == Knowledge(k, n, t + 1).config;
  }

  lemma OwnEpoch(k: nat, n: Node, t: nat)
    requires n <= k
    ensures Knowledge(k, n, t).config.Keys == Names(k)
    ensures Knowledge(k, n, t).config[n] == t && Knowledge(k, n, t).current == t
  {
    hide Names;
    assert n in Names(k);
    assert Knowledge(k, n, t).config.Keys == Names(k);
  }

  lemma Hears(s: Net, k: nat, j: nat, t: nat)
    requires Stage(s, k, j, t) && t < j
    ensures var step := Deliver(k - j, Settled(k, t)); Enabled(s, step) && Stage(Next(s, step), k, j, t + 1)
  {
    hide Knowledge, Receive, Formed;
    var n := k - j;
    var step := Deliver(n, Settled(k, t));
    assert n in Names(k) && NodeAt(s, k, j, t, n);
    MovesOn(k, n, t);
    OwnEpoch(k, n, t);
    OwnEpoch(k, n, t + 1);
    var r := Next(s, step);
    forall m | m in Names(k)
      ensures NodeAt(r, k, j, t + 1, m)
    {
      assert NodeAt(s, k, j, t, m);
    }
  }

  lemma Publishes(s: Net, k: nat, j: nat)
    requires Stage(s, k, j, j) && j < k
    ensures Enabled(s, Send(k - j)) && Stage(Next(s, Send(k - j)), k, j + 1, 0)
  {
    hide Knowledge, Formed;
    var n := k - j;
    assert n in Names(k) && NodeAt(s, k, j, j, n);
    OwnEpoch(k, n, j);
    var r := Next(s, Send(n));
    forall m | m in Names(k)
      ensures NodeAt(r, k, j + 1, 0, m)
    {
      assert NodeAt(s, k, j, j, m);
    }
    assert Settled(k, j) in r.sent;
  }

  lemma StageParts(s: Net, k: nat, j: nat, t: nat)
    requires Stage(s, k, j, t)
    ensures Formed(s) && t <= j <= k
  {
  }

  lemma {:induction false} Goes(s: Net, k: nat, j: nat, t: nat) returns (steps: seq<Step>, u: Net)
    requires Stage(s, k, j, t)
    ensures Reaches(s, steps, u) && Stage(u, k, k, k)
    decreases k - j, j - t
  {
    hide Stage, Next;
    StageParts(s, k, j, t);
    if j == k && t == k {
      steps, u := [], s;
    } else {
      var step;
      if t < j {
        Hears(s, k, j, t);
        step := Deliver(k - j, Settled(k, t));
        steps, u := Goes(Next(s, step), k, j, t + 1);
      } else {
        Publishes(s, k, j);
        step := Send(k - j);
        steps, u := Goes(Next(s, step), k, j + 1, 0);
      }
      assert ([step] + steps)[1..] == steps;
      steps := [step] + steps;
    }
  }

  /** Masters 0 to k, all in epoch 0. */
  function Start(k: nat): Net {
    Net(map m: Node | m in Names(k) :: Knowledge(k, m, 0), {},
        map m: Node | m in Names(k) :: {0}, map m: Node | m in Names(k) :: 0)
  }

  lemma StartsAt(k: nat, m: Node)
    requires m in Names(k)
    ensures m in Start(k).nodes && m in Start(k).taken && Knows(Start(k), m) && NodeAt(Start(k), k, 0, 0, m)
    ensures Unmoved(Start(k), m)
  {
    hide Names, Knowledge;
    OwnEpoch(k, m, 0);
  }

  lemma Starts(k: nat)
    ensures Initial(Start(k)) && Stage(Start(k), k, 0, 0) && Start(k).nodes.Keys == Names(k)
  {
    hide Names, Knows, NodeAt, Unmoved, Knowledge;
    var s := Start(k);
    forall m | m in Names(k)
      ensures Knows(s, m) && NodeAt(s, k, 0, 0, m) && Unmoved(s, m)
    {
      StartsAt(k, m);
    }
  }

  function Greater(k: nat, n: Node): set<Node> {
    set m | m in Names(k) && m > n
  }

  lemma {:induction false} HowMany(k: nat, n: nat)
    requires n <= k
    ensures |Greater(k, n)| == k - n
    decreases k
  {
    if n == k {
      assert Greater(k, n) == {};
    } else {
      HowMany(k - 1, n);
      assert Greater(k, n) == Greater(k - 1, n) + {k};
    }
  }

  lemma AtTheEnd(t: Net, k: nat, n: Node)
    requires Stage(t, k, k, k) && n <= k
    ensures n in t.bumps && t.bumps[n] == k - n
  {
    assert n in Names(k) && NodeAt(t, k, k, k, n);
  }

  /** EXACT. For every k there is a run of k + 1 masters in which each of them takes a new config
      epoch exactly as often as there are masters with a greater name; the least moves k times. */
  lemma BoundIsAttained(k: nat) returns (s: Net, steps: seq<Step>, t: Net)
    ensures Initial(s) && s.nodes.Keys == Names(k) && Reaches(s, steps, t)
    ensures forall n :: n in s.nodes ==> n in t.bumps && t.bumps[n] == |Above(s, n)| == k - n
  {
    hide Stage, Reaches, Initial, Names, Start;
    s := Start(k);
    Starts(k);
    steps, t := Goes(s, k, 0, 0);
    forall n | n in s.nodes
      ensures n in t.bumps && t.bumps[n] == |Above(s, n)| == k - n
    {
      AtTheEnd(t, k, n);
      HowMany(k, n);
      assert Above(s, n) == Greater(k, n);
    }
  }
}
