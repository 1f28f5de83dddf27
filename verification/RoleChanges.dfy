/** What winning an election and losing the last slot do, said in terms of who owns what. */
module RoleChanges {
  import opened SlotTable
  import opened ClusterBus

  /** The winner is a master, takes the epoch of the election unless its own is greater, and owns
      exactly what it owned and what its master owned; the old master is left with nothing. */
  lemma WinnerTakesOver(v: View, c: Clock)
    requires Formed(v) && OnFailover(v, c).won
    ensures !v.peers[v.me].isMaster && v.authCount >= Quorum(v)
    ensures var w := OnFailover(v, c).view;
            && w.peers[w.me].isMaster && w.peers[w.me].slaveOf == None
            && w.configEpoch == v.configEpoch[v.me := Max(v.configEpoch[v.me], v.authEpoch)]
            && (forall j :: 0 <= j < |v.table.slots| ==>
                  w.table.slots[j] == if v.table.slots[j] == Some(Mine(v)) then Some(v.me) else v.table.slots[j])
            && (Mine(v) != v.me ==> w.table.numslots[Mine(v)] == 0)
  {
    hide Agree, TakeOver;
    var w := OnFailover(v, c).view;
    FormedFacts(w);
    if Mine(v) != v.me {
      NumslotsZero(w.table, Mine(v));
    }
  }

  /** This node's master, or the node itself, owns no slot. */
  ghost predicate Bare(t: Table, n: Node) {
    forall j :: 0 <= j < |t.slots| ==> t.slots[j] != Some(n)
  }

  ghost predicate LostOne(t: Table, u: Table, n: Node)
    requires |t.slots| == |u.slots|
  {
    exists j :: 0 <= j < |t.slots| && t.slots[j] == Some(n) && u.slots[j] != Some(n)
  }

  /** A node follows a claimant exactly when the claim took the last slot of its own master (or of
      the node itself, if it is one); a master that does so imports nothing any more, and no other
      role changes. */
  lemma FollowsTheClaimant(v: View, n: Node, epoch: nat, claim: seq<bool>)
    requires Formed(v) && n in v.peers && n != v.me && |claim| == |v.table.slots|
    ensures var w := UpdateSlots(v, n, epoch, claim);
            if LostOne(v.table, w.table, Mine(v)) && Bare(w.table, Mine(v))
            then
              && w.peers == v.peers[v.me := v.peers[v.me].(isMaster := false, slaveOf := Some(n))]
              && w.importing == if v.peers[v.me].isMaster then NoBits(|v.importing|) else v.importing
            else w.peers == v.peers && w.importing == v.importing
  {
    hide Agree, Claim, Wins;
    var w := UpdateSlots(v, n, epoch, claim);
    var mine := Mine(v);
    FormedFacts(v);
    FormedFacts(w);
    NumslotsZero(w.table, mine);
    ClaimTakes(v, n, epoch, claim, mine);
  }

  lemma ClaimTakes(v: View, n: Node, epoch: nat, claim: seq<bool>, mine: Node)
    requires Formed(v) && n in v.peers && |claim| == |v.table.slots|
    ensures var t := Claim(v.table, JudgeOf(v), n, epoch, claim, |claim|);
            TakesFrom(v, Some(mine), n, epoch, claim) <==> LostOne(v.table, t, mine)
  {
    hide Agree;
    var t := Claim(v.table, JudgeOf(v), n, epoch, claim, |claim|);
    if LostOne(v.table, t, mine) {
      var j :| 0 <= j < |v.table.slots| && v.table.slots[j] == Some(mine) && t.slots[j] != Some(mine);
      assert Wins(v.table, JudgeOf(v), n, epoch, claim, j);
    }
    if TakesFrom(v, Some(mine), n, epoch, claim) {
      var j :| 0 <= j < |claim| && Wins(v.table, JudgeOf(v), n, epoch, claim, j) && v.table.slots[j] == Some(mine);
      assert t.slots[j] == Some(n) != Some(mine);
    }
  }
}
