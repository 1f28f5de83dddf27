/** Every run of slot operations. */
module SlotRuns {
  import opened SlotTable

  datatype Op =
    | Add(n: Node, j: nat)
    | Del(j: nat)
    | Flush(n: Node)
    | Join(n: Node)
    | Forget(n: Node)
    | Assert(sender: Node, judge: Judge, epoch: nat, claim: seq<bool>)
    | Failover(from: Node, to: Node)

  predicate Enabled(t: Table, op: Op) {
    match op
    case Add(n, j) => n in t.bitmaps && j < |t.slots|
    case Del(j) => j < |t.slots|
    case Flush(n) => n in t.bitmaps
    case Join(n) => n !in t.bitmaps
    case Forget(n) => n in t.bitmaps
    case Assert(sender, judge, _, claim) =>
      && sender in t.bitmaps
      && |claim| == |t.slots| && |judge.importing| == |t.slots|
    case Failover(from, to) => from in t.bitmaps && to in t.bitmaps
  }

  function Apply(t: Table, op: Op): (r: Table)
    requires Agree(t) && Enabled(t, op)
    ensures Agree(r) && |r.slots| == |t.slots|
  {
    match op
    case Add(n, j) => AddSlotKeeps(t, n, j); AddSlot(t, n, j)
    case Del(j) => DelSlotKeeps(t, j); DelSlot(t, j)
    case Flush(n) => DelNodeSlots(t, n, |t.slots|)
    case Join(n) => AddNode(t, n)
    case Forget(n) => DelNode(t, n)
    case Assert(sender, judge, epoch, claim) => Claim(t, judge, sender, epoch, claim, |t.slots|)
    case Failover(from, to) => TakeOver(t, from, to, |t.slots|)
  }

  /** A run of operations whose arguments name known nodes and slots. */
  ghost predicate Reaches(t: Table, ops: seq<Op>, u: Table)
    requires Agree(t)
    decreases |ops|
  {
    if |ops| == 0 then t == u else Enabled(t, ops[0]) && Reaches(Apply(t, ops[0]), ops[1..], u)
  }

  /** AGREEMENT OVER RUNS. Whatever is added, deleted, joined, forgotten, claimed or taken over:
      slot j is owned by n exactly when bit j of n's bitmap is set, the counters are the
      populations of the bitmaps. */
  lemma {:induction false} RunKeepsAgreement(t: Table, ops: seq<Op>, u: Table)
    requires Agree(t) && Reaches(t, ops, u)
    ensures Agree(u) && |u.slots| == |t.slots|
    ensures forall n, j :: n in u.bitmaps && 0 <= j < |u.slots| ==>
      NodeAgrees(u, n) && (u.slots[j] == Some(n) <==> u.bitmaps[n][j])
    decreases |ops|
  {
    if |ops| == 0 {
      assert forall n :: n in u.bitmaps ==> NodeAgrees(u, n);
    } else {
      RunKeepsAgreement(Apply(t, ops[0]), ops[1..], u);
    }
  }
}
