/** The slot table of a cluster node: who owns each hash slot, kept twice - once as an owner per
    slot and once as a bitmap and a counter per node - and the operations that change both. */
module SlotTable {
  import opened BitString

  /** A node name. Names have a fixed length, so their byte-wise order is a numeric order. */
  type Node = nat

  lemma {:induction false} SubsetSize(a: set<Node>, b: set<Node>)
    requires a <= b
    ensures |a| <= |b|
    decreases a
  {
    if a == {} {
    } else {
      var x :| x in a;
      SubsetSize(a - {x}, b - {x});
    }
  }

  datatype Option<+T> = None | Some(value: T)

  datatype Table = Table(slots: seq<Option<Node>>, bitmaps: map<Node, seq<bool>>, numslots: map<Node, int>)

  function NoBits(n: nat): (bits: seq<bool>)
    ensures |bits| == n && forall j :: 0 <= j < n ==> !bits[j]
  {
    seq(n, _ => false)
  }

  // ---------------------------------------------------------------------------
  // Agreement
  // ---------------------------------------------------------------------------

  ghost predicate NodeAgrees(t: Table, n: Node) {
    && n in t.bitmaps && n in t.numslots
    && |t.bitmaps[n]| == |t.slots|
    && (forall j :: 0 <= j < |t.slots| ==> (t.bitmaps[n][j] <==> t.slots[j] == Some(n)))
    && t.numslots[n] == Count(t.bitmaps[n])
  }

  ghost predicate OwnerKnown(t: Table, j: int) {
    0 <= j < |t.slots| && t.slots[j].Some? ==> t.slots[j].value in t.bitmaps
  }

  /** Bit j of a node's bitmap is set exactly when the node owns slot j, and every slot counter is
      the population of its bitmap. */
  ghost predicate Agree(t: Table) {
    && t.numslots.Keys == t.bitmaps.Keys
    && (forall n {:trigger NodeAgrees(t, n)} :: n in t.bitmaps ==> NodeAgrees(t, n))
    && (forall j {:trigger OwnerKnown(t, j)} :: 0 <= j < |t.slots| ==> OwnerKnown(t, j))
  }

  // ---------------------------------------------------------------------------
  // Single slots
  // ---------------------------------------------------------------------------

  /** Set or clear a slot bit; the counter moves only when the bit does. */
  function PutBit(t: Table, n: Node, j: nat, b: bool): Table
    requires n in t.bitmaps && n in t.numslots && j < |t.bitmaps[n]|
  {
    var delta := (if b then 1 else 0) - (if t.bitmaps[n][j] then 1 else 0);
    t.(bitmaps := t.bitmaps[n := t.bitmaps[n][j := b]], numslots := t.numslots[n := t.numslots[n] + delta])
  }

  function AddSlot(t: Table, n: Node, j: nat): Table
    requires Agree(t) && n in t.bitmaps && j < |t.slots|
  {
    if t.slots[j].Some? then t
    else
      assert NodeAgrees(t, n);
      PutBit(t, n, j, true).(slots := t.slots[j := Some(n)])
  }

  function DelSlot(t: Table, j: nat): Table
    requires Agree(t) && j < |t.slots|
  {
    if t.slots[j].None? then t
    else
      assert OwnerKnown(t, j) && NodeAgrees(t, t.slots[j].value);
      PutBit(t, t.slots[j].value, j, false).(slots := t.slots[j := None])
  }

  lemma PutBitAgrees(t: Table, t': Table, n: Node, j: nat, b: bool, m: Node)
    requires j < |t.slots| && NodeAgrees(t, n) && NodeAgrees(t, m)
    requires t' == PutBit(t, n, j, b).(slots := t.slots[j := if b then Some(n) else None])
    requires if b then t.slots[j].None? else t.slots[j] == Some(n)
    ensures NodeAgrees(t', m)
  {
    CountUpdate(t.bitmaps[n], j, b);
  }

  /** Adding a slot keeps agreement and assigns exactly a slot that was free. */
  lemma AddSlotKeeps(t: Table, n: Node, j: nat)
    requires Agree(t) && n in t.bitmaps && j < |t.slots|
    ensures Agree(AddSlot(t, n, j)) && AddSlot(t, n, j).bitmaps.Keys == t.bitmaps.Keys
    ensures AddSlot(t, n, j).slots == if t.slots[j].Some? then t.slots else t.slots[j := Some(n)]
  {
    if t.slots[j].None? {
      var t' := AddSlot(t, n, j);
      forall m | m in t'.bitmaps
        ensures NodeAgrees(t', m)
      {
        assert NodeAgrees(t, n) && NodeAgrees(t, m);
        PutBitAgrees(t, t', n, j, true, m);
      }
      assert forall i :: 0 <= i < |t.slots| ==> OwnerKnown(t, i) && OwnerKnown(t', i);
    }
  }

  /** Deleting a slot keeps agreement; the bit it clears was set, so the source's assertion on
      the old bit cannot fire. */
  lemma DelSlotKeeps(t: Table, j: nat)
    requires Agree(t) && j < |t.slots|
    ensures Agree(DelSlot(t, j)) && DelSlot(t, j).bitmaps.Keys == t.bitmaps.Keys
    ensures t.slots[j].Some? ==> NodeAgrees(t, t.slots[j].value) && t.bitmaps[t.slots[j].value][j]
    ensures DelSlot(t, j).slots == t.slots[j := None]
  {
    if t.slots[j].Some? {
      var t' := DelSlot(t, j);
      assert OwnerKnown(t, j) && NodeAgrees(t, t.slots[j].value);
      assert forall i :: 0 <= i < |t.slots| ==> OwnerKnown(t, i) && OwnerKnown(t', i);
      forall m | m in t'.bitmaps
        ensures NodeAgrees(t', m)
      {
        assert NodeAgrees(t, m);
        PutBitAgrees(t, t', t.slots[j].value, j, false, m);
      }
    }
  }

  /** Move a slot to another node. */
  function Rebind(t: Table, n: Node, j: nat): (r: Table)
    requires Agree(t) && n in t.bitmaps && j < |t.slots|
    ensures Agree(r) && r.bitmaps.Keys == t.bitmaps.Keys
    ensures r.slots == t.slots[j := Some(n)]
  {
    DelSlotKeeps(t, j);
    AddSlotKeeps(DelSlot(t, j), n, j);
    AddSlot(DelSlot(t, j), n, j)
  }

  /** An agreeing table is determined by its owners: there is one way to fill in the rest. */
  lemma AgreeDetermines(t: Table, u: Table)
    requires Agree(t) && Agree(u) && t.slots == u.slots && t.bitmaps.Keys == u.bitmaps.Keys
    ensures t == u
  {
    forall n | n in t.bitmaps
      ensures t.bitmaps[n] == u.bitmaps[n] && t.numslots[n] == u.numslots[n]
    {
      assert NodeAgrees(t, n) && NodeAgrees(u, n);
    }
  }

  /** A node's counter is zero exactly when no slot is bound to it. */
  lemma NumslotsZero(t: Table, n: Node)
    requires Agree(t) && n in t.bitmaps
    ensures n in t.numslots && t.numslots[n] >= 0
    ensures t.numslots[n] == 0 <==> forall j :: 0 <= j < |t.slots| ==> t.slots[j] != Some(n)
  {
    assert NodeAgrees(t, n);
    CountZero(t.bitmaps[n]);
  }

  // ---------------------------------------------------------------------------
  // Loops over all slots
  // ---------------------------------------------------------------------------

  /** One pass of the failover loop. */
  function TakeOverSlot(t: Table, from: Node, to: Node, j: nat): (r: Table)
    requires Agree(t) && from in t.bitmaps && to in t.bitmaps && j < |t.slots|
    ensures Agree(r) && r.bitmaps.Keys == t.bitmaps.Keys
    ensures r.slots == if t.slots[j] == Some(from) then t.slots[j := Some(to)] else t.slots
  {
    assert NodeAgrees(t, from);
    if t.bitmaps[from][j] then Rebind(t, to, j) else t
  }

  /** A failover: the slots of `from` among the first k move to `to`. */
  function TakeOver(t: Table, from: Node, to: Node, k: nat): (r: Table)
    requires Agree(t) && from in t.bitmaps && to in t.bitmaps && k <= |t.slots|
    ensures Agree(r) && r.bitmaps.Keys == t.bitmaps.Keys && |r.slots| == |t.slots|
    ensures forall j :: 0 <= j < |t.slots| ==>
      r.slots[j] == if j < k && t.slots[j] == Some(from) then Some(to) else t.slots[j]
  {
    if k == 0 then t else TakeOverSlot(TakeOver(t, from, to, k - 1), from, to, k - 1)
  }

  /** One pass of the loop that frees a node's slots. */
  function DelNodeSlot(t: Table, n: Node, j: nat): (r: Table)
    requires Agree(t) && n in t.bitmaps && j < |t.slots|
    ensures Agree(r) && r.bitmaps.Keys == t.bitmaps.Keys
    ensures r.slots == if t.slots[j] == Some(n) then t.slots[j := None] else t.slots
  {
    assert NodeAgrees(t, n);
    DelSlotKeeps(t, j);
    if t.bitmaps[n][j] then DelSlot(t, j) else t
  }

  /** The slots of a node among the first k become unassigned. */
  function DelNodeSlots(t: Table, n: Node, k: nat): (r: Table)
    requires Agree(t) && n in t.bitmaps && k <= |t.slots|
    ensures Agree(r) && r.bitmaps.Keys == t.bitmaps.Keys && |r.slots| == |t.slots|
    ensures forall j :: 0 <= j < |t.slots| ==>
      r.slots[j] == if j < k && t.slots[j] == Some(n) then None else t.slots[j]
  {
    if k == 0 then t else DelNodeSlot(DelNodeSlots(t, n, k - 1), n, k - 1)
  }

  /** Forgetting a node: its slots become unassigned and its record disappears. */
  function DelNode(t: Table, n: Node): (r: Table)
    requires Agree(t) && n in t.bitmaps
    ensures Agree(r) && r.bitmaps.Keys == t.bitmaps.Keys - {n} && |r.slots| == |t.slots|
    ensures forall j :: 0 <= j < |t.slots| ==> r.slots[j] == if t.slots[j] == Some(n) then None else t.slots[j]
  {
    Unlink(DelNodeSlots(t, n, |t.slots|), n)
  }

  function Unlink(t: Table, n: Node): (r: Table)
    requires Agree(t) && forall j :: 0 <= j < |t.slots| ==> t.slots[j] != Some(n)
    ensures Agree(r) && r.bitmaps.Keys == t.bitmaps.Keys - {n} && r.slots == t.slots
  {
    var r := t.(bitmaps := t.bitmaps - {n}, numslots := t.numslots - {n});
    assert Agree(r) by {
      forall m | m in r.bitmaps
        ensures NodeAgrees(r, m)
      {
        assert NodeAgrees(t, m);
      }
      forall j | 0 <= j < |t.slots|
        ensures OwnerKnown(r, j)
      {
        assert OwnerKnown(t, j);
      }
    }
    r
  }

  function AddNode(t: Table, n: Node): (r: Table)
    requires Agree(t) && n !in t.bitmaps
    ensures Agree(r) && r.bitmaps.Keys == t.bitmaps.Keys + {n} && r.slots == t.slots
  {
    var r := t.(bitmaps := t.bitmaps[n := NoBits(|t.slots|)], numslots := t.numslots[n := 0]);
    assert Agree(r) by {
      CountZero(NoBits(|t.slots|));
      forall j | 0 <= j < |t.slots|
        ensures OwnerKnown(r, j) && t.slots[j] != Some(n)
      {
        assert OwnerKnown(t, j);
      }
      forall m | m in r.bitmaps
        ensures NodeAgrees(r, m)
      {
        assert m == n || NodeAgrees(t, m);
      }
    }
    r
  }

  /** What a claim is judged by: the recorded config epochs (0 for a node that has published
      none) and the slots being imported. */
  datatype Judge = Judge(epochs: map<Node, nat>, importing: seq<bool>) {
    function Epoch(n: Node): nat {
      if n in epochs then epochs[n] else 0
    }
  }

  /** The claim of `sender` under `epoch` wins slot j. */
  predicate Wins(t: Table, judge: Judge, sender: Node, epoch: nat, claim: seq<bool>, j: nat)
    requires j < |t.slots| == |claim| == |judge.importing|
  {
    && claim[j]
    && t.slots[j] != Some(sender)
    && !judge.importing[j]
    && (t.slots[j].None? || judge.Epoch(t.slots[j].value) < epoch)
  }

  /** One pass of the claim loop. */
  function ClaimSlot(t: Table, judge: Judge, sender: Node, epoch: nat, claim: seq<bool>, j: nat): (r: Table)
    requires Agree(t) && sender in t.bitmaps
    requires j < |t.slots| == |claim| == |judge.importing|
    ensures Agree(r) && r.bitmaps.Keys == t.bitmaps.Keys
    ensures r.slots == if Wins(t, judge, sender, epoch, claim, j) then t.slots[j := Some(sender)] else t.slots
  {
    if Wins(t, judge, sender, epoch, claim, j) then Rebind(t, sender, j) else t
  }

  /** A claim processed over the first k slots. */
  function Claim(t: Table, judge: Judge, sender: Node, epoch: nat, claim: seq<bool>, k: nat): (r: Table)
    requires Agree(t) && sender in t.bitmaps
    requires k <= |t.slots| == |claim| == |judge.importing|
    ensures Agree(r) && r.bitmaps.Keys == t.bitmaps.Keys && |r.slots| == |t.slots|
    ensures forall j :: 0 <= j < |t.slots| ==>
      r.slots[j] == if j < k && Wins(t, judge, sender, epoch, claim, j) then Some(sender) else t.slots[j]
  {
    if k == 0 then t
    else ClaimSlot(Claim(t, judge, sender, epoch, claim, k - 1), judge, sender, epoch, claim, k - 1)
  }

  /** THE SHORTCUT IS SOUND. A claim equal to the recorded bitmap of its sender wins no slot, so
      skipping it when the two compare equal changes nothing. */
  lemma EqualClaimChangesNothing(t: Table, judge: Judge, sender: Node, epoch: nat)
    requires Agree(t) && sender in t.bitmaps
    requires |t.slots| == |judge.importing|
    ensures NodeAgrees(t, sender)
    ensures Claim(t, judge, sender, epoch, t.bitmaps[sender], |t.slots|) == t
  {
    assert NodeAgrees(t, sender);
    AgreeDetermines(Claim(t, judge, sender, epoch, t.bitmaps[sender], |t.slots|), t);
  }
}
