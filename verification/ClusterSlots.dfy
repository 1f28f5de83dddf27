/** The slot table updated in place, slot by slot, as the cluster code does it. */
module ClusterSlots {
  import opened SlotTable
  import T = SlotTable

  /** Whether a claim wins a slot depends on no other slot. */
  lemma SameWinner(t: Table, u: Table, judge: Judge, sender: Node, epoch: nat, claim: seq<bool>, j: nat)
    requires j < |t.slots| == |u.slots| == |claim| == |judge.importing| && t.slots[j] == u.slots[j]
    ensures Wins(t, judge, sender, epoch, claim, j) <==> Wins(u, judge, sender, epoch, claim, j)
  {
  }

  class Slots {
    const owners: array<Option<Node>>
    var bitmaps: map<Node, seq<bool>>
    var numslots: map<Node, int>

    ghost function Value(): Table
      reads this, owners
    {
      Table(owners[..], bitmaps, numslots)
    }

    ghost predicate Valid()
      reads this, owners
    {
      Agree(Value())
    }

    /** No nodes, no slot assigned. */
    constructor (slots: nat)
      ensures Valid() && fresh(owners) && owners.Length == slots
      ensures bitmaps == map[] && forall j :: 0 <= j < slots ==> owners[j] == None
    {
      owners := new Option<Node>[slots](_ => None);
      bitmaps, numslots := map[], map[];
      new;
      assert forall j :: 0 <= j < slots ==> OwnerKnown(Value(), j);
    }

    /** A node becomes known; it owns no slot. */
    method AddNode(n: Node)
      requires Valid() && n !in bitmaps
      modifies this`bitmaps, this`numslots
      ensures Valid() && Value() == T.AddNode(old(Value()), n)
    {
      ghost var r := T.AddNode(Value(), n);
      bitmaps := bitmaps[n := NoBits(owners.Length)];
      numslots := numslots[n := 0];
      assert Value() == r;
    }

    method SetBit(n: Node, j: nat) returns (wasSet: bool)
      requires n in bitmaps && n in numslots && j < |bitmaps[n]|
      modifies this`bitmaps, this`numslots
      ensures Value() == PutBit(old(Value()), n, j, true) && wasSet == old(bitmaps)[n][j]
    {
      wasSet := bitmaps[n][j];
      bitmaps := bitmaps[n := bitmaps[n][j := true]];
      if !wasSet {
        numslots := numslots[n := numslots[n] + 1];
      } else {
        assert numslots[n := numslots[n]] == numslots;
      }
    }

    method ClearBit(n: Node, j: nat) returns (wasSet: bool)
      requires n in bitmaps && n in numslots && j < |bitmaps[n]|
      modifies this`bitmaps, this`numslots
      ensures Value() == PutBit(old(Value()), n, j, false) && wasSet == old(bitmaps)[n][j]
    {
      wasSet := bitmaps[n][j];
      bitmaps := bitmaps[n := bitmaps[n][j := false]];
      if wasSet {
        numslots := numslots[n := numslots[n] - 1];
      } else {
        assert numslots[n := numslots[n]] == numslots;
      }
    }

    method AddSlot(n: Node, j: nat) returns (ok: bool)
      requires Valid() && n in bitmaps && j < owners.Length
      modifies this`bitmaps, this`numslots, owners
      ensures Valid() && Value() == T.AddSlot(old(Value()), n, j)
      ensures ok <==> old(owners[j]) == None
    {
      AddSlotKeeps(Value(), n, j);
      ok := owners[j].None?;
      if ok {
        assert NodeAgrees(Value(), n);
        var _ := SetBit(n, j);
        owners[j] := Some(n);
        assert owners[..] == old(owners[..])[j := Some(n)];
      }
    }

    method DelSlot(j: nat) returns (ok: bool)
      requires Valid() && j < owners.Length
      modifies this`bitmaps, this`numslots, owners
      ensures Valid() && Value() == T.DelSlot(old(Value()), j)
      ensures ok <==> old(owners[j]) != None
    {
      DelSlotKeeps(Value(), j);
      ok := owners[j].Some?;
      if ok {
        var wasSet := ClearBit(owners[j].value, j);
        assert wasSet; // the source's own assertion
        owners[j] := None;
        assert owners[..] == old(owners[..])[j := None];
      }
    }

    /** One pass of the loop that frees a node's slots. */
    method DelNodeSlot(n: Node, j: nat) returns (wasOwned: bool)
      requires Valid() && n in bitmaps && j < owners.Length
      modifies this`bitmaps, this`numslots, owners
      ensures Valid() && Value() == T.DelNodeSlot(old(Value()), n, j)
      ensures n in numslots && n in old(numslots) && numslots[n] == old(numslots)[n] - (if wasOwned then 1 else 0)
    {
      assert NodeAgrees(Value(), n);
      wasOwned := bitmaps[n][j];
      if wasOwned {
        var _ := DelSlot(j);
      }
    }

    /** Free all slots of a node; the number of slots freed is its old counter. */
    method DelNodeSlots(n: Node) returns (deleted: nat)
      requires Valid() && n in bitmaps
      modifies this`bitmaps, this`numslots, owners
      ensures Valid() && Value() == T.DelNodeSlots(old(Value()), n, owners.Length)
      ensures deleted == old(numslots)[n]
    {
      hide T.DelNodeSlot;
      deleted := 0;
      ghost var was := Value();
      for j := 0 to owners.Length
        invariant Valid() && Value() == T.DelNodeSlots(was, n, j)
        invariant deleted + numslots[n] == was.numslots[n]
      {
        var wasOwned := DelNodeSlot(n, j);
        if wasOwned {
          deleted := deleted + 1;
        }
      }
      NumslotsZero(Value(), n);
    }

    method DelSlotIfOwned(n: Node, j: nat)
      requires Valid() && n in bitmaps && j < owners.Length
      modifies this`bitmaps, this`numslots, owners
      ensures Valid() && Value() == T.DelNodeSlot(old(Value()), n, j)
    {
      assert NodeAgrees(Value(), n);
      if owners[j] == Some(n) {
        var _ := DelSlot(j);
      }
    }

    /** Forget a node. */
    method DelNode(n: Node)
      requires Valid() && n in bitmaps
      modifies this`bitmaps, this`numslots, owners
      ensures Valid() && Value() == T.DelNode(old(Value()), n)
    {
      ghost var was := Value();
      for j := 0 to owners.Length
        invariant Valid() && Value() == T.DelNodeSlots(was, n, j)
      {
        DelSlotIfOwned(n, j);
      }
      ghost var r := T.Unlink(Value(), n);
      bitmaps := bitmaps - {n};
      numslots := numslots - {n};
      assert Value() == r;
    }

    /** Move a slot: delete it, then add it to its new owner. */
    method Rebind(n: Node, j: nat)
      requires Valid() && n in bitmaps && j < owners.Length
      modifies this`bitmaps, this`numslots, owners
      ensures Valid() && Value() == T.Rebind(old(Value()), n, j)
    {
      DelSlotKeeps(Value(), j);
      var _ := DelSlot(j);
      var _ := AddSlot(n, j);
    }

    /** One pass of the claim loop; the result says whether `mine` lost the slot. */
    method ClaimSlot(sender: Node, judge: Judge, epoch: nat, claim: seq<bool>, mine: Option<Node>,
        j: nat) returns (lost: bool)
      requires Valid() && sender in bitmaps && |claim| == |judge.importing| == owners.Length && j < owners.Length
      modifies this`bitmaps, this`numslots, owners
      ensures Valid() && Value() == T.ClaimSlot(old(Value()), judge, sender, epoch, claim, j)
      ensures lost <==> Wins(old(Value()), judge, sender, epoch, claim, j) && old(owners[j]) == mine
    {
      lost := false;
      if claim[j] {
        if owners[j] == Some(sender) {
          return;
        }
        if judge.importing[j] {
          return;
        }
        if owners[j].None? || judge.Epoch(owners[j].value) < epoch {
          if owners[j] == mine {
            lost := true;
          }
          Rebind(sender, j);
        }
      }
    }

    /** Process a claim of `sender`. The result says whether `mine` lost a slot. */
    method Claim(sender: Node, judge: Judge, epoch: nat, claim: seq<bool>, mine: Option<Node>) returns (lost: bool)
      requires Valid() && sender in bitmaps && |claim| == |judge.importing| == owners.Length
      modifies this`bitmaps, this`numslots, owners
      ensures Valid() && Value() == T.Claim(old(Value()), judge, sender, epoch, claim, owners.Length)
      ensures lost <==>
      exists j :: 0 <= j < owners.Length && old(owners[j]) == mine && Wins(old(Value()), judge, sender, epoch, claim, j)
    {
      hide Agree, T.ClaimSlot, Wins;
      ghost var was := Value();
      lost := false;
      for j := 0 to owners.Length
        invariant Valid() && Value() == T.Claim(was, judge, sender, epoch, claim, j)
        invariant lost <==> exists i :: 0 <= i < j && Wins(was, judge, sender, epoch, claim, i) && was.slots[i] == mine
      {
        SameWinner(Value(), was, judge, sender, epoch, claim, j);
        var lostHere := ClaimSlot(sender, judge, epoch, claim, mine, j);
        lost := lost || lostHere;
      }
    }

    /** Claim all slots of the failed master. */
    method TakeOver(from: Node, to: Node)
      requires Valid() && from in bitmaps && to in bitmaps
      modifies this`bitmaps, this`numslots, owners
      ensures Valid() && Value() == T.TakeOver(old(Value()), from, to, owners.Length)
    {
      ghost var was := Value();
      for j := 0 to owners.Length
        invariant Valid() && Value() == T.TakeOver(was, from, to, j)
      {
        TakeOverSlot(from, to, j);
      }
    }

    method TakeOverSlot(from: Node, to: Node, j: nat)
      requires Valid() && from in bitmaps && to in bitmaps && j < owners.Length
      modifies this`bitmaps, this`numslots, owners
      ensures Valid() && Value() == T.TakeOverSlot(old(Value()), from, to, j)
    {
      assert NodeAgrees(Value(), from);
      if bitmaps[from][j] {
        Rebind(to, j);
      }
    }
  }
}
