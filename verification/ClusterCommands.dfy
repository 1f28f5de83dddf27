/** The CLUSTER commands that change slots and roles on the node they are given to, as functions on
    its view. */
module ClusterCommands {
  import opened SlotTable
  import opened ClusterBus

  /** A set of slots is what ADDSLOTS and DELSLOTS make of their arguments. */
  datatype Command =
    | AddSlots(js: set<nat>)
    | DelSlots(js: set<nat>)
    | FlushSlots
    | SetSlot(j: nat, n: Node)
    | Replicate(n: Node)

  /** The slots below k that are in js are added one by one. */
  function AddAll(t: Table, n: Node, js: set<nat>, k: nat): (r: Table)
    requires Agree(t) && n in t.bitmaps && k <= |t.slots|
    ensures Agree(r) && r.bitmaps.Keys == t.bitmaps.Keys && |r.slots| == |t.slots|
    ensures forall j :: 0 <= j < |t.slots| ==>
      r.slots[j] == if j < k && j in js && t.slots[j].None? then Some(n) else t.slots[j]
  {
    if k == 0 then t
    else
      var u := AddAll(t, n, js, k - 1);
      AddSlotKeeps(u, n, k - 1);
      if k - 1 in js then AddSlot(u, n, k - 1) else u
  }

  function DelAll(t: Table, js: set<nat>, k: nat): (r: Table)
    requires Agree(t) && k <= |t.slots|
    ensures Agree(r) && r.bitmaps.Keys == t.bitmaps.Keys && |r.slots| == |t.slots|
    ensures forall j :: 0 <= j < |t.slots| ==> r.slots[j] == if j < k && j in js then None else t.slots[j]
  {
    if k == 0 then t
    else
      var u := DelAll(t, js, k - 1);
      DelSlotKeeps(u, k - 1);
      if k - 1 in js then DelSlot(u, k - 1) else u
  }

  /** The checks before anything is changed. `empty`: the node holds no keys that forbid it. */
  predicate Accepted(v: View, c: Command, empty: bool)
    requires Formed(v)
  {
    match c
    case AddSlots(js) => forall j :: j in js ==> j < |v.table.slots| && v.table.slots[j].None?
    case DelSlots(js) => forall j :: j in js ==> j < |v.table.slots| && v.table.slots[j].Some?
    case FlushSlots => empty
    case SetSlot(j, n) =>
      && v.peers[v.me].isMaster && j < |v.table.slots| && n in v.peers
      && (v.table.slots[j] == Some(v.me) && n != v.me ==> empty)
    case Replicate(n) =>
      && n in v.peers && n != v.me && v.peers[n].isMaster
      && (v.peers[v.me].isMaster ==> v.table.numslots[v.me] == 0 && empty)
  }

  function Close(importing: seq<bool>, js: set<nat>): (r: seq<bool>)
    ensures |r| == |importing|
  {
    seq(|importing|, j requires 0 <= j < |importing| => importing[j] && j !in js)
  }

  /** The slot table after a command that was accepted. */
  function NewTable(v: View, c: Command): (t: Table)
    requires Formed(v) && Accepted(v, c, true)
    ensures Agree(t) && t.bitmaps.Keys == v.table.bitmaps.Keys && |t.slots| == |v.table.slots|
  {
    match c
    case AddSlots(js) => AddAll(v.table, v.me, js, |v.table.slots|)
    case DelSlots(js) => DelAll(v.table, js, |v.table.slots|)
    case FlushSlots => DelNodeSlots(v.table, v.me, |v.table.slots|)
    case SetSlot(j, n) => Rebind(v.table, n, j)
    case Replicate(_) => v.table
  }

  /** A command that is not accepted changes nothing. That SETSLOT can also take a new config epoch
      is a step of its own. */
  function Execute(v: View, c: Command, empty: bool): (r: View)
    requires Formed(v)
    ensures Formed(r) && r == v.(peers := r.peers, table := r.table, importing := r.importing)
  {
    if !Accepted(v, c, empty) then v
    else
      var t := NewTable(v, c);
      var w := v.(table := t);
      TableKeepsFormed(v, t);
      match c
      case AddSlots(js) =>
        var x := w.(importing := Close(w.importing, js));
        EpochsKeepFormed(w, x);
        x
      case DelSlots(js) =>
        var x := w.(importing := Close(w.importing, js));
        EpochsKeepFormed(w, x);
        x
      case FlushSlots => w
      case SetSlot(j, n) =>
        var x := w.(importing := if n == v.me then Close(w.importing, {j}) else w.importing);
        EpochsKeepFormed(w, x);
        x
      case Replicate(n) => SetMaster(w, n)
  }

  // ---------------------------------------------------------------------------
  // What a command does, slot by slot
  // ---------------------------------------------------------------------------

  /** The slots the command is about. */
  predicate Names(v: View, c: Command, j: nat)
    requires j < |v.table.slots|
  {
    match c
    case AddSlots(js) => j in js
    case DelSlots(js) => j in js
    case FlushSlots => v.table.slots[j] == Some(v.me)
    case SetSlot(k, _) => j == k
    case Replicate(_) => false
  }

  /** Who owns such a slot afterwards. */
  function NewOwner(v: View, c: Command): Option<Node> {
    match c
    case AddSlots(_) => Some(v.me)
    case SetSlot(_, n) => Some(n)
    case _ => None
  }

  /** The import of slot j is over. */
  predicate Closes(v: View, c: Command, j: nat) {
    match c
    case AddSlots(js) => j in js
    case DelSlots(js) => j in js
    case FlushSlots => false
    case SetSlot(k, n) => j == k && n == v.me
    case Replicate(_) => v.me in v.peers && v.peers[v.me].isMaster
  }

  /** The command is refused: it names slots that do not exist, a slot to add that is owned or one to
      delete that is free, or an unknown node; keys are in the way; a slave is to move slots; or the
      node is to follow itself or a slave, or is a master that owns slots. */
  ghost predicate Refused(v: View, c: Command, empty: bool) {
    match c
    case AddSlots(js) => exists j :: j in js && (j >= |v.table.slots| || v.table.slots[j] != None)
    case DelSlots(js) => exists j :: j in js && (j >= |v.table.slots| || v.table.slots[j] == None)
    case FlushSlots => !empty
    case SetSlot(j, n) =>
      || v.me !in v.peers || !v.peers[v.me].isMaster || j >= |v.table.slots| || n !in v.peers
      || (v.table.slots[j] == Some(v.me) && n != v.me && !empty)
    case Replicate(n) =>
      || n !in v.peers || n == v.me || !v.peers[n].isMaster || v.me !in v.peers
      || (v.peers[v.me].isMaster && (!empty || exists j :: 0 <= j < |v.table.slots| && v.table.slots[j] == Some(v.me)))
  }

  lemma RefusedIs(v: View, c: Command, empty: bool)
    requires Formed(v)
    ensures Refused(v, c, empty) <==> !Accepted(v, c, empty)
  {
    hide Agree;
    FormedFacts(v);
    NumslotsZero(v.table, v.me);
  }

  lemma AcceptedAtAll(v: View, c: Command, empty: bool)
    requires Formed(v) && Accepted(v, c, empty)
    ensures Accepted(v, c, true) && (c.Replicate? ==> c.n in v.peers)
  {
  }

  lemma OwnersAre(v: View, c: Command)
    requires Formed(v) && Accepted(v, c, true)
    ensures forall j :: 0 <= j < |v.table.slots| ==>
      NewTable(v, c).slots[j] == if Names(v, c, j) then NewOwner(v, c) else v.table.slots[j]
    ensures c.Replicate? ==> NewTable(v, c) == v.table
  {
    hide Agree, AddAll, DelAll, DelNodeSlots, Rebind;
    FormedFacts(v);
  }

  lemma FollowerIs(v: View, n: Node)
    requires Formed(v) && n in v.peers
    ensures var r := SetMaster(v, n);
            && r.peers == v.peers[v.me := v.peers[v.me].(isMaster := false, slaveOf := Some(n))]
            && r.table == v.table && |r.importing| == |v.importing|
            && forall j :: 0 <= j < |v.importing| ==>
                 r.importing[j] == (v.importing[j] && !v.peers[v.me].isMaster)
  {
  }

  /** A command that is refused changes nothing. Any other gives exactly the slots it is about to their
      new owner, or frees them; slots that are given to this node or freed by name are no longer
      imported; and only REPLICATE changes a role: this node becomes a slave of the node named, and
      imports nothing any more if it was a master. */
  lemma CommandExactly(v: View, c: Command, empty: bool)
    requires Formed(v)
    ensures |v.importing| == |v.table.slots| && v.me in v.peers
    ensures var r := Execute(v, c, empty);
            if Refused(v, c, empty) then r == v
            else
              && |r.table.slots| == |v.table.slots| == |r.importing|
              && (forall j :: 0 <= j < |v.table.slots| ==>
                    r.table.slots[j] == if Names(v, c, j) then NewOwner(v, c) else v.table.slots[j])
              && (forall j :: 0 <= j < |v.table.slots| ==>
                    r.importing[j] == (v.importing[j] && !Closes(v, c, j)))
              && r.peers == (if c.Replicate?
                             then v.peers[v.me := v.peers[v.me].(isMaster := false, slaveOf := Some(c.n))] else v.peers)
  {
    hide Agree, NewTable, Refused, Accepted, Names, SetMaster, NoBits;
    FormedFacts(v);
    RefusedIs(v, c, empty);
    if Accepted(v, c, empty) {
      AcceptedAtAll(v, c, empty);
      OwnersAre(v, c);
      if c.Replicate? {
        FollowerIs(v.(table := NewTable(v, c)), c.n);
      }
    }
  }
}
