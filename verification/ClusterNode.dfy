/** One cluster node, updated in place: the handlers of module ClusterBus as the code runs them. */
module ClusterNode {
  import opened SlotTable
  import opened ClusterBus
  import ClusterCommands
  import ClusterSlots

  lemma MasterIsKnown(v: View, n: Node)
    requires Formed(v) && n in v.peers && v.peers[n].slaveOf.Some?
    ensures v.peers[n].slaveOf.value in v.peers
  {
    assert MasterKnown(v, n);
  }

  lemma MineIsMaster(v: View)
    requires Formed(v) && !v.peers[v.me].isMaster
    ensures v.peers[v.me].slaveOf == Some(Mine(v)) && Mine(v) in v.peers
  {
  }

  lemma MaxIsMine(v: View, max: nat)
    requires v.me in v.configEpoch
    requires max >= v.currentEpoch && forall n :: n in v.configEpoch ==> v.configEpoch[n] <= max
    requires max == v.currentEpoch || exists n :: n in v.configEpoch && v.configEpoch[n] == max
    ensures v.configEpoch[v.me] == max <==> GreatestIsMine(v)
  {
  }

  function Elements(args: seq<nat>): set<nat> {
    set j | j in args
  }

  /** Slots in range, all owned or all free, none given twice. */
  ghost predicate Acceptable(args: seq<nat>, owners: seq<Option<Node>>, owned: bool) {
    && (forall i :: 0 <= i < |args| ==> args[i] < |owners| && owners[args[i]].Some? == owned)
    && (forall i, k :: 0 <= i < k < |args| ==> args[i] != args[k])
  }

  lemma OneMoreArgument(args: seq<nat>, i: nat, owners: seq<Option<Node>>, owned: bool)
    requires i < |args| && Acceptable(args[..i], owners, owned)
    ensures Elements(args[..i + 1]) == Elements(args[..i]) + {args[i]}
    ensures Acceptable(args[..i + 1], owners, owned) <==>
            args[i] < |owners| && owners[args[i]].Some? == owned && args[i] !in args[..i]
    ensures Acceptable(args, owners, owned) ==> Acceptable(args[..i + 1], owners, owned)
  {
    assert args[..i + 1] == args[..i] + [args[i]];
  }

  function SlotCommand(args: seq<nat>, del: bool): ClusterCommands.Command {
    if del then ClusterCommands.DelSlots(Elements(args)) else ClusterCommands.AddSlots(Elements(args))
  }

  lemma AcceptableIsAccepted(v: View, args: seq<nat>, del: bool)
    requires Formed(v) && Acceptable(args, v.table.slots, del)
    ensures ClusterCommands.Accepted(v, SlotCommand(args, del), true)
    ensures forall j :: j in Elements(args) ==> j < |v.table.slots| && v.table.slots[j].Some? == del
  {
  }

  /** The table with the slots below k changed. */
  function Changed(v: View, js: set<nat>, del: bool, k: nat): Table
    requires Formed(v) && k <= |v.table.slots|
  {
    FormedFacts(v);
    if del then ClusterCommands.DelAll(v.table, js, k) else ClusterCommands.AddAll(v.table, v.me, js, k)
  }

  lemma NothingChanged(v: View, js: set<nat>, del: bool)
    requires Formed(v)
    ensures Changed(v, js, del, 0) == v.table
  {
  }

  /** One step of the loop; the slot is still as it was. */
  lemma OneMoreSlot(v: View, js: set<nat>, del: bool, k: nat)
    requires Formed(v) && k < |v.table.slots|
    ensures var t := Changed(v, js, del, k);
      && |t.slots| == |v.table.slots| && t.bitmaps.Keys == v.table.bitmaps.Keys && t.slots[k] == v.table.slots[k]
      && Agree(t) && v.me in t.bitmaps
      && Changed(v, js, del, k + 1) ==
         if k !in js then t else if del then DelSlot(t, k) else AddSlot(t, v.me, k)
  {
    hide Agree, AddSlot, DelSlot;
    FormedFacts(v);
  }

  class ClusterState {
    const me: Node
    const table: ClusterSlots.Slots
    var peers: map<Node, Peer>
    var configEpoch: map<Node, nat>
    var importing: seq<bool>
    var currentEpoch: nat
    var lastVoteEpoch: nat
    var authEpoch: nat
    var authCount: nat
    var authSent: bool
    var size: nat

    ghost function Value(): View
      reads this, table, table.owners
    {
      View(me, peers, configEpoch, table.Value(), importing, currentEpoch, lastVoteEpoch, authEpoch, authCount,
          authSent, size)
    }

    ghost predicate Valid()
      reads this, table, table.owners
    {
      Formed(Value())
    }

    /** A lone master with no slots, in epoch 0. */
    constructor (name: Node, slots: nat)
      ensures Valid() && me == name && table.owners.Length == slots && fresh(table) && fresh(table.owners)
      ensures peers == map[name := Peer(true, None, false, 0)] && configEpoch == map[name := 0]
      ensures currentEpoch == lastVoteEpoch == authEpoch == authCount == 0 && !authSent
    {
      me := name;
      table := new ClusterSlots.Slots(slots);
      peers, configEpoch := map[name := Peer(true, None, false, 0)], map[name := 0];
      importing := NoBits(slots);
      currentEpoch, lastVoteEpoch, authEpoch, authCount, authSent, size := 0, 0, 0, 0, false, 1;
      new;
      table.AddNode(name);
      assert MasterKnown(Value(), name);
    }

    method LearnEpochs(h: Header)
      requires Valid() && h.sender in peers
      modifies this`currentEpoch, this`configEpoch
      ensures Valid() && Value() == Learn(old(Value()), h)
    {
      ghost var r := Learn(Value(), h);
      if h.currentEpoch > currentEpoch {
        currentEpoch := h.currentEpoch;
      }
      if h.configEpoch > configEpoch[h.sender] {
        configEpoch := configEpoch[h.sender := h.configEpoch];
      } else {
        assert configEpoch[h.sender := configEpoch[h.sender]] == configEpoch;
      }
    }

    method SetNodeAsMaster(n: Node)
      requires Valid() && n in peers
      modifies this`peers
      ensures Valid() && Value() == ClusterBus.SetNodeAsMaster(old(Value()), n)
    {
      ghost var r := ClusterBus.SetNodeAsMaster(Value(), n);
      if peers[n].isMaster {
        return;
      }
      peers := peers[n := peers[n].(isMaster := true, slaveOf := None)];
      assert Value() == r;
    }

    /** The sender says it is a slave. */
    method LearnSlave(n: Node, master: Node)
      requires Valid() && n in peers && n != me
      modifies this`peers, table`bitmaps, table`numslots, table.owners
      ensures Valid() && Value() == ClusterBus.LearnSlave(old(Value()), n, master)
    {
      hide Formed, Agree, SlotTable.DelNodeSlots;
      ghost var r := ClusterBus.LearnSlave(Value(), n, master);
      FormedFacts(Value());
      var node := peers[n];
      if node.isMaster {
        var _ := table.DelNodeSlots(n);
        node := node.(isMaster := false);
      }
      if master in peers && node.slaveOf != Some(master) {
        node := node.(slaveOf := Some(master));
      }
      peers := peers[n := node];
      assert Value() == r;
    }

    method LearnRole(h: Header)
      requires Valid() && h.sender in peers && h.sender != me
      modifies this`peers, table`bitmaps, table`numslots, table.owners
      ensures Valid() && Value() == ClusterBus.LearnRole(old(Value()), h)
    {
      hide Formed, Agree, ClusterBus.LearnSlave, ClusterBus.SetNodeAsMaster;
      if h.slaveOf.None? {
        SetNodeAsMaster(h.sender);
      } else {
        LearnSlave(h.sender, h.slaveOf.value);
      }
    }

    method SetMaster(n: Node)
      requires Valid() && n in peers
      modifies this`peers, this`importing
      ensures Valid() && Value() == ClusterBus.SetMaster(old(Value()), n)
    {
      ghost var r := ClusterBus.SetMaster(Value(), n);
      if peers[me].isMaster {
        importing := NoBits(|importing|);
      }
      peers := peers[me := peers[me].(isMaster := false, slaveOf := Some(n))];
      assert Value() == r;
    }

    /** Rebind the slots n claims; follow n if that took the last slot of this node or its master. */
    method UpdateSlotsConfigWith(n: Node, epoch: nat, claim: seq<bool>)
      requires Valid() && n in peers && |claim| == table.owners.Length
      modifies this`peers, this`importing, table`bitmaps, table`numslots, table.owners
      ensures Valid() && Value() == UpdateSlots(old(Value()), n, epoch, claim)
    {
      hide Formed, Agree, SlotTable.Claim, ClusterBus.SetMaster;
      ghost var was := Value();
      FormedFacts(was);
      if !peers[me].isMaster {
        MineIsMaster(was);
      }
      var curmaster := if peers[me].isMaster then me else peers[me].slaveOf.value;
      if n == me {
        return;
      }
      var lost := table.Claim(n, Judge(configEpoch, importing), epoch, claim, Some(curmaster));
      TableKeepsFormed(was, table.Value());
      FormedFacts(Value());
      if lost && table.numslots[curmaster] == 0 {
        SetMaster(n);
      }
    }

    method HandleConfigEpochCollision(sender: Node)
      requires Valid() && sender in peers
      modifies this`currentEpoch, this`configEpoch
      ensures Valid() && Value() == HandleCollision(old(Value()), sender)
    {
      EpochsKeepFormed(Value(), HandleCollision(Value(), sender));
      if configEpoch[sender] != configEpoch[me] || !peers[sender].isMaster || !peers[me].isMaster {
        return;
      }
      if sender <= me {
        return;
      }
      currentEpoch := currentEpoch + 1;
      configEpoch := configEpoch[me := currentEpoch];
    }

    method BumpConfigEpochWithoutConsensus() returns (bumped: bool)
      requires Valid()
      modifies this`currentEpoch, this`configEpoch
      ensures Valid() && Value() == BumpWithoutConsensus(old(Value()))
      ensures bumped <==> old(configEpoch)[me] == 0 || !GreatestIsMine(old(Value()))
    {
      hide Formed, Agree, GreatestIsMine;
      ghost var v := Value();
      FormedFacts(v);
      var max := MaxEpoch();
      MaxIsMine(v, max);
      bumped := configEpoch[me] == 0 || configEpoch[me] != max;
      if bumped {
        currentEpoch := currentEpoch + 1;
        configEpoch := configEpoch[me := currentEpoch];
        EpochsKeepFormed(v, Value());
      }
    }

    /** The greatest config epoch recorded, or the current epoch if that is greater. */
    method MaxEpoch() returns (max: nat)
      requires Valid()
      ensures max >= currentEpoch && forall n :: n in configEpoch ==> configEpoch[n] <= max
      ensures max == currentEpoch || exists n :: n in configEpoch && configEpoch[n] == max
    {
      max := 0;
      var todo := configEpoch.Keys;
      ghost var done: set<Node> := {};
      while todo != {}
        invariant todo + done == configEpoch.Keys
        invariant forall n :: n in done ==> configEpoch[n] <= max
        invariant max == 0 || exists n :: n in configEpoch && configEpoch[n] == max
        decreases todo
      {
        var n :| n in todo;
        if configEpoch[n] > max {
          max := configEpoch[n];
        }
        todo, done := todo - {n}, done + {n};
      }
      if max < currentEpoch {
        max := currentEpoch;
      }
    }

    method BuildMessageHdr() returns (h: Header)
      requires Valid()
      ensures h == BuildHeader(Value())
    {
      assert MasterKnown(Value(), me);
      var master := if !peers[me].isMaster && peers[me].slaveOf.Some? then peers[me].slaveOf.value else me;
      h := Header(me, currentEpoch, configEpoch[master], table.bitmaps[master], peers[me].slaveOf);
    }

    /** The first slot the sender claims although a node with a greater config epoch owns it. */
    method FindOutdated(h: Header) returns (r: Option<nat>)
      requires Valid() && |h.slots| == table.owners.Length
      ensures r == FirstOutdated(Value(), h, 0)
    {
      var j := 0;
      while j < |h.slots|
        invariant 0 <= j <= |h.slots|
        invariant FirstOutdated(Value(), h, 0) == FirstOutdated(Value(), h, j)
      {
        assert OwnerKnown(Value().table, j);
        if h.slots[j] {
          var o := table.owners[j];
          if o != Some(h.sender) && o.Some? {
            if configEpoch[o.value] > h.configEpoch {
              return Some(j);
            }
          }
        }
        j := j + 1;
      }
      r := None;
    }

    /** The bitmap in the header is not the one recorded for the sender or its master. */
    method IsDirty(h: Header) returns (dirty: bool)
      requires Valid() && h.sender in peers
      ensures dirty == Dirty(Value(), h)
    {
      assert MasterKnown(Value(), h.sender);
      if peers[h.sender].isMaster {
        dirty := table.bitmaps[h.sender] != h.slots;
      } else if peers[h.sender].slaveOf.Some? {
        dirty := table.bitmaps[peers[h.sender].slaveOf.value] != h.slots;
      } else {
        dirty := false;
      }
    }

    /** The UPDATE sent to a sender whose claim is outdated. */
    method Correct(h: Header) returns (sent: set<Message>)
      requires Valid() && Fits(Value(), Ping(h))
      ensures sent == Corrections(Value(), h)
    {
      var first := FindOutdated(h);
      if first.None? {
        return {};
      }
      assert OwnerKnown(Value().table, first.value);
      var owner := table.owners[first.value].value;
      var hdr := BuildMessageHdr();
      sent := {Update(hdr, owner, configEpoch[owner], table.bitmaps[owner])};
    }

    /** Take in the sender's role and slots; report whether its slots were news. */
    method TakeInHeader(h: Header) returns (dirty: bool)
      requires Valid() && Fits(Value(), Ping(h))
      modifies this`peers, this`importing, table`bitmaps, table`numslots, table.owners
      ensures Valid() && Value() == TakeIn(old(Value()), h)
      ensures dirty == Dirty(ClusterBus.LearnRole(old(Value()), h), h)
    {
      hide Formed, Agree, ClusterBus.LearnRole, UpdateSlots, Dirty;
      FormedFacts(Value());
      LearnRole(h);
      FormedFacts(Value());
      dirty := IsDirty(h);
      if peers[h.sender].isMaster && dirty {
        UpdateSlotsConfigWith(h.sender, h.configEpoch, h.slots);
      }
    }

    /** A PING or PONG; the messages sent while processing it are returned. */
    method ProcessPing(h: Header) returns (sent: set<Message>)
      requires Valid() && Fits(Value(), Ping(h))
      modifies this`currentEpoch, this`configEpoch, this`peers, this`importing, table`bitmaps, table`numslots,
          table.owners
      ensures Valid() && Value() == OnPing(old(Value()), h).0 && sent == OnPing(old(Value()), h).1
    {
      hide Formed, Agree, ClusterBus.LearnRole, TakeIn, Corrections, BuildHeader, HandleCollision, Dirty;
      FormedFacts(Value());
      LearnEpochs(h);
      FormedFacts(Value());
      var pong := BuildMessageHdr();
      sent := {Ping(pong)};
      var dirty := TakeInHeader(h);
      FormedFacts(Value());
      if dirty {
        var updates := Correct(h);
        sent := sent + updates;
      }
      if peers[me].isMaster && peers[h.sender].isMaster && h.configEpoch == configEpoch[me] {
        HandleConfigEpochCollision(h.sender);
      }
    }

    /** An UPDATE about some node. */
    method ProcessUpdate(m: Message)
      requires Valid() && m.Update? && Fits(Value(), m)
      modifies this`currentEpoch, this`configEpoch, this`peers, this`importing, table`bitmaps, table`numslots,
          table.owners
      ensures Valid() && Value() == OnUpdate(old(Value()), m)
    {
      hide Formed, Agree, ClusterBus.SetNodeAsMaster, UpdateSlots;
      FormedFacts(Value());
      LearnEpochs(m.hdr);
      FormedFacts(Value());
      if m.about !in peers {
        return;
      }
      if configEpoch[m.about] >= m.epoch {
        return;
      }
      SetNodeAsMaster(m.about);
      ghost var w := Value();
      configEpoch := configEpoch[m.about := m.epoch];
      EpochsKeepFormed(w, Value());
      UpdateSlotsConfigWith(m.about, m.epoch, m.claim);
    }

    /** Is a claimed slot served under a config epoch greater than the request's? */
    method IsSuperseded(h: Header) returns (r: bool)
      requires Valid() && |h.slots| == table.owners.Length
      ensures r == Superseded(Value(), h)
    {
      var j := 0;
      while j < |h.slots|
        invariant 0 <= j <= |h.slots|
        invariant forall i :: 0 <= i < j && h.slots[i] && table.owners[i].Some? ==>
          JudgeOf(Value()).Epoch(table.owners[i].value) <= h.configEpoch
      {
        assert OwnerKnown(Value().table, j);
        if h.slots[j] && table.owners[j].Some? && configEpoch[table.owners[j].value] > h.configEpoch {
          assert Value().table.slots[j] == table.owners[j];
          return true;
        }
        j := j + 1;
      }
      r := false;
    }

    /** The conditions for a vote, one after the other. */
    method Grants(m: Message, now: int, twoTimeouts: int) returns (r: bool)
      requires Valid() && m.AuthRequest? && Fits(Value(), m)
      ensures r == MayVote(Value(), m, now, twoTimeouts)
    {
      hide Formed, Agree, Superseded;
      FormedFacts(Value());
      r := false;
      if !peers[me].isMaster || table.numslots[me] == 0 {
        return;
      }
      if m.hdr.currentEpoch < currentEpoch {
        return;
      }
      if lastVoteEpoch == currentEpoch {
        return;
      }
      var node := peers[m.hdr.sender];
      if node.isMaster || node.slaveOf.None? {
        return;
      }
      MasterIsKnown(Value(), m.hdr.sender);
      var master := peers[node.slaveOf.value];
      if !master.failed && !m.force {
        return;
      }
      if now - master.votedTime < twoTimeouts {
        return;
      }
      var superseded := IsSuperseded(m.hdr);
      r := !superseded;
    }

    /** A request for a vote; the acknowledgement is sent when the vote is granted. */
    method SendFailoverAuthIfNeeded(m: Message, now: int, twoTimeouts: int) returns (sent: set<Message>)
      requires Valid() && m.AuthRequest? && Fits(Value(), m)
      modifies this`currentEpoch, this`configEpoch, this`peers, this`lastVoteEpoch
      ensures Valid() && Value() == OnAuthRequest(old(Value()), m, now, twoTimeouts).0
      ensures sent == OnAuthRequest(old(Value()), m, now, twoTimeouts).1
    {
      hide Formed, Agree, BuildHeader, Superseded;
      FormedFacts(Value());
      LearnEpochs(m.hdr);
      FormedFacts(Value());
      sent := {};
      var granted := Grants(m, now, twoTimeouts);
      if granted {
        var hdr := BuildMessageHdr();
        sent := {AuthAck(hdr, m.hdr.sender)};
        var master := peers[m.hdr.sender].slaveOf.value;
        MasterIsKnown(Value(), m.hdr.sender);
        peers := peers[master := peers[master].(votedTime := now)];
        lastVoteEpoch := currentEpoch;
        assert Value() == OnAuthRequest(old(Value()), m, now, twoTimeouts).0;
      }
    }

    /** A vote. */
    method ProcessAck(m: Message)
      requires Valid() && m.AuthAck? && Fits(Value(), m)
      modifies this`currentEpoch, this`configEpoch, this`authCount
      ensures Valid() && Value() == OnAuthAck(old(Value()), m)
    {
      hide Formed, Agree;
      FormedFacts(Value());
      LearnEpochs(m.hdr);
      FormedFacts(Value());
      if peers[m.hdr.sender].isMaster && table.numslots[m.hdr.sender] > 0 && m.hdr.currentEpoch >= authEpoch {
        ghost var learned := Value();
        authCount := authCount + 1;
        EpochsKeepFormed(learned, Value());
      }
    }

    /** This slave won: it takes the election's epoch and its master's slots. */
    method FailoverReplaceYourMaster()
      requires Valid() && !peers[me].isMaster
      modifies this`configEpoch, this`peers, table`bitmaps, table`numslots, table.owners
      ensures Valid() && Value() == ReplaceMaster(old(Value()))
    {
      hide Formed, Agree, ClusterBus.SetNodeAsMaster, SlotTable.TakeOver;
      ghost var v := Value();
      FormedFacts(v);
      var oldmaster := peers[me].slaveOf.value;
      MineIsMaster(v);
      if configEpoch[me] < authEpoch {
        configEpoch := configEpoch[me := authEpoch];
      }
      assert configEpoch == v.configEpoch[me := Max(v.configEpoch[me], authEpoch)];
      EpochsKeepFormed(v, Value());
      SetNodeAsMaster(me);
      FormedFacts(Value());
      ghost var x := Value();
      table.TakeOver(oldmaster, me);
      TableKeepsFormed(x, table.Value());
    }

    /** One pass of the slave's failover handler. */
    method HandleSlaveFailover(c: Clock) returns (sent: set<Message>, won: bool)
      requires Valid()
      modifies this`currentEpoch, this`configEpoch, this`peers, this`authEpoch, this`authCount, this`authSent,
               table`bitmaps, table`numslots, table.owners
      ensures Valid() && OnFailover(old(Value()), c) == Outcome(Value(), sent, won)
    {
      hide Formed, Agree, BuildHeader, ReplaceMaster;
      ghost var v := Value();
      FormedFacts(v);
      sent, won := {}, false;
      if peers[me].isMaster {
        return;
      }
      MasterIsKnown(v, me);
      var master := peers[me].slaveOf.value;
      if (!peers[master].failed && !c.manual) || table.numslots[master] == 0 {
        return;
      }
      if c.tooOld && !c.manual {
        return;
      }
      if c.retry {
        var hdr := BuildMessageHdr();
        authCount, authSent := 0, false;
        sent := {Ping(hdr)};
        EpochsKeepFormed(v, Value());
        return;
      }
      if c.early || c.expired {
        return;
      }
      if !authSent {
        currentEpoch := currentEpoch + 1;
        authEpoch := currentEpoch;
        authSent := true;
        EpochsKeepFormed(v, Value());
        var hdr := BuildMessageHdr();
        sent := {AuthRequest(hdr, c.force)};
        return;
      }
      if authCount >= size / 2 + 1 {
        FailoverReplaceYourMaster();
        var hdr := BuildMessageHdr();
        sent, won := {Ping(hdr)}, true;
      }
    }

    /** The arguments of ADDSLOTS and DELSLOTS: slots that are all free, or all owned, and none twice. */
    method CheckSlots(args: seq<nat>, del: bool) returns (ok: bool, js: set<nat>)
      ensures ok <==> Acceptable(args, table.owners[..], del)
      ensures ok ==> js == Elements(args)
    {
      js := {};
      var i := 0;
      while i < |args|
        invariant 0 <= i <= |args| && js == Elements(args[..i]) && Acceptable(args[..i], table.owners[..], del)
      {
        var slot := args[i];
        OneMoreArgument(args, i, table.owners[..], del);
        if slot >= table.owners.Length || table.owners[slot].Some? != del || slot in js {
          return false, js;
        }
        js := js + {slot};
        i := i + 1;
      }
      assert args[..i] == args;
      ok := true;
    }

    /** The loop over all slots; each change succeeds. */
    method ApplySlots(js: set<nat>, del: bool)
      requires Valid() && forall j :: j in js ==> j < table.owners.Length && table.owners[j].Some? == del
      modifies this`importing, table`bitmaps, table`numslots, table.owners
      ensures table.Valid() && table.Value() == Changed(old(Value()), js, del, table.owners.Length)
      ensures importing == ClusterCommands.Close(old(importing), js)
    {
      hide Formed, Agree, Changed;
      ghost var v := Value();
      FormedFacts(v);
      NothingChanged(v, js, del);
      var j := 0;
      while j < table.owners.Length
        invariant 0 <= j <= table.owners.Length && table.Valid() && table.Value() == Changed(v, js, del, j)
        invariant |importing| == |v.importing|
        invariant forall i :: 0 <= i < |importing| ==> importing[i] == (v.importing[i] && !(i < j && i in js))
      {
        OneMoreSlot(v, js, del, j);
        if j in js {
          if importing[j] {
            importing := importing[j := false];
          }
          var done;
          if del {
            done := table.DelSlot(j);
          } else {
            done := table.AddSlot(me, j);
          }
          assert done;
        }
        j := j + 1;
      }
    }

    /** ADDSLOTS and DELSLOTS. */
    method ChangeSlots(args: seq<nat>, del: bool) returns (ok: bool)
      requires Valid()
      modifies this`importing, table`bitmaps, table`numslots, table.owners
      ensures Valid()
      ensures ok <==> Acceptable(args, old(table.owners[..]), del)
      ensures Value() ==
        if ok then ClusterCommands.Execute(old(Value()), SlotCommand(args, del), true) else old(Value())
    {
      hide Formed, Agree, Acceptable, ClusterCommands.Accepted;
      ghost var v := Value();
      var js;
      ok, js := CheckSlots(args, del);
      if ok {
        AcceptableIsAccepted(v, args, del);
        ApplySlots(js, del);
        assert Value() == ClusterCommands.Execute(v, SlotCommand(args, del), true);
      }
    }
  }
}
