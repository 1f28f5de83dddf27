/** Both sides of a rewrite in one run: the server that feeds its log, with the database it selected
    last, and the parent and child that pass the fed bytes on. */
module AofJoint {
  import opened AofFormat
  import opened AofLoader
  import opened AofSelect
  import opened AofRecovery
  import opened RewriteBuffer
  import R = AofRewrite

  datatype Joint = Joint(log: State, child: R.State)

  /** A step of the server, with the rewrite blocks after it, or one of the pipe and the child. */
  datatype Move = Log(step: Step, after: seq<Block>) | Pass(pass: R.Step)

  /** The bytes that feeding these commands appends. */
  function FedText(log: State, db: nat, cmds: seq<Command>): string {
    Text(Fed(log.selected, db, cmds))
  }

  /** Feeding while a child runs appends the text to the rewrite blocks; a rewrite is done when its
      child has exited. */
  ghost predicate Enabled(j: Joint, move: Move, size: nat) {
    match move
    case Pass(step) => j.log.rewrite.Rewrite? && !step.Feed? && R.Enabled(j.child, step, size)
    case Log(step, after) =>
      && AofSelect.Enabled(j.log, step) && Careful(j.log, step)
      && (step.Feed? && j.log.rewrite.Rewrite? ==>
            R.Enabled(j.child, R.Feed(FedText(j.log, step.db, step.cmds), after), size))
      && (step.RewriteDone? ==> j.child.child == R.Exited)
  }

  function Fork(base: seq<Entry>): R.State {
    R.State(Text(base), "", [], "", "", R.Rewriting, false, false, false, false, "")
  }

  /** What a step of the server does on the other side: feed, or fork. */
  ghost function Other(j: Joint, step: Step, after: seq<Block>): R.State {
    match step
    case Feed(db, cmds) =>
      if j.log.rewrite.Rewrite? then R.Next(j.child, R.Feed(FedText(j.log, db, cmds), after)) else j.child
    case StartRewrite(base) => Fork(base)
    case Start(scheduled, base) => if scheduled then j.child else Fork(base)
    case _ => j.child
  }

  ghost function Next(j: Joint, move: Move, size: nat): Joint
    requires Enabled(j, move, size)
  {
    match move
    case Pass(step) => j.(child := R.Next(j.child, step))
    case Log(step, after) => Joint(AofSelect.Next(j.log, step), Other(j, step, after))
  }

  ghost predicate Reaches(j: Joint, moves: seq<Move>, k: Joint, size: nat)
    decreases |moves|
  {
    if moves == [] then j == k
    else Enabled(j, moves[0], size) && Reaches(Next(j, moves[0], size), moves[1..], k, size)
  }

  /** The bytes of a running rewrite are those of its entries. */
  ghost predicate Matches(j: Joint, size: nat) {
    j.log.rewrite.Rewrite? ==>
      && R.Inv(j.child, size)
      && j.child.base == Text(j.log.rewrite.base) && j.child.fed == Text(j.log.rewrite.diff)
  }

  lemma ForkMatches(base: seq<Entry>, size: nat)
    ensures R.Inv(Fork(base), size) && Fork(base).base == Text(base) && Fork(base).fed == Text([])
  {
    R.ForkedInv(Fork(base), size);
    NoText();
  }

  /** Both sides are fed the same. */
  lemma FeedMatches(j: Joint, db: nat, cmds: seq<Command>, after: seq<Block>, size: nat)
    requires Matches(j, size) && Enabled(j, Log(Feed(db, cmds), after), size)
    ensures Matches(Next(j, Log(Feed(db, cmds), after), size), size)
  {
    hide Text, Fed, R.Inv, R.Enabled;
    if j.log.rewrite.Rewrite? {
      R.NextInv(j.child, R.Feed(FedText(j.log, db, cmds), after), size);
      TextConcat(j.log.rewrite.diff, Fed(j.log.selected, db, cmds));
    }
  }

  lemma NextMatches(j: Joint, move: Move, size: nat)
    requires Matches(j, size) && Enabled(j, move, size)
    ensures Matches(Next(j, move, size), size)
  {
    hide Text, Fed, R.Inv, R.Enabled, Replay;
    match move {
      case Pass(step) => R.NextInv(j.child, step, size);
      case Log(step, after) =>
        match step {
          case Feed(db, cmds) => FeedMatches(j, db, cmds, after, size);
          case StartRewrite(base) => ForkMatches(base, size);
          case Start(_, base) => ForkMatches(base, size);
          case _ =>
        }
    }
  }

  lemma NextLogInv(j: Joint, move: Move, size: nat)
    requires AofSelect.Inv(j.log) && Enabled(j, move, size)
    ensures AofSelect.Inv(Next(j, move, size).log)
  {
    hide AofSelect.Inv, R.Enabled;
    if move.Log? {
      AofSelect.NextInv(j.log, move.step);
    }
  }

  lemma {:induction false} RunMatches(j: Joint, moves: seq<Move>, k: Joint, size: nat)
    requires AofSelect.Inv(j.log) && Matches(j, size) && Reaches(j, moves, k, size)
    ensures AofSelect.Inv(k.log) && Matches(k, size)
    decreases |moves|
  {
    hide AofSelect.Inv, Matches, Enabled, Next;
    if moves == [] {
    } else {
      NextLogInv(j, moves[0], size);
      NextMatches(j, moves[0], size);
      RunMatches(Next(j, moves[0], size), moves[1..], k, size);
    }
  }

  lemma InitialMatches(j: Joint, size: nat)
    requires Initial(j.log)
    ensures AofSelect.Inv(j.log) && Matches(j, size)
  {
    assert j.log.file + [] == j.log.file;
  }

  /** After every joint run: what the child was forked with and what it was fed are the bytes of the
      entries logged since. When it has exited, the file the parent installs is the text of the new
      log if and only if the child's last read had emptied the pipe. */
  lemma InstalledIsTheNewLog(j: Joint, moves: seq<Move>, k: Joint, size: nat)
    requires Initial(j.log) && Reaches(j, moves, k, size) && k.log.rewrite.Rewrite?
    ensures k.child.base == Text(k.log.rewrite.base) && k.child.fed == Text(k.log.rewrite.diff)
    ensures k.child.child == R.Exited ==>
      (R.Installed(k.child) == Text(AofSelect.Next(k.log, RewriteDone).file) <==> !k.child.cut)
  {
    hide Text, AofSelect.Inv, R.Inv, R.Installed, Reaches, Replay;
    InitialMatches(j, size);
    RunMatches(j, moves, k, size);
    TextConcat(k.log.rewrite.base, k.log.rewrite.diff);
    if k.child.child == R.Exited {
      R.ExitedIsExact(k.child, size);
    }
  }

  /** A rewrite from fork to installation: if the child's last read emptied the pipe, the installed
      log, loaded, executes what the child wrote and then every command issued since the fork, in
      its database. */
  lemma RewrittenLogLoads(j: Joint, moves: seq<Move>, k: Joint, size: nat, known: set<string>)
    requires Initial(j.log) && Reaches(j, moves, k, size)
    requires k.log.rewrite.Rewrite? && k.child.child == R.Exited && !k.child.cut
    requires var log := k.log.rewrite.base + k.log.rewrite.diff; Plain(log, known) && log != []
    ensures var r := Load(R.Installed(k.child), known, true);
            r.Loaded? && Interpret(0, r.executed) == Pairs(Replay(0, k.log.rewrite.base) + k.log.rewrite.since)
  {
    hide Text, Load, Interpret, Replay, Plain, R.Installed, Reaches, AofSelect.Inv, Matches, Pairs;
    InstalledIsTheNewLog(j, moves, k, size);
    InitialMatches(j, size);
    RunMatches(j, moves, k, size);
    LoadIsReplay(k.log.rewrite.base + k.log.rewrite.diff, known);
    SinceTheFork(k.log);
  }

  lemma SinceTheFork(s: State)
    requires AofSelect.Inv(s) && s.rewrite.Rewrite?
    ensures Replay(0, s.rewrite.base + s.rewrite.diff) == Replay(0, s.rewrite.base) + s.rewrite.since
  {
  }
}
