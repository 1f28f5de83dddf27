/** The file itself: a server that feeds its log, flushes it under short writes and failures, and
    rewrites, stops and starts it, with the bytes each of these leaves on disk. */
module AofDisk {
  import opened AofFormat
  import opened AofLoader
  import opened AofSelect
  import opened AofRecovery
  import F = AofFlush
  import H = AofHistory

  datatype Server = Server(log: State, bytes: F.Log)

  /** A step of the log other than a flush, or a flush of the bytes. */
  datatype Move = Log(step: Step) | Sync(policy: F.Policy, force: bool, env: F.Env)

  /** Without a file every write fails. */
  predicate Enabled(s: Server, move: Move) {
    && !s.bytes.exited
    && match move
       case Log(step) => !step.Flush? && AofSelect.Enabled(s.log, step) && Careful(s.log, step)
       case Sync(_, _, env) => s.log.mode == Off ==> env.writes == []
  }

  /** What a step of the log does to the bytes. The recorded size is not brought up to date by a
      rewrite that ends with logging off. */
  function Bytes(s: Server, step: Step): F.Log
    requires AofSelect.Enabled(s.log, step)
  {
    match step
    case Feed(db, cmds) =>
      if s.log.mode == On then F.Feed(s.bytes, Text(Fed(s.log.selected, db, cmds))) else s.bytes
    case RewriteDone =>
      var text := Text(s.log.rewrite.base + s.log.rewrite.diff);
      if s.log.mode == Off then s.bytes.(disk := text)
      else s.bytes.(disk := text, buf := "", size := |text|)
    case _ => s.bytes
  }

  /** Entries count as written when the byte buffer is empty. */
  function Settle(log: State, bytes: F.Log): State {
    if bytes.buf == "" then log.(file := log.file + log.buf, buf := []) else log
  }

  function Next(s: Server, move: Move): Server
    requires Enabled(s, move)
  {
    match move
    case Log(step) => Server(AofSelect.Next(s.log, step), Bytes(s, step))
    case Sync(policy, force, env) =>
      var bytes := F.Flush(s.bytes, policy, force, env);
      Server(Settle(s.log, bytes), bytes)
  }

  ghost predicate Reaches(s: Server, moves: seq<Move>, t: Server)
    decreases |moves|
  {
    if moves == [] then s == t else Enabled(s, moves[0]) && Reaches(Next(s, moves[0]), moves[1..], t)
  }

  // ---------------------------------------------------------------------------
  // The invariant
  // ---------------------------------------------------------------------------

  /** While the server runs, file and buffer are the text of the log, byte by byte; the recorded
      size is right whenever it matters. After an exit the file is still a prefix of that text. */
  ghost predicate Written(log: State, bytes: F.Log) {
    var text := Text(log.file + log.buf);
    && bytes.disk <= text
    && (!bytes.exited ==>
          && bytes.disk + bytes.buf == text && (bytes.buf == "" <==> log.buf == [])
          && (log.mode == On || bytes.buf != "" ==> bytes.size == |bytes.disk|))
  }

  lemma FedWritten(s: Server, db: nat, cmds: seq<Command>)
    requires Written(s.log, s.bytes) && Enabled(s, Log(Feed(db, cmds))) && s.log.mode == On
    ensures var t := Next(s, Log(Feed(db, cmds))); Written(t.log, t.bytes)
  {
    hide Text, Fed;
    var out := Fed(s.log.selected, db, cmds);
    var log := s.log.file + s.log.buf;
    TextConcat(log, out);
    assert log + out == s.log.file + (s.log.buf + out);
    assert s.bytes.disk + s.bytes.buf + Text(out) == s.bytes.disk + (s.bytes.buf + Text(out));
    FedNotEmpty(s.log.selected, db, cmds);
  }

  lemma FedNotEmpty(selected: int, db: nat, cmds: seq<Command>)
    requires cmds != []
    ensures Fed(selected, db, cmds) != [] && Text(Fed(selected, db, cmds)) != ""
  {
    NonEmptyLog(Commands(Fed(selected, db, cmds)));
  }

  lemma DoneWritten(s: Server)
    requires Written(s.log, s.bytes) && Enabled(s, Log(RewriteDone))
    ensures var t := Next(s, Log(RewriteDone)); Written(t.log, t.bytes)
  {
    hide Text, Replay;
    var log := s.log.rewrite.base + s.log.rewrite.diff;
    assert log + [] == log;
    assert Text(log) + "" == Text(log);
  }

  lemma SyncWritten(s: Server, policy: F.Policy, force: bool, env: F.Env)
    requires Written(s.log, s.bytes) && Enabled(s, Sync(policy, force, env))
    ensures var t := Next(s, Sync(policy, force, env)); Written(t.log, t.bytes)
  {
    hide Text, F.Accepted;
    var log := s.log.file + s.log.buf;
    assert log + [] == log;
    if s.bytes.buf != "" {
      F.NextKeeps(s.bytes, F.Flushed(policy, force, env));
      assert s.bytes.disk + s.bytes.buf + "" == s.bytes.disk + s.bytes.buf;
    }
  }

  lemma NextWritten(s: Server, move: Move)
    requires Written(s.log, s.bytes) && Enabled(s, move)
    ensures var t := Next(s, move); Written(t.log, t.bytes)
  {
    hide Text, Fed, Replay;
    match move {
      case Sync(policy, force, env) => SyncWritten(s, policy, force, env);
      case Log(step) =>
        match step {
          case Feed(db, cmds) =>
            if s.log.mode == On {
              FedWritten(s, db, cmds);
            }
          case RewriteDone => DoneWritten(s);
          case _ =>
        }
    }
  }

  lemma NextLogInv(s: Server, move: Move)
    requires AofSelect.Inv(s.log) && Enabled(s, move)
    ensures AofSelect.Inv(Next(s, move).log)
  {
    hide AofSelect.Inv;
    match move {
      case Log(step) => AofSelect.NextInv(s.log, step);
      case Sync(_, _, _) =>
        FlushInv(s.log, |s.log.buf|);
        assert s.log.buf[..|s.log.buf|] == s.log.buf && s.log.buf[|s.log.buf|..] == [];
    }
  }

  lemma {:induction false} RunWritten(s: Server, moves: seq<Move>, t: Server)
    requires AofSelect.Inv(s.log) && Written(s.log, s.bytes) && Reaches(s, moves, t)
    ensures AofSelect.Inv(t.log) && Written(t.log, t.bytes)
    decreases |moves|
  {
    hide AofSelect.Inv, Written, Enabled, Next;
    if moves == [] {
    } else {
      NextLogInv(s, moves[0]);
      NextWritten(s, moves[0]);
      RunWritten(Next(s, moves[0]), moves[1..], t);
    }
  }

  /** The state at startup: the file is the text of some log. */
  ghost predicate Initial(s: Server) {
    && AofSelect.Initial(s.log)
    && s.bytes.disk == Text(s.log.file) && s.bytes.buf == "" && !s.bytes.exited
    && (s.log.mode == On ==> s.bytes.size == |s.bytes.disk|)
  }

  lemma StartsWritten(s: Server)
    requires Initial(s)
    ensures AofSelect.Inv(s.log) && Written(s.log, s.bytes)
  {
    hide Text;
    assert s.log.file + [] == s.log.file;
  }

  /** Durability: after every run of commands, flushes with any writes and failures, rewrites, stops
      and starts - and after an exit too - the file, or any non-empty part of it from the start, is
      loaded, and what is loaded is the beginning of what was issued, in the right databases. It is
      all of it when the buffer was flushed and no byte is missing. */
  lemma DiskLoads(s: Server, moves: seq<Move>, t: Server, known: set<string>, k: nat)
    requires Initial(s) && Reaches(s, moves, t) && Plain(t.log.file + t.log.buf, known) && 0 < k <= |t.bytes.disk|
    ensures var r := Load(t.bytes.disk[..k], known, true);
            && r.Loaded? && Interpret(0, r.executed) <= Pairs(t.log.meaning)
            && (!t.bytes.exited && t.bytes.buf == "" && k == |t.bytes.disk| ==>
                  Interpret(0, r.executed) == Pairs(t.log.meaning))
  {
    hide Text, Load, Interpret, Replay, Reaches, Plain, Pairs;
    StartsWritten(s);
    RunWritten(s, moves, t);
    var text := Text(t.log.file + t.log.buf);
    assert t.bytes.disk[..k] == text[..k];
    assert t.bytes.disk + "" == t.bytes.disk;
    CutLoads(t.log.file + t.log.buf, known, k);
  }

  /** The steps of the log in a run. */
  function LogSteps(moves: seq<Move>): seq<Step> {
    if moves == [] then [] else (if moves[0].Log? then [moves[0].step] else []) + LogSteps(moves[1..])
  }

  lemma IssuedMove(move: Move, moves: seq<Move>)
    ensures H.IssuedIn(LogSteps([move] + moves)) ==
            (if move.Log? && move.step.Feed? then Issued(move.step.db, move.step.cmds) else []) +
            H.IssuedIn(LogSteps(moves))
  {
    hide Issued;
    assert ([move] + moves)[1..] == moves;
    var rest := LogSteps(moves);
    if move.Log? {
      assert ([move.step] + rest)[1..] == rest;
    } else {
      assert [] + rest == rest;
    }
  }

  lemma MoveMeans(s: Server, move: Move)
    requires Enabled(s, move) && s.log.mode == On && (move.Log? ==> !move.step.Stop? && !move.step.RewriteDone?)
    ensures var t := Next(s, move).log;
            && t.mode == On
            && t.meaning == s.log.meaning +
               (if move.Log? && move.step.Feed? then Issued(move.step.db, move.step.cmds) else [])
  {
    hide Text, Fed, Issued, Replay, F.Flush;
    assert s.log.meaning + [] == s.log.meaning;
  }

  lemma {:induction false} RunMeans(s: Server, moves: seq<Move>, t: Server)
    requires Reaches(s, moves, t) && s.log.mode == On
    requires forall i :: 0 <= i < |moves| && moves[i].Log? ==> !moves[i].step.Stop? && !moves[i].step.RewriteDone?
    ensures t.log.mode == On && t.log.meaning == s.log.meaning + H.IssuedIn(LogSteps(moves))
    decreases |moves|
  {
    hide Enabled, Next, Issued;
    if moves == [] {
      assert s.log.meaning + [] == s.log.meaning;
    } else {
      MoveMeans(s, moves[0]);
      RunMeans(Next(s, moves[0]), moves[1..], t);
      IssuedMove(moves[0], moves[1..]);
      assert [moves[0]] + moves[1..] == moves;
      H.Regroup(s.log.meaning,
                if moves[0].Log? && moves[0].step.Feed? then Issued(moves[0].step.db, moves[0].step.cmds) else [],
                H.IssuedIn(LogSteps(moves[1..])));
    }
  }

  /** The same, said from the steps alone: as long as logging is not stopped and no rewrite is
      completed, what loads is the beginning of what the log did at the start, followed by the
      commands issued since. */
  lemma DiskLoadsIssued(s: Server, moves: seq<Move>, t: Server, known: set<string>, k: nat)
    requires Initial(s) && s.log.mode == On && Reaches(s, moves, t)
    requires forall i :: 0 <= i < |moves| && moves[i].Log? ==> !moves[i].step.Stop? && !moves[i].step.RewriteDone?
    requires Plain(t.log.file + t.log.buf, known) && 0 < k <= |t.bytes.disk|
    ensures var r := Load(t.bytes.disk[..k], known, true);
            var issued := Pairs(Replay(0, s.log.file) + H.IssuedIn(LogSteps(moves)));
            && r.Loaded? && Interpret(0, r.executed) <= issued
            && (!t.bytes.exited && t.bytes.buf == "" && k == |t.bytes.disk| ==> Interpret(0, r.executed) == issued)
  {
    hide Text, Load, Interpret, Replay, Reaches, Plain, Pairs, H.IssuedIn;
    DiskLoads(s, moves, t, known, k);
    RunMeans(s, moves, t);
  }
}
