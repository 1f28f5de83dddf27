/** Which database a logged command runs in. The log and the rewrite buffer share one record of the
    database selected last; SELECT entries are written only when it changes. */
module AofSelect {
  import opened AofFormat

  /** The state of logging: off, waiting for a rewrite before it starts, or on. */
  datatype Mode = Off | WaitRewrite | On

  datatype Entry = Select(db: nat) | Exec(cmd: Command)

  /** A command and the database it is run in. */
  datatype Effect = Effect(db: nat, cmd: Command)

  /** A running rewrite: what the child writes, what was logged since the fork, and (for the
      statement only) the commands that were issued since. */
  datatype Rewrite = NoRewrite | Rewrite(base: seq<Entry>, diff: seq<Entry>, since: seq<Effect>)

  /** `file` is the log on disk, `buf` what is waiting to be written to it; `meaning` is what the
      log is meant to do. `selected` is -1 when no SELECT may be left out. */
  datatype State = State(
    mode: Mode,
    selected: int,
    file: seq<Entry>,
    buf: seq<Entry>,
    rewrite: Rewrite,
    meaning: seq<Effect>)

  // ---------------------------------------------------------------------------
  // Replaying
  // ---------------------------------------------------------------------------

  function Replay(db: nat, log: seq<Entry>): seq<Effect>
    decreases |log|
  {
    if log == [] then []
    else
      match log[0]
      case Select(d) => Replay(d, log[1..])
      case Exec(c) => [Effect(db, c)] + Replay(db, log[1..])
  }

  /** The database in use after a log was replayed. */
  function EndDb(db: nat, log: seq<Entry>): nat
    decreases |log|
  {
    if log == [] then db else EndDb(if log[0].Select? then log[0].db else db, log[1..])
  }

  lemma {:induction false} ReplayConcat(db: nat, a: seq<Entry>, b: seq<Entry>)
    ensures Replay(db, a + b) == Replay(db, a) + Replay(EndDb(db, a), b)
    ensures EndDb(db, a + b) == EndDb(EndDb(db, a), b)
    decreases |a|
  {
    if a == [] {
      assert a + b == b;
    } else {
      assert (a + b)[1..] == a[1..] + b;
      ReplayConcat(if a[0].Select? then a[0].db else db, a[1..], b);
    }
  }

  // ---------------------------------------------------------------------------
  // Feeding
  // ---------------------------------------------------------------------------

  function Execs(cmds: seq<Command>): seq<Entry> {
    seq(|cmds|, i requires 0 <= i < |cmds| => Exec(cmds[i]))
  }

  function Issued(db: nat, cmds: seq<Command>): seq<Effect> {
    seq(|cmds|, i requires 0 <= i < |cmds| => Effect(db, cmds[i]))
  }

  /** What one call of the feeder appends: a SELECT if the database is not the selected one, and
      the commands that a client's command was translated to. */
  function Fed(selected: int, db: nat, cmds: seq<Command>): seq<Entry> {
    (if selected != db then [Select(db)] else []) + Execs(cmds)
  }

  lemma {:induction false} ReplayExecs(db: nat, cmds: seq<Command>)
    ensures Replay(db, Execs(cmds)) == Issued(db, cmds) && EndDb(db, Execs(cmds)) == db
    decreases |cmds|
  {
    if cmds == [] {
    } else {
      assert Execs(cmds)[1..] == Execs(cmds[1..]);
      ReplayExecs(db, cmds[1..]);
      assert Issued(db, cmds) == [Effect(db, cmds[0])] + Issued(db, cmds[1..]);
    }
  }

  /** What is fed runs in its own database, behind any log that ends in the selected one. */
  lemma ReplayFed(log: seq<Entry>, selected: int, db: nat, cmds: seq<Command>)
    requires selected == -1 || selected == EndDb(0, log)
    ensures Replay(0, log + Fed(selected, db, cmds)) == Replay(0, log) + Issued(db, cmds)
    ensures EndDb(0, log + Fed(selected, db, cmds)) == db
  {
    hide Replay, EndDb;
    ReplayConcat(0, log, Fed(selected, db, cmds));
    ReplayExecs(db, cmds);
    if selected != db {
      ReplayConcat(EndDb(0, log), [Select(db)], Execs(cmds));
      JustSelect(EndDb(0, log), db);
      assert [] + Issued(db, cmds) == Issued(db, cmds);
    } else {
      assert [] + Execs(cmds) == Execs(cmds);
    }
  }

  lemma JustSelect(db: nat, d: nat)
    ensures Replay(db, [Select(d)]) == [] && EndDb(db, [Select(d)]) == d
  {
  }

  // ---------------------------------------------------------------------------
  // Steps
  // ---------------------------------------------------------------------------

  datatype Step =
    | Feed(db: nat, cmds: seq<Command>)
    | Flush(n: nat)
    | StartRewrite(base: seq<Entry>)
    | RewriteDone
    | RewriteFailed
    | Stop
    | Start(scheduled: bool, base: seq<Entry>)

  /** Commands are fed only while logging is not off; a flush writes some of the buffer, which
      cannot happen without a file; one rewrite runs at a time. */
  predicate Enabled(s: State, step: Step) {
    match step
    case Feed(_, cmds) => s.mode != Off && cmds != []
    case Flush(n) => s.mode != Off && n <= |s.buf|
    case StartRewrite(_) => s.rewrite.NoRewrite?
    case RewriteDone => s.rewrite.Rewrite?
    case RewriteFailed => s.rewrite.Rewrite?
    case Stop => s.mode != Off
    case Start(_, _) => s.mode == Off && s.rewrite.NoRewrite?
  }

  function DoFeed(s: State, db: nat, cmds: seq<Command>): State {
    var out := Fed(s.selected, db, cmds);
    var rewrite := if s.rewrite.Rewrite?
                   then s.rewrite.(diff := s.rewrite.diff + out, since := s.rewrite.since + Issued(db, cmds))
                   else s.rewrite;
    if s.mode == On
    then s.(selected := db, buf := s.buf + out, rewrite := rewrite, meaning := s.meaning + Issued(db, cmds))
    else s.(selected := db, rewrite := rewrite)
  }

  /** The rewritten log replaces the file. With logging off the buffer is left alone. */
  function DoRewriteDone(s: State): State
    requires s.rewrite.Rewrite?
  {
    var r := s.rewrite;
    var t := s.(file := r.base + r.diff, rewrite := NoRewrite, meaning := Replay(0, r.base) + r.since);
    if s.mode == Off then t else t.(selected := -1, buf := [], mode := On)
  }

  function Next(s: State, step: Step): State
    requires Enabled(s, step)
  {
    match step
    case Feed(db, cmds) => DoFeed(s, db, cmds)
    case Flush(n) => s.(file := s.file + s.buf[..n], buf := s.buf[n..])
    case StartRewrite(base) => s.(rewrite := Rewrite(base, [], []), selected := -1)
    case RewriteDone => DoRewriteDone(s)
    case RewriteFailed => s.(rewrite := NoRewrite)
    case Stop => s.(mode := Off, selected := -1, rewrite := NoRewrite)
    case Start(scheduled, base) =>
      if scheduled then s.(mode := WaitRewrite)
      else s.(mode := WaitRewrite, rewrite := Rewrite(base, [], []), selected := -1)
  }

  ghost predicate Reaches(s: State, steps: seq<Step>, t: State)
    decreases |steps|
  {
    if steps == [] then s == t
    else Enabled(s, steps[0]) && Reaches(Next(s, steps[0]), steps[1..], t)
  }

  // ---------------------------------------------------------------------------
  // The invariant
  // ---------------------------------------------------------------------------

  /** The log and the buffer do what they are meant to do. */
  ghost predicate Faithful(s: State) {
    Replay(0, s.file + s.buf) == s.meaning
  }

  /** While the log is written to, a left-out SELECT is one that would change nothing. */
  ghost predicate LogSelected(s: State) {
    s.mode == On && s.selected != -1 ==> s.selected == EndDb(0, s.file + s.buf)
  }

  /** The same for the log a rewrite is going to install. */
  ghost predicate RewriteSelected(s: State) {
    s.rewrite.Rewrite? ==>
      && Replay(0, s.rewrite.base + s.rewrite.diff) == Replay(0, s.rewrite.base) + s.rewrite.since
      && (s.selected != -1 ==> s.selected == EndDb(0, s.rewrite.base + s.rewrite.diff))
      && (s.mode == Off ==> s.selected == -1)
  }

  ghost predicate Inv(s: State) {
    Faithful(s) && LogSelected(s) && RewriteSelected(s) && (s.buf == [] || s.buf[|s.buf| - 1].Exec?)
  }

  lemma FeedInv(s: State, db: nat, cmds: seq<Command>)
    requires Inv(s) && Enabled(s, Feed(db, cmds))
    ensures Inv(DoFeed(s, db, cmds))
  {
    hide Replay, EndDb, Issued;
    var out := Fed(s.selected, db, cmds);
    if s.mode == On {
      ReplayFed(s.file + s.buf, s.selected, db, cmds);
      assert s.file + s.buf + out == s.file + (s.buf + out);
    }
    if s.rewrite.Rewrite? {
      var r := s.rewrite;
      ReplayFed(r.base + r.diff, s.selected, db, cmds);
      assert r.base + r.diff + out == r.base + (r.diff + out);
      assert Replay(0, r.base) + r.since + Issued(db, cmds) == Replay(0, r.base) + (r.since + Issued(db, cmds));
    }
  }

  /** A rewrite that begins now has a log of its own to continue. */
  lemma BeginRewrite(s: State, base: seq<Entry>)
    requires s.rewrite == Rewrite(base, [], []) && s.selected == -1
    ensures RewriteSelected(s)
  {
    assert base + [] == base && Replay(0, base) + [] == Replay(0, base);
  }

  lemma FlushInv(s: State, n: nat)
    requires Inv(s) && n <= |s.buf|
    ensures Inv(s.(file := s.file + s.buf[..n], buf := s.buf[n..]))
  {
    hide Replay, EndDb;
    assert s.file + s.buf == s.file + s.buf[..n] + s.buf[n..];
  }

  lemma DoneInv(s: State)
    requires Inv(s) && s.rewrite.Rewrite? && (s.mode == Off ==> s.buf == [])
    ensures Inv(DoRewriteDone(s))
  {
    hide Replay, EndDb;
    var log := s.rewrite.base + s.rewrite.diff;
    assert log + [] == log;
  }

  /** A rewrite that was started with logging off finds nothing left in the buffer when it ends. */
  predicate Careful(s: State, step: Step) {
    step.RewriteDone? && s.mode == Off ==> s.buf == []
  }

  lemma NextInv(s: State, step: Step)
    requires Inv(s) && Enabled(s, step) && Careful(s, step)
    ensures Inv(Next(s, step))
  {
    hide Replay, EndDb;
    match step {
      case Feed(db, cmds) => FeedInv(s, db, cmds);
      case Flush(n) => FlushInv(s, n);
      case StartRewrite(base) => BeginRewrite(Next(s, step), base);
      case RewriteDone => DoneInv(s);
      case Start(scheduled, base) => BeginRewrite(Next(s, Start(false, base)), base);
      case _ =>
    }
  }

  ghost predicate CarefulRun(s: State, steps: seq<Step>)
    decreases |steps|
  {
    steps == [] || (Enabled(s, steps[0]) && Careful(s, steps[0]) && CarefulRun(Next(s, steps[0]), steps[1..]))
  }

  lemma {:induction false} RunInv(s: State, steps: seq<Step>, t: State)
    requires Inv(s) && Reaches(s, steps, t) && CarefulRun(s, steps)
    ensures Inv(t)
    decreases |steps|
  {
    hide Inv;
    if steps == [] {
    } else {
      NextInv(s, steps[0]);
      RunInv(Next(s, steps[0]), steps[1..], t);
    }
  }

  /** The state at startup: some log on disk, nothing pending, no SELECT left out. */
  ghost predicate Initial(s: State) {
    s.buf == [] && s.selected == -1 && s.rewrite.NoRewrite? && s.meaning == Replay(0, s.file)
  }

  /** After every run of feeds, flushes, rewrites that end well or badly, stops and starts,
      replaying the log and the buffer from database 0 executes every logged command in the
      database it was issued on. */
  lemma EveryCommandInItsDatabase(s: State, steps: seq<Step>, t: State)
    requires Initial(s) && Reaches(s, steps, t) && CarefulRun(s, steps)
    ensures Replay(0, t.file + t.buf) == t.meaning
  {
    assert s.file + [] == s.file;
    RunInv(s, steps, t);
  }

  /** The same of the log that a rewrite is about to install. */
  lemma EveryCommandSinceTheFork(s: State, steps: seq<Step>, t: State)
    requires Initial(s) && Reaches(s, steps, t) && CarefulRun(s, steps) && t.rewrite.Rewrite?
    ensures Replay(0, t.rewrite.base + t.rewrite.diff) == Replay(0, t.rewrite.base) + t.rewrite.since
  {
    assert s.file + [] == s.file;
    RunInv(s, steps, t);
  }

  // ---------------------------------------------------------------------------
  // The exception
  // ---------------------------------------------------------------------------

  lemma {:induction false} ReplayLength(db: nat, log: seq<Entry>)
    requires log != [] && log[|log| - 1].Exec?
    ensures Replay(db, log) != []
    decreases |log|
  {
    if |log| <= 1 {
    } else {
      ReplayLength(if log[0].Select? then log[0].db else db, log[1..]);
    }
  }

  /** A rewrite that ends with logging off leaves log and buffer right if and only if the buffer
      is empty: stopping does not empty it when the last flush fails. */
  lemma OffRewriteIsRightExactlyWhen(s: State)
    requires Inv(s) && s.rewrite.Rewrite? && s.mode == Off
    ensures Faithful(DoRewriteDone(s)) <==> s.buf == []
  {
    hide Replay;
    if s.buf == [] {
      DoneInv(s);
    } else {
      var log := s.rewrite.base + s.rewrite.diff;
      ReplayConcat(0, log, s.buf);
      ReplayLength(EndDb(0, log), s.buf);
      assert |Replay(0, log + s.buf)| > |Replay(0, log)|;
    }
  }

  /** Such a run: a command is logged, the flush of the stop fails, and a rewrite is run with
      logging off. The command is then still waiting behind a log that has it already. */
  lemma PendingSurvivesRewrite(c: Command) returns (s: State, steps: seq<Step>, t: State)
    ensures Initial(s) && Reaches(s, steps, t) && Replay(0, t.file + t.buf) != t.meaning
  {
    hide Replay, Reaches;
    s := State(On, -1, [], [], NoRewrite, []);
    NoLog();
    var base := [Select(0), Exec(c)];
    var s1 := Next(s, Feed(0, [c]));
    FeedInv(s, 0, [c]);
    var s2 := Next(s1, Stop);
    NextInv(s1, Stop);
    var s3 := Next(s2, StartRewrite(base));
    NextInv(s2, StartRewrite(base));
    t := Next(s3, RewriteDone);
    OffRewriteIsRightExactlyWhen(s3);
    Stay(t);
    steps := Prepend(RewriteDone, [], s3, t);
    steps := Prepend(StartRewrite(base), steps, s2, t);
    steps := Prepend(Stop, steps, s1, t);
    steps := Prepend(Feed(0, [c]), steps, s, t);
  }

  lemma NoLog()
    ensures Replay(0, []) == [] && Replay(0, [] + []) == []
  {
    var none: seq<Entry> := [];
    assert none + none == none;
  }

  lemma Stay(s: State)
    ensures Reaches(s, [], s)
  {
  }

  lemma Prepend(step: Step, steps: seq<Step>, s: State, t: State) returns (r: seq<Step>)
    requires Enabled(s, step) && Reaches(Next(s, step), steps, t)
    ensures Reaches(s, r, t)
  {
    r := [step] + steps;
    assert r[1..] == steps;
  }
}
