/** What must be in the log, said from the steps alone: the commands issued, in their databases, and
    the rewrites that were completed. */
module AofHistory {
  import opened AofFormat
  import opened AofSelect

  /** What the commands fed in a run were meant to do. */
  function IssuedIn(steps: seq<Step>): seq<Effect> {
    if steps == [] then []
    else (if steps[0].Feed? then Issued(steps[0].db, steps[0].cmds) else []) + IssuedIn(steps[1..])
  }

  /** No rewrite is completed and logging is not stopped. */
  ghost predicate Undisturbed(steps: seq<Step>) {
    forall i :: 0 <= i < |steps| ==> !steps[i].Stop? && !steps[i].RewriteDone?
  }

  /** Nor does a rewrite fail. */
  ghost predicate RewriteGoesOn(steps: seq<Step>) {
    Undisturbed(steps) && forall i :: 0 <= i < |steps| ==> !steps[i].RewriteFailed?
  }

  /** A step that starts a child which writes base. */
  predicate Forks(step: Step, base: seq<Entry>) {
    step == StartRewrite(base) || step == Start(false, base)
  }

  // ---------------------------------------------------------------------------
  // Logging goes on
  // ---------------------------------------------------------------------------

  lemma Regroup<T>(a: seq<T>, b: seq<T>, c: seq<T>)
    ensures a + b + c == a + (b + c)
  {
  }

  lemma OneStepLogged(s: State, step: Step)
    requires Inv(s) && Enabled(s, step) && s.mode == On && !step.Stop? && !step.RewriteDone?
    ensures var t := Next(s, step);
            && Inv(t) && t.mode == On
            && Replay(0, t.file + t.buf) == Replay(0, s.file + s.buf) + IssuedIn([step])
  {
    hide Replay, EndDb, Issued;
    NextInv(s, step);
    Single(step);
    if step.Feed? {
      ReplayFed(s.file + s.buf, s.selected, step.db, step.cmds);
      var out := Fed(s.selected, step.db, step.cmds);
      Regroup(s.file, s.buf, out);
    } else {
      assert Replay(0, s.file + s.buf) + [] == Replay(0, s.file + s.buf);
      if step.Flush? {
        assert s.file + s.buf == s.file + s.buf[..step.n] + s.buf[step.n..];
      }
    }
  }

  lemma Single(step: Step)
    ensures IssuedIn([step]) == if step.Feed? then Issued(step.db, step.cmds) else []
  {
    hide Issued;
    assert [step][1..] == [];
  }

  lemma IssuedSplit(steps: seq<Step>, effects: seq<Effect>)
    requires steps != []
    ensures effects + IssuedIn([steps[0]]) + IssuedIn(steps[1..]) == effects + IssuedIn(steps)
  {
    hide Issued;
    Single(steps[0]);
    Regroup(effects, IssuedIn([steps[0]]), IssuedIn(steps[1..]));
  }

  /** While logging is on, is not stopped and no rewrite is completed, the log grows by exactly the
      commands issued, in order and in their databases. */
  lemma {:induction false} LoggedAlong(s: State, steps: seq<Step>, t: State)
    requires Inv(s) && s.mode == On && Reaches(s, steps, t) && Undisturbed(steps)
    ensures Inv(t) && t.mode == On
    ensures Replay(0, t.file + t.buf) == Replay(0, s.file + s.buf) + IssuedIn(steps)
    decreases |steps|
  {
    hide Inv, Replay, Next, IssuedIn;
    if steps == [] {
      NothingIssued();
      assert Replay(0, s.file + s.buf) + [] == Replay(0, s.file + s.buf);
    } else {
      var next := Next(s, steps[0]);
      OneStepLogged(s, steps[0]);
      LoggedAlong(next, steps[1..], t);
      IssuedSplit(steps, Replay(0, s.file + s.buf));
    }
  }

  lemma NothingIssued()
    ensures IssuedIn([]) == []
  {
  }

  /** While logging is not on and no rewrite is completed, the log does not change. */
  lemma {:induction false} NothingLogged(s: State, steps: seq<Step>, t: State)
    requires s.mode != On && Reaches(s, steps, t) && forall i :: 0 <= i < |steps| ==> !steps[i].RewriteDone?
    ensures t.mode != On && t.file + t.buf == s.file + s.buf
    decreases |steps|
  {
    if steps == [] {
    } else {
      var step := steps[0];
      if step.Flush? {
        assert s.file + s.buf == s.file + s.buf[..step.n] + s.buf[step.n..];
      }
      NothingLogged(Next(s, step), steps[1..], t);
    }
  }

  /** Once stopped, logging stays off until it is started: nothing is fed or flushed, and a rewrite
      that is completed does not turn it on. */
  lemma {:induction false} OffUntilStarted(s: State, steps: seq<Step>, t: State)
    requires s.mode == Off && Reaches(s, steps, t) && forall i :: 0 <= i < |steps| ==> !steps[i].Start?
    ensures t.mode == Off && forall i :: 0 <= i < |steps| ==> !steps[i].Feed? && !steps[i].Flush?
    decreases |steps|
  {
    if steps == [] {
    } else {
      OffUntilStarted(Next(s, steps[0]), steps[1..], t);
      assert forall i :: 1 <= i < |steps| ==> steps[i] == steps[1..][i - 1];
    }
  }

  lemma StopTurnsOff(s: State, steps: seq<Step>, t: State)
    requires Enabled(s, Stop) && Reaches(Next(s, Stop), steps, t) && forall i :: 0 <= i < |steps| ==> !steps[i].Start?
    ensures t.mode == Off && forall i :: 0 <= i < |steps| ==> !steps[i].Feed? && !steps[i].Flush?
    ensures Next(s, Stop).file + Next(s, Stop).buf == s.file + s.buf && Next(s, Stop).rewrite.NoRewrite?
    ensures Next(s, Stop).selected == -1
  {
    OffUntilStarted(Next(s, Stop), steps, t);
  }

  /** A SELECT is logged only where the database changes. */
  lemma SelectsOnChange(selected: int, db: nat, cmds: seq<Command>)
    ensures var out := Fed(selected, db, cmds);
            && |out| == |cmds| + (if selected == db then 0 else 1)
            && (forall i :: 0 <= i < |out| && out[i].Select? ==> i == 0 && selected != db && out[i].db == db)
  {
  }

  lemma {:induction false} WaitsAlong(s: State, steps: seq<Step>, t: State)
    requires s.mode == WaitRewrite && Reaches(s, steps, t) && Undisturbed(steps)
    ensures t.mode == WaitRewrite
    decreases |steps|
  {
    if steps == [] {
    } else {
      WaitsAlong(Next(s, steps[0]), steps[1..], t);
    }
  }

  /** Once started, logging waits for a rewrite, however many of them fail, until one is completed or
      logging is stopped; the rewrite runs at once unless it had to be scheduled. */
  lemma StartWaits(s: State, scheduled: bool, base: seq<Entry>, steps: seq<Step>, t: State)
    requires Enabled(s, Start(scheduled, base)) && Reaches(Next(s, Start(scheduled, base)), steps, t)
    requires Undisturbed(steps)
    ensures t.mode == WaitRewrite && t.file + t.buf == s.file + s.buf
    ensures Next(s, Start(scheduled, base)).rewrite.Rewrite? <==> !scheduled
  {
    var u := Next(s, Start(scheduled, base));
    WaitsAlong(u, steps, t);
    NothingLogged(u, steps, t);
  }

  // ---------------------------------------------------------------------------
  // A rewrite
  // ---------------------------------------------------------------------------

  /** A rewrite is under way which began with base; these commands were issued since. */
  ghost predicate Rewriting(s: State, base: seq<Entry>, since: seq<Effect>) {
    s.rewrite.Rewrite? && s.rewrite.base == base && Inv(s) &&
        Replay(0, s.rewrite.base + s.rewrite.diff) == Replay(0, base) + since
  }

  lemma ForkRewrites(s: State, fork: Step, base: seq<Entry>)
    requires Inv(s) && Enabled(s, fork) && Forks(fork, base)
    ensures Rewriting(Next(s, fork), base, [])
    ensures Next(s, fork).mode == (if fork.Start? then WaitRewrite else s.mode) && Next(s, fork).selected == -1
  {
    hide Replay, EndDb;
    NextInv(s, fork);
    assert base + [] == base && Replay(0, base) + [] == Replay(0, base);
  }

  lemma OneStepRewrites(s: State, step: Step, base: seq<Entry>, since: seq<Effect>)
    requires Rewriting(s, base, since) && Enabled(s, step)
    requires !step.Stop? && !step.RewriteDone? && !step.RewriteFailed?
    ensures Rewriting(Next(s, step), base, since + IssuedIn([step])) && Next(s, step).mode == s.mode
  {
    hide Replay, EndDb, Issued;
    NextInv(s, step);
    Single(step);
    var r := s.rewrite;
    if step.Feed? {
      var out := Fed(s.selected, step.db, step.cmds);
      ReplayFed(r.base + r.diff, s.selected, step.db, step.cmds);
      Regroup(r.base, r.diff, out);
      Regroup(Replay(0, base), since, Issued(step.db, step.cmds));
    } else {
      assert since + [] == since;
    }
  }

  lemma {:induction false} RewritesAlong(s: State, steps: seq<Step>, t: State, base: seq<Entry>, since: seq<Effect>)
    requires Rewriting(s, base, since) && Reaches(s, steps, t) && RewriteGoesOn(steps)
    ensures Rewriting(t, base, since + IssuedIn(steps)) && t.mode == s.mode
    decreases |steps|
  {
    hide Rewriting, Next, IssuedIn;
    if steps == [] {
      NothingIssued();
      assert since + [] == since;
    } else {
      OneStepRewrites(s, steps[0], base, since);
      RewritesAlong(Next(s, steps[0]), steps[1..], t, base, since + IssuedIn([steps[0]]));
      IssuedSplit(steps, since);
    }
  }

  /** A completed rewrite: the log is what the child wrote and what was issued since the fork, and
      logging is on, with the next command to be preceded by a SELECT - unless it was off, when it
      stays off and the log is what the child wrote. */
  lemma CompletedRewrite(s: State, fork: Step, during: seq<Step>, t: State, base: seq<Entry>)
    requires Inv(s) && Enabled(s, fork) && Forks(fork, base)
    requires Reaches(Next(s, fork), during, t) && RewriteGoesOn(during) && Enabled(t, RewriteDone)
    ensures var u := Next(t, RewriteDone);
            && u.mode == (if s.mode == Off && fork.StartRewrite? then Off else On)
            && Replay(0, u.file) == Replay(0, base) + IssuedIn(during)
            && u.buf == (if u.mode == On then [] else t.buf) && u.rewrite.NoRewrite?
            && (u.mode == On ==> Inv(u) && u.selected == -1)
  {
    hide Replay, EndDb, Inv, IssuedIn, Reaches;
    ForkRewrites(s, fork, base);
    RewritesAlong(Next(s, fork), during, t, base, []);
    assert [] + IssuedIn(during) == IssuedIn(during);
    if t.mode != Off {
      NextInv(t, RewriteDone);
    }
  }

  lemma {:induction false} IssuedConcat(a: seq<Step>, b: seq<Step>)
    ensures IssuedIn(a + b) == IssuedIn(a) + IssuedIn(b)
    decreases |a|
  {
    hide Issued;
    if a == [] {
      assert a + b == b;
    } else {
      assert (a + b)[1..] == a[1..] + b;
      IssuedConcat(a[1..], b);
    }
  }

  lemma InitialInv(s: State)
    requires Initial(s)
    ensures Inv(s)
  {
    assert s.file + [] == s.file;
  }

  /** What is in the log. After the last completed rewrite, if logging was on or being started at its
      fork and has not been stopped since, logging is on and the log does what the child wrote and
      then every command issued since the fork, each in its database: no later command is missing
      and no earlier one is repeated. */
  lemma LoggedSinceTheFork(start: State, before: seq<Step>, s: State, fork: Step, during: seq<Step>, t: State,
      after: seq<Step>, u: State, base: seq<Entry>)
    requires Initial(start) && Reaches(start, before, s) && CarefulRun(start, before)
    requires Enabled(s, fork) && Forks(fork, base) && (s.mode == Off ==> fork.Start?)
    requires Reaches(Next(s, fork), during, t) && RewriteGoesOn(during) && Enabled(t, RewriteDone)
    requires Reaches(Next(t, RewriteDone), after, u) && Undisturbed(after)
    ensures u.mode == On
    ensures Replay(0, u.file + u.buf) == Replay(0, base) + IssuedIn(during + after)
  {
    hide Replay, Inv, Reaches, Next, Undisturbed, RewriteGoesOn, IssuedIn, CarefulRun;
    InitialInv(start);
    RunInv(start, before, s);
    CompletedRewrite(s, fork, during, t, base);
    var done := Next(t, RewriteDone);
    assert done.file + [] == done.file;
    LoggedAlong(done, after, u);
    IssuedConcat(during, after);
    Regroup(Replay(0, base), IssuedIn(during), IssuedIn(after));
  }
}
