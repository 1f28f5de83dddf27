/** Rewriting the log in the background: the parent keeps logging, sends what it logged to the
    child through a pipe, and appends the rest when the child is done.

    A state holds both processes and the pipes between them; `fed` is everything the parent
    logged since the fork. */
module AofRewrite {
  import opened RewriteBuffer

  /** Where the child is: rewriting, waiting for the answer to its "!", reading what is left,
      writing the file, or gone with the file complete. */
  datatype Child = Rewriting | Asking | Draining | Writing | Exited

  datatype State = State(
    base: string,
    fed: string,
    blocks: seq<Block>,
    pipe: string,
    childDiff: string,
    child: Child,
    asked: bool,
    answered: bool,
    stop: bool,
    cut: bool,
    file: string)

  datatype Step =
    | Feed(data: string, after: seq<Block>)
    | Send(n: nat)
    | Drop
    | Read(n: nat)
    | Ask
    | Answer(sent: bool)
    | Hear
    | Drained(interrupted: bool)
    | Finish

  /** Nothing was logged since the fork. */
  ghost predicate Forked(s: State) {
    && s.fed == "" && s.blocks == [] && s.pipe == "" && s.childDiff == "" && s.file == ""
    && s.child == Rewriting && !s.asked && !s.answered && !s.stop && !s.cut
  }

  ghost predicate Enabled(s: State, step: Step, size: nat) {
    match step
    case Feed(data, after) => AllSound(after, size) && Pending(after) == Pending(s.blocks) + data
    case Send(n) => !s.stop && s.blocks != [] && 0 < n <= s.blocks[0].used <= |s.blocks[0].buf|
    case Drop => !s.stop && s.blocks != [] && s.blocks[0].used == 0
    case Read(n) => (s.child == Rewriting || s.child == Draining) && n <= |s.pipe|
    case Ask => s.child == Rewriting
    case Answer(_) => s.asked && !s.stop
    case Hear => s.child == Asking && s.answered
    case Drained(interrupted) => s.child == Draining && (s.pipe == "" || interrupted)
    case Finish => s.child == Writing
  }

  function Next(s: State, step: Step): State
    requires step.Send? ==> s.blocks != [] && step.n <= s.blocks[0].used <= |s.blocks[0].buf|
    requires step.Drop? ==> s.blocks != []
    requires step.Read? ==> step.n <= |s.pipe|
  {
    match step
    case Feed(data, after) => s.(fed := s.fed + data, blocks := after)
    case Send(n) => s.(pipe := s.pipe + s.blocks[0].buf[..n], blocks := s.blocks[0 := Consume(s.blocks[0], n)])
    case Drop => s.(blocks := s.blocks[1..])
    case Read(n) => s.(childDiff := s.childDiff + s.pipe[..n], pipe := s.pipe[n..])
    case Ask => s.(child := Asking, asked := true)
    case Answer(sent) => s.(stop := true, answered := sent)
    case Hear => s.(child := Draining)
    case Drained(interrupted) => s.(child := Writing, cut := s.pipe != "")
    case Finish => s.(child := Exited, file := s.base + s.childDiff)
  }

  ghost predicate Reaches(s: State, steps: seq<Step>, t: State, size: nat)
    decreases |steps|
  {
    if steps == [] then s == t
    else Enabled(s, steps[0], size) && Reaches(Next(s, steps[0]), steps[1..], t, size)
  }

  /** Conservation: read by the child, in the pipe, and still in the blocks, in this order, is
      everything fed. The rest says why the pipe stays as it was once the child was answered. */
  ghost predicate Inv(s: State, size: nat) {
    && AllSound(s.blocks, size)
    && s.childDiff + s.pipe + Pending(s.blocks) == s.fed
    && (s.answered ==> s.stop)
    && (s.child in {Draining, Writing, Exited} ==> s.answered)
    && (s.child in {Writing, Exited} ==> (s.cut <==> s.pipe != ""))
    && (s.child == Exited ==> s.file == s.base + s.childDiff)
  }

  lemma FeedInv(s: State, data: string, after: seq<Block>, size: nat)
    requires Inv(s, size) && Enabled(s, Feed(data, after), size)
    ensures Inv(Next(s, Feed(data, after)), size)
  {
    hide Pending;
    assert s.childDiff + s.pipe + (Pending(s.blocks) + data) == s.childDiff + s.pipe + Pending(s.blocks) + data;
  }

  lemma SendInv(s: State, n: nat, size: nat)
    requires Inv(s, size) && Enabled(s, Send(n), size)
    ensures Inv(Next(s, Send(n)), size)
  {
    hide Pending, Consume;
    SendFirst(s.blocks, n, size);
    var t := Next(s, Send(n));
    assert s.childDiff + s.pipe + (s.blocks[0].buf[..n] + Pending(t.blocks))
        == s.childDiff + (s.pipe + s.blocks[0].buf[..n]) + Pending(t.blocks);
  }

  lemma ReadInv(s: State, n: nat, size: nat)
    requires Inv(s, size) && Enabled(s, Read(n), size)
    ensures Inv(Next(s, Read(n)), size)
  {
    hide Pending;
    assert s.pipe == s.pipe[..n] + s.pipe[n..];
    assert s.childDiff + (s.pipe[..n] + s.pipe[n..]) == (s.childDiff + s.pipe[..n]) + s.pipe[n..];
  }

  /** One step of either process; once the parent has stopped, the pipe does not grow. */
  lemma NextInv(s: State, step: Step, size: nat)
    requires Inv(s, size) && Enabled(s, step, size)
    ensures Inv(Next(s, step), size)
    ensures s.stop ==> Next(s, step).stop && |Next(s, step).pipe| <= |s.pipe|
  {
    hide Pending;
    match step {
      case Feed(data, after) => FeedInv(s, data, after, size);
      case Send(n) => SendInv(s, n, size);
      case Drop => DropEmpty(s.blocks);
      case Read(n) => ReadInv(s, n, size);
      case _ =>
    }
  }

  lemma {:induction false} RunInv(s: State, steps: seq<Step>, t: State, size: nat)
    requires Inv(s, size) && Reaches(s, steps, t, size)
    ensures Inv(t, size)
    decreases |steps|
  {
    hide Inv;
    if steps == [] {
    } else {
      NextInv(s, steps[0], size);
      RunInv(Next(s, steps[0]), steps[1..], t, size);
    }
  }

  lemma ForkedInv(s: State, size: nat)
    requires Forked(s)
    ensures Inv(s, size)
  {
  }

  /** The bytes fed in a run. */
  function FedIn(steps: seq<Step>): string {
    if steps == [] then "" else (if steps[0].Feed? then steps[0].data else "") + FedIn(steps[1..])
  }

  lemma {:induction false} FedIsFedIn(s: State, steps: seq<Step>, t: State, size: nat)
    requires Reaches(s, steps, t, size)
    ensures t.fed == s.fed + FedIn(steps) && t.base == s.base
    decreases |steps|
  {
    hide Pending;
    if steps == [] {
      assert s.fed + "" == s.fed;
    } else {
      FedIsFedIn(Next(s, steps[0]), steps[1..], t, size);
      Regroup(s.fed, if steps[0].Feed? then steps[0].data else "", FedIn(steps[1..]));
      assert s.fed + "" == s.fed;
    }
  }

  /** In every state of every run nothing that was fed is lost, duplicated or reordered. */
  lemma NothingLost(s: State, steps: seq<Step>, t: State, size: nat)
    requires Forked(s) && Reaches(s, steps, t, size)
    ensures t.childDiff + t.pipe + Pending(t.blocks) == FedIn(steps)
  {
    hide Reaches, FedIn;
    ForkedInv(s, size);
    RunInv(s, steps, t, size);
    FedIsFedIn(s, steps, t, size);
    assert "" + FedIn(steps) == FedIn(steps);
  }

  /** The file the parent installs when the child is done: the child's, and the blocks left. */
  ghost function Installed(s: State): string {
    s.file + Pending(s.blocks)
  }

  lemma ExitedIsExact(t: State, size: nat)
    requires Inv(t, size) && t.child == Exited
    ensures Installed(t) == t.base + t.fed <==> !t.cut
  {
    hide Pending;
    assert t.base + t.fed == t.base + t.childDiff + t.pipe + Pending(t.blocks);
    if t.cut {
      assert |Installed(t)| < |t.base + t.fed|;
    }
  }

  /** After every run in which the child succeeded, the new log is the child's base followed by
      exactly the bytes fed since the fork - if and only if the last read of the child had
      emptied the pipe. */
  lemma NewLogIsExact(s: State, steps: seq<Step>, t: State, size: nat)
    requires Forked(s) && Reaches(s, steps, t, size) && t.child == Exited
    ensures Installed(t) == s.base + FedIn(steps) <==> !t.cut
  {
    hide Pending, Installed, Reaches, FedIn;
    ForkedInv(s, size);
    RunInv(s, steps, t, size);
    ExitedIsExact(t, size);
    FedIsFedIn(s, steps, t, size);
    assert "" + FedIn(steps) == FedIn(steps);
  }

  /** A read that ends early can lose bytes: one byte is left in the pipe. */
  lemma CutLosesBytes() returns (s: State, steps: seq<Step>, t: State)
    ensures Forked(s) && Reaches(s, steps, t, 1) && t.child == Exited && Installed(t) != s.base + FedIn(steps)
  {
    hide Pending, Reaches, Inv, Installed;
    var full := Block(1, 0, "x");
    PendingOne(full);
    EmptyBlock(Block(0, 0, ""));
    s := State("", "", [], "", "", Rewriting, false, false, false, false, "");
    var s1 := Next(s, Feed("x", [full]));
    assert Enabled(s, Feed("x", [full]), 1);
    var s2 := Next(s1, Send(1));
    var s3 := Next(s2, Ask);
    var s4 := Next(s3, Answer(true));
    var s5 := Next(s4, Hear);
    var s6 := Next(s5, Drained(true));
    assert s6.cut;
    t := Next(s6, Finish);
    Stay(t, 1);
    steps := Prepend(Finish, [], s6, t, 1);
    steps := Prepend(Drained(true), steps, s5, t, 1);
    steps := Prepend(Hear, steps, s4, t, 1);
    steps := Prepend(Answer(true), steps, s3, t, 1);
    steps := Prepend(Ask, steps, s2, t, 1);
    steps := Prepend(Send(1), steps, s1, t, 1);
    steps := Prepend(Feed("x", [full]), steps, s, t, 1);
    NewLogIsExact(s, steps, t, 1);
  }

  lemma Stay(s: State, size: nat)
    ensures Reaches(s, [], s, size)
  {
  }

  lemma Prepend(step: Step, steps: seq<Step>, s: State, t: State, size: nat) returns (r: seq<Step>)
    requires Enabled(s, step, size) && Reaches(Next(s, step), steps, t, size)
    ensures Reaches(s, r, t, size)
  {
    r := [step] + steps;
    assert r[1..] == steps;
  }
}
