/** Flushing the log buffer to disk under short writes, errors and postponed flushes. */
module AofFlush {

  datatype Policy = EverySec | Always | Never

  /** What one call of write did. A list of calls that ends early is followed by a failure. */
  datatype Write = Wrote(n: nat) | Interrupted | Failed

  /** What the environment decides during one flush: an fsync is still running, the time, the
      write calls, and whether ftruncate succeeds. */
  datatype Env = Env(syncing: bool, now: int, writes: seq<Write>, truncates: bool)

  /** The file, the buffer, the size the program believes the file has, since when flushes are
      postponed (0: they are not), the status of the last write; `exited` ends the program. */
  datatype Log = Log(disk: string, buf: string, size: nat, postponed: int, healthy: bool, exited: bool)

  /** How many of len bytes the calls write before one fails. */
  function Accepted(len: nat, writes: seq<Write>): (total: nat)
    ensures total <= len
    decreases |writes|
  {
    if len == 0 || writes == [] then 0
    else
      match writes[0]
      case Wrote(n) =>
        var m := if n < len then n else len;
        m + Accepted(len - m, writes[1..])
      case Interrupted => Accepted(len, writes[1..])
      case Failed => 0
  }

  /** The flush is put off: an fsync is running, for less than two seconds so far. */
  predicate Postpones(l: Log, policy: Policy, force: bool, env: Env) {
    policy.EverySec? && !force && env.syncing && (l.postponed == 0 || env.now - l.postponed < 2)
  }

  function Feed(l: Log, data: string): Log {
    l.(buf := l.buf + data)
  }

  function Flush(l: Log, policy: Policy, force: bool, env: Env): Log {
    if l.buf == "" then l
    else if Postpones(l, policy, force, env) then
      l.(postponed := if l.postponed == 0 then env.now else l.postponed)
    else
      var n := Accepted(|l.buf|, env.writes);
      if n == |l.buf| then Log(l.disk + l.buf, "", l.size + n, 0, true, l.exited)
      else
        var undone := n > 0 && env.truncates;
        var disk := if undone then Cut(l.disk + l.buf[..n], l.size) else l.disk + l.buf[..n];
        if policy.Always? then l.(disk := disk, postponed := 0, exited := true)
        else if n > 0 && !undone then Log(disk, l.buf[n..], l.size + n, 0, false, l.exited)
        else Log(disk, l.buf, l.size, 0, false, l.exited)
  }

  /** ftruncate, which also extends a shorter file with zero bytes. */
  function Cut(file: string, size: nat): string {
    if size <= |file| then file[..size] else file + seq(size - |file|, _ => '\0')
  }

  // ---------------------------------------------------------------------------
  // As the program runs it
  // ---------------------------------------------------------------------------

  /** Write with retries: the bytes that reached the file, and the return value. */
  method AofWrite(data: string, writes: seq<Write>) returns (result: int, appended: string)
    ensures appended == data[..Accepted(|data|, writes)]
    ensures result == if data != "" && appended == "" then -1 else |appended|
  {
    var total, k := 0, 0;
    while total < |data|
      invariant 0 <= total <= |data| && 0 <= k <= |writes|
      invariant Accepted(|data|, writes) == total + Accepted(|data| - total, writes[k..])
      decreases |writes| - k, 0
    {
      if k == |writes| || writes[k].Failed? {
        return if total != 0 then total else -1, data[..total];
      }
      assert writes[k..][1..] == writes[k + 1..];
      if writes[k].Wrote? {
        total := total + if writes[k].n < |data| - total then writes[k].n else |data| - total;
      }
      k := k + 1;
    }
    result, appended := total, data[..total];
  }

  class AppendOnlyFile {
    var disk: string
    var buf: string
    var size: nat
    var postponed: int
    var healthy: bool
    var exited: bool

    ghost function Value(): Log
      reads this
    {
      Log(disk, buf, size, postponed, healthy, exited)
    }

    constructor ()
      ensures Value() == Log("", "", 0, 0, true, false)
    {
      disk, buf, size, postponed, healthy, exited := "", "", 0, 0, true, false;
    }

    method FeedAppendOnlyFile(data: string)
      modifies this`buf
      ensures Value() == Feed(old(Value()), data)
    {
      buf := buf + data;
    }

    method FlushAppendOnlyFile(policy: Policy, force: bool, env: Env)
      modifies this
      ensures Value() == Flush(old(Value()), policy, force, env)
    {
      hide Accepted, Cut;
      if |buf| == 0 {
        return;
      }
      if policy.EverySec? && !force {
        if env.syncing {
          if postponed == 0 {
            postponed := env.now;
            return;
          } else if env.now - postponed < 2 {
            return;
          }
        }
      }
      var nwritten, appended := AofWrite(buf, env.writes);
      disk := disk + appended;
      postponed := 0;
      if nwritten != |buf| {
        if nwritten != -1 {
          if env.truncates {
            disk := Cut(disk, size);
            nwritten := -1;
          }
        }
        if policy.Always? {
          exited := true;
          return;
        }
        healthy := false;
        if nwritten > 0 {
          size := size + nwritten;
          buf := buf[nwritten..];
        }
        return;
      }
      healthy := true;
      size := size + nwritten;
      buf := "";
    }
  }

  // ---------------------------------------------------------------------------
  // Conservation
  // ---------------------------------------------------------------------------

  datatype Step = Fed(data: string) | Flushed(policy: Policy, force: bool, env: Env)

  function Next(l: Log, step: Step): Log {
    match step
    case Fed(data) => Feed(l, data)
    case Flushed(policy, force, env) => Flush(l, policy, force, env)
  }

  /** A run, as long as the program has not exited. */
  ghost predicate Reaches(l: Log, steps: seq<Step>, m: Log)
    decreases |steps|
  {
    if steps == [] then l == m else !l.exited && Reaches(Next(l, steps[0]), steps[1..], m)
  }

  function FedBy(steps: seq<Step>): string {
    if steps == [] then "" else (if steps[0].Fed? then steps[0].data else "") + FedBy(steps[1..])
  }

  /** One step neither loses nor duplicates a byte, and the size stays right, unless the program
      exits; even then the file is a prefix of what was fed. */
  lemma NextKeeps(l: Log, step: Step)
    requires l.size == |l.disk| && !l.exited
    ensures var m := Next(l, step); var fed := l.disk + l.buf + if step.Fed? then step.data else "";
            && (!m.exited ==> m.disk + m.buf == fed && m.size == |m.disk|)
            && m.disk <= fed
  {
    hide Accepted;
    if step.Flushed? && l.buf != "" {
      var n := Accepted(|l.buf|, step.env.writes);
      assert l.disk + l.buf == (l.disk + l.buf[..n]) + l.buf[n..];
      assert (l.disk + l.buf[..n])[..l.size] == l.disk;
      assert l.disk + l.buf + "" == l.disk + l.buf;
      assert n == 0 ==> l.disk + l.buf[..n] == l.disk;
      assert n == |l.buf| ==> l.disk + l.buf[..n] == l.disk + l.buf;
    }
  }

  lemma Regroup(a: string, b: string, c: string)
    ensures a + (b + c) == a + b + c && a + b <= a + b + c
  {
  }

  /** Over every run of feeds and flushes, the file followed by the buffer is everything fed, in
      order, and the recorded size is the size of the file. If the program had to exit (policy
      "always"), the file is still a prefix of everything fed. */
  lemma {:induction false} FlushConserves(l: Log, steps: seq<Step>, m: Log)
    requires l.size == |l.disk| && Reaches(l, steps, m)
    ensures !m.exited ==> m.disk + m.buf == l.disk + l.buf + FedBy(steps) && m.size == |m.disk|
    ensures !l.exited ==> m.disk <= l.disk + l.buf + FedBy(steps)
    decreases |steps|
  {
    hide Next;
    if steps == [] {
      assert l.disk + l.buf + "" == l.disk + l.buf;
    } else {
      var next := Next(l, steps[0]);
      NextKeeps(l, steps[0]);
      Regroup(l.disk + l.buf, if steps[0].Fed? then steps[0].data else "", FedBy(steps[1..]));
      if next.exited {
        assert steps[1..] == [];
      } else {
        FlushConserves(next, steps[1..], m);
      }
    }
  }

  /** Without the policy "always" the program never exits, whatever the disk does. */
  lemma {:induction false} NeverExits(l: Log, steps: seq<Step>, m: Log)
    requires !l.exited && Reaches(l, steps, m)
    requires forall i :: 0 <= i < |steps| && steps[i].Flushed? ==> !steps[i].policy.Always?
    ensures !m.exited
    decreases |steps|
  {
    if steps == [] {
    } else {
      NeverExits(Next(l, steps[0]), steps[1..], m);
    }
  }

  function Offered(writes: seq<Write>): nat {
    if writes == [] then 0 else (if writes[0].Wrote? then writes[0].n else 0) + Offered(writes[1..])
  }

  lemma {:induction false} AllAccepted(len: nat, writes: seq<Write>)
    requires (forall i :: 0 <= i < |writes| ==> !writes[i].Failed?) && Offered(writes) >= len
    ensures Accepted(len, writes) == len
    decreases |writes|
  {
    if len == 0 || writes == [] {
    } else {
      var m := if !writes[0].Wrote? then 0 else if writes[0].n < len then writes[0].n else len;
      AllAccepted(len - m, writes[1..]);
    }
  }

  /** The calls before the first that fails. */
  function UntilFailure(writes: seq<Write>): seq<Write> {
    if writes == [] || writes[0].Failed? then [] else [writes[0]] + UntilFailure(writes[1..])
  }

  /** What is written is what the calls before the first failure could take, up to all of it. */
  lemma {:induction false} AcceptedIs(len: nat, writes: seq<Write>)
    ensures var could := Offered(UntilFailure(writes)); Accepted(len, writes) == if could < len then could else len
    decreases |writes|
  {
    if writes == [] || writes[0].Failed? {
    } else {
      var m := if !writes[0].Wrote? then 0 else if writes[0].n < len then writes[0].n else len;
      AcceptedIs(len - m, writes[1..]);
      assert ([writes[0]] + UntilFailure(writes[1..]))[1..] == UntilFailure(writes[1..]);
    }
  }

  /** The buffer is written now, unless the policy is "everysec", nothing forces it, an fsync is running
      and less than two seconds have passed since the flush was first put off. */
  predicate IsDue(l: Log, policy: Policy, force: bool, env: Env) {
    policy.EverySec? ==> force || !env.syncing || (l.postponed != 0 && env.now - l.postponed >= 2)
  }

  /** A flush that is not due writes nothing and notes when it was first put off. */
  lemma NotDueWaits(l: Log, policy: Policy, force: bool, env: Env)
    requires l.buf != "" && !IsDue(l, policy, force, env)
    ensures Flush(l, policy, force, env) == l.(postponed := if l.postponed == 0 then env.now else l.postponed)
  {
  }

  /** A flush that is due writes as much as the calls take. If that is all, the log is healthy. If not:
      with the policy "always" the program exits, else the log is not healthy; and if the file can be
      truncated it is as it was before. */
  lemma DueWrites(l: Log, policy: Policy, force: bool, env: Env)
    requires l.buf != "" && l.size == |l.disk| && IsDue(l, policy, force, env)
    ensures var m := Flush(l, policy, force, env); var could := Offered(UntilFailure(env.writes));
            if could >= |l.buf| then m == Log(l.disk + l.buf, "", |l.disk + l.buf|, 0, true, l.exited)
            else
              && m.disk == (if env.truncates then l.disk else l.disk + l.buf[..could])
              && if policy.Always? then m.exited && m.healthy == l.healthy && m.buf == l.buf
                 else
                   && m.exited == l.exited && !m.healthy && m.postponed == 0
                   && m.buf == (if env.truncates then l.buf else l.buf[could..]) && m.size == |m.disk|
  {
    hide Accepted, Offered, UntilFailure;
    AcceptedIs(|l.buf|, env.writes);
    var n := Accepted(|l.buf|, env.writes);
    assert (l.disk + l.buf[..n])[..l.size] == l.disk;
    assert n == 0 ==> l.disk + l.buf[..n] == l.disk && l.buf[n..] == l.buf;
  }

  /** Flushes put off, and feeds, less than two seconds after the time t. */
  ghost predicate Waiting(steps: seq<Step>, t: int) {
    forall i :: 0 <= i < |steps| && steps[i].Flushed? ==>
      steps[i].policy.EverySec? && !steps[i].force && steps[i].env.syncing && steps[i].env.now - t < 2
  }

  lemma {:induction false} WaitsAlong(l: Log, steps: seq<Step>, m: Log, t: int)
    requires t != 0 && l.postponed == t && l.buf != "" && Reaches(l, steps, m) && Waiting(steps, t)
    ensures m == l.(buf := l.buf + FedBy(steps)) && m.buf != ""
    decreases |steps|
  {
    hide Accepted;
    if steps == [] {
      assert l.buf + "" == l.buf;
    } else {
      WaitsAlong(Next(l, steps[0]), steps[1..], m, t);
      Regroup(l.buf, if steps[0].Fed? then steps[0].data else "", FedBy(steps[1..]));
      assert l.buf + "" == l.buf;
    }
  }

  /** A flush is put off for less than two seconds: after one that was first put off at time t, and any
      feeds and flushes before t + 2, a flush at t + 2 or later writes all that was fed, if the calls
      can take it. */
  lemma TwoSecondsAtMost(l: Log, first: Env, steps: seq<Step>, m: Log, last: Env, policy: Policy)
    requires l.buf != "" && l.size == |l.disk| && !l.exited && l.postponed == 0
    requires first.syncing && first.now != 0
    requires Reaches(Flush(l, EverySec, false, first), steps, m) && Waiting(steps, first.now)
    requires last.now - first.now >= 2 && Offered(UntilFailure(last.writes)) >= |m.buf|
    ensures var r := Flush(m, policy, false, last); r.disk == l.disk + (l.buf + FedBy(steps)) && r.buf == ""
  {
    hide Flush, Reaches, Offered, UntilFailure;
    NotDueWaits(l, EverySec, false, first);
    WaitsAlong(Flush(l, EverySec, false, first), steps, m, first.now);
    DueWrites(m, policy, false, last);
  }

  /** However short the writes and however often they are interrupted: if none fails and together
      they could take the buffer, it is all on disk afterwards. */
  lemma FlushDelivers(l: Log, policy: Policy, force: bool, env: Env)
    requires IsDue(l, policy, force, env) && Offered(env.writes) >= |l.buf|
    requires forall i :: 0 <= i < |env.writes| ==> !env.writes[i].Failed?
    ensures var m := Flush(l, policy, force, env); m.disk == l.disk + l.buf && m.buf == ""
  {
    AllAccepted(|l.buf|, env.writes);
  }
}
