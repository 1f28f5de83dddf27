/** From entries to bytes and back: what is fed as text, and what a log means to a server that
    loads it - whole, or cut anywhere by a crash. */
module AofRecovery {
  import opened Decimal
  import opened AofFormat
  import opened AofLoader
  import opened AofSelect
  import RewriteBuffer

  function CommandOf(e: Entry): Command {
    match e
    case Select(db) => ["SELECT", Print(db)]
    case Exec(c) => c
  }

  function Commands(log: seq<Entry>): seq<Command> {
    seq(|log|, i requires 0 <= i < |log| => CommandOf(log[i]))
  }

  /** The bytes of a log. */
  function Text(log: seq<Entry>): string {
    EncodeAll(Commands(log))
  }

  lemma {:induction false} EncodeConcat(a: seq<Command>, b: seq<Command>)
    ensures EncodeAll(a + b) == EncodeAll(a) + EncodeAll(b)
    decreases |a|
  {
    if a == [] {
      assert a + b == b;
    } else {
      assert (a + b)[1..] == a[1..] + b;
      EncodeConcat(a[1..], b);
    }
  }

  lemma TextConcat(a: seq<Entry>, b: seq<Entry>)
    ensures Text(a + b) == Text(a) + Text(b)
  {
    assert Commands(a + b) == Commands(a) + Commands(b);
    EncodeConcat(Commands(a), Commands(b));
  }

  // ---------------------------------------------------------------------------
  // Feeding, as text
  // ---------------------------------------------------------------------------

  /** The SELECT that is printed with a format string. */
  function SelectFormat(db: nat): string {
    "*2\r\n" + "$6\r\nSELECT\r\n" + "$" + Print(|Print(db)|) + EOL + Print(db) + EOL
  }

  lemma SelectText(db: nat)
    ensures SelectFormat(db) == Text([Select(db)])
  {
    hide Print, EncodeAll, EncodeArgs;
    var c := ["SELECT", Print(db)];
    assert Commands([Select(db)]) == [c];
    SmallNumbers();
    OneCommand(c);
    TwoArguments(c);
    assert "*" + "2" + EOL == "*2\r\n";
    assert EncodeArg("SELECT") == "$" + "6" + EOL + "SELECT" + EOL;
    assert "$" + "6" + EOL + "SELECT" + EOL == "$6\r\nSELECT\r\n";
    Associates("*2\r\n", "$6\r\nSELECT\r\n", Print(|Print(db)|), Print(db));
  }

  lemma Associates(a: string, b: string, p: string, d: string)
    ensures a + b + "$" + p + EOL + d + EOL == a + (b + ("$" + p + EOL + d + EOL))
  {
  }

  lemma SmallNumbers()
    ensures Print(2) == "2" && Print(6) == "6"
  {
  }

  lemma OneCommand(c: Command)
    ensures EncodeAll([c]) == Encode(c)
  {
    assert EncodeAll([c]) == Encode(c) + "";
  }

  lemma TwoArguments(c: Command)
    requires |c| == 2
    ensures EncodeArgs(c) == EncodeArg(c[0]) + EncodeArg(c[1])
  {
    assert c[1..] == [c[1]];
    assert EncodeArgs([c[1]]) == EncodeArg(c[1]) + "";
  }

  class Feeder {
    var mode: Mode
    var selected: int
    var aofBuf: string
    var childRuns: bool
    const rewriteBuf: RewriteBuffer.Buffer

    constructor (buffer: RewriteBuffer.Buffer)
      ensures rewriteBuf == buffer && mode == Off && selected == -1 && aofBuf == "" && !childRuns
    {
      rewriteBuf := buffer;
      mode, selected, aofBuf, childRuns := Off, -1, "", false;
    }

    /** The text of a SELECT, if one is needed, and of the commands goes to the log buffer when
        logging is on and to the rewrite buffer when a child runs. */
    method FeedAppendOnlyFile(db: nat, cmds: seq<Command>)
      requires rewriteBuf.Valid()
      modifies this`selected, this`aofBuf, rewriteBuf`blocks
      ensures rewriteBuf.Valid() && selected == db
      ensures aofBuf == old(aofBuf) + if mode == On then Text(Fed(old(selected), db, cmds)) else ""
      ensures rewriteBuf.Contents() == old(rewriteBuf.Contents()) + if childRuns
          then Text(Fed(old(selected), db, cmds)) else ""
    {
      hide Text, Fed, Print;
      var buf := "";
      ghost var out: seq<Entry> := [];
      NoText();
      if db != selected {
        SelectText(db);
        buf := SelectFormat(db);
        out := [Select(db)];
        selected := db;
      }
      var i := 0;
      assert cmds[..0] == [];
      assert out + Execs([]) == out;
      while i < |cmds|
        invariant 0 <= i <= |cmds| && buf == Text(out + Execs(cmds[..i]))
        modifies {}
      {
        MoreText(out, cmds, i);
        buf := CatGenericCommand(buf, cmds[i]);
        i := i + 1;
      }
      assert cmds[..i] == cmds;
      FedIs(old(selected), db, cmds, out);
      if mode == On {
        aofBuf := aofBuf + buf;
      }
      if childRuns {
        rewriteBuf.Append(buf);
      }
    }
  }

  lemma NoText()
    ensures Text([]) == ""
  {
  }

  lemma MoreText(out: seq<Entry>, cmds: seq<Command>, i: nat)
    requires i < |cmds|
    ensures Text(out + Execs(cmds[..i + 1])) == Text(out + Execs(cmds[..i])) + Encode(cmds[i])
  {
    hide Encode, EncodeAll;
    var e := [Exec(cmds[i])];
    assert out + Execs(cmds[..i + 1]) == out + Execs(cmds[..i]) + e;
    TextConcat(out + Execs(cmds[..i]), e);
    assert Commands(e) == [cmds[i]];
    OneCommand(cmds[i]);
  }

  lemma FedIs(selected: int, db: nat, cmds: seq<Command>, out: seq<Entry>)
    requires out == if selected != db then [Select(db)] else []
    ensures Fed(selected, db, cmds) == out + Execs(cmds)
  {
  }

  // ---------------------------------------------------------------------------
  // Loading
  // ---------------------------------------------------------------------------

  /** Executing loaded commands: SELECT changes the database, the others run in it. */
  function Interpret(db: int, cs: seq<Command>): seq<(int, Command)>
    decreases |cs|
  {
    if cs == [] then []
    else if |cs[0]| == 2 && cs[0][0] == "SELECT" then Interpret(Atoi(cs[0][1]), cs[1..])
    else [(db, cs[0])] + Interpret(db, cs[1..])
  }

  function Pairs(es: seq<Effect>): seq<(int, Command)> {
    seq(|es|, i requires 0 <= i < |es| => (es[i].db, es[i].cmd))
  }

  /** Clients' SELECTs are not logged; everything is storable and known. */
  ghost predicate Plain(log: seq<Entry>, known: set<string>) {
    && "SELECT" in known
    && forall i :: 0 <= i < |log| ==>
         if log[i].Exec? then Storable(log[i].cmd) && log[i].cmd[0] in known && log[i].cmd[0] != "SELECT"
         else log[i].db < LIMIT
  }

  lemma PlainIsLoadable(log: seq<Entry>, known: set<string>)
    requires Plain(log, known)
    ensures Loadable(Commands(log), known)
  {
    forall i | 0 <= i < |log|
      ensures Storable(CommandOf(log[i])) && CommandOf(log[i])[0] in known
    {
      if log[i].Select? {
        PrintFits(log[i].db);
      }
    }
  }

  /** The commands of a log, interpreted, do what the log does. */
  lemma {:induction false} InterpretIsReplay(db: nat, log: seq<Entry>, known: set<string>)
    requires Plain(log, known)
    ensures Interpret(db, Commands(log)) == Pairs(Replay(db, log))
    decreases |log|
  {
    hide Print, Atoi;
    if log == [] {
    } else {
      var cs := Commands(log);
      assert cs[1..] == Commands(log[1..]);
      match log[0] {
        case Select(d) =>
          AtoiPrint(d, "");
          assert Print(d) + "" == Print(d);
          InterpretIsReplay(d, log[1..], known);
        case Exec(c) =>
          InterpretIsReplay(db, log[1..], known);
          var es := Replay(db, log[1..]);
          assert Pairs([Effect(db, c)] + es) == [(db as int, c)] + Pairs(es);
      }
    }
  }

  lemma {:induction false} InterpretPrefix(db: int, cs: seq<Command>, n: nat)
    requires n <= |cs|
    ensures Interpret(db, cs[..n]) <= Interpret(db, cs)
    decreases |cs|
  {
    if n > 0 {
      assert cs[..n][1..] == cs[1..][..n - 1];
      InterpretPrefix(if |cs[0]| == 2 && cs[0][0] == "SELECT" then Atoi(cs[0][1]) else db, cs[1..], n - 1);
    } else {
      assert cs[..n] == [];
    }
  }

  /** A whole log, loaded, does what its entries do. */
  lemma LoadIsReplay(log: seq<Entry>, known: set<string>)
    requires Plain(log, known) && log != []
    ensures var r := Load(Text(log), known, true); r.Loaded? && Interpret(0, r.executed) == Pairs(Replay(0, log))
  {
    hide EncodeAll, Load, Interpret, Replay, Plain;
    var cs := Commands(log);
    PlainIsLoadable(log, known);
    NonEmptyLog(cs);
    LoadPrefix(cs, |Text(log)|, known, true);
    InsideAll(cs);
    assert cs[..|cs|] == cs && Text(log)[..|Text(log)|] == Text(log);
    InterpretIsReplay(0, log, known);
  }

  /** Cut the text of a log anywhere: what loads is the beginning of what the log does. */
  lemma CutLoads(log: seq<Entry>, known: set<string>, k: nat)
    requires Plain(log, known) && 0 < k <= |Text(log)|
    ensures var r := Load(Text(log)[..k], known, true);
            && r.Loaded? && Interpret(0, r.executed) <= Pairs(Replay(0, log))
            && (k == |Text(log)| ==> Interpret(0, r.executed) == Pairs(Replay(0, log)))
  {
    hide EncodeAll, Load, Interpret, Replay, Plain;
    var cs := Commands(log);
    PlainIsLoadable(log, known);
    LoadPrefix(cs, k, known, true);
    InterpretIsReplay(0, log, known);
    InterpretPrefix(0, cs, Inside(cs, k));
    if k == |Text(log)| {
      InsideAll(cs);
      assert cs[..|cs|] == cs;
    }
  }

  /** Recovery: after every run, a crash that leaves any non-empty prefix of the log's bytes loses
      commands at the end only, and those that are loaded run in the databases they were issued
      on. Nothing is lost when all bytes are there. */
  lemma CrashLosesOnlyTheEnd(s: State, steps: seq<Step>, t: State, known: set<string>, k: nat)
    requires Initial(s) && Reaches(s, steps, t) && CarefulRun(s, steps)
    requires Plain(t.file + t.buf, known) && 0 < k <= |Text(t.file + t.buf)|
    ensures var log := t.file + t.buf; var r := Load(Text(log)[..k], known, true);
            && r.Loaded? && Interpret(0, r.executed) <= Pairs(t.meaning)
            && (k == |Text(log)| ==> Interpret(0, r.executed) == Pairs(t.meaning))
  {
    hide Text, Load, Interpret, Replay, Reaches, Plain, Pairs;
    EveryCommandInItsDatabase(s, steps, t);
    CutLoads(t.file + t.buf, known, k);
  }
}
