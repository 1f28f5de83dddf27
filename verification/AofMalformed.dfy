/** Logs that are not cut but malformed: whatever was loaded before, and whether truncation is
    tolerated or not, the program does not start on them. */
module AofMalformed {
  import opened Decimal
  import opened AofFormat
  import opened AofLoader

  /** A line of the file: text without a newline, then the newline, short enough to be read at once. */
  ghost predicate IsLine(s: string, text: string, rest: string) {
    && s == text + "\n" + rest
    && (forall i :: 0 <= i < |text| ==> text[i] != '\n') && |text| + 1 <= ROOM
  }

  /** What is there is no command: it does not begin with a star. */
  ghost predicate NoStar(s: string) {
    s != "" && s[0] != '*'
  }

  /** The number of arguments is below one. */
  ghost predicate BadCount(s: string, count: string, rest: string) {
    IsLine(s, "*" + count, rest) && 0 - INT_LIMIT <= Atoi(count + "\n") < 1
  }

  /** Some arguments of a command, and then something that is no argument: it does not begin with a
      dollar sign, or its length is negative. */
  ghost predicate BadArgument(s: string, n: nat, args: Command, rest: string) {
    && s == "*" + Print(n) + EOL + EncodeArgs(args) + rest && |args| < n < INT_LIMIT
    && (forall i :: 0 <= i < |args| ==> |args[i]| < LIMIT)
    && (NoDollar(rest) || exists length, more :: NegativeLength(rest, length, more))
  }

  ghost predicate NoDollar(s: string) {
    s != "" && s[0] != '$'
  }

  ghost predicate NegativeLength(s: string, length: string, rest: string) {
    IsLine(s, "$" + length, rest) && Atoi(length + "\n") < 0
  }

  /** A whole command that the program does not have. */
  ghost predicate Unknown(s: string, c: Command, rest: string, known: set<string>) {
    s == Encode(c) + rest && Storable(c) && c[0] !in known
  }

  ghost predicate Malformed(s: string, known: set<string>) {
    || NoStar(s)
    || (exists count, rest :: BadCount(s, count, rest))
    || (exists n, args, rest :: BadArgument(s, n, args, rest))
    || (exists c, rest :: Unknown(s, c, rest, known))
  }

  lemma LineIs(s: string, text: string, rest: string)
    requires IsLine(s, text, rest) && text != ""
    ensures LineLength(s, ROOM) == |text| + 1 && s[..|text| + 1] == text + "\n" && s[|text| + 1..] == rest
    ensures s != "" && s[0] == text[0]
  {
    LineOf(text, rest, ROOM);
  }

  lemma BadCountIsBad(s: string, count: string, rest: string)
    requires BadCount(s, count, rest)
    ensures s != "" && ReadCommand(s) == Bad
  {
    hide LineLength, Atoi, ReadArgs;
    LineIs(s, "*" + count, rest);
    var k := |count| + 2;
    assert s[1..k] == count + "\n";
    assert s[k - 1] == '\n';
  }

  lemma NoArgument(s: string)
    requires NoDollar(s) || exists length, more :: NegativeLength(s, length, more)
    ensures ReadArg(s) == Bad
  {
    hide LineLength, Atoi;
    if !NoDollar(s) {
      var length, more :| NegativeLength(s, length, more);
      LineIs(s, "$" + length, more);
      assert s[1..|length| + 2] == length + "\n";
    }
  }

  lemma {:induction false} ReadArgsBad(args: Command, rest: string, n: nat)
    requires |args| < n && (forall i :: 0 <= i < |args| ==> |args[i]| < LIMIT) && ReadArg(rest) == Bad
    ensures ReadArgs(EncodeArgs(args) + rest, n) == Bad
    decreases |args|
  {
    hide ReadArg, EncodeArg;
    if args == [] {
      assert EncodeArgs(args) + rest == rest;
    } else {
      var tail := EncodeArgs(args[1..]) + rest;
      assert EncodeArgs(args) + rest == EncodeArg(args[0]) + tail;
      ReadWrittenArg(args[0], tail);
      ReadArgsBad(args[1..], rest, n - 1);
    }
  }

  lemma BadArgumentIsBad(s: string, n: nat, args: Command, rest: string)
    requires BadArgument(s, n, args, rest)
    ensures s != "" && ReadCommand(s) == Bad
  {
    hide Print, Atoi, LineLength, ReadArgs, EncodeArgs, ReadArg;
    assert s == "*" + Print(n) + EOL + (EncodeArgs(args) + rest);
    CountLine('*', n, EncodeArgs(args) + rest);
    SmallInt(n);
    NoArgument(rest);
    ReadArgsBad(args, rest, n);
    assert s[1] == Print(n)[0];
  }

  lemma RunOnMalformed(s: string, known: set<string>, tolerant: bool, done: seq<Command>, offset: nat, valid: nat)
    requires Malformed(s, known)
    ensures Run(s, known, tolerant, done, offset, valid) == Fatal
  {
    hide LineLength, ReadArgs, Atoi, BadCount, BadArgument, Encode;
    if NoStar(s) {
    } else if exists count, rest :: BadCount(s, count, rest) {
      var count, rest :| BadCount(s, count, rest);
      BadCountIsBad(s, count, rest);
    } else if exists n, args, rest :: BadArgument(s, n, args, rest) {
      var n, args, rest :| BadArgument(s, n, args, rest);
      BadArgumentIsBad(s, n, args, rest);
    } else {
      var c, rest :| Unknown(s, c, rest, known);
      ReadWrittenCommand(c, rest);
    }
  }

  lemma {:induction false} RunOnward(cs: seq<Command>, s: string, known: set<string>, tolerant: bool,
      done: seq<Command>, offset: nat, valid: nat)
    requires Loadable(cs, known) && Malformed(s, known)
    ensures Run(EncodeAll(cs) + s, known, tolerant, done, offset, valid) == Fatal
    decreases |cs|
  {
    hide Encode, ReadCommand, Storable, Malformed;
    if cs == [] {
      assert EncodeAll(cs) + s == s;
      RunOnMalformed(s, known, tolerant, done, offset, valid);
    } else {
      var rest := EncodeAll(cs[1..]) + s;
      assert EncodeAll(cs) + s == Encode(cs[0]) + rest;
      ReadWrittenCommand(cs[0], rest);
      var next := offset + (|Encode(cs[0]) + rest| - |rest|);
      RunOnward(cs[1..], s, known, tolerant, done + [cs[0]], next, if tolerant then next else valid);
    }
  }

  lemma NotEmpty(s: string, known: set<string>)
    requires Malformed(s, known)
    ensures s != ""
  {
  }

  /** A log that goes on, after any commands that load, with something malformed is refused, however
      truncated logs are treated. Only a file that begins with "REDIS" is set apart. */
  lemma MalformedIsFatal(cs: seq<Command>, s: string, known: set<string>, tolerant: bool)
    requires Loadable(cs, known) && Malformed(s, known) && !("REDIS" <= EncodeAll(cs) + s)
    ensures Load(EncodeAll(cs) + s, known, tolerant) == Fatal
  {
    hide Run, Malformed, EncodeAll;
    RunOnward(cs, s, known, tolerant, [], 0, 0);
    NotEmpty(s, known);
  }

  lemma {:induction false} Determined(s: string, known: set<string>, tolerant: bool, done: seq<Command>, offset: nat,
      valid: nat)
    ensures var r := Run(s, known, tolerant, done, offset, valid); r.Loaded? || r == Fatal
    decreases |s|
  {
    hide ReadCommand;
    if s == "" {
    } else {
      var r := ReadCommand(s);
      if r.Got? {
        var next := offset + (|s| - |r.rest|);
        Determined(r.rest, known, tolerant, done + [r.value], next, if tolerant then next else valid);
      }
    }
  }

  /** An empty file and one with a preamble are told apart before anything is read. */
  lemma SetApart(file: string, known: set<string>, tolerant: bool)
    ensures Load(file, known, tolerant) == Empty <==> file == ""
    ensures Load(file, known, tolerant) == Preamble <==> "REDIS" <= file
  {
    if file != "" && !("REDIS" <= file) {
      Determined(file, known, tolerant, [], 0, 0);
    }
  }
}
