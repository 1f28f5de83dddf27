/** The log format: commands as arrays of bulk strings (sections "Arrays" and "Bulk strings" of the
    Redis serialization protocol), and the reader of one command. A char is a byte. */
module AofFormat {
  import opened Decimal

  type Command = seq<string>

  const EOL := "\r\n"

  // ---------------------------------------------------------------------------
  // Encoding
  // ---------------------------------------------------------------------------

  function EncodeArg(a: string): string {
    "$" + Print(|a|) + EOL + a + EOL
  }

  function EncodeArgs(args: Command): string {
    if args == [] then "" else EncodeArg(args[0]) + EncodeArgs(args[1..])
  }

  function Encode(c: Command): string {
    "*" + Print(|c|) + EOL + EncodeArgs(c)
  }

  function EncodeAll(cs: seq<Command>): string {
    if cs == [] then "" else Encode(cs[0]) + EncodeAll(cs[1..])
  }

  lemma {:induction false} EncodeArgsMore(args: Command, a: string)
    ensures EncodeArgs(args + [a]) == EncodeArgs(args) + EncodeArg(a)
  {
    if args == [] {
      assert args + [a] == [a];
      assert EncodeArgs([a]) == EncodeArg(a) + "";
    } else {
      assert (args + [a])[1..] == args[1..] + [a];
      EncodeArgsMore(args[1..], a);
    }
  }

  /** Append a command to a buffer. */
  method CatGenericCommand(dst: string, argv: Command) returns (r: string)
    ensures r == dst + Encode(argv)
  {
    hide Print, EncodeArgs;
    r := dst + ("*" + Print(|argv|) + EOL);
    var j := 0;
    assert argv[..0] == [];
    NoArgs();
    while j < |argv|
      invariant 0 <= j <= |argv|
      invariant r == dst + ("*" + Print(|argv|) + EOL) + EncodeArgs(argv[..j])
    {
      EncodeArgsMore(argv[..j], argv[j]);
      assert argv[..j + 1] == argv[..j] + [argv[j]];
      r := r + ("$" + Print(|argv[j]|) + EOL + argv[j] + EOL);
      j := j + 1;
    }
    assert argv[..j] == argv;
  }

  lemma NoArgs()
    ensures EncodeArgs([]) == ""
  {
  }

  // ---------------------------------------------------------------------------
  // Reading
  // ---------------------------------------------------------------------------

  /** The bytes fgets takes with room for `room` characters: up to and including a newline. */
  function LineLength(s: string, room: nat): (k: nat)
    ensures k <= |s| && k <= room && (s != "" && room > 0 ==> k > 0)
  {
    if s == "" || room == 0 then 0 else if s[0] == '\n' then 1 else 1 + LineLength(s[1..], room - 1)
  }

  const ROOM: nat := 127

  /** What an int and a long can hold is below these. */
  const INT_LIMIT: nat := 0x8000_0000
  const LIMIT: nat := 0x8000_0000_0000_0000

  /** End of file was seen: fgets stopped neither at a newline nor for want of room. */
  predicate SawEnd(s: string) {
    var k := LineLength(s, ROOM);
    k == |s| && k < ROOM && (k == 0 || s[k - 1] != '\n')
  }

  /** One argument or command read and the bytes that follow it; or the file ended first; or what
      is there is no command. */
  datatype Result<T> = Got(value: T, rest: string) | Short | Bad

  function ReadArg(s: string): (r: Result<string>)
    ensures r.Got? ==> |r.rest| < |s|
  {
    var k := LineLength(s, ROOM);
    if k == 0 then Short
    else if s[0] != '$' then Bad
    else
      var len := Atoi(s[1..k]);
      if len < 0 then Bad
      else if |s| - k < len then Short
      else if |s| - k - len < 2 then Short
      else Got(s[k..k + len], s[k + len + 2..])
  }

  function ReadArgs(s: string, n: nat): (r: Result<Command>)
    ensures r.Got? ==> |r.rest| <= |s| && |r.value| == n
    decreases n
  {
    if n == 0 then Got([], s)
    else
      match ReadArg(s)
      case Short => Short
      case Bad => Bad
      case Got(a, rest) =>
        match ReadArgs(rest, n - 1)
        case Got(args, rest') => Got([a] + args, rest')
        case Short => Short
        case Bad => Bad
  }

  /** Conversion to a 32-bit int. */
  function AsInt(x: int): int {
    (x + INT_LIMIT) % (2 * INT_LIMIT) - INT_LIMIT
  }

  lemma SmallInt(x: int)
    requires 0 <= x < INT_LIMIT
    ensures AsInt(x) == x
  {
  }

  /** A command, from a file that has bytes left. */
  function ReadCommand(s: string): (r: Result<Command>)
    requires s != ""
    ensures r.Got? ==> |r.rest| < |s| && |r.value| > 0
  {
    var k := LineLength(s, ROOM);
    if s[0] != '*' then Bad
    else if k == 1 || s[1] == '\0' then (if SawEnd(s) then Short else Bad)
    else
      var argc := AsInt(Atoi(s[1..k]));
      if argc < 1 then Bad else ReadArgs(s[k..], argc)
  }

  /** The reading loop over the arguments. */
  method ReadArguments(s: string, argc: nat) returns (r: Result<Command>)
    ensures r == ReadArgs(s, argc)
  {
    hide ReadArg, ReadArgs, Prefixed;
    var argv: Command, rest, j := [], s, 0;
    PrefixedByNone(ReadArgs(s, argc));
    while j < argc
      invariant 0 <= j <= argc
      invariant ReadArgs(s, argc) == Prefixed(argv, ReadArgs(rest, argc - j))
    {
      var arg := ReadArg(rest);
      ReadOneMore(argv, rest, argc - j);
      if !arg.Got? {
        return if arg.Short? then Short else Bad;
      }
      argv, rest := argv + [arg.value], arg.rest;
      j := j + 1;
    }
    ReadNoMore(argv, rest);
    r := Got(argv, rest);
  }

  /** One command: its count line, checked, and then its arguments. */
  method ReadNext(s: string) returns (r: Result<Command>)
    requires s != ""
    ensures r == ReadCommand(s)
  {
    hide ReadArgs, LineLength, Atoi;
    var k := LineLength(s, ROOM);
    if s[0] != '*' {
      return Bad;
    }
    if k == 1 || s[1] == '\0' {
      return if SawEnd(s) then Short else Bad;
    }
    var argc := AsInt(Atoi(s[1..k]));
    if argc < 1 {
      return Bad;
    }
    r := ReadArguments(s[k..], argc);
  }

  lemma PrefixedByNone(r: Result<Command>)
    ensures Prefixed([], r) == r
  {
    assert r.Got? ==> [] + r.value == r.value;
  }

  lemma ReadOneMore(argv: Command, s: string, n: nat)
    requires n > 0
    ensures Prefixed(argv, ReadArgs(s, n)) ==
            match ReadArg(s) {
              case Got(a, rest) => Prefixed(argv + [a], ReadArgs(rest, n - 1))
              case Short => Short
              case Bad => Bad
            }
  {
    hide ReadArg;
    var arg := ReadArg(s);
    if arg.Got? {
      var after := ReadArgs(arg.rest, n - 1);
      assert after.Got? ==> argv + ([arg.value] + after.value) == argv + [arg.value] + after.value;
    }
  }

  lemma ReadNoMore(argv: Command, s: string)
    ensures Prefixed(argv, ReadArgs(s, 0)) == Got(argv, s)
  {
    assert argv + [] == argv;
  }

  function Prefixed(argv: Command, r: Result<Command>): Result<Command> {
    if r.Got? then Got(argv + r.value, r.rest) else r
  }

  // ---------------------------------------------------------------------------
  // Reading what was written
  // ---------------------------------------------------------------------------

  lemma {:induction false} LineOf(a: string, tail: string, room: nat)
    requires (forall i :: 0 <= i < |a| ==> a[i] != '\n') && |a| < room
    ensures LineLength(a + "\n" + tail, room) == |a| + 1
  {
    if a == "" {
    } else {
      assert (a + "\n" + tail)[1..] == a[1..] + "\n" + tail;
      LineOf(a[1..], tail, room - 1);
    }
  }

  lemma {:induction false} LineCut(a: string, room: nat)
    requires (forall i :: 0 <= i < |a| ==> a[i] != '\n') && |a| <= room
    ensures LineLength(a, room) == |a|
  {
    if a == "" {
    } else {
      LineCut(a[1..], room - 1);
    }
  }

  lemma LastDigit(n: nat)
    ensures |Print(n)| <= |Print(n / 10)| + 1
  {
  }

  lemma FourDigits(n: nat)
    ensures |Print(n)| <= |Print(n / 10000)| + 4
  {
    hide Print;
    LastDigit(n);
    LastDigit(n / 10);
    LastDigit(n / 10 / 10);
    LastDigit(n / 10 / 10 / 10);
    assert n / 10 / 10 / 10 / 10 == n / 10000;
  }

  lemma PrintFits(n: nat)
    requires n < LIMIT
    ensures |Print(n)| <= 21
  {
    hide Print;
    var a := n / 10000;
    var b := a / 10000;
    var c := b / 10000;
    var d := c / 10000;
    FourDigits(n);
    FourDigits(a);
    FourDigits(b);
    FourDigits(c);
    FourDigits(d);
    assert d / 10000 == 0;
    OneDigit();
  }

  lemma OneDigit()
    ensures |Print(0)| == 1
  {
  }

  /** A count line is read whole, and its number comes back. */
  lemma CountLine(c: char, n: nat, tail: string)
    requires c != '\n' && n < LIMIT
    ensures var s := [c] + Print(n) + EOL + tail; var k := |Print(n)| + 3;
            LineLength(s, ROOM) == k && Atoi(s[1..k]) == n && s[k..] == tail
  {
    var s := [c] + Print(n) + EOL + tail;
    var a := [c] + Print(n) + "\r";
    PrintFits(n);
    assert s == a + "\n" + tail;
    LineOf(a, tail, ROOM);
    AtoiPrint(n, EOL);
    assert s[1..|Print(n)| + 3] == Print(n) + EOL;
  }

  /** What is left of a count line that was cut: no newline, and the digits that were written. */
  lemma CutCountLine(c: char, n: nat, s: string)
    requires c != '\n' && n < LIMIT && 0 < |s| < |Print(n)| + 3 && s <= [c] + Print(n) + EOL
    ensures LineLength(s, ROOM) == |s| && SawEnd(s)
    ensures |s| > 1 ==> IsDigit(s[1]) && 0 <= Atoi(s[1..]) <= n && (n > 0 ==> Atoi(s[1..]) > 0)
    ensures |s| == 1 ==> Atoi(s[1..]) == 0
  {
    hide Print, Atoi, LineLength;
    PrintFits(n);
    CutHasNoNewline(c, n, s);
    LineCut(s, ROOM);
    if |s| > 1 {
      CutNumber(c, n, s);
    } else {
      NoNumber();
      assert s[1..] == "";
    }
  }

  lemma NoNumber()
    ensures Atoi("") == 0
  {
  }

  lemma CutHasNoNewline(c: char, n: nat, s: string)
    requires c != '\n' && 0 < |s| < |Print(n)| + 3 && s <= [c] + Print(n) + EOL
    ensures forall i :: 0 <= i < |s| ==> s[i] != '\n'
    ensures |s| > 1 ==> IsDigit(s[1])
  {
    hide Print;
    var line := [c] + Print(n) + EOL;
    assert forall i :: 0 <= i < |s| ==> s[i] == line[i];
    assert forall i :: 0 <= i < |Print(n)| ==> IsDigit(Print(n)[i]);
  }

  lemma CutNumber(c: char, n: nat, s: string)
    requires 1 < |s| < |Print(n)| + 3 && s <= [c] + Print(n) + EOL
    ensures 0 <= Atoi(s[1..]) <= n && (n > 0 ==> Atoi(s[1..]) > 0)
  {
    hide Print, Atoi;
    var k := if |s| - 1 <= |Print(n)| then |s| - 1 else |Print(n)|;
    var m := PrefixOfPrint(n, k);
    assert s[1..1 + k] == Print(n)[..k];
    assert s[1..] == Print(m) + s[1 + k..];
    AtoiPrint(m, s[1 + k..]);
  }

  /** The leading digits of a number are a number. */
  lemma {:induction false} PrefixOfPrint(n: nat, k: nat) returns (m: nat)
    requires 0 < k <= |Print(n)|
    ensures Print(n)[..k] == Print(m) && (n > 0 ==> m > 0) && m <= n
  {
    if k == |Print(n)| {
      m := n;
      assert Print(n)[..k] == Print(n);
    } else {
      m := PrefixOfPrint(n / 10, k);
    }
  }

  lemma ReadWrittenArg(a: string, tail: string)
    requires |a| < LIMIT
    ensures ReadArg(EncodeArg(a) + tail) == Got(a, tail)
  {
    hide Print, Atoi, LineLength;
    var s := EncodeArg(a) + tail;
    assert s == "$" + Print(|a|) + EOL + (a + EOL + tail);
    CountLine('$', |a|, a + EOL + tail);
    var k := |Print(|a|)| + 3;
    assert s[k..] == a + EOL + tail;
    assert s[k..k + |a|] == a && s[k + |a| + 2..] == tail;
  }

  /** An argument whose encoding was cut ends the file. */
  lemma ReadCutArg(a: string, s: string)
    requires |a| < LIMIT && s <= EncodeArg(a) && |s| < |EncodeArg(a)|
    ensures ReadArg(s) == Short
  {
    hide Print, Atoi;
    var head := "$" + Print(|a|) + EOL;
    assert EncodeArg(a) == head + (a + EOL);
    if s != "" {
      if |s| < |head| {
        assert s <= head;
        CutCountLine('$', |a|, s);
        assert s[1..|s|] == s[1..];
      } else {
        var tail := s[|head|..];
        assert s == head + tail;
        CountLine('$', |a|, tail);
      }
    }
  }

  ghost predicate Storable(c: Command) {
    0 < |c| < INT_LIMIT && forall i :: 0 <= i < |c| ==> |c[i]| < LIMIT
  }

  lemma {:induction false} ReadWrittenArgs(args: Command, tail: string)
    requires forall i :: 0 <= i < |args| ==> |args[i]| < LIMIT
    ensures ReadArgs(EncodeArgs(args) + tail, |args|) == Got(args, tail)
  {
    hide ReadArg, EncodeArg;
    if args == [] {
      assert EncodeArgs(args) + tail == tail;
    } else {
      ReadWrittenArg(args[0], EncodeArgs(args[1..]) + tail);
      assert EncodeArgs(args) + tail == EncodeArg(args[0]) + (EncodeArgs(args[1..]) + tail);
      ReadWrittenArgs(args[1..], tail);
      assert [args[0]] + args[1..] == args;
    }
  }

  lemma {:induction false} ReadCutArgs(args: Command, s: string)
    requires forall i :: 0 <= i < |args| ==> |args[i]| < LIMIT
    requires s <= EncodeArgs(args) && |s| < |EncodeArgs(args)|
    ensures ReadArgs(s, |args|) == Short
  {
    hide ReadArg, EncodeArg;
    var first := EncodeArg(args[0]);
    if |s| < |first| {
      assert s <= first;
      ReadCutArg(args[0], s);
    } else {
      var rest := s[|first|..];
      assert s == first + rest;
      ReadWrittenArg(args[0], rest);
      ReadCutArgs(args[1..], rest);
    }
  }

  /** Reading undoes encoding, whatever follows. */
  lemma ReadWrittenCommand(c: Command, tail: string)
    requires Storable(c)
    ensures Encode(c) + tail != "" && ReadCommand(Encode(c) + tail) == Got(c, tail)
  {
    hide Print, Atoi, LineLength, ReadArgs, EncodeArgs;
    var s := Encode(c) + tail;
    assert s == "*" + Print(|c|) + EOL + (EncodeArgs(c) + tail);
    CountLine('*', |c|, EncodeArgs(c) + tail);
    SmallInt(|c|);
    ReadWrittenArgs(c, tail);
    assert s[1] == Print(|c|)[0];
  }

  /** A command whose encoding was cut, but not before its first byte, ends the file. */
  lemma ReadCutCommand(c: Command, s: string)
    requires Storable(c) && s <= Encode(c) && 0 < |s| < |Encode(c)|
    ensures ReadCommand(s) == Short
  {
    hide Print, Atoi, LineLength, EncodeArgs;
    var head := "*" + Print(|c|) + EOL;
    assert Encode(c) == head + EncodeArgs(c);
    if |s| < |head| {
      assert s <= head;
      CutCountLine('*', |c|, s);
      if |s| > 1 {
        assert s[|s|..] == "" && s[1..|s|] == s[1..];
        SmallInt(Atoi(s[1..]));
        NothingToRead(Atoi(s[1..]));
      }
    } else {
      var tail := s[|head|..];
      assert s == head + tail;
      CountLine('*', |c|, tail);
      SmallInt(|c|);
      ReadCutArgs(c, tail);
      assert s[1] == Print(|c|)[0];
    }
  }

  lemma NothingToRead(n: nat)
    requires n > 0
    ensures ReadArgs("", n) == Short
  {
  }
}
