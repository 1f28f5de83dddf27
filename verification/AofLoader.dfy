/** Loading the log, and what loading does with a log that was cut short. */
module AofLoader {
  import opened AofFormat

  /** The log was loaded: the commands executed, the offset behind the last one, and whether bytes
      of an incomplete command followed (the file is then truncated at the offset). Or the file
      was empty; or the program exits. A log with an RDB preamble is set apart. */
  datatype Outcome = Loaded(executed: seq<Command>, validUpTo: nat, cut: bool) | Empty | Fatal | Preamble

  /** Read and execute commands until the bytes run out. `done` and `offset` are what was executed
      and how far; the offset is only kept track of when truncation is tolerated. */
  function Run(s: string, known: set<string>, tolerant: bool, done: seq<Command>, offset: nat, valid: nat): Outcome
    decreases |s|
  {
    if s == "" then Loaded(done, valid, false)
    else
      match ReadCommand(s)
      case Bad => Fatal
      case Short => if tolerant then Loaded(done, valid, true) else Fatal
      case Got(c, rest) =>
        if c[0] !in known then Fatal
        else
          var next := offset + (|s| - |rest|);
          Run(rest, known, tolerant, done + [c], next, if tolerant then next else valid)
  }

  function Load(file: string, known: set<string>, tolerant: bool): Outcome {
    if file == "" then Empty
    else if "REDIS" <= file then Preamble
    else Run(file, known, tolerant, [], 0, 0)
  }

  /** The loading loop. */
  method LoadAppendOnlyFile(file: string, known: set<string>, tolerant: bool) returns (r: Outcome)
    ensures r == Load(file, known, tolerant)
  {
    hide ReadCommand;
    if |file| == 0 {
      return Empty;
    }
    if |file| >= 5 && file[..5] == "REDIS" {
      return Preamble;
    }
    var rest, validUpTo: nat := file, 0;
    var executed: seq<Command> := [];
    while rest != ""
      invariant |rest| <= |file|
      invariant Load(file, known, tolerant) == Run(rest, known, tolerant, executed, |file| - |rest|, validUpTo)
      decreases |rest|
    {
      var c := ReadNext(rest);
      if c.Bad? {
        return Fatal;
      }
      if c.Short? {
        return if tolerant then Loaded(executed, validUpTo, true) else Fatal;
      }
      if c.value[0] !in known {
        return Fatal;
      }
      executed, rest := executed + [c.value], c.rest;
      if tolerant {
        validUpTo := |file| - |rest|;
      }
    }
    r := Loaded(executed, validUpTo, false);
  }

  // ---------------------------------------------------------------------------
  // Truncation
  // ---------------------------------------------------------------------------

  ghost predicate Loadable(cs: seq<Command>, known: set<string>) {
    forall i :: 0 <= i < |cs| ==> Storable(cs[i]) && cs[i][0] in known
  }

  /** How many commands lie wholly inside the first k bytes of the log. */
  function Inside(cs: seq<Command>, k: nat): (n: nat)
    ensures n <= |cs| && |EncodeAll(cs[..n])| <= k && (n < |cs| ==> k < |EncodeAll(cs[..n + 1])|)
  {
    if cs == [] || k < |Encode(cs[0])| then
      assert cs == [] || cs[..1] == [cs[0]];
      assert cs == [] || EncodeAll([cs[0]]) == Encode(cs[0]) + "";
      0
    else
      var m := Inside(cs[1..], k - |Encode(cs[0])|);
      assert cs[..m + 1][1..] == cs[1..][..m];
      assert m + 1 < |cs| ==> cs[..m + 2][1..] == cs[1..][..m + 1];
      m + 1
  }

  /** The outcome on the first k bytes, after `done` was executed up to `offset`. */
  function OnPrefix(cs: seq<Command>, k: nat, tolerant: bool, done: seq<Command>, offset: nat): Outcome {
    var n := Inside(cs, k);
    var end := |EncodeAll(cs[..n])|;
    if tolerant || k == end then Loaded(done + cs[..n], if tolerant then offset + end else 0, k > end) else Fatal
  }

  lemma OnPrefixNext(cs: seq<Command>, k: nat, tolerant: bool, done: seq<Command>, offset: nat)
    requires cs != [] && k >= |Encode(cs[0])|
    ensures OnPrefix(cs, k, tolerant, done, offset) ==
            OnPrefix(cs[1..], k - |Encode(cs[0])|, tolerant, done + [cs[0]], offset + |Encode(cs[0])|)
  {
    hide Encode;
    var m := Inside(cs[1..], k - |Encode(cs[0])|);
    assert cs[..m + 1] == [cs[0]] + cs[1..][..m];
    assert cs[..m + 1][1..] == cs[1..][..m];
    assert done + [cs[0]] + cs[1..][..m] == done + cs[..m + 1];
  }

  lemma OnPrefixCut(cs: seq<Command>, k: nat, tolerant: bool, done: seq<Command>, offset: nat)
    requires cs == [] || k < |Encode(cs[0])|
    ensures OnPrefix(cs, k, tolerant, done, offset) ==
            if tolerant || k == 0 then Loaded(done, if tolerant then offset else 0, k > 0) else Fatal
  {
    hide Encode;
    assert cs[..0] == [] && done + [] == done;
  }

  lemma {:induction false} RunOnPrefix(cs: seq<Command>, k: nat, known: set<string>, tolerant: bool,
      done: seq<Command>, offset: nat)
    requires Loadable(cs, known) && k <= |EncodeAll(cs)|
    ensures Run(EncodeAll(cs)[..k], known, tolerant, done, offset, if tolerant then offset else 0)
         == OnPrefix(cs, k, tolerant, done, offset)
    decreases |cs|
  {
    hide Encode, ReadCommand, Storable, OnPrefix;
    var s := EncodeAll(cs)[..k];
    EncodeNotEmpty(cs);
    if cs == [] || k == 0 {
      OnPrefixCut(cs, k, tolerant, done, offset);
    } else {
      var first := Encode(cs[0]);
      if k < |first| {
        assert s <= first;
        ReadCutCommand(cs[0], s);
        OnPrefixCut(cs, k, tolerant, done, offset);
      } else {
        var rest := EncodeAll(cs[1..])[..k - |first|];
        assert s == first + rest;
        ReadWrittenCommand(cs[0], rest);
        RunOnPrefix(cs[1..], k - |first|, known, tolerant, done + [cs[0]], offset + |first|);
        OnPrefixNext(cs, k, tolerant, done, offset);
      }
    }
  }

  lemma EncodeNotEmpty(cs: seq<Command>)
    ensures cs != [] ==> |Encode(cs[0])| > 0
  {
  }

  lemma NoPreamble(cs: seq<Command>, k: nat)
    requires k <= |EncodeAll(cs)|
    ensures !("REDIS" <= EncodeAll(cs)[..k])
  {
    var s := EncodeAll(cs)[..k];
    if cs != [] && s != "" {
      assert s[0] == Encode(cs[0])[0] == '*';
    }
  }

  /** For every list of commands and every non-empty prefix of their encoding, a tolerant loader
      executes exactly the commands wholly inside the prefix and stops at the end of the last of
      them; a strict one accepts the prefix exactly when it ends there. */
  lemma LoadPrefix(cs: seq<Command>, k: nat, known: set<string>, tolerant: bool)
    requires Loadable(cs, known) && 0 < k <= |EncodeAll(cs)|
    ensures var n := Inside(cs, k); var end := |EncodeAll(cs[..n])|;
            Load(EncodeAll(cs)[..k], known, tolerant) ==
            if tolerant || k == end then Loaded(cs[..n], if tolerant then end else 0, k > end) else Fatal
  {
    hide Run, EncodeAll;
    NoPreamble(cs, k);
    RunOnPrefix(cs, k, known, tolerant, [], 0);
    var n := Inside(cs, k);
    assert [] + cs[..n] == cs[..n];
  }

  lemma {:induction false} EncodePrefix(cs: seq<Command>, n: nat)
    requires n <= |cs|
    ensures EncodeAll(cs[..n]) <= EncodeAll(cs)
    ensures n == |cs| ==> EncodeAll(cs[..n]) == EncodeAll(cs)
  {
    if n > 0 {
      EncodePrefix(cs[1..], n - 1);
      assert cs[..n][1..] == cs[1..][..n - 1];
    } else {
      assert cs[..n] == [];
    }
  }

  lemma InsideAll(cs: seq<Command>)
    ensures Inside(cs, |EncodeAll(cs)|) == |cs|
  {
    var n := Inside(cs, |EncodeAll(cs)|);
    if n < |cs| {
      EncodePrefix(cs, n + 1);
    }
  }

  /** Truncating the file where the loader says leaves a whole log with the same meaning, which a
      strict loader accepts too. */
  lemma TruncatedLogIsWhole(cs: seq<Command>, k: nat, known: set<string>)
    requires Loadable(cs, known) && 0 < k <= |EncodeAll(cs)| && Inside(cs, k) > 0
    ensures var r := Load(EncodeAll(cs)[..k], known, true);
            && r.Loaded? && r.validUpTo <= k
            && EncodeAll(cs)[..r.validUpTo] == EncodeAll(r.executed)
            && Load(EncodeAll(cs)[..r.validUpTo], known, false) == Loaded(r.executed, 0, false)
  {
    hide Run, EncodeAll, Load, Encode;
    LoadPrefix(cs, k, known, true);
    var n := Inside(cs, k);
    EncodePrefix(cs, n);
    var whole := cs[..n];
    var end := |EncodeAll(whole)|;
    NonEmptyLog(whole);
    LoadPrefix(whole, end, known, false);
    InsideAll(whole);
    assert whole[..|whole|] == whole;
    assert EncodeAll(whole)[..end] == EncodeAll(whole);
  }

  lemma NonEmptyLog(cs: seq<Command>)
    requires cs != []
    ensures EncodeAll(cs) != ""
  {
    EncodeNotEmpty(cs);
  }
}
