/** Rewriting a list: its elements in RPUSH commands of limited size, each of which says how many
    arguments follow before they are written. */
module ListRewrite {
  import opened Decimal
  import opened AofFormat
  import opened AofLoader

  /** A list element as it is kept: a string or a number. */
  datatype Element = Str(s: string) | Num(n: int)

  function Decoded(e: Element): string {
    match e
    case Str(s) => s
    case Num(n) => Numeral(n)
  }

  function Strings(list: seq<Element>): seq<string> {
    seq(|list|, i requires 0 <= i < |list| => Decoded(list[i]))
  }

  function Least(a: nat, b: nat): nat {
    if a < b then a else b
  }

  // ---------------------------------------------------------------------------
  // What is to be written
  // ---------------------------------------------------------------------------

  /** The commands for a list of strings. */
  function Chunks(key: string, list: seq<string>, limit: nat): seq<Command>
    requires limit > 0
    decreases |list|
  {
    if list == [] then []
    else
      var n := Least(limit, |list|);
      [["RPUSH", key] + list[..n]] + Chunks(key, list[n..], limit)
  }

  function Under(db: map<string, seq<string>>, key: string): seq<string> {
    if key in db then db[key] else []
  }

  /** The lists of a database after RPUSH commands. Anything else is left out of account. */
  function Push(db: map<string, seq<string>>, c: Command): map<string, seq<string>> {
    if |c| < 3 || c[0] != "RPUSH" then db
    else db[c[1] := Under(db, c[1]) + c[2..]]
  }

  function PushAll(db: map<string, seq<string>>, cs: seq<Command>): map<string, seq<string>>
    decreases |cs|
  {
    if cs == [] then db else PushAll(Push(db, cs[0]), cs[1..])
  }

  lemma PushIs(db: map<string, seq<string>>, key: string, list: seq<string>)
    requires list != []
    ensures Push(db, ["RPUSH", key] + list) == db[key := Under(db, key) + list]
  {
    assert (["RPUSH", key] + list)[2..] == list;
  }

  lemma Regroup(was: seq<string>, list: seq<string>, n: nat)
    requires n <= |list|
    ensures was + list[..n] + list[n..] == was + list
    ensures list[n..] == [] ==> was + list[..n] == was + list
  {
    assert list == list[..n] + list[n..];
  }

  /** Executing the commands appends the list, in order, to what is under its key, and touches no
      other key; on an empty key it rebuilds the list. */
  lemma {:induction false} ChunksRebuild(db: map<string, seq<string>>, key: string, list: seq<string>, limit: nat)
    requires limit > 0
    ensures PushAll(db, Chunks(key, list, limit)) == if list == [] then db else db[key := Under(db, key) + list]
    decreases |list|
  {
    hide Push;
    if list == [] {
    } else {
      var n := Least(limit, |list|);
      var c := ["RPUSH", key] + list[..n];
      var cs := Chunks(key, list, limit);
      assert cs[0] == c && cs[1..] == Chunks(key, list[n..], limit);
      PushIs(db, key, list[..n]);
      ChunksRebuild(Push(db, c), key, list[n..], limit);
      Regroup(Under(db, key), list, n);
    }
  }

  lemma {:induction false} ChunksAreStorable(key: string, list: seq<string>, limit: nat, known: set<string>)
    requires 0 < limit < INT_LIMIT - 2 && "RPUSH" in known && |key| < LIMIT
    requires forall i :: 0 <= i < |list| ==> |list[i]| < LIMIT
    ensures Loadable(Chunks(key, list, limit), known)
    decreases |list|
  {
    if list == [] {
    } else {
      var n := Least(limit, |list|);
      var c := ["RPUSH", key] + list[..n];
      ChunksAreStorable(key, list[n..], limit, known);
      assert forall i :: 0 <= i < n ==> c[i + 2] == list[i];
      assert Storable(c) && c[0] == "RPUSH";
    }
  }

  /** No command carries more than the limit, and all but the last carry exactly that many elements. */
  lemma {:induction false} ChunksAreBounded(key: string, list: seq<string>, limit: nat, i: nat)
    requires limit > 0 && i < |Chunks(key, list, limit)|
    ensures var c := Chunks(key, list, limit)[i];
            && 3 <= |c| <= 2 + limit && c[0] == "RPUSH" && c[1] == key
            && (i < |Chunks(key, list, limit)| - 1 ==> |c| == 2 + limit)
    decreases |list|
  {
    var n := Least(limit, |list|);
    var rest := Chunks(key, list[n..], limit);
    if i == 0 {
      assert rest != [] ==> list[n..] != [];
    } else {
      ChunksAreBounded(key, list[n..], limit, i - 1);
    }
  }

  // ---------------------------------------------------------------------------
  // Writing it
  // ---------------------------------------------------------------------------

  predicate AllSucceed(results: seq<bool>) {
    forall i :: 0 <= i < |results| ==> results[i]
  }

  /** Where the text goes. `results` says which writes succeed; when it ends, all do. */
  class Rio {
    var out: string
    var results: seq<bool>

    constructor (writes: seq<bool>)
      ensures out == "" && results == writes
    {
      out, results := "", writes;
    }

    method Write(s: string) returns (ok: bool)
      modifies this
      ensures out == if ok then old(out) + s else old(out)
      ensures results == if old(results) == [] then [] else old(results)[1..]
      ensures ok == (old(results) == [] || old(results)[0])
    {
      ok := true;
      if results != [] {
        ok, results := results[0], results[1..];
      }
      if ok {
        out := out + s;
      }
    }

    method WriteBulkCount(n: nat) returns (ok: bool)
      modifies this
      ensures ok ==> out == old(out) + ("*" + Print(n) + EOL)
      ensures AllSucceed(old(results)) ==> ok && AllSucceed(results)
    {
      ok := Write("*" + Print(n) + EOL);
    }

    method WriteBulkString(s: string) returns (ok: bool)
      modifies this
      ensures ok ==> out == old(out) + EncodeArg(s)
      ensures AllSucceed(old(results)) ==> ok && AllSucceed(results)
    {
      hide Print;
      ok := Write("$" + Print(|s|) + EOL);
      if !ok {
        return;
      }
      if |s| > 0 {
        ok := Write(s);
        if !ok {
          return;
        }
      }
      ok := Write(EOL);
    }

    method WriteBulkLongLong(n: int) returns (ok: bool)
      modifies this
      ensures ok ==> out == old(out) + EncodeArg(Decoded(Num(n)))
      ensures AllSucceed(old(results)) ==> ok && AllSucceed(results)
    {
      var digits := if n < 0 then "-" + Print(-n) else Print(n);
      ok := WriteBulkString(digits);
    }
  }

  /** What is written of a command once some of its arguments are out. */
  function Started(n: nat, args: seq<string>): string {
    "*" + Print(n) + EOL + EncodeArgs(args)
  }

  lemma StartedMore(n: nat, args: seq<string>, a: string)
    ensures Started(n, args + [a]) == Started(n, args) + EncodeArg(a)
  {
    hide EncodeArg, Print;
    EncodeArgsMore(args, a);
  }

  lemma StartedNone(n: nat)
    ensures Started(n, []) == "*" + Print(n) + EOL
  {
  }

  /** The next command of the remaining list. */
  lemma NextChunk(key: string, list: seq<string>, limit: nat, n: nat)
    requires limit > 0 && list != [] && n == Least(limit, |list|)
    ensures EncodeAll(Chunks(key, list, limit)) ==
            Started(2 + n, ["RPUSH", key] + list[..n]) + EncodeAll(Chunks(key, list[n..], limit))
  {
    hide Print, EncodeArgs;
    assert |["RPUSH", key] + list[..n]| == 2 + n;
  }

  /** The text that is out and the text that is still to come, when the command being written
      started at `from` and `at` elements are out; done is the text before that command. */
  ghost predicate Progress(out: string, done: string, whole: string, key: string, list: seq<string>, limit: nat,
      from: nat, at: nat)
    requires limit > 0
  {
    && from <= at <= |list| && at < from + limit
    && whole == done + EncodeAll(Chunks(key, list[from..], limit))
    && out == done + if from == at
        then "" else Started(2 + Least(limit, |list| - from), ["RPUSH", key] + list[from..at])
  }

  lemma FirstArguments(done: string, n: nat, key: string)
    ensures done + Started(n, ["RPUSH", key]) == done + ("*" + Print(n) + EOL) + EncodeArg("RPUSH") + EncodeArg(key)
  {
    hide Print, EncodeArg;
    StartedNone(n);
    StartedMore(n, [], "RPUSH");
    StartedMore(n, ["RPUSH"], key);
    assert [] + ["RPUSH"] == ["RPUSH"] && ["RPUSH"] + [key] == ["RPUSH", key];
  }

  lemma Extended(key: string, list: seq<string>, from: nat, at: nat)
    requires from <= at < |list|
    ensures ["RPUSH", key] + list[from..at + 1] == ["RPUSH", key] + list[from..at] + [list[at]]
  {
  }

  lemma Resliced(list: seq<string>, from: nat, n: nat)
    requires from + n <= |list|
    ensures list[from..][..n] == list[from..from + n] && list[from..][n..] == list[from + n..]
  {
  }

  lemma Appended(a: string, b: string, c: string)
    ensures a + b + c == a + (b + c)
  {
  }

  /** One element more; a full command is done. */
  lemma OneMore(out: string, done: string, whole: string, key: string, list: seq<string>, limit: nat, from: nat,
      at: nat)
    requires limit > 0 && at < |list| && from <= at < from + limit
    requires whole == done + EncodeAll(Chunks(key, list[from..], limit))
    requires out == done + Started(2 + Least(limit, |list| - from), ["RPUSH", key] + list[from..at])
    ensures var more := out + EncodeArg(list[at]);
            if at + 1 == from + limit
            then Progress(more, more, whole, key, list, limit, at + 1, at + 1)
            else Progress(more, done, whole, key, list, limit, from, at + 1)
  {
    hide EncodeAll, Chunks, EncodeArg, Started;
    var n := Least(limit, |list| - from);
    var head := ["RPUSH", key] + list[from..at];
    Extended(key, list, from, at);
    StartedMore(2 + n, head, list[at]);
    Appended(done, Started(2 + n, head), EncodeArg(list[at]));
    if at + 1 == from + limit {
      NextChunk(key, list[from..], limit, n);
      Resliced(list, from, n);
      assert out + EncodeArg(list[at]) + "" == out + EncodeArg(list[at]);
    }
  }

  /** At the end of the list the last command is complete. */
  lemma Complete(out: string, done: string, whole: string, key: string, list: seq<string>, limit: nat, from: nat)
    requires limit > 0 && Progress(out, done, whole, key, list, limit, from, |list|)
    ensures out == whole
  {
    hide Chunks, EncodeAll, Started;
    NoChunks(key, limit);
    if from == |list| {
      assert list[from..] == [];
    } else {
      var n := |list| - from;
      NextChunk(key, list[from..], limit, n);
      assert list[from..][..n] == list[from..] && list[from..][n..] == [];
      assert list[from..|list|] == list[from..];
    }
  }

  lemma NoChunks(key: string, limit: nat)
    requires limit > 0
    ensures EncodeAll(Chunks(key, [], limit)) == ""
  {
  }

  /** The rewrite loop: on success the text is the encoding of the commands for the list, so each
      declares exactly the arguments that follow it. */
  method RewriteListObject(r: Rio, key: Element, list: seq<Element>, limit: nat) returns (ok: bool)
    requires limit > 0
    modifies r
    ensures ok ==> r.out == old(r.out) + EncodeAll(Chunks(Decoded(key), Strings(list), limit))
    ensures AllSucceed(old(r.results)) ==> ok
  {
    hide Print, EncodeAll, Chunks, EncodeArg, Started, Strings, Decoded;
    ghost var k, strings := Decoded(key), Strings(list);
    ghost var whole, done := old(r.out) + EncodeAll(Chunks(k, strings, limit)), r.out;
    ghost var from := 0;
    StringsAre(list);
    assert strings[0..] == strings && r.out + "" == r.out;
    var count, items := 0, |list|;
    var i := 0;
    while i < |list|
      invariant 0 <= i <= |list| && items == |list| - i && i == from + count
      invariant Progress(r.out, done, whole, k, strings, limit, from, i)
      invariant AllSucceed(old(r.results)) ==> AllSucceed(r.results)
    {
      if count == 0 {
        var cmdItems := if items > limit then limit else items;
        FirstArguments(done, 2 + cmdItems, k);
        var head := r.WriteBulkCount(2 + cmdItems);
        if !head {
          return false;
        }
        var name := r.WriteBulkString("RPUSH");
        if !name {
          return false;
        }
        var written := WriteBulkObject(r, key);
        if !written {
          return false;
        }
        assert ["RPUSH", k] + strings[from..i] == ["RPUSH", k];
      }
      OneMore(r.out, done, whole, k, strings, limit, from, i);
      var written := WriteBulkObject(r, list[i]);
      if !written {
        return false;
      }
      count := count + 1;
      if count == limit {
        count := 0;
        done, from := r.out, i + 1;
      }
      items := items - 1;
      i := i + 1;
    }
    Complete(r.out, done, whole, k, strings, limit, from);
    ok := true;
  }

  method WriteBulkObject(r: Rio, e: Element) returns (ok: bool)
    modifies r
    ensures ok ==> r.out == old(r.out) + EncodeArg(Decoded(e))
    ensures AllSucceed(old(r.results)) ==> ok && AllSucceed(r.results)
  {
    match e
    case Str(s) => ok := r.WriteBulkString(s);
    case Num(n) => ok := r.WriteBulkLongLong(n);
  }

  lemma StringsAre(list: seq<Element>)
    ensures |Strings(list)| == |list| && forall i :: 0 <= i < |list| ==> Strings(list)[i] == Decoded(list[i])
  {
  }

  lemma SomeChunks(key: string, list: seq<string>, limit: nat)
    requires limit > 0 && list != []
    ensures EncodeAll(Chunks(key, list, limit)) != ""
  {
    NonEmptyLog(Chunks(key, list, limit));
  }

  lemma LoadRebuildsStrings(db: map<string, seq<string>>, key: string, list: seq<string>, limit: nat,
      known: set<string>)
    requires 0 < limit < INT_LIMIT - 2 && "RPUSH" in known && |key| < LIMIT && list != [] && key !in db
    requires forall i :: 0 <= i < |list| ==> |list[i]| < LIMIT
    ensures var r := Load(EncodeAll(Chunks(key, list, limit)), known, false);
            r.Loaded? && PushAll(db, r.executed) == db[key := list]
  {
    hide EncodeAll, Chunks, Load, PushAll;
    var cs := Chunks(key, list, limit);
    ChunksAreStorable(key, list, limit, known);
    ChunksRebuild(db, key, list, limit);
    assert [] + list == list;
    SomeChunks(key, list, limit);
    var text := EncodeAll(cs);
    LoadPrefix(cs, |text|, known, false);
    InsideAll(cs);
    assert cs[..|cs|] == cs && text[..|text|] == text;
  }

  /** What the program can hold: a string, or a 64-bit number. */
  predicate Held(e: Element) {
    match e
    case Str(s) => |s| < LIMIT
    case Num(n) => 0 - LIMIT <= n < LIMIT
  }

  /** The text stands for the element: it is the string, or a decimal text that reads back as the
      number, sign and all. */
  predicate StandsFor(text: string, e: Element) {
    match e
    case Str(s) => text == s
    case Num(n) => Atoi(text) == n && IsNumeral(if n < 0 then text[1..] else text) && (n < 0 ==> text[0] == '-')
  }

  lemma DecodedStandsFor(e: Element)
    requires Held(e)
    ensures StandsFor(Decoded(e), e) && |Decoded(e)| < LIMIT
  {
    hide Print, Atoi;
    if e.Num? {
      AtoiNumeral(e.n, "");
      assert Numeral(e.n) + "" == Numeral(e.n);
      var m := if e.n < 0 then 0 - e.n else e.n;
      PrintIsNumeral(m);
      LastDigit(m);
      PrintFits(m / 10);
      assert e.n < 0 ==> Numeral(e.n)[1..] == Print(m);
    }
  }

  /** Loading what was written rebuilds the list, element by element. */
  lemma LoadRebuilds(db: map<string, seq<string>>, key: Element, list: seq<Element>, limit: nat, known: set<string>)
    returns (name: string, loaded: seq<string>)
    requires 0 < limit < INT_LIMIT - 2 && "RPUSH" in known && list != [] && Decoded(key) !in db
    requires Held(key) && forall i :: 0 <= i < |list| ==> Held(list[i])
    ensures StandsFor(name, key) && |loaded| == |list|
    ensures forall i :: 0 <= i < |list| ==> StandsFor(loaded[i], list[i])
    ensures var r := Load(EncodeAll(Chunks(Decoded(key), Strings(list), limit)), known, false);
            r.Loaded? && PushAll(db, r.executed) == db[name := loaded]
  {
    hide EncodeAll, Chunks, Load, PushAll, Decoded, StandsFor, Held;
    name, loaded := Decoded(key), Strings(list);
    DecodedStandsFor(key);
    forall i | 0 <= i < |list|
      ensures StandsFor(loaded[i], list[i]) && |loaded[i]| < LIMIT
    {
      DecodedStandsFor(list[i]);
    }
    LoadRebuildsStrings(db, name, loaded, limit, known);
  }
}
