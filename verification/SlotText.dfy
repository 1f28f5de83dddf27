/** The slots of a node as text: runs of slots printed as ranges, and read back. */
module SlotText {
  import opened Decimal
  import opened SlotTable
  import ClusterSlots

  /** Slots first to last, both included. */
  datatype Range = Range(first: nat, last: nat)

  // ---------------------------------------------------------------------------
  // Ranges of a bitmap
  // ---------------------------------------------------------------------------

  ghost predicate InRanges(rs: seq<Range>, j: int) {
    exists i :: 0 <= i < |rs| && rs[i].first <= j <= rs[i].last
  }

  /** The ranges describe the first k bits: sorted, disjoint, never adjacent, covering exactly the
      set bits. */
  ghost predicate Describe(rs: seq<Range>, bits: seq<bool>, k: int) {
    && 0 <= k <= |bits|
    && (forall i :: 0 <= i < |rs| ==> rs[i].first <= rs[i].last < k)
    && (forall i, j :: 0 <= i < j < |rs| ==> rs[i].last + 1 < rs[j].first)
    && (forall j :: 0 <= j < k ==> (bits[j] <==> InRanges(rs, j)))
  }

  lemma DescribeNothing(bits: seq<bool>)
    ensures Describe([], bits, 0) && Text([]) == ""
  {
  }

  lemma DescribeClear(rs: seq<Range>, bits: seq<bool>, k: nat)
    requires Describe(rs, bits, k) && k < |bits| && !bits[k]
    ensures Describe(rs, bits, k + 1)
  {
  }

  /** A run of set bits that starts after a clear bit, or at the start, is one more range. */
  lemma DescribeRun(rs: seq<Range>, bits: seq<bool>, start: nat, stop: nat)
    requires Describe(rs, bits, start) && start < stop <= |bits|
    requires start == 0 || !bits[start - 1]
    requires forall j :: start <= j < stop ==> bits[j]
    ensures Describe(rs + [Range(start, stop - 1)], bits, stop)
  {
    var r := rs + [Range(start, stop - 1)];
    forall i | 0 <= i < |rs|
      ensures rs[i].last + 1 < start
    {
      if rs[i].last + 1 == start {
        assert InRanges(rs, start - 1);
      }
    }
    forall j | 0 <= j < stop
      ensures bits[j] <==> InRanges(r, j)
    {
      if j < start {
        if InRanges(rs, j) {
          var i :| 0 <= i < |rs| && rs[i].first <= j <= rs[i].last;
          assert r[i] == rs[i];
        }
      } else {
        assert r[|rs|] == Range(start, stop - 1);
      }
    }
  }

  // ---------------------------------------------------------------------------
  // Text
  // ---------------------------------------------------------------------------

  function RangeText(r: Range): string {
    if r.first == r.last then Print(r.first) else Print(r.first) + "-" + Print(r.last)
  }

  /** Words, each after a space. */
  function Spaced(ws: seq<string>): string {
    if ws == [] then "" else " " + ws[0] + Spaced(ws[1..])
  }

  function RangeWords(rs: seq<Range>): seq<string> {
    seq(|rs|, i requires 0 <= i < |rs| => RangeText(rs[i]))
  }

  function Text(rs: seq<Range>): string {
    Spaced(RangeWords(rs))
  }

  lemma {:induction false} SpacedMore(ws: seq<string>, w: string)
    ensures Spaced(ws + [w]) == Spaced(ws) + (" " + w)
  {
    if ws == [] {
      assert ws + [w] == [w];
      assert Spaced([w]) == " " + w + "";
    } else {
      assert (ws + [w])[1..] == ws[1..] + [w];
      SpacedMore(ws[1..], w);
    }
  }

  lemma TextMore(rs: seq<Range>, r: Range)
    ensures Text(rs + [r]) == Text(rs) + (" " + RangeText(r))
  {
    assert RangeWords(rs + [r]) == RangeWords(rs) + [RangeText(r)];
    SpacedMore(RangeWords(rs), RangeText(r));
  }

  /** The text is that of ranges that describe all the bits. */
  ghost predicate Prints(text: string, bits: seq<bool>) {
    exists rs :: Describe(rs, bits, |bits|) && text == Text(rs)
  }

  lemma DescribeFront(rs: seq<Range>, bits: seq<bool>, k: nat)
    requires Describe(rs, bits, k) && rs != []
    ensures Describe(rs[..|rs| - 1], bits, rs[|rs| - 1].first)
  {
    var n := |rs| - 1;
    var front := rs[..n];
    forall j | 0 <= j < rs[n].first
      ensures bits[j] <==> InRanges(front, j)
    {
      if InRanges(rs, j) {
        var i :| 0 <= i < |rs| && rs[i].first <= j <= rs[i].last;
        assert front[i].first <= j <= front[i].last;
      }
      if InRanges(front, j) {
        var i :| 0 <= i < |front| && front[i].first <= j <= front[i].last;
        assert rs[i].first <= j <= rs[i].last;
      }
    }
  }

  /** The last range of one description ends no later and starts no earlier than that of another. */
  lemma LastRange(rs: seq<Range>, qs: seq<Range>, bits: seq<bool>, k: nat)
    requires Describe(rs, bits, k) && Describe(qs, bits, k) && rs != []
    ensures qs != [] && rs[|rs| - 1].last <= qs[|qs| - 1].last
    ensures rs[|rs| - 1].last == qs[|qs| - 1].last ==> rs[|rs| - 1].first >= qs[|qs| - 1].first
  {
    var r := rs[|rs| - 1];
    assert InRanges(rs, r.last);
    assert InRanges(qs, r.last);
    var q := qs[|qs| - 1];
    assert r.last == q.last && r.first < q.first ==> InRanges(rs, q.first - 1) && InRanges(qs, q.first - 1);
  }

  /** There is one description of a bitmap, so there is one text. */
  lemma {:induction false} OneDescription(rs: seq<Range>, qs: seq<Range>, bits: seq<bool>, k: nat)
    requires Describe(rs, bits, k) && Describe(qs, bits, k)
    ensures rs == qs
    decreases |rs|
  {
    hide Describe, InRanges;
    if rs != [] {
      LastRange(rs, qs, bits, k);
      LastRange(qs, rs, bits, k);
      DescribeFront(rs, bits, k);
      DescribeFront(qs, bits, k);
      OneDescription(rs[..|rs| - 1], qs[..|qs| - 1], bits, rs[|rs| - 1].first);
      assert rs == rs[..|rs| - 1] + [rs[|rs| - 1]];
      assert qs == qs[..|qs| - 1] + [qs[|qs| - 1]];
    } else if qs != [] {
      LastRange(qs, rs, bits, k);
    }
  }

  /** The printer: one pass over the bits, with the start of the run being looked at (or -1). The
      last slot is treated specially, so that a run that ends there is printed too. */
  method GenSlots(bits: seq<bool>) returns (text: string)
    ensures Prints(text, bits)
  {
    hide Describe, Text, Print;
    text := "";
    ghost var ranges: seq<Range> := [];
    DescribeNothing(bits);
    var start := -1;
    var j := 0;
    while j < |bits|
      invariant 0 <= j <= |bits| + 1 && -1 <= start < j
      invariant text == Text(ranges)
      invariant start == -1 && j <= |bits| ==> Describe(ranges, bits, j) && (j == 0 || !bits[j - 1] || j == |bits|)
      invariant start != -1 ==> j < |bits| && Describe(ranges, bits, start) && (start == 0 || !bits[start - 1])
      invariant start != -1 ==> forall i :: start <= i < j ==> bits[i]
      invariant j == |bits| + 1 ==> start == -1 && Describe(ranges, bits, |bits|)
    {
      var bit := bits[j];
      if bit {
        if start == -1 {
          start := j;
        }
      }
      if start != -1 && (!bit || j == |bits| - 1) {
        if bit && j == |bits| - 1 {
          j := j + 1;
        }
        TextMore(ranges, Range(start, j - 1));
        DescribeRun(ranges, bits, start, j);
        if start == j - 1 {
          text := text + (" " + Print(start));
        } else {
          text := text + (" " + (Print(start) + "-" + Print(j - 1)));
        }
        ranges := ranges + [Range(start, j - 1)];
        start := -1;
        if !bit {
          DescribeClear(ranges, bits, j);
        }
      } else if !bit {
        DescribeClear(ranges, bits, j);
      }
      j := j + 1;
    }
  }

  // ---------------------------------------------------------------------------
  // Splitting a line
  // ---------------------------------------------------------------------------

  predicate IsWord(w: string) {
    |w| > 0 && forall i :: 0 <= i < |w| ==> !IsBlank(w[i])
  }

  /** The length of the word at the front. */
  function WordLength(s: string): (k: nat)
    ensures k <= |s| && (k == |s| || IsBlank(s[k])) && forall i :: 0 <= i < k ==> !IsBlank(s[i])
  {
    if s == "" || IsBlank(s[0]) then 0 else 1 + WordLength(s[1..])
  }

  /** The words of a line. */
  function Words(s: string): (ws: seq<string>)
    ensures forall i :: 0 <= i < |ws| ==> ws[i] != ""
    decreases |s|
  {
    if s == "" then []
    else if IsBlank(s[0]) then Words(s[1..])
    else
      var k := WordLength(s);
      [s[..k]] + Words(s[k..])
  }

  /** Nothing, or something that ends a word. */
  predicate Apart(rest: string) {
    rest == "" || IsBlank(rest[0])
  }

  lemma FirstWord(w: string, rest: string)
    requires IsWord(w) && Apart(rest)
    ensures Words(w + rest) == [w] + Words(rest)
  {
    var s := w + rest;
    var k := WordLength(s);
    assert forall i :: 0 <= i < |w| ==> s[i] == w[i];
    assert s[|w|..] == rest;
    assert k == |w|;
    assert s[..k] == w && s[k..] == rest;
  }

  lemma NextWord(w: string, rest: string)
    requires IsWord(w) && Apart(rest)
    ensures Words(" " + w + rest) == [w] + Words(rest)
  {
    assert (" " + w + rest)[1..] == w + rest;
    FirstWord(w, rest);
  }

  /** Spaced words, then something apart, split into those words. */
  lemma {:induction false} WordsOfSpaced(ws: seq<string>, rest: string)
    requires Apart(rest) && forall i :: 0 <= i < |ws| ==> IsWord(ws[i])
    ensures Words(Spaced(ws) + rest) == ws + Words(rest) && Apart(Spaced(ws) + rest)
    decreases |ws|
  {
    hide Words, IsWord, Apart;
    SpacedApart(ws, rest);
    if ws == [] {
      assert Spaced(ws) + rest == rest && ws + Words(rest) == Words(rest);
    } else {
      var tail := Spaced(ws[1..]) + rest;
      WordsOfSpaced(ws[1..], rest);
      NextWord(ws[0], tail);
      calc {
        Words(Spaced(ws) + rest);
        { assert Spaced(ws) + rest == " " + ws[0] + tail; }
        [ws[0]] + (ws[1..] + Words(rest));
        { assert ws == [ws[0]] + ws[1..]; }
        ws + Words(rest);
      }
    }
  }

  lemma SpacedApart(ws: seq<string>, rest: string)
    requires Apart(rest)
    ensures Apart(Spaced(ws) + rest)
  {
    if ws == [] {
      assert Spaced(ws) + rest == rest;
    }
  }

  lemma RangeTextIsWord(r: Range)
    ensures IsWord(RangeText(r)) && RangeText(r)[0] != '['
  {
    var a, b := Print(r.first), Print(r.last);
    assert forall i :: 0 <= i < |a| ==> IsDigit(a[i]);
    assert forall i :: 0 <= i < |b| ==> IsDigit(b[i]);
    assert RangeText(r)[0] == a[0];
  }

  /** The text of some ranges, then something apart, splits into one word per range. */
  lemma WordsOfText(rs: seq<Range>, rest: string)
    requires Apart(rest)
    ensures Words(Text(rs) + rest) == RangeWords(rs) + Words(rest) && Apart(Text(rs) + rest)
  {
    hide Words, Spaced, RangeText, IsWord, Apart;
    forall i | 0 <= i < |rs|
      ensures IsWord(RangeText(rs[i]))
    {
      RangeTextIsWord(rs[i]);
    }
    WordsOfSpaced(RangeWords(rs), rest);
  }

  // ---------------------------------------------------------------------------
  // Reading one word
  // ---------------------------------------------------------------------------

  /** The first dash, or the length of the word. */
  function DashAt(w: string): (k: nat)
    ensures k <= |w| && (k < |w| ==> w[k] == '-') && forall i :: 0 <= i < k ==> w[i] != '-'
  {
    if w == "" || w[0] == '-' then 0 else 1 + DashAt(w[1..])
  }

  /** The two ends of a range, as atoi has them. */
  function Ends(w: string): (int, int) {
    var k := DashAt(w);
    if k < |w| then (Atoi(w[..k]), Atoi(w[k + 1..])) else (Atoi(w), Atoi(w))
  }

  lemma EndsOfRange(r: Range)
    ensures Ends(RangeText(r)) == (r.first, r.last)
  {
    var a, b, w := Print(r.first), Print(r.last), RangeText(r);
    assert forall i :: 0 <= i < |a| ==> IsDigit(a[i]);
    AtoiPrint(r.first, "");
    AtoiPrint(r.last, "");
    assert a + "" == a && b + "" == b;
    var k := DashAt(w);
    if r.first == r.last {
      assert k == |w|;
    } else {
      assert forall i :: 0 <= i < |a| ==> w[i] == a[i];
      assert w[|a|] == '-';
      assert k == |a|;
      assert w[..k] == a && w[k + 1..] == b;
    }
  }

  // ---------------------------------------------------------------------------
  // Loading
  // ---------------------------------------------------------------------------

  /** Slots first to last - 1 are added one by one; those that have an owner keep it. */
  function AddSlots(t: Table, n: Node, first: nat, end: nat): (r: Table)
    requires Agree(t) && n in t.bitmaps && end <= |t.slots|
    ensures Agree(r) && r.bitmaps.Keys == t.bitmaps.Keys && |r.slots| == |t.slots|
    ensures forall j :: 0 <= j < |t.slots| ==>
      r.slots[j] == if first <= j < end && t.slots[j].None? then Some(n) else t.slots[j]
  {
    if end <= first then t
    else
      var u := AddSlots(t, n, first, end - 1);
      AddSlotKeeps(u, n, end - 1);
      AddSlot(u, n, end - 1)
  }

  /** How nodes are named in text. */
  datatype Naming = Naming(write: Node -> string, read: string -> Node)

  const NAME_LENGTH: nat := 40

  /** A node becomes known, if it is not. */
  function Meet(t: Table, n: Node): (r: Table)
    requires Agree(t)
    ensures Agree(r) && r.bitmaps.Keys == t.bitmaps.Keys + {n} && r.slots == t.slots
  {
    if n in t.bitmaps then t else AddNode(t, n)
  }

  /** A word in brackets: a slot on the move, and the node it comes from or goes to. */
  function LoadMark(t: Table, naming: Naming, w: string): (r: Option<Table>)
    requires Agree(t) && w != "" && w[0] == '['
    ensures r.Some? ==> Agree(r.value) && t.bitmaps.Keys <= r.value.bitmaps.Keys && r.value.slots == t.slots
  {
    var k := DashAt(w);
    if k == |w| then None
    else
      var slot := Atoi(w[1..k]);
      if slot < 0 || slot >= |t.slots| || |w| < k + 3 + NAME_LENGTH then None
      else Some(Meet(t, naming.read(w[k + 3..k + 3 + NAME_LENGTH])))
  }

  /** One word of the slots part of a line; None is a format error. */
  function LoadWord(t: Table, naming: Naming, n: Node, w: string): (r: Option<Table>)
    requires Agree(t) && n in t.bitmaps
    ensures r.Some? ==> Agree(r.value) && t.bitmaps.Keys <= r.value.bitmaps.Keys && |r.value.slots| == |t.slots|
  {
    if w != "" && w[0] == '[' then LoadMark(t, naming, w)
    else
      var (first, last) := Ends(w);
      if first < 0 || first >= |t.slots| || last < 0 || last >= |t.slots| then None
      else Some(AddSlots(t, n, first, last + 1))
  }

  /** All words of a line. */
  function LoadWords(t: Table, naming: Naming, n: Node, ws: seq<string>): (r: Option<Table>)
    requires Agree(t) && n in t.bitmaps
    ensures r.Some? ==> Agree(r.value) && t.bitmaps.Keys <= r.value.bitmaps.Keys && |r.value.slots| == |t.slots|
    decreases |ws|
  {
    if ws == [] then Some(t)
    else
      var u := LoadWord(t, naming, n, ws[0]);
      if u.None? then None else LoadWords(u.value, naming, n, ws[1..])
  }

  /** The loader's loop over the words of a line, on the table itself. False is a format error. */
  method LoadSlots(table: ClusterSlots.Slots, naming: Naming, n: Node, ws: seq<string>) returns (ok: bool)
    requires table.Valid() && n in table.bitmaps
    modifies table`bitmaps, table`numslots, table.owners
    ensures table.Valid()
    ensures ok <==> LoadWords(old(table.Value()), naming, n, ws).Some?
    ensures ok ==> table.Value() == LoadWords(old(table.Value()), naming, n, ws).value
  {
    hide Agree, AddSlots, Ends, LoadWord;
    var j := 0;
    while j < |ws|
      invariant 0 <= j <= |ws| && table.Valid() && n in table.bitmaps
      invariant LoadWords(old(table.Value()), naming, n, ws) == LoadWords(table.Value(), naming, n, ws[j..])
    {
      assert ws[j..][1..] == ws[j + 1..];
      var read := LoadSlot(table, naming, n, ws[j]);
      if !read {
        return false;
      }
      j := j + 1;
    }
    ok := true;
  }

  method LoadSlot(table: ClusterSlots.Slots, naming: Naming, n: Node, w: string) returns (ok: bool)
    requires table.Valid() && n in table.bitmaps
    modifies table`bitmaps, table`numslots, table.owners
    ensures table.Valid() && n in table.bitmaps
    ensures ok <==> LoadWord(old(table.Value()), naming, n, w).Some?
    ensures ok ==> table.Value() == LoadWord(old(table.Value()), naming, n, w).value
  {
    hide Agree, AddSlot, Ends, AddSlots, LoadMark;
    if w != "" && w[0] == '[' {
      ok := LoadOpenSlot(table, naming, w);
      return;
    }
    var (start, stop) := Ends(w);
    if start < 0 || start >= table.owners.Length || stop < 0 || stop >= table.owners.Length {
      return false;
    }
    AddRange(table, n, start, stop);
    ok := true;
  }

  method LoadOpenSlot(table: ClusterSlots.Slots, naming: Naming, w: string) returns (ok: bool)
    requires table.Valid() && w != "" && w[0] == '['
    modifies table`bitmaps, table`numslots
    ensures table.Valid() && old(table.bitmaps).Keys <= table.bitmaps.Keys
    ensures ok <==> LoadMark(old(table.Value()), naming, w).Some?
    ensures ok ==> table.Value() == LoadMark(old(table.Value()), naming, w).value
  {
    hide Agree, AddNode;
    var k := DashAt(w);
    if k == |w| {
      return false;
    }
    var slot := Atoi(w[1..k]);
    if slot < 0 || slot >= table.owners.Length || |w| < k + 3 + NAME_LENGTH {
      return false;
    }
    var other := naming.read(w[k + 3..k + 3 + NAME_LENGTH]);
    if other !in table.bitmaps {
      table.AddNode(other);
    }
    ok := true;
  }

  method AddRange(table: ClusterSlots.Slots, n: Node, first: nat, stop: nat)
    requires table.Valid() && n in table.bitmaps && first < table.owners.Length && stop < table.owners.Length
    modifies table`bitmaps, table`numslots, table.owners
    ensures table.Valid() && n in table.bitmaps
    ensures table.Value() == AddSlots(old(table.Value()), n, first, stop + 1)
  {
    hide Agree, AddSlot;
    var start := first;
    while start <= stop
      invariant first <= start <= table.owners.Length && (start <= stop + 1 || start == first)
      invariant table.Valid() && n in table.bitmaps
      invariant table.Value() == AddSlots(old(table.Value()), n, first, start)
    {
      AddSlotKeeps(table.Value(), n, start);
      var _ := table.AddSlot(n, start);
      start := start + 1;
    }
  }

  // ---------------------------------------------------------------------------
  // Loading ranges
  // ---------------------------------------------------------------------------

  ghost predicate Within(rs: seq<Range>, n: nat) {
    forall i :: 0 <= i < |rs| ==> rs[i].first <= rs[i].last < n
  }

  lemma InRangesSplit(rs: seq<Range>, j: int)
    requires rs != []
    ensures InRanges(rs, j) <==> rs[0].first <= j <= rs[0].last || InRanges(rs[1..], j)
  {
    if InRanges(rs[1..], j) {
      var i :| 0 <= i < |rs[1..]| && rs[1..][i].first <= j <= rs[1..][i].last;
      assert rs[i + 1].first <= j <= rs[i + 1].last;
    }
    if InRanges(rs, j) && !(rs[0].first <= j <= rs[0].last) {
      var i :| 0 <= i < |rs| && rs[i].first <= j <= rs[i].last;
      assert rs[1..][i - 1].first <= j <= rs[1..][i - 1].last;
    }
  }

  /** Loading the words of some ranges gives the node every slot in them that was free. */
  lemma {:induction false} LoadRanges(t: Table, naming: Naming, n: Node, rs: seq<Range>)
    requires Agree(t) && n in t.bitmaps && Within(rs, |t.slots|)
    ensures LoadWords(t, naming, n, RangeWords(rs)).Some?
    ensures var u := LoadWords(t, naming, n, RangeWords(rs)).value;
            u.bitmaps.Keys == t.bitmaps.Keys && forall j :: 0 <= j < |t.slots| ==>
              u.slots[j] == if InRanges(rs, j) && t.slots[j].None? then Some(n) else t.slots[j]
    decreases |rs|
  {
    hide Agree, RangeText, Ends, AddSlots, InRanges;
    if rs == [] {
      forall j
        ensures !InRanges(rs, j)
      {
        NoRanges(j);
      }
    } else {
      EndsOfRange(rs[0]);
      RangeTextIsWord(rs[0]);
      var u := AddSlots(t, n, rs[0].first, rs[0].last + 1);
      assert LoadWord(t, naming, n, RangeText(rs[0])) == Some(u);
      assert RangeWords(rs)[1..] == RangeWords(rs[1..]);
      LoadRanges(u, naming, n, rs[1..]);
      forall j
        ensures InRanges(rs, j) <==> rs[0].first <= j <= rs[0].last || InRanges(rs[1..], j)
      {
        InRangesSplit(rs, j);
      }
    }
  }

  lemma NoRanges(j: int)
    ensures !InRanges([], j)
  {
  }
}
