/** The cluster configuration file: one line per node, written from the slot table and loaded back. */
module ConfigFile {
  import opened Decimal
  import opened SlotTable
  import opened SlotText

  /** What a line says besides the node, its master and its slots. */
  datatype Fields = Fields(address: string, flags: string, ping: string, pong: string, epoch: string, link: string)

  /** A slot that is being imported from, or migrated to, another node. */
  datatype Mark = Mark(slot: nat, importing: bool, other: Node)

  datatype Line = Line(node: Node, master: Option<Node>, fields: Fields, ranges: seq<Range>, marks: seq<Mark>)

  // ---------------------------------------------------------------------------
  // Writing
  // ---------------------------------------------------------------------------

  function MarkText(naming: Naming, m: Mark): string {
    "[" + Print(m.slot) + (if m.importing then "-<-" else "->-") + naming.write(m.other) + "]"
  }

  function MarkWords(naming: Naming, ms: seq<Mark>): seq<string> {
    seq(|ms|, i requires 0 <= i < |ms| => MarkText(naming, ms[i]))
  }

  /** The seven words after the name. */
  function HeadWords(naming: Naming, line: Line): seq<string> {
    [line.fields.address, line.fields.flags,
     if line.master.Some? then naming.write(line.master.value) else "-",
     line.fields.ping, line.fields.pong, line.fields.epoch, line.fields.link]
  }

  function LineText(naming: Naming, line: Line): string {
    naming.write(line.node) + Spaced(HeadWords(naming, line)) + Text(line.ranges) +
    Spaced(MarkWords(naming, line.marks)) + "\n"
  }

  /** The writer of a line: the fixed words, the slots of the bitmap, and the slots on the move. */
  method GenNodeDescription(naming: Naming, node: Node, master: Option<Node>, fields: Fields, bits: seq<bool>,
      marks: seq<Mark>)
    returns (text: string)
    ensures forall rs :: Describe(rs, bits, |bits|) ==> text == LineText(naming, Line(node, master, fields, rs, marks))
  {
    hide Describe, Text, MarkText, Spaced, HeadWords;
    var head := HeadWords(naming, Line(node, master, fields, [], marks));
    var slots := GenSlots(bits);
    var open, i := "", 0;
    NothingSpaced();
    assert MarkWords(naming, marks[..0]) == [];
    while i < |marks|
      invariant 0 <= i <= |marks| && open == Spaced(MarkWords(naming, marks[..i]))
    {
      SpacedMore(MarkWords(naming, marks[..i]), MarkText(naming, marks[i]));
      assert MarkWords(naming, marks[..i + 1]) == MarkWords(naming, marks[..i]) + [MarkText(naming, marks[i])];
      open := open + (" " + MarkText(naming, marks[i]));
      i := i + 1;
    }
    assert marks[..i] == marks;
    text := naming.write(node) + Spaced(head) + slots + open + "\n";
    forall rs | Describe(rs, bits, |bits|)
      ensures text == LineText(naming, Line(node, master, fields, rs, marks))
    {
      var qs :| Describe(qs, bits, |bits|) && slots == Text(qs);
      OneDescription(rs, qs, bits, |bits|);
      SameHead(naming, node, master, fields, rs, marks);
    }
  }

  lemma NothingSpaced()
    ensures Spaced([]) == ""
  {
  }

  lemma SameHead(naming: Naming, node: Node, master: Option<Node>, fields: Fields, rs: seq<Range>, marks: seq<Mark>)
    ensures HeadWords(naming, Line(node, master, fields, rs, marks)) ==
        HeadWords(naming, Line(node, master, fields, [], marks))
  {
  }

  // ---------------------------------------------------------------------------
  // Loading
  // ---------------------------------------------------------------------------

  predicate IsVars(w: string) {
    |w| == 4 && w[0] in "vV" && w[1] in "aA" && w[2] in "rR" && w[3] in "sS"
  }

  /** One line of the file: blank lines and the line of variables leave the table alone, lines with
      fewer than eight words or without a port are format errors. */
  function LoadLine(t: Table, naming: Naming, text: string): (r: Option<Table>)
    requires Agree(t)
    ensures r.Some? ==> Agree(r.value)
  {
    var ws := Words(text);
    if ws == [] || IsVars(ws[0]) then Some(t)
    else if |ws| < 8 || ':' !in ws[1] then None
    else
      var n := naming.read(ws[0]);
      var u := Meet(t, n);
      var v := if ws[3][0] != '-' then Meet(u, naming.read(ws[3])) else u;
      LoadWords(v, naming, n, ws[8..])
  }

  function LoadFile(t: Table, naming: Naming, texts: seq<string>): (r: Option<Table>)
    requires Agree(t)
    ensures r.Some? ==> Agree(r.value)
    decreases |texts|
  {
    if texts == [] then Some(t)
    else
      var u := LoadLine(t, naming, texts[0]);
      if u.None? then None else LoadFile(u.value, naming, texts[1..])
  }

  // ---------------------------------------------------------------------------
  // Splitting a written line
  // ---------------------------------------------------------------------------

  /** The name of n has 40 characters, none of them blank, and reads back. */
  ghost predicate Named(naming: Naming, n: Node) {
    var w := naming.write(n);
    IsWord(w) && |w| == NAME_LENGTH && w[0] != '-' && naming.read(w) == n
  }

  ghost predicate AllWords(ws: seq<string>) {
    forall i :: 0 <= i < |ws| ==> IsWord(ws[i])
  }

  ghost predicate FieldsOk(f: Fields) {
    AllWords([f.address, f.flags, f.ping, f.pong, f.epoch, f.link]) && ':' in f.address
  }

  lemma MarkIsWord(naming: Naming, m: Mark)
    requires Named(naming, m.other)
    ensures IsWord(MarkText(naming, m))
  {
    var a, b := Print(m.slot), naming.write(m.other);
    assert forall i :: 0 <= i < |a| ==> IsDigit(a[i]);
    assert forall i :: 0 <= i < |b| ==> !IsBlank(b[i]);
  }

  lemma HeadIsWords(naming: Naming, line: Line)
    requires FieldsOk(line.fields) && (line.master.Some? ==> Named(naming, line.master.value))
    ensures AllWords(HeadWords(naming, line))
  {
    var f := line.fields;
    var ws := [f.address, f.flags, f.ping, f.pong, f.epoch, f.link];
    assert IsWord(ws[0]) && IsWord(ws[1]) && IsWord(ws[2]) && IsWord(ws[3]) && IsWord(ws[4]) && IsWord(ws[5]);
  }

  lemma BlankLine()
    ensures Words("\n") == [] && Apart("\n")
  {
    assert "\n"[1..] == "";
  }

  /** A written line splits into the name, seven words, one per range and one per mark. */
  lemma WordsOfLine(naming: Naming, line: Line)
    requires Named(naming, line.node) && (line.master.Some? ==> Named(naming, line.master.value))
    requires FieldsOk(line.fields) && forall i :: 0 <= i < |line.marks| ==> Named(naming, line.marks[i].other)
    ensures Words(LineText(naming, line)) ==
            [naming.write(line.node)] + HeadWords(naming, line) + RangeWords(line.ranges) +
            MarkWords(naming, line.marks)
  {
    hide Words, Spaced, IsWord, HeadWords, RangeWords, MarkText, Text, Apart;
    BlankLine();
    var marks := MarkWords(naming, line.marks);
    forall i | 0 <= i < |marks|
      ensures IsWord(marks[i])
    {
      MarkIsWord(naming, line.marks[i]);
    }
    var tail := Spaced(marks) + "\n";
    WordsOfSpaced(marks, "\n");
    WordsOfText(line.ranges, tail);
    HeadIsWords(naming, line);
    WordsOfSpaced(HeadWords(naming, line), Text(line.ranges) + tail);
    var rest := Spaced(HeadWords(naming, line)) + (Text(line.ranges) + tail);
    NamedIsWord(naming, line.node);
    FirstWord(naming.write(line.node), rest);
    assert LineText(naming, line) == naming.write(line.node) + rest;
    assert marks + [] == marks;
  }

  /** Each field is the word of the line where the loader looks for it. */
  lemma FieldsInPlace(naming: Naming, line: Line)
    requires Named(naming, line.node) && (line.master.Some? ==> Named(naming, line.master.value))
    requires FieldsOk(line.fields) && forall i :: 0 <= i < |line.marks| ==> Named(naming, line.marks[i].other)
    ensures var ws, f := Words(LineText(naming, line)), line.fields;
            && |ws| == 8 + |line.ranges| + |line.marks|
            && ws[0] == naming.write(line.node) && ws[1] == f.address && ws[2] == f.flags
            && ws[3] == (if line.master.Some? then naming.write(line.master.value) else "-")
            && ws[4] == f.ping && ws[5] == f.pong && ws[6] == f.epoch && ws[7] == f.link
  {
    hide Words, LineText, RangeWords, MarkWords, Named, FieldsOk;
    WordsOfLine(naming, line);
    WordCounts(naming, line);
  }

  lemma WordCounts(naming: Naming, line: Line)
    ensures |RangeWords(line.ranges)| == |line.ranges| && |MarkWords(naming, line.marks)| == |line.marks|
  {
  }

  lemma NamedIsWord(naming: Naming, n: Node)
    requires Named(naming, n)
    ensures IsWord(naming.write(n)) && !IsVars(naming.write(n)) && naming.read(naming.write(n)) == n
    ensures naming.write(n) != "" && naming.write(n)[0] != '-'
  {
  }

  // ---------------------------------------------------------------------------
  // Loading a written line
  // ---------------------------------------------------------------------------

  lemma {:induction false} LoadConcat(t: Table, naming: Naming, n: Node, a: seq<string>, b: seq<string>)
    requires Agree(t) && n in t.bitmaps && LoadWords(t, naming, n, a).Some?
    ensures LoadWords(t, naming, n, a + b) == LoadWords(LoadWords(t, naming, n, a).value, naming, n, b)
    decreases |a|
  {
    hide Agree, LoadWord;
    if a == [] {
      assert a + b == b;
    } else {
      assert (a + b)[1..] == a[1..] + b;
      LoadConcat(LoadWord(t, naming, n, a[0]).value, naming, n, a[1..], b);
    }
  }

  /** The slot, the direction and the node of a mark, as the loader finds them. */
  lemma MarkParses(naming: Naming, m: Mark)
    requires Named(naming, m.other)
    ensures var w := MarkText(naming, m); var k := DashAt(w);
            && k == 1 + |Print(m.slot)| && w[0] == '[' && Atoi(w[1..k]) == m.slot
            && |w| >= k + 3 + NAME_LENGTH && w[k + 1] == (if m.importing then '<' else '>')
            && naming.read(w[k + 3..k + 3 + NAME_LENGTH]) == m.other
  {
    hide Atoi, Print;
    var a, b, w := Print(m.slot), naming.write(m.other), MarkText(naming, m);
    var k := 1 + |a|;
    assert forall i :: 0 <= i < |a| ==> IsDigit(a[i]);
    assert forall i :: 1 <= i < k ==> w[i] == a[i - 1];
    assert w[k] == '-' && w[k + 1] == (if m.importing then '<' else '>');
    assert DashAt(w) == k;
    AtoiPrint(m.slot, "");
    assert w[1..k] == a == a + "";
    assert w[k + 3..k + 3 + NAME_LENGTH] == b;
  }

  /** u holds what t holds of the nodes whose lines were read. */
  ghost predicate Partial(t: Table, u: Table, done: set<Node>) {
    && Agree(u) && |u.slots| == |t.slots| && done <= u.bitmaps.Keys <= t.bitmaps.Keys
    && forall j :: 0 <= j < |t.slots| ==>
         u.slots[j] == if t.slots[j].Some? && t.slots[j].value in done then t.slots[j] else None
  }

  lemma MeetKeeps(t: Table, u: Table, done: set<Node>, n: Node)
    requires Partial(t, u, done) && n in t.bitmaps
    ensures Agree(u) && Partial(t, Meet(u, n), done) && n in Meet(u, n).bitmaps &&
        u.bitmaps.Keys <= Meet(u, n).bitmaps.Keys
  {
    hide Agree, AddNode;
  }

  ghost predicate MarkOk(t: Table, naming: Naming, m: Mark) {
    Named(naming, m.other) && m.slot < |t.slots| && m.other in t.bitmaps
  }

  /** Marks add no owner. */
  lemma {:induction false} LoadMarks(t: Table, u: Table, done: set<Node>, naming: Naming, n: Node, ms: seq<Mark>)
    requires Partial(t, u, done) && n in u.bitmaps && forall i :: 0 <= i < |ms| ==> MarkOk(t, naming, ms[i])
    ensures Agree(u) && LoadWords(u, naming, n, MarkWords(naming, ms)).Some?
    ensures Partial(t, LoadWords(u, naming, n, MarkWords(naming, ms)).value, done)
    decreases |ms|
  {
    hide Agree, MarkText, DashAt, Atoi, Named, Meet;
    PartialAgrees(t, u, done);
    if ms == [] {
    } else {
      MarkParses(naming, ms[0]);
      MeetKeeps(t, u, done, ms[0].other);
      assert MarkWords(naming, ms)[1..] == MarkWords(naming, ms[1..]);
      assert LoadWord(u, naming, n, MarkText(naming, ms[0])) == Some(Meet(u, ms[0].other));
      LoadMarks(t, Meet(u, ms[0].other), done, naming, n, ms[1..]);
    }
  }

  lemma PartialAgrees(t: Table, u: Table, done: set<Node>)
    requires Partial(t, u, done)
    ensures Agree(u) && |u.slots| == |t.slots|
  {
  }

  lemma DescribeOwned(t: Table, n: Node, rs: seq<Range>)
    requires Agree(t) && n in t.bitmaps && Describe(rs, t.bitmaps[n], |t.bitmaps[n]|)
    ensures Within(rs, |t.slots|)
    ensures forall j :: 0 <= j < |t.slots| ==> (InRanges(rs, j) <==> t.slots[j] == Some(n))
  {
    assert NodeAgrees(t, n);
  }

  /** Loading a node's own slots completes what is known of it. */
  lemma LoadOwn(t: Table, u: Table, done: set<Node>, naming: Naming, n: Node, rs: seq<Range>)
    requires Agree(t) && Partial(t, u, done) && n in t.bitmaps && n in u.bitmaps
    requires Describe(rs, t.bitmaps[n], |t.bitmaps[n]|)
    ensures Agree(u) && LoadWords(u, naming, n, RangeWords(rs)).Some?
    ensures var v := LoadWords(u, naming, n, RangeWords(rs)).value; Partial(t, v, done + {n}) && n in v.bitmaps
  {
    hide AddSlots, Describe, InRanges, Agree, RangeWords, LoadWords;
    DescribeOwned(t, n, rs);
    LoadRanges(u, naming, n, rs);
  }

  /** The line says of a node of the table what is so: its slots, and known nodes only. */
  ghost predicate Describes(t: Table, naming: Naming, line: Line) {
    && line.node in t.bitmaps && Describe(line.ranges, t.bitmaps[line.node], |t.bitmaps[line.node]|)
    && Named(naming, line.node) && FieldsOk(line.fields)
    && (line.master.Some? ==> line.master.value in t.bitmaps && Named(naming, line.master.value))
    && forall i :: 0 <= i < |line.marks| ==> MarkOk(t, naming, line.marks[i])
  }

  lemma LoadSlotWords(t: Table, u: Table, done: set<Node>, naming: Naming, line: Line)
    requires Agree(t) && Partial(t, u, done) && Describes(t, naming, line) && line.node in u.bitmaps
    ensures var ws := RangeWords(line.ranges) + MarkWords(naming, line.marks);
            && Agree(u) && LoadWords(u, naming, line.node, ws).Some?
            && Partial(t, LoadWords(u, naming, line.node, ws).value, done + {line.node})
  {
    hide Agree, Partial, Describe, LoadWords, RangeWords, MarkWords, Named;
    LoadOwn(t, u, done, naming, line.node, line.ranges);
    var v := LoadWords(u, naming, line.node, RangeWords(line.ranges)).value;
    LoadMarks(t, v, done + {line.node}, naming, line.node, line.marks);
    LoadConcat(u, naming, line.node, RangeWords(line.ranges), MarkWords(naming, line.marks));
  }

  lemma LoadWrittenLine(t: Table, u: Table, done: set<Node>, naming: Naming, line: Line)
    requires Agree(t) && Partial(t, u, done) && Describes(t, naming, line)
    ensures Agree(u) && LoadLine(u, naming, LineText(naming, line)).Some?
    ensures Partial(t, LoadLine(u, naming, LineText(naming, line)).value, done + {line.node})
  {
    hide Agree, Partial, Describe, LoadWords, RangeWords, MarkWords, Named, Words, LineText, Meet, FieldsOk, IsVars;
    PartialAgrees(t, u, done);
    WordsOfLine(naming, line);
    var n, head := line.node, HeadWords(naming, line);
    var tail := RangeWords(line.ranges) + MarkWords(naming, line.marks);
    var ws := Words(LineText(naming, line));
    assert ws == [naming.write(n)] + head + tail;
    assert ws[0] == naming.write(n) && ws[1] == head[0] && ws[3] == head[2] && ws[8..] == tail;
    NamedIsWord(naming, n);
    HasPort(line.fields);
    MeetKeeps(t, u, done, n);
    var v := Meet(u, n);
    if line.master.Some? {
      NamedIsWord(naming, line.master.value);
      MeetKeeps(t, v, done, line.master.value);
      v := Meet(v, line.master.value);
    }
    LoadSlotWords(t, v, done, naming, line);
  }

  lemma HasPort(f: Fields)
    requires FieldsOk(f)
    ensures ':' in f.address
  {
  }

  // ---------------------------------------------------------------------------
  // Round trip
  // ---------------------------------------------------------------------------

  function NodesOf(lines: seq<Line>): set<Node> {
    set i | 0 <= i < |lines| :: lines[i].node
  }

  function Texts(naming: Naming, lines: seq<Line>): seq<string> {
    seq(|lines|, i requires 0 <= i < |lines| => LineText(naming, lines[i]))
  }

  lemma {:induction false} LoadWrittenLines(t: Table, u: Table, done: set<Node>, naming: Naming, lines: seq<Line>)
    requires Agree(t) && Partial(t, u, done) && forall i :: 0 <= i < |lines| ==> Describes(t, naming, lines[i])
    ensures Agree(u) && LoadFile(u, naming, Texts(naming, lines)).Some?
    ensures Partial(t, LoadFile(u, naming, Texts(naming, lines)).value, done + NodesOf(lines))
    decreases |lines|
  {
    hide Agree, Partial, Describes, LoadLine, LineText;
    PartialAgrees(t, u, done);
    if lines == [] {
      assert done + NodesOf(lines) == done;
    } else {
      LoadWrittenLine(t, u, done, naming, lines[0]);
      var next := LoadLine(u, naming, LineText(naming, lines[0])).value;
      assert Texts(naming, lines)[1..] == Texts(naming, lines[1..]);
      LoadWrittenLines(t, next, done + {lines[0].node}, naming, lines[1..]);
      NodesSplit(lines);
      assert done + {lines[0].node} + NodesOf(lines[1..]) == done + NodesOf(lines);
    }
  }

  lemma NodesSplit(lines: seq<Line>)
    requires lines != []
    ensures NodesOf(lines) == {lines[0].node} + NodesOf(lines[1..])
  {
    assert forall i :: 0 <= i < |lines[1..]| ==> lines[1..][i] == lines[i + 1];
    assert forall i :: 0 < i < |lines| ==> lines[i] == lines[1..][i - 1];
  }

  function Unassigned(n: nat): Table {
    Table(seq(n, _ => None), map[], map[])
  }

  lemma NothingRead(t: Table)
    ensures Partial(t, Unassigned(|t.slots|), {})
  {
    assert forall j :: 0 <= j < |t.slots| ==> OwnerKnown(Unassigned(|t.slots|), j);
  }

  lemma EverythingRead(t: Table, u: Table)
    requires Agree(t) && Partial(t, u, t.bitmaps.Keys)
    ensures t == u
  {
    forall j | 0 <= j < |t.slots|
      ensures u.slots[j] == t.slots[j]
    {
      assert OwnerKnown(t, j);
    }
    AgreeDetermines(t, u);
  }

  /** Round trip: the lines written for all nodes, in any order, whatever their other fields and the
      slots on the move, load back to the same table. */
  lemma WrittenTableLoads(t: Table, naming: Naming, lines: seq<Line>)
    requires Agree(t) && NodesOf(lines) == t.bitmaps.Keys
    requires forall i :: 0 <= i < |lines| ==> Describes(t, naming, lines[i])
    ensures Agree(Unassigned(|t.slots|)) && LoadFile(Unassigned(|t.slots|), naming, Texts(naming, lines)) == Some(t)
  {
    hide Agree, Partial, Describes, LoadFile, Unassigned, Texts;
    NothingRead(t);
    LoadWrittenLines(t, Unassigned(|t.slots|), {}, naming, lines);
    assert {} + NodesOf(lines) == t.bitmaps.Keys;
    EverythingRead(t, LoadFile(Unassigned(|t.slots|), naming, Texts(naming, lines)).value);
  }

  // ---------------------------------------------------------------------------
  // Lines that are refused
  // ---------------------------------------------------------------------------

  /** The number is no slot of this table. */
  predicate NoSlot(t: Table, n: int) {
    n < 0 || n >= |t.slots|
  }

  /** A word of the slots part that is refused: a range with an end that is no slot, or a mark without
      a dash, of something that is no slot or without a whole name. */
  ghost predicate BadWord(t: Table, w: string) {
    || (exists first, last :: Range2(w, first, last) && (NoSlot(t, Atoi(first)) || NoSlot(t, Atoi(last))))
    || (w != "" && w[0] != '[' && '-' !in w && NoSlot(t, Atoi(w)))
    || (w != "" && w[0] == '[' && '-' !in w)
    || (exists slot, rest :: Mark2(w, slot, rest) && (NoSlot(t, Atoi(slot)) || |rest| < 2 + NAME_LENGTH))
  }

  /** Two texts with the first dash between them. */
  ghost predicate Range2(w: string, first: string, last: string) {
    w == first + "-" + last && '-' !in first && (first == "" || first[0] != '[')
  }

  ghost predicate Mark2(w: string, slot: string, rest: string) {
    w == "[" + slot + "-" + rest && '-' !in slot
  }

  lemma FirstDash(w: string, a: string, b: string)
    requires w == a + "-" + b && '-' !in a
    ensures DashAt(w) == |a| && w[..|a|] == a && w[|a| + 1..] == b
  {
    assert forall i :: 0 <= i < |a| ==> w[i] == a[i];
    assert w[|a|] == '-';
  }

  lemma BadWordRefused(t: Table, naming: Naming, n: Node, w: string)
    requires Agree(t) && n in t.bitmaps && BadWord(t, w)
    ensures LoadWord(t, naming, n, w) == None
  {
    hide Agree, Atoi, AddSlots, Meet;
    if exists first, last :: Range2(w, first, last) && (NoSlot(t, Atoi(first)) || NoSlot(t, Atoi(last))) {
      var first, last :| Range2(w, first, last) && (NoSlot(t, Atoi(first)) || NoSlot(t, Atoi(last)));
      FirstDash(w, first, last);
    } else if exists slot, rest :: Mark2(w, slot, rest) && (NoSlot(t, Atoi(slot)) || |rest| < 2 + NAME_LENGTH) {
      var slot, rest :| Mark2(w, slot, rest) && (NoSlot(t, Atoi(slot)) || |rest| < 2 + NAME_LENGTH);
      FirstDash(w, "[" + slot, rest);
      assert w[1..DashAt(w)] == slot;
    }
  }

  lemma {:induction false} BadWordsRefused(t: Table, naming: Naming, n: Node, ws: seq<string>, i: nat)
    requires Agree(t) && n in t.bitmaps && i < |ws| && BadWord(t, ws[i])
    ensures LoadWords(t, naming, n, ws) == None
    decreases |ws|
  {
    hide Agree, LoadWord, BadWord;
    if i == 0 {
      BadWordRefused(t, naming, n, ws[0]);
    } else {
      var u := LoadWord(t, naming, n, ws[0]);
      if u.Some? {
        SameSlots(t, u.value, ws[i]);
        BadWordsRefused(u.value, naming, n, ws[1..], i - 1);
      }
    }
  }

  lemma SameSlots(t: Table, u: Table, w: string)
    requires |u.slots| == |t.slots| && BadWord(t, w)
    ensures BadWord(u, w)
  {
    hide Atoi;
    if exists first, last :: Range2(w, first, last) && (NoSlot(t, Atoi(first)) || NoSlot(t, Atoi(last))) {
      var first, last :| Range2(w, first, last) && (NoSlot(t, Atoi(first)) || NoSlot(t, Atoi(last)));
      assert Range2(w, first, last) && (NoSlot(u, Atoi(first)) || NoSlot(u, Atoi(last)));
    } else if exists slot, rest :: Mark2(w, slot, rest) && (NoSlot(t, Atoi(slot)) || |rest| < 2 + NAME_LENGTH) {
      var slot, rest :| Mark2(w, slot, rest) && (NoSlot(t, Atoi(slot)) || |rest| < 2 + NAME_LENGTH);
      assert Mark2(w, slot, rest) && (NoSlot(u, Atoi(slot)) || |rest| < 2 + NAME_LENGTH);
    }
  }

  /** A line of words that is refused: too few, no port in the address, or a bad word for slots. */
  ghost predicate BadLine(t: Table, ws: seq<string>) {
    && ws != [] && !IsVars(ws[0])
    && (|ws| < 8 || ':' !in ws[1] || exists i :: 8 <= i < |ws| && BadWord(t, ws[i]))
  }

  lemma BadLineRefused(t: Table, naming: Naming, text: string)
    requires Agree(t) && BadLine(t, Words(text))
    ensures LoadLine(t, naming, text) == None
  {
    hide Agree, Words, LoadWords, BadWord, Meet;
    var ws := Words(text);
    if |ws| >= 8 && ':' in ws[1] {
      var i :| 8 <= i < |ws| && BadWord(t, ws[i]);
      var n := naming.read(ws[0]);
      var u := Meet(t, n);
      var v := if ws[3][0] != '-' then Meet(u, naming.read(ws[3])) else u;
      SameSlots(t, v, ws[i]);
      BadWordsRefused(v, naming, n, ws[8..], i - 8);
    }
  }

  lemma {:induction false} WordsMeet(t: Table, naming: Naming, n: Node, ws: seq<string>, i: nat)
    requires Agree(t) && n in t.bitmaps && LoadWords(t, naming, n, ws).Some?
    requires i < |ws| && ws[i] != "" && ws[i][0] == '['
    ensures var w := ws[i]; var k := DashAt(w);
            k + 3 + NAME_LENGTH <= |w| &&
            naming.read(w[k + 3..k + 3 + NAME_LENGTH]) in LoadWords(t, naming, n, ws).value.bitmaps
    decreases |ws|
  {
    hide Agree, AddSlots, Atoi;
    var u := LoadWord(t, naming, n, ws[0]).value;
    if i == 0 {
      LoadedKeeps(u, naming, n, ws[1..]);
    } else {
      WordsMeet(u, naming, n, ws[1..], i - 1);
    }
  }

  lemma LoadedKeeps(t: Table, naming: Naming, n: Node, ws: seq<string>)
    requires Agree(t) && n in t.bitmaps && LoadWords(t, naming, n, ws).Some?
    ensures t.bitmaps.Keys <= LoadWords(t, naming, n, ws).value.bitmaps.Keys
  {
  }

  /** A line that loads makes every node it names known: its own, its master, and those its slots are
      moving from or to. */
  lemma LineMeets(t: Table, naming: Naming, text: string)
    requires Agree(t) && LoadLine(t, naming, text).Some? && Words(text) != [] && !IsVars(Words(text)[0])
    ensures var ws, known := Words(text), LoadLine(t, naming, text).value.bitmaps.Keys;
            && |ws| >= 8 && t.bitmaps.Keys <= known && naming.read(ws[0]) in known
            && (ws[3][0] != '-' ==> naming.read(ws[3]) in known)
            && forall i :: 8 <= i < |ws| && ws[i][0] == '[' ==>
                 var k := DashAt(ws[i]);
                 k + 3 + NAME_LENGTH <= |ws[i]| && naming.read(ws[i][k + 3..k + 3 + NAME_LENGTH]) in known
  {
    hide Agree, Words, LoadWords;
    var ws := Words(text);
    var n := naming.read(ws[0]);
    var u := Meet(t, n);
    var v := if ws[3][0] != '-' then Meet(u, naming.read(ws[3])) else u;
    LoadedKeeps(v, naming, n, ws[8..]);
    forall i | 8 <= i < |ws| && ws[i][0] == '['
      ensures var k := DashAt(ws[i]);
              k + 3 + NAME_LENGTH <= |ws[i]| &&
              naming.read(ws[i][k + 3..k + 3 + NAME_LENGTH]) in LoadWords(v, naming, n, ws[8..]).value.bitmaps
    {
      WordsMeet(v, naming, n, ws[8..], i - 8);
    }
  }

  /** Blank lines and lines of variables change nothing. */
  lemma SkippedLine(t: Table, naming: Naming, text: string)
    requires Agree(t) && (Words(text) == [] || IsVars(Words(text)[0]))
    ensures LoadLine(t, naming, text) == Some(t)
  {
  }

  lemma {:induction false} LoadFileConcat(t: Table, naming: Naming, a: seq<string>, b: seq<string>)
    requires Agree(t) && LoadFile(t, naming, a).Some?
    ensures LoadFile(t, naming, a + b) == LoadFile(LoadFile(t, naming, a).value, naming, b)
    decreases |a|
  {
    hide Agree, LoadLine;
    if a == [] {
      assert a + b == b;
    } else {
      assert (a + b)[1..] == a[1..] + b;
      LoadFileConcat(LoadLine(t, naming, a[0]).value, naming, a[1..], b);
    }
  }

  /** A file in which a line is refused, after any lines that load and whatever follows, is refused. */
  lemma MalformedFileIsRefused(t: Table, naming: Naming, before: seq<string>, text: string, after: seq<string>)
    requires Agree(t) && LoadFile(t, naming, before).Some? && BadLine(LoadFile(t, naming, before).value, Words(text))
    ensures LoadFile(t, naming, before + ([text] + after)) == None
  {
    hide Agree, LoadLine, BadLine;
    LoadFileConcat(t, naming, before, [text] + after);
    BadLineRefused(LoadFile(t, naming, before).value, naming, text);
  }
}
