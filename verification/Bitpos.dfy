/** Searching a bit: bytes until the address is aligned, then whole words, then bit by bit. */
module Bitpos {
  import opened Bytes
  import opened BitString

  /** Bit p of the string, zero beyond its end. */
  predicate BitAt(s: seq<Byte>, p: nat) {
    p < 8 * |s| && StringBits(s)[p]
  }

  /** None of the first p bits is the one sought. */
  ghost predicate Absent(s: seq<Byte>, bit: bool, p: nat) {
    forall i :: 0 <= i < p ==> BitAt(s, i) != bit
  }

  /** One of the bits from p to q - 1 is. */
  ghost predicate Between(s: seq<Byte>, bit: bool, p: nat, q: nat) {
    exists i :: p <= i < q && BitAt(s, i) == bit
  }

  /** The value of a little-endian word. */
  function Word(s: seq<Byte>): nat {
    if s == [] then 0 else
      var low: nat := s[0];
      low + 256 * Word(s[1..])
  }

  /** The word of n bytes that are all 255. */
  function Ones(n: nat): nat {
    if n == 0 then 0 else 255 + 256 * Ones(n - 1)
  }

  lemma {:induction false} WordIs(s: seq<Byte>)
    ensures Word(s) <= Ones(|s|)
    ensures Word(s) == 0 <==> forall i :: 0 <= i < |s| ==> s[i] == 0
    ensures Word(s) == Ones(|s|) <==> forall i :: 0 <= i < |s| ==> s[i] == 255
  {
    if s == [] {
    } else {
      WordIs(s[1..]);
      assert s == [s[0]] + s[1..];
      assert forall i :: 0 < i < |s| ==> s[i] == s[1..][i - 1];
    }
  }

  // ---------------------------------------------------------------------------
  // Skipping
  // ---------------------------------------------------------------------------

  lemma ByteOf(s: seq<Byte>, p: nat, k: nat)
    requires p < |s| && k < 8
    ensures BitAt(s, 8 * p + k) <==> ByteBits(s[p])[k]
  {
    BitsOfByte(s, p);
    assert StringBits(s)[8 * p..8 * p + 8][k] == StringBits(s)[8 * p + k];
  }

  function Skip(bit: bool): Byte {
    if bit then 0 else 255
  }

  /** A byte of all the other bit can be skipped; any other byte holds the bit. */
  lemma SkipByte(s: seq<Byte>, bit: bool, p: nat)
    requires p < |s| && Absent(s, bit, 8 * p)
    ensures s[p] == Skip(bit) ==> Absent(s, bit, 8 * p + 8)
    ensures s[p] != Skip(bit) ==> Between(s, bit, 8 * p, 8 * p + 8)
  {
    hide BitAt, ByteBits;
    ByteHas(s[p], bit);
    forall i | 8 * p <= i < 8 * p + 8
      ensures BitAt(s, i) <==> ByteBits(s[p])[i - 8 * p]
    {
      ByteOf(s, p, i - 8 * p);
    }
    if s[p] != Skip(bit) {
      var k :| 0 <= k < 8 && ByteBits(s[p])[k] == bit;
      assert BitAt(s, 8 * p + k) == bit;
    }
  }

  lemma {:induction false} SkipBytes(s: seq<Byte>, bit: bool, p: nat, n: nat)
    requires p + n <= |s| && Absent(s, bit, 8 * p)
    requires forall i :: p <= i < p + n ==> s[i] == Skip(bit)
    ensures Absent(s, bit, 8 * (p + n))
  {
    hide Absent;
    if n == 0 {
    } else {
      SkipBytes(s, bit, p, n - 1);
      SkipByte(s, bit, p + n - 1);
    }
  }

  /** A word of all the other bit can be skipped; any other word holds the bit. */
  lemma SkipWord(s: seq<Byte>, bit: bool, p: nat)
    requires p + 8 <= |s| && Absent(s, bit, 8 * p)
    ensures Word(s[p..p + 8]) == (if bit then 0 else Ones(8)) ==> Absent(s, bit, 8 * p + 64)
    ensures Word(s[p..p + 8]) != (if bit then 0 else Ones(8)) ==> Between(s, bit, 8 * p, 8 * p + 64)
  {
    hide Word, BitAt, Ones, Absent;
    var w := s[p..p + 8];
    WordIs(w);
    assert forall i :: 0 <= i < 8 ==> w[i] == s[p + i];
    if Word(w) == (if bit then 0 else Ones(8)) {
      SkipBytes(s, bit, p, 8);
    } else {
      var i: nat :| i < 8 && w[i] != Skip(bit) && forall j :: 0 <= j < i ==> w[j] == Skip(bit);
      SkipBytes(s, bit, p, i);
      SkipByte(s, bit, p + i);
      assert Between(s, bit, 8 * (p + i), 8 * (p + i) + 8);
    }
  }

  // ---------------------------------------------------------------------------
  // The last word
  // ---------------------------------------------------------------------------

  /** The bits of n bytes from c on, zero beyond the end. */
  function Window(s: seq<Byte>, c: nat, n: nat): (bits: seq<bool>)
    ensures |bits| == 8 * n
  {
    if n == 0 then [] else Window(s, c, n - 1) + ByteBits(if c + n - 1 < |s| then s[c + n - 1] else 0)
  }

  lemma {:induction false} WindowAt(s: seq<Byte>, c: nat, n: nat, i: nat)
    requires i < 8 * n
    ensures Window(s, c, n)[i] <==> BitAt(s, 8 * c + i)
  {
    hide BitAt, ByteBits;
    if i < 8 * (n - 1) {
      WindowAt(s, c, n - 1, i);
    } else {
      var k := i - 8 * (n - 1);
      if c + n - 1 < |s| {
        ByteOf(s, c + n - 1, k);
      } else {
        ByteHas(0, true);
        Beyond(s, 8 * c + i);
      }
    }
  }

  lemma Beyond(s: seq<Byte>, i: nat)
    requires i >= 8 * |s|
    ensures !BitAt(s, i)
  {
  }

  /** Shifting a byte into the word: nothing is lost before the eighth. */
  lemma ShiftIn(bits: seq<bool>, b: Byte)
    requires |bits| <= 56
    ensures Value(bits) * 256 % Pow2(64) + b == Value(bits + ByteBits(b))
  {
    hide ByteBits, Value, Pow2;
    ValueConcat(bits, ByteBits(b));
    ByteValue(b);
    PowersOf2();
    ValueConcat(bits, ByteBits(0));
    ByteValue(0);
    ValueBound(bits + ByteBits(0));
    PowMonotone(|bits| + 8, 64);
    SmallMod(Value(bits) * 256, Pow2(64));
  }

  /** The last word, loaded big-endian and padded with zeros. */
  method LoadWord(s: seq<Byte>, p: nat) returns (word: nat)
    requires p <= |s|
    ensures word == Value(Window(s, p, 8))
  {
    hide Value, ByteBits, Pow2;
    word := 0;
    ValueOfNothing();
    var c, count := p, |s| - p;
    var j := 0;
    while j < 8
      invariant 0 <= j <= 8 && 0 <= count && c + count == |s| && p <= c
      invariant count > 0 ==> c == p + j
      invariant count == 0 ==> c == |s| <= p + j
      invariant word == Value(Window(s, p, j))
    {
      ShiftIn(Window(s, p, j), if p + j < |s| then s[p + j] else 0);
      word := word * 256 % Pow2(64);
      if count != 0 {
        word := word + s[c];
        c, count := c + 1, count - 1;
      }
      j := j + 1;
    }
  }

  ghost predicate Has(bits: seq<bool>, bit: bool) {
    exists i :: 0 <= i < |bits| && bits[i] == bit
  }

  /** Scanning the word from its top bit, when the bit sought is in it. */
  method ScanWord(bits: seq<bool>, word: nat, bit: bool) returns (k: nat)
    requires |bits| == 64 && word == Value(bits) && Has(bits, bit)
    ensures k < 64 && bits[k] == bit && forall i :: 0 <= i < k ==> bits[i] != bit
  {
    hide Value;
    k := 0;
    var one := Pow2(63);
    while one != 0
      invariant k <= 64 && one == (if k < 64 then Pow2(63 - k) else 0)
      invariant forall i :: 0 <= i < k ==> bits[i] != bit
      decreases one
    {
      DigitAt(bits, k);
      if (word / one % 2 != 0) == bit {
        return;
      }
      k := k + 1;
      one := one / 2;
    }
    assert false;
  }

  /** The search may stop here: the string ends within the next word, or the word holds the bit. */
  ghost predicate Near(s: seq<Byte>, bit: bool, p: nat) {
    |s| - p < 8 || Between(s, bit, 8 * p, 8 * p + 64)
  }

  ghost predicate NoSetBit(s: seq<Byte>) {
    forall i :: 0 <= i < 8 * |s| ==> !StringBits(s)[i]
  }

  /** An empty last word means that there is no set bit; otherwise the bit sought is in it. */
  lemma InWindow(s: seq<Byte>, bit: bool, p: nat)
    requires p <= |s| && Absent(s, bit, 8 * p) && Near(s, bit, p)
    ensures var w := Window(s, p, 8);
            if bit && Value(w) == 0 then NoSetBit(s) else Has(w, bit)
  {
    hide StringBits, Value, Window;
    var w := Window(s, p, 8);
    forall i | 8 * p <= i < 8 * p + 64
      ensures w[i - 8 * p] <==> BitAt(s, i)
    {
      WindowAt(s, p, 8, i - 8 * p);
    }
    ValueOfClear(w);
    assert !BitAt(s, 8 * |s|);
    if Between(s, bit, 8 * p, 8 * p + 64) {
      var i :| 8 * p <= i < 8 * p + 64 && BitAt(s, i) == bit;
      var k := i - 8 * p;
      assert 0 <= k < 64 && w[k] == bit;
      assert Has(w, bit);
    } else if bit {
      assert forall i :: 0 <= i < 8 * |s| ==> StringBits(s)[i] == BitAt(s, i);
      forall k | 0 <= k < 64
        ensures !w[k]
      {
        assert BitAt(s, k + 8 * p) == w[k + 8 * p - 8 * p];
      }
    }
  }

  lemma Found(s: seq<Byte>, bit: bool, p: nat, k: nat)
    requires Absent(s, bit, 8 * p) && k < 64
    requires var w := Window(s, p, 8); w[k] == bit && forall i :: 0 <= i < k ==> w[i] != bit
    ensures BitAt(s, 8 * p + k) == bit && Absent(s, bit, 8 * p + k) && (bit ==> !NoSetBit(s))
  {
    hide StringBits, Window;
    forall i | 0 <= i < 64
      ensures Window(s, p, 8)[i] <==> BitAt(s, 8 * p + i)
    {
      WindowAt(s, p, 8, i);
    }
    forall i | 8 * p <= i < 8 * p + k
      ensures BitAt(s, i) != bit
    {
      assert Window(s, p, 8)[i - 8 * p] != bit;
    }
  }

  /** The position of the first bit equal to `bit` in the zero-extended string; -1 exactly when a
      set bit is sought and there is none. The end of the bit-by-bit scan is never reached. */
  method Bitpos(s: seq<Byte>, address: nat, bit: bool) returns (r: int)
    ensures r == -1 <==> bit && NoSetBit(s)
    ensures r != -1 ==> r >= 0 && BitAt(s, r) == bit && Absent(s, bit, r)
  {
    hide StringBits, Value, Word, Ones, Window, BitAt, Absent, NoSetBit;
    var p, count, pos := 0, |s|, 0;
    NothingSkipped(s, bit);
    var found := false;
    while (address + p) % 8 != 0 && count != 0
      invariant 0 <= p && 0 <= count && p + count == |s| && pos == 8 * p
      invariant Absent(s, bit, pos) && !found
      decreases count
    {
      SkipByte(s, bit, p);
      if s[p] != Skip(bit) {
        found := true;
        break;
      }
      p, count, pos := p + 1, count - 1, pos + 8;
    }
    if !found {
      while count >= 8
        invariant 0 <= p && 0 <= count && p + count == |s| && pos == 8 * p
        invariant Absent(s, bit, pos)
      {
        SkipWord(s, bit, p);
        if Word(s[p..p + 8]) != (if bit then 0 else Ones(8)) {
          break;
        }
        p, count, pos := p + 8, count - 8, pos + 64;
      }
    }
    var word := LoadWord(s, p);
    InWindow(s, bit, p);
    if bit && word == 0 {
      return -1;
    }
    var k := ScanWord(Window(s, p, 8), word, bit);
    Found(s, bit, p, k);
    r := pos + k;
  }

  lemma NothingSkipped(s: seq<Byte>, bit: bool)
    ensures Absent(s, bit, 0)
  {
  }
}
