/** CRC-64: the slice-by-8 table loop computes the same checksum as the bit-by-bit
    division its tables are generated from, for every polynomial.

    The code uses its 64-bit words only through xor, shifts and masks, so a word is the
    sequence of its bits, least significant first. `BitByBit` keeps the remainder
    unreflected (bit 63 is the leading coefficient) and reflects it once at the end; the
    table loop keeps the remainder reflected throughout. */
module Crc64 {
  import opened Bytes
  import BitString

  type Word = w: seq<bool> | |w| == 64 witness seq(64, _ => false)

  const POLY_VALUE: nat := 0xad93d23594c935a9

  // ---------------------------------------------------------------------------
  // Words
  // ---------------------------------------------------------------------------

  function Zeros(n: nat): (z: seq<bool>)
    ensures |z| == n && forall i :: 0 <= i < n ==> !z[i]
  {
    seq(n, _ => false)
  }

  function Xor(a: Word, b: Word): (x: Word)
    ensures forall i :: 0 <= i < 64 ==> x[i] == (a[i] != b[i])
  {
    seq(64, i requires 0 <= i < 64 => a[i] != b[i])
  }

  function Shr(w: Word, n: nat): Word
    requires n <= 64
  {
    w[n..] + Zeros(n)
  }

  function Shl(w: Word, n: nat): Word
    requires n <= 64
  {
    Zeros(n) + w[..64 - n]
  }

  /** A short word extended with zeros at its most significant end. */
  function Extend(bits: seq<bool>): Word
    requires |bits| <= 64
  {
    bits + Zeros(64 - |bits|)
  }

  function Reflect(w: Word): (r: Word)
    ensures forall i :: 0 <= i < 64 ==> r[i] == w[63 - i]
  {
    seq(64, i requires 0 <= i < 64 => w[63 - i])
  }

  function BitsOf(value: nat, len: nat): (bits: seq<bool>)
    ensures |bits| == len
  {
    if len == 0 then [] else [value % 2 == 1] + BitsOf(value / 2, len - 1)
  }

  /** The digits of a number, least significant first, are its binary digits in reverse. */
  lemma {:induction false} LowFirst(value: nat, len: nat, i: nat)
    requires i < len
    ensures BitsOf(value, len)[i] == BitString.Digits(value, len)[len - 1 - i]
  {
    if i == 0 {
    } else {
      LowFirst(value / 2, len - 1, i - 1);
    }
  }

  function ValueOf(bits: seq<bool>): nat {
    if |bits| == 0 then 0 else (if bits[0] then 1 else 0) + 2 * ValueOf(bits[1..])
  }

  function ByteBits(b: Byte): (bits: seq<bool>)
    ensures |bits| == 8
  {
    BitsOf(b, 8)
  }

  /** The eight bits selected by `(w >> 8*k) & 0xff`. */
  function ByteAt(w: Word, k: nat): (bits: seq<bool>)
    requires k < 8
    ensures |bits| == 8
  {
    w[8 * k..8 * k + 8]
  }

  lemma {:induction false} BitsOfValue(bits: seq<bool>)
    ensures BitsOf(ValueOf(bits), |bits|) == bits
  {
    if |bits| == 0 {
    } else {
      BitsOfValue(bits[1..]);
    }
  }

  lemma {:induction false} ValueBound(bits: seq<bool>, n: nat, bound: nat)
    requires |bits| == n && bound == Pow2(n)
    ensures ValueOf(bits) < bound
  {
    if n == 0 {
    } else {
      ValueBound(bits[1..], n - 1, Pow2(n - 1));
    }
  }

  /** The table index of eight bits. */
  function Index(bits: seq<bool>): (n: nat)
    requires |bits| == 8
    ensures n < 256 && BitsOf(n, 8) == bits
  {
    BitsOfValue(bits);
    ValueBound(bits, 8, 256);
    ValueOf(bits)
  }

  // ---------------------------------------------------------------------------
  // Reflected steps: a linear map on words
  // ---------------------------------------------------------------------------

  /** One reflected division step: shift right, subtract the reflected polynomial when
      the bit shifted out is set. */
  function Step(rp: Word, c: Word): Word {
    if c[0] then Xor(Shr(c, 1), rp) else Shr(c, 1)
  }

  function Steps(rp: Word, n: nat, c: Word): Word
    decreases n, c
  {
    if n == 0 then c else Step(rp, Steps(rp, n - 1, c))
  }

  lemma StepLinear(rp: Word, a: Word, b: Word)
    ensures Step(rp, Xor(a, b)) == Xor(Step(rp, a), Step(rp, b))
  {
    assert Shr(Xor(a, b), 1) == Xor(Shr(a, 1), Shr(b, 1));
  }

  lemma {:induction false} StepsLinear(rp: Word, n: nat, a: Word, b: Word)
    ensures Steps(rp, n, Xor(a, b)) == Xor(Steps(rp, n, a), Steps(rp, n, b))
  {
    if n == 0 {
    } else {
      StepsLinear(rp, n - 1, a, b);
      StepLinear(rp, Steps(rp, n - 1, a), Steps(rp, n - 1, b));
    }
  }

  lemma {:induction false} StepsAdd(rp: Word, m: nat, n: nat, c: Word)
    ensures Steps(rp, m, Steps(rp, n, c)) == Steps(rp, m + n, c)
  {
    if m == 0 {
    } else {
      StepsAdd(rp, m - 1, n, c);
    }
  }

  /** Steps over zero bits only shift. */
  lemma {:induction false} StepsOverZeros(rp: Word, n: nat, c: Word)
    requires n <= 64 && forall i :: 0 <= i < n ==> !c[i]
    ensures Steps(rp, n, c) == Shr(c, n)
  {
    if n == 0 {
      assert Shr(c, 0) == c;
    } else {
      StepsOverZeros(rp, n - 1, c);
      assert Shr(Shr(c, n - 1), 1) == Shr(c, n);
    }
  }

  /** A word added after n steps can be added, shifted up, before them. */
  lemma StepsAbsorb(rp: Word, n: nat, x: Word, y: Word)
    requires n <= 64 && forall i :: 64 - n <= i < 64 ==> !y[i]
    ensures Xor(Steps(rp, n, x), y) == Steps(rp, n, Xor(x, Shl(y, n)))
  {
    StepsLinear(rp, n, x, Shl(y, n));
    StepsOverZeros(rp, n, Shl(y, n));
    assert Shr(Shl(y, n), n) == y;
  }

  // ---------------------------------------------------------------------------
  // The reference: bit-by-bit division, unreflected
  // ---------------------------------------------------------------------------

  /** One division step: shift left, subtract the polynomial when the carry and the
      message bit differ. */
  function DivideBit(p: Word, rem: Word, bit: bool): Word {
    if rem[63] != bit then Xor(Shl(rem, 1), p) else Shl(rem, 1)
  }

  /** Divide message bits in order. */
  function DivideBits(p: Word, rem: Word, bits: seq<bool>): Word {
    if |bits| == 0 then rem
    else DivideBit(p, DivideBits(p, rem, bits[..|bits| - 1]), bits[|bits| - 1])
  }

  /** The bits of a message: bytes in order, each least significant bit first. */
  function MessageBits(data: seq<Byte>): (bits: seq<bool>)
    ensures |bits| == 8 * |data|
  {
    if |data| == 0 then [] else MessageBits(data[..|data| - 1]) + ByteBits(data[|data| - 1])
  }

  lemma {:induction false} DivideConcat(p: Word, rem: Word, a: seq<bool>, b: seq<bool>)
    ensures DivideBits(p, rem, a + b) == DivideBits(p, DivideBits(p, rem, a), b)
    decreases |b|
  {
    if |b| == 0 {
      assert a + b == a;
    } else {
      assert (a + b)[..|a + b| - 1] == a + b[..|b| - 1];
      DivideConcat(p, rem, a, b[..|b| - 1]);
    }
  }

  /** The reflection loop: bits leave `data` at the bottom and enter `ret` at the bottom. */
  method ReflectLoop(word: Word) returns (ret: Word)
    ensures ret == Reflect(word)
  {
    var data := word;
    ret := Extend([data[0]]);
    var i := 1;
    while i < 64
      invariant 1 <= i <= 64
      invariant data == Shr(word, i - 1)
      invariant forall k :: 0 <= k < i ==> ret[k] == word[i - 1 - k]
    {
      assert Shr(Shr(word, i - 1), 1) == Shr(word, i);
      data := Shr(data, 1);
      ret := [data[0]] + Shl(ret, 1)[1..];
      i := i + 1;
    }
  }

  /** The reference checksum: divide the message, then reflect the remainder. */
  method BitByBit(p: Word, start: Word, data: seq<Byte>) returns (crc: Word)
    ensures crc == Reflect(DivideBits(p, start, MessageBits(data)))
  {
    crc := start;
    var offset := 0;
    while offset < |data|
      invariant 0 <= offset <= |data|
      invariant crc == DivideBits(p, start, MessageBits(data[..offset]))
    {
      var c := ByteBits(data[offset]);
      ghost var before := crc;
      var i := 0;
      while i < 8
        invariant 0 <= i <= 8
        invariant crc == DivideBits(p, before, c[..i])
      {
        var bit := crc[63];
        if c[i] {
          bit := !bit;
        }
        crc := Shl(crc, 1);
        if bit {
          crc := Xor(crc, p);
        }
        assert c[..i + 1][..i] == c[..i];
        i := i + 1;
      }
      assert c[..8] == c;
      assert data[..offset + 1][..offset] == data[..offset];
      DivideConcat(p, start, MessageBits(data[..offset]), c);
      offset := offset + 1;
    }
    assert data[..offset] == data;
    crc := ReflectLoop(crc);
  }

  // ---------------------------------------------------------------------------
  // Reflection simulates the division
  // ---------------------------------------------------------------------------

  lemma ReflectXor(a: Word, b: Word)
    ensures Reflect(Xor(a, b)) == Xor(Reflect(a), Reflect(b))
  {
  }

  lemma ReflectDivideBit(p: Word, rem: Word, bit: bool)
    ensures Reflect(DivideBit(p, rem, bit)) == Step(Reflect(p), Xor(Reflect(rem), Extend([bit])))
  {
    ReflectXor(Shl(rem, 1), p);
    assert Reflect(Shl(rem, 1)) == Shr(Xor(Reflect(rem), Extend([bit])), 1);
  }

  /** Up to 64 message bits: dividing them one by one and reflecting is adding them all to
      the reflected remainder and then stepping. */
  lemma {:induction false} ReflectDivideBits(p: Word, rem: Word, bits: seq<bool>)
    requires |bits| <= 64
    ensures Reflect(DivideBits(p, rem, bits)) == Steps(Reflect(p), |bits|, Xor(Reflect(rem), Extend(bits)))
  {
    hide Xor, Reflect, Step, Shl, DivideBit;
    var rp, n := Reflect(p), |bits|;
    if n == 0 {
      assert Xor(Reflect(rem), Extend(bits)) == Reflect(rem);
    } else {
      var init, last := bits[..n - 1], bits[n - 1];
      ReflectDivideBits(p, rem, init);
      ReflectDivideBit(p, DivideBits(p, rem, init), last);
      StepsAbsorb(rp, n - 1, Xor(Reflect(rem), Extend(init)), Extend([last]));
      ExtendConcat(Reflect(rem), init, [last]);
      assert init + [last] == bits;
    }
  }

  // ---------------------------------------------------------------------------
  // The table loop
  // ---------------------------------------------------------------------------

  /** The byte-at-a-time update. */
  function Update(rp: Word, crc: Word, b: Byte): Word {
    Steps(rp, 8, Xor(crc, Extend(ByteBits(b))))
  }

  function Checksum(rp: Word, crc: Word, data: seq<Byte>): Word {
    if |data| == 0 then crc
    else Update(rp, Checksum(rp, crc, data[..|data| - 1]), data[|data| - 1])
  }

  lemma {:induction false} ChecksumConcat(rp: Word, crc: Word, a: seq<Byte>, b: seq<Byte>)
    ensures Checksum(rp, crc, a + b) == Checksum(rp, Checksum(rp, crc, a), b)
    decreases |b|
  {
    if |b| == 0 {
      assert a + b == a;
    } else {
      assert (a + b)[..|a + b| - 1] == a + b[..|b| - 1];
      ChecksumConcat(rp, crc, a, b[..|b| - 1]);
    }
  }

  lemma NothingToSum(rp: Word, crc: Word, data: seq<Byte>)
    ensures Checksum(rp, crc, data[..0]) == crc
  {
  }

  lemma ChecksumNextByte(rp: Word, crc: Word, data: seq<Byte>, next: nat)
    requires next < |data|
    ensures Checksum(rp, crc, data[..next + 1]) == Update(rp, Checksum(rp, crc, data[..next]), data[next])
  {
    assert data[..next + 1][..next] == data[..next];
  }

  lemma ChecksumNextBlock(rp: Word, crc: Word, data: seq<Byte>, next: nat)
    requires next + 8 <= |data|
    ensures Checksum(rp, crc, data[..next + 8]) == Checksum(rp, Checksum(rp, crc, data[..next]), data[next..next + 8])
  {
    assert data[..next] + data[next..next + 8] == data[..next + 8];
    ChecksumConcat(rp, crc, data[..next], data[next..next + 8]);
  }

  /** REFINEMENT. Whatever the polynomial, the start value and the message: the byte-wise
      checksum started from a reflected remainder is the reflected bit-by-bit remainder. */
  lemma {:induction false} ChecksumIsReflectedDivision(p: Word, rem: Word, data: seq<Byte>)
    ensures Checksum(Reflect(p), Reflect(rem), data) == Reflect(DivideBits(p, rem, MessageBits(data)))
  {
    if |data| == 0 {
    } else {
      var init, last := data[..|data| - 1], data[|data| - 1];
      ChecksumIsReflectedDivision(p, rem, init);
      var mid := DivideBits(p, rem, MessageBits(init));
      DivideConcat(p, rem, MessageBits(init), ByteBits(last));
      ReflectDivideBits(p, mid, ByteBits(last));
    }
  }

  /** The checksum of byte n followed by k zero bytes. */
  ghost function Entry(rp: Word, k: nat, n: nat): Word {
    Steps(rp, 8 * (k + 1), Extend(BitsOf(n, 8)))
  }

  ghost predicate IsTable(rp: Word, table: array2<Word>)
    reads table
  {
    && table.Length0 == 8 && table.Length1 == 256
    && forall k, n :: 0 <= k < 8 && 0 <= n < 256 ==> table[k, n] == Entry(rp, k, n)
  }

  /** The lookup step T[c & 0xff] ^ (c >> 8) is eight steps. */
  lemma LookupStep(rp: Word, c: Word)
    ensures Xor(Steps(rp, 8, Extend(ByteAt(c, 0))), Shr(c, 8)) == Steps(rp, 8, c)
  {
    var high := Shl(Shr(c, 8), 8);
    assert c == Xor(Extend(ByteAt(c, 0)), high);
    StepsLinear(rp, 8, Extend(ByteAt(c, 0)), high);
    StepsOverZeros(rp, 8, high);
    assert Shr(high, 8) == Shr(c, 8);
  }

  lemma ExtendConcat(crc: Word, bits: seq<bool>, last: seq<bool>)
    requires |bits| + |last| <= 64
    ensures Xor(Xor(crc, Extend(bits)), Shl(Extend(last), |bits|)) == Xor(crc, Extend(bits + last))
  {
  }

  /** Eight more message bits: stepping through them after n bits is adding them first. */
  lemma AppendByte(rp: Word, crc: Word, bits: seq<bool>, last: seq<bool>)
    requires |bits| <= 56 && |last| == 8
    ensures Steps(rp, 8, Xor(Steps(rp, |bits|, Xor(crc, Extend(bits))), Extend(last)))
         == Steps(rp, |bits| + 8, Xor(crc, Extend(bits + last)))
  {
    var n, x := |bits|, Xor(crc, Extend(bits));
    StepsAbsorb(rp, n, x, Extend(last));
    StepsAdd(rp, 8, n, Xor(x, Shl(Extend(last), n)));
    ExtendConcat(crc, bits, last);
  }

  /** Up to eight bytes at once: the bytes are added to the remainder as one word. */
  lemma {:induction false} ChecksumOfBlock(rp: Word, crc: Word, block: seq<Byte>)
    requires |block| <= 8
    ensures Checksum(rp, crc, block) == Steps(rp, 8 * |block|, Xor(crc, Extend(MessageBits(block))))
  {
    hide Xor, ByteBits, Step;
    if |block| == 0 {
      assert Xor(crc, Extend(MessageBits(block))) == crc;
    } else {
      var init, last := block[..|block| - 1], block[|block| - 1];
      ChecksumOfBlock(rp, crc, init);
      AppendByte(rp, crc, MessageBits(init), ByteBits(last));
    }
  }

  /** The xor of the first k of the eight table entries selected by a word. */
  function SliceSum(rp: Word, x: Word, k: nat): Word
    requires k <= 8
  {
    if k == 0 then Zeros(64)
    else Xor(SliceSum(rp, x, k - 1), Steps(rp, 8 * (9 - k), Extend(ByteAt(x, k - 1))))
  }

  lemma SplitLastByte(x: Word, k: nat)
    requires 1 <= k <= 8
    ensures var part := Shl(Extend(ByteAt(x, k - 1)), 8 * (k - 1));
            && Extend(x[..8 * k]) == Xor(Extend(x[..8 * (k - 1)]), part)
            && Shr(part, 8 * (k - 1)) == Extend(ByteAt(x, k - 1))
            && forall i :: 0 <= i < 8 * (k - 1) ==> !part[i]
  {
  }

  lemma StepsOfZero(rp: Word, n: nat)
    requires n <= 64
    ensures Steps(rp, n, Extend([])) == Zeros(64)
  {
    hide Steps;
    StepsOverZeros(rp, n, Extend([]));
    assert Shr(Extend([]), n) == Zeros(64);
  }

  /** By linearity the eight lookups of one word add up to 64 steps. */
  lemma {:induction false} SliceSumIsSteps(rp: Word, x: Word, k: nat)
    requires k <= 8
    ensures SliceSum(rp, x, k) == Steps(rp, 64, Extend(x[..8 * k]))
  {
    hide Steps, Xor, Extend, Shl, Shr, Zeros;
    if k == 0 {
      StepsOfZero(rp, 64);
      assert x[..0] == [];
    } else {
      var low, n := Extend(x[..8 * (k - 1)]), 8 * (k - 1);
      var part := Shl(Extend(ByteAt(x, k - 1)), n);
      SliceSumIsSteps(rp, x, k - 1);
      SplitLastByte(x, k);
      StepsLinear(rp, 64, low, part);
      StepsAdd(rp, 64 - n, n, part);
      StepsOverZeros(rp, n, part);
    }
  }

  lemma WholeWord(x: Word)
    ensures Extend(x[..64]) == x
  {
  }

  lemma FirstSlice(rp: Word, x: Word)
    ensures SliceSum(rp, x, 1) == Steps(rp, 64, Extend(ByteAt(x, 0)))
  {
  }

  lemma SliceSumUnrolled(rp: Word, x: Word, t: seq<Word>)
    requires |t| == 8
    requires forall k :: 0 <= k < 8 ==> t[k] == Steps(rp, 8 * (k + 1), Extend(ByteAt(x, 7 - k)))
    ensures Xor(Xor(Xor(Xor(Xor(Xor(Xor(t[7], t[6]), t[5]), t[4]), t[3]), t[2]), t[1]), t[0]) == Steps(rp, 64, x)
  {
    hide Steps, Extend, ByteAt, Xor;
    FirstSlice(rp, x);
    assert SliceSum(rp, x, 2) == Xor(t[7], t[6]);
    assert SliceSum(rp, x, 4) == Xor(Xor(SliceSum(rp, x, 2), t[5]), t[4]);
    assert SliceSum(rp, x, 6) == Xor(Xor(SliceSum(rp, x, 4), t[3]), t[2]);
    assert SliceSum(rp, x, 8) == Xor(Xor(SliceSum(rp, x, 6), t[1]), t[0]);
    SliceSumIsSteps(rp, x, 8);
    WholeWord(x);
  }

  lemma NextEntry(rp: Word, k: nat, n: nat)
    ensures Entry(rp, k + 1, n) == Xor(Entry(rp, 0, Index(ByteAt(Entry(rp, k, n), 0))), Shr(Entry(rp, k, n), 8))
  {
    hide Steps, Xor, Shr, Extend, BitsOf;
    LookupStep(rp, Entry(rp, k, n));
    StepsAdd(rp, 8, 8 * (k + 1), Extend(BitsOf(n, 8)));
  }

  lemma SingleByte(p: Word, b: Byte)
    ensures Reflect(DivideBits(p, Zeros(64), MessageBits([b]))) == Entry(Reflect(p), 0, b)
  {
    var bits := ByteBits(b);
    ReflectDivideBits(p, Zeros(64), bits);
    assert MessageBits([b]) == MessageBits([]) + bits == bits;
    assert Xor(Reflect(Zeros(64)), Extend(bits)) == Extend(bits);
  }

  /** Fill column n of rows 1 to 7, each row from the one above by one lookup step. */
  method FillColumn(ghost rp: Word, table: array2<Word>, n: nat)
    requires table.Length0 == 8 && table.Length1 == 256 && n < 256
    requires forall m :: 0 <= m < 256 ==> table[0, m] == Entry(rp, 0, m)
    modifies table
    ensures forall k :: 0 <= k < 8 ==> table[k, n] == Entry(rp, k, n)
    ensures forall k, m :: 0 <= k < 8 && 0 <= m < 256 && (m != n || k == 0) ==> table[k, m] == old(table[k, m])
  {
    var crc := table[0, n];
    for k := 1 to 8
      invariant crc == Entry(rp, k - 1, n)
      invariant forall j :: 0 <= j < k ==> table[j, n] == Entry(rp, j, n)
      invariant forall j, m :: 0 <= j < 8 && 0 <= m < 256 && (m != n || j == 0) ==> table[j, m] == old(table[j, m])
    {
      NextEntry(rp, k - 1, n);
      crc := Xor(table[0, Index(ByteAt(crc, 0))], Shr(crc, 8));
      table[k, n] := crc;
    }
  }

  /** Fill the tables: row 0 from the reference checksum of single bytes, then the columns. */
  method InitTable(p: Word, table: array2<Word>)
    requires table.Length0 == 8 && table.Length1 == 256
    modifies table
    ensures IsTable(Reflect(p), table)
  {
    hide Reflect, DivideBits, MessageBits, Entry;
    ghost var rp := Reflect(p);
    for n := 0 to 256
      invariant forall m :: 0 <= m < n ==> table[0, m] == Entry(rp, 0, m)
    {
      SingleByte(p, n);
      table[0, n] := BitByBit(p, Zeros(64), [n]);
    }
    for n := 0 to 256
      invariant forall m :: 0 <= m < 256 ==> table[0, m] == Entry(rp, 0, m)
      invariant forall k, m :: 0 <= k < 8 && 0 <= m < n ==> table[k, m] == Entry(rp, k, m)
    {
      FillColumn(rp, table, n);
    }
  }

  /** One table lookup per byte: T[0][(crc ^ b) & 0xff] ^ (crc >> 8). */
  method LookupByte(ghost rp: Word, table: array2<Word>, crc: Word, b: Byte) returns (r: Word)
    requires IsTable(rp, table)
    ensures r == Update(rp, crc, b)
  {
    var x := Xor(crc, Extend(ByteBits(b)));
    LookupStep(rp, x);
    assert Shr(x, 8) == Shr(crc, 8);
    r := Xor(table[0, Index(ByteAt(x, 0))], Shr(crc, 8));
  }

  /** Eight table lookups per aligned word. */
  method LookupWord(ghost rp: Word, table: array2<Word>, crc: Word, block: seq<Byte>) returns (r: Word)
    requires IsTable(rp, table) && |block| == 8
    ensures r == Checksum(rp, crc, block)
  {
    var x := Xor(crc, MessageBits(block));
    var t0, t1 := table[0, Index(ByteAt(x, 7))], table[1, Index(ByteAt(x, 6))];
    var t2, t3 := table[2, Index(ByteAt(x, 5))], table[3, Index(ByteAt(x, 4))];
    var t4, t5 := table[4, Index(ByteAt(x, 3))], table[5, Index(ByteAt(x, 2))];
    var t6, t7 := table[6, Index(ByteAt(x, 1))], table[7, Index(ByteAt(x, 0))];
    r := Xor(Xor(Xor(Xor(Xor(Xor(Xor(t7, t6), t5), t4), t3), t2), t1), t0);
    SliceSumUnrolled(rp, x, [t0, t1, t2, t3, t4, t5, t6, t7]);
    ChecksumOfBlock(rp, crc, block);
    assert Extend(MessageBits(block)) == MessageBits(block);
  }

  /** The table loop over a buffer at a given address: single bytes up to an 8-byte boundary,
      then whole words, then the remaining bytes. */
  method CrcSpeed(ghost rp: Word, table: array2<Word>, start: Word, data: seq<Byte>, address: nat) returns (crc: Word)
    requires IsTable(rp, table)
    ensures crc == Checksum(rp, start, data)
  {
    hide Checksum, Update, IsTable;
    NothingToSum(rp, start, data);
    crc := start;
    var next, len := 0, |data|;
    while len != 0 && (address + next) % 8 != 0
      invariant 0 <= next && 0 <= len && next + len == |data|
      invariant crc == Checksum(rp, start, data[..next])
    {
      ChecksumNextByte(rp, start, data, next);
      crc := LookupByte(rp, table, crc, data[next]);
      next, len := next + 1, len - 1;
    }
    while len >= 8
      invariant 0 <= next && 0 <= len && next + len == |data|
      invariant crc == Checksum(rp, start, data[..next])
    {
      ChecksumNextBlock(rp, start, data, next);
      crc := LookupWord(rp, table, crc, data[next..next + 8]);
      next, len := next + 8, len - 8;
    }
    while len != 0
      invariant 0 <= next && 0 <= len && next + len == |data|
      invariant crc == Checksum(rp, start, data[..next])
    {
      ChecksumNextByte(rp, start, data, next);
      crc := LookupByte(rp, table, crc, data[next]);
      next, len := next + 1, len - 1;
    }
    assert data[..next] == data;
  }

  function Polynomial(): Word {
    BitsOf(POLY_VALUE, 64)
  }

  /** The polynomial the tables step with is the constant's binary digits, most significant first. */
  lemma PolynomialDigits()
    ensures Reflect(Polynomial()) == BitString.Digits(POLY_VALUE, 64)
  {
    hide BitsOf, BitString.Digits;
    forall i | 0 <= i < 64
      ensures Reflect(Polynomial())[i] == BitString.Digits(POLY_VALUE, 64)[i]
    {
      LowFirst(POLY_VALUE, 64, 63 - i);
    }
  }

  /** The tables of the checksum in use. */
  method Init(table: array2<Word>)
    requires table.Length0 == 8 && table.Length1 == 256
    modifies table
    ensures IsTable(Reflect(Polynomial()), table)
  {
    InitTable(Polynomial(), table);
  }

  function Flatten(chunks: seq<seq<Byte>>): seq<Byte> {
    if |chunks| == 0 then [] else Flatten(chunks[..|chunks| - 1]) + chunks[|chunks| - 1]
  }

  /** Each chunk checksummed in turn, starting from the previous result. */
  function Chained(rp: Word, crc: Word, chunks: seq<seq<Byte>>): Word {
    if |chunks| == 0 then crc
    else Checksum(rp, Chained(rp, crc, chunks[..|chunks| - 1]), chunks[|chunks| - 1])
  }

  /** CHUNKING. Chained from 0 over any split of a message, the table loop gives the reference
      checksum of the whole message. */
  lemma {:induction false} ChainedIsReference(p: Word, chunks: seq<seq<Byte>>)
    ensures Chained(Reflect(p), Zeros(64), chunks) == Reflect(DivideBits(p, Zeros(64), MessageBits(Flatten(chunks))))
  {
    ChainedIsWhole(Reflect(p), Zeros(64), chunks);
    assert Reflect(Zeros(64)) == Zeros(64);
    ChecksumIsReflectedDivision(p, Zeros(64), Flatten(chunks));
  }

  lemma {:induction false} ChainedIsWhole(rp: Word, crc: Word, chunks: seq<seq<Byte>>)
    ensures Chained(rp, crc, chunks) == Checksum(rp, crc, Flatten(chunks))
  {
    if |chunks| == 0 {
    } else {
      var init := chunks[..|chunks| - 1];
      ChainedIsWhole(rp, crc, init);
      ChecksumConcat(rp, crc, Flatten(init), chunks[|chunks| - 1]);
    }
  }

  /** The tables are generated, a message is checksummed chunk by chunk, each at its own address,
      and whole by the bit loop: the results are the same. */
  method ChecksumChunks(p: Word, chunks: seq<seq<Byte>>, addresses: seq<nat>) returns (crc: Word, reference: Word)
    requires |addresses| == |chunks|
    ensures crc == reference == Reflect(DivideBits(p, Zeros(64), MessageBits(Flatten(chunks))))
  {
    hide Checksum, DivideBits, MessageBits, Flatten, Reflect;
    var table := new Word[8, 256]((_, _) => Zeros(64));
    InitTable(p, table);
    crc := Zeros(64);
    var i := 0;
    while i < |chunks|
      invariant 0 <= i <= |chunks| && IsTable(Reflect(p), table)
      invariant crc == Chained(Reflect(p), Zeros(64), chunks[..i])
    {
      assert chunks[..i + 1][..i] == chunks[..i];
      crc := CrcSpeed(Reflect(p), table, crc, chunks[i], addresses[i]);
      i := i + 1;
    }
    assert chunks[..i] == chunks;
    ChainedIsReference(p, chunks);
    reference := BitByBit(p, Zeros(64), Flatten(chunks));
  }
}
