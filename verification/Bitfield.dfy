/** Integers of any width at any bit offset of a byte string: stored, fetched and incremented
    with the three overflow policies. 64-bit machine arithmetic is written out. */
module Bitfield {
  import opened Bytes
  import opened BitString

  datatype Policy = Wrap | Sat | Fail

  /** The reply to an increment: the new number, or nil. */
  datatype Reply = Nil | Number(n: int)

  // ---------------------------------------------------------------------------
  // Machine integers
  // ---------------------------------------------------------------------------

  const TWO_63: nat := 0x8000_0000_0000_0000
  const TWO_64: nat := 0x1_0000_0000_0000_0000

  /** Conversion to uint64_t. */
  function AsUnsigned(x: int): (u: nat)
    ensures u < TWO_64
  {
    x % TWO_64
  }

  /** Conversion from uint64_t to int64_t. */
  function AsSigned(u: nat): int {
    if u >= TWO_63 then u - TWO_64 else u
  }

  predicate IsInt64(x: int) {
    0 - TWO_63 <= x < TWO_63
  }

  lemma {:induction false} PowAdd(m: nat, n: nat)
    ensures Pow2(m + n) == Pow2(m) * Pow2(n)
  {
    if n == 0 {
    } else {
      PowAdd(m, n - 1);
      Twice(Pow2(n - 1), Pow2(m), Pow2(n));
    }
  }

  lemma WordPowers()
    ensures Pow2(63) == TWO_63 && Pow2(64) == TWO_64
  {
    hide Pow2;
    PowersOf2();
    PowAdd(8, 8);
    PowAdd(16, 16);
    PowAdd(32, 32);
    PowAdd(63, 1);
  }

  // ---------------------------------------------------------------------------
  // Specification
  // ---------------------------------------------------------------------------

  function MinOf(bits: nat, signed: bool): int
    requires bits > 0
  {
    if signed then 0 - Pow2(bits - 1) else 0
  }

  function MaxOf(bits: nat, signed: bool): int
    requires bits > 0
  {
    if signed then Pow2(bits - 1) - 1 else Pow2(bits) - 1
  }

  /** The bits of the field. */
  function FieldBits(s: seq<Byte>, offset: nat, bits: nat): (r: seq<bool>)
    requires offset + bits <= 8 * |s|
    ensures |r| == bits
  {
    StringBits(s)[offset..offset + bits]
  }

  /** The number stored in the field, in two's complement if it is signed. */
  function Field(s: seq<Byte>, offset: nat, bits: nat, signed: bool): int
    requires 0 < bits && offset + bits <= 8 * |s|
  {
    var v := Value(FieldBits(s, offset, bits));
    if signed && v >= Pow2(bits - 1) then v - Pow2(bits) else v
  }

  /** t differs from s only inside the field. */
  ghost predicate SameOutside(s: seq<Byte>, t: seq<Byte>, offset: nat, bits: nat)
    requires offset + bits <= 8 * |s|
  {
    && |t| == |s|
    && StringBits(t)[..offset] == StringBits(s)[..offset]
    && StringBits(t)[offset + bits..] == StringBits(s)[offset + bits..]
  }

  predicate Congruent(x: int, y: int, bits: nat) {
    (x - y) % Pow2(bits) == 0
  }

  /** What a field of this width makes of a sum under a policy. */
  ghost predicate Stored(sum: int, bits: nat, signed: bool, policy: Policy, r: int)
    requires bits > 0
  {
    var lo, hi := MinOf(bits, signed), MaxOf(bits, signed);
    && lo <= r <= hi
    && (lo <= sum <= hi ==> r == sum)
    && (policy.Sat? && sum < lo ==> r == lo)
    && (policy.Sat? && sum > hi ==> r == hi)
    && (policy.Wrap? ==> Congruent(r, sum, bits))
  }

  // ---------------------------------------------------------------------------
  // One bit
  // ---------------------------------------------------------------------------

  lemma DoubleTerm(d: int, p: nat, q: nat)
    requires q == 2 * p
    ensures d * q == 2 * (d * p)
  {
  }

  lemma {:induction false} ValueUpdate(bits: seq<bool>, k: nat, b: bool)
    requires k < |bits|
    ensures Value(bits[k := b]) == Value(bits) + (Bit(b) - Bit(bits[k])) * Pow2(|bits| - 1 - k)
  {
    hide Value;
    var n := |bits| - 1;
    var front := bits[..n];
    assert bits == front + [bits[n]];
    ValueMore(front, bits[n]);
    if k == n {
      assert bits[k := b] == front + [b];
      ValueMore(front, b);
    } else {
      assert bits[k := b] == front[k := b] + [bits[n]];
      ValueMore(front[k := b], bits[n]);
      ValueUpdate(front, k, b);
      DoubleTerm(Bit(b) - Bit(bits[k]), Pow2(n - 1 - k), Pow2(n - k));
    }
  }

  /** A byte with its bit k cleared and then set to b. */
  function PutBit(x: nat, k: nat, b: bool): int
    requires k < 8
  {
    x - x / Pow2(7 - k) % 2 * Pow2(7 - k) + Bit(b) * Pow2(7 - k)
  }

  lemma PutBitIs(x: Byte, k: nat, b: bool)
    requires k < 8
    ensures 0 <= PutBit(x, k, b) < 256 && ByteBits(PutBit(x, k, b)) == ByteBits(x)[k := b]
  {
    hide Digits, Value;
    var bits := ByteBits(x);
    ByteValue(x);
    DigitAt(bits, k);
    ValueUpdate(bits, k, b);
    ValueBound(bits[k := b]);
    PowersOf2();
    DigitsValue(bits[k := b]);
    assert Value(bits[k := b]) == PutBit(x, k, b);
  }

  lemma {:induction false} StringUpdate(s: seq<Byte>, p: nat, c: Byte)
    requires p < |s|
    ensures StringBits(s[p := c]) == StringBits(s)[..8 * p] + ByteBits(c) + StringBits(s)[8 * p + 8..]
  {
    hide ByteBits;
    var n := |s| - 1;
    if p == n {
      assert s[p := c][..n] == s[..n];
      assert StringBits(s)[..8 * p] == StringBits(s[..n]);
    } else {
      assert s[p := c][..n] == s[..n][p := c];
      StringUpdate(s[..n], p, c);
      var t := StringBits(s[..n]);
      assert StringBits(s) == t + ByteBits(s[n]);
      assert StringBits(s)[..8 * p] == t[..8 * p];
      assert StringBits(s)[8 * p + 8..] == t[8 * p + 8..] + ByteBits(s[n]);
    }
  }

  /** Writing one bit through its byte changes that bit of the string and no other. */
  lemma PutStringBit(s: seq<Byte>, j: nat, b: bool)
    requires j < 8 * |s|
    ensures 0 <= PutBit(s[j / 8], j % 8, b) < 256
    ensures StringBits(s[j / 8 := PutBit(s[j / 8], j % 8, b)]) == StringBits(s)[j := b]
  {
    hide ByteBits, StringBits, PutBit;
    var p, k := j / 8, j % 8;
    PutBitIs(s[p], k, b);
    StringUpdate(s, p, PutBit(s[p], k, b));
    BitsOfByte(s, p);
    var all := StringBits(s);
    assert all == all[..8 * p] + all[8 * p..8 * p + 8] + all[8 * p + 8..];
  }

  // ---------------------------------------------------------------------------
  // Storing and fetching
  // ---------------------------------------------------------------------------

  lemma Splice(was: seq<bool>, field: seq<bool>, offset: nat, j: nat)
    requires j < |field| && offset + |field| <= |was|
    ensures (was[..offset] + field[..j] + was[offset + j..])[offset + j := field[j]]
         == was[..offset] + field[..j + 1] + was[offset + (j + 1)..]
  {
  }

  method SetUnsigned(p: array<Byte>, offset: nat, bits: nat, value: nat)
    requires offset + bits <= 8 * p.Length
    modifies p
    ensures SameOutside(old(p[..]), p[..], offset, bits)
    ensures FieldBits(p[..], offset, bits) == Digits(value, bits)
  {
    hide StringBits, Digits, PutBit;
    ghost var was, field := StringBits(p[..]), Digits(value, bits);
    var j := 0;
    assert was[..offset] + field[..0] + was[offset..] == was;
    while j < bits
      invariant 0 <= j <= bits
      invariant StringBits(p[..]) == was[..offset] + field[..j] + was[offset + j..]
    {
      DigitsAt(value, bits, j);
      var bitval := value / Pow2(bits - 1 - j) % 2 != 0;
      var o := offset + j;
      PutStringBit(p[..], o, bitval);
      ghost var next := p[..][o / 8 := PutBit(p[o / 8], o % 8, bitval)];
      p[o / 8] := PutBit(p[o / 8], o % 8, bitval);
      assert p[..] == next;
      Splice(was, field, offset, j);
      j := j + 1;
    }
    assert field[..bits] == field;
  }

  method GetUnsigned(p: array<Byte>, offset: nat, bits: nat) returns (value: nat)
    requires offset + bits <= 8 * p.Length && bits <= 64
    ensures value == Value(FieldBits(p[..], offset, bits))
  {
    hide StringBits, Value, Pow2;
    ValueOfNothing();
    WordPowers();
    ghost var all := StringBits(p[..]);
    assert all[offset..offset] == [];
    value := 0;
    var j := 0;
    while j < bits
      invariant 0 <= j <= bits && value == Value(all[offset..offset + j])
    {
      var o := offset + j;
      BitOfString(p[..], o);
      var bitval := p[o / 8] / Pow2(7 - o % 8) % 2;
      ValueMore(all[offset..o], all[o]);
      assert all[offset..o + 1] == all[offset..o] + [all[o]];
      ValueBound(all[offset..o + 1]);
      PowMonotone(j + 1, 64);
      SmallMod(2 * value, TWO_64);
      value := AsUnsigned(2 * value) + bitval;
      j := j + 1;
    }
  }

  /** Remainders digit by digit. */
  lemma HalfRemainder(x: nat, p: nat)
    requires p > 0
    ensures x % (2 * p) == 2 * (x / 2 % p) + x % 2
  {
    var q, r := x / 2 / p, x / 2 % p;
    assert x / 2 == p * q + r;
    assert x == 2 * p * q + (2 * r + x % 2);
    QuotientIs(x, 2 * p, q, 2 * r + x % 2);
  }

  lemma {:induction false} ValueDigitsMod(x: nat, n: nat)
    ensures Value(Digits(x, n)) == x % Pow2(n)
  {
    if n == 0 {
    } else {
      ValueDigitsMod(x / 2, n - 1);
      ValueMore(Digits(x / 2, n - 1), x % 2 == 1);
      HalfRemainder(x, Pow2(n - 1));
    }
  }

  // ---------------------------------------------------------------------------
  // Overflow
  // ---------------------------------------------------------------------------

  /** 0, or 1 for overflow and -1 for underflow, and the value to use instead. */
  datatype Check = Check(code: int, limit: int)

  function CheckUnsigned(value: nat, incr: int, bits: nat, policy: Policy, limit: int): Check
    requires 0 < bits < 64
  {
    var max := Pow2(bits) - 1;
    var maxincr := AsSigned(AsUnsigned(max - value));
    var minincr := AsSigned(AsUnsigned(0 - value));
    var wrapped := AsUnsigned(value + incr) % Pow2(bits);
    if value > max || (incr > 0 && incr > maxincr) then
      match policy
      case Wrap => Check(1, wrapped)
      case Sat => Check(1, max)
      case Fail => Check(1, limit)
    else if incr < 0 && incr < minincr then
      match policy
      case Wrap => Check(1, wrapped)
      case Sat => Check(-1, 0)
      case Fail => Check(-1, limit)
    else Check(0, limit)
  }

  /** The sum, cut to the width by masks on its unsigned form. */
  function WrapSigned(value: int, incr: int, bits: nat): int
    requires 0 < bits < 64
  {
    var c := AsUnsigned(AsUnsigned(value) + AsUnsigned(incr));
    var low := c % Pow2(bits);
    AsSigned(if c / Pow2(bits - 1) % 2 == 1 then AsUnsigned(low - Pow2(bits)) else low)
  }

  /** The room left above and below is computed in 64 bits, where it can wrap around. */
  function CheckSigned(value: int, incr: int, bits: nat, policy: Policy, limit: int): Check
    requires 0 < bits < 64
  {
    var max := Pow2(bits - 1) - 1;
    var min := -max - 1;
    var maxincr, minincr := AsSigned(AsUnsigned(max - value)), AsSigned(AsUnsigned(min - value));
    if value > max || incr > maxincr || (value >= 0 && incr > 0 && incr > maxincr) then
      match policy
      case Wrap => Check(1, WrapSigned(value, incr, bits))
      case Sat => Check(1, max)
      case Fail => Check(1, limit)
    else if value < min || incr < minincr || (value < 0 && incr < 0 && incr < minincr) then
      match policy
      case Wrap => Check(1, WrapSigned(value, incr, bits))
      case Sat => Check(-1, min)
      case Fail => Check(-1, limit)
    else Check(0, limit)
  }

  lemma PowFacts(bits: nat)
    requires 0 < bits < 64
    ensures Pow2(bits) == 2 * Pow2(bits - 1) && Pow2(bits) <= TWO_63
  {
    WordPowers();
    PowMonotone(bits, 63);
  }

  lemma {:induction false} PowDivides(m: nat, n: nat) returns (k: nat)
    requires m <= n
    ensures Pow2(n) == k * Pow2(m)
  {
    if m == n {
      k := 1;
    } else {
      var h := PowDivides(m, n - 1);
      k := 2 * h;
    }
  }

  lemma MultipleIs(d: int, k: int, m: nat)
    requires m > 0 && d == k * m
    ensures d % m == 0
  {
    var q, r := d / m, d % m;
    assert (k - q) * m == r;
    assert k - q >= 1 ==> (k - q) * m >= m;
    assert k - q <= -1 ==> (k - q) * m <= -1 * m;
  }

  lemma SumOfMultiples(x: int, y: int, m: nat)
    requires m > 0 && x % m == 0 && y % m == 0
    ensures (x + y) % m == 0
  {
    var a, b := x / m, y / m;
    assert x == a * m && y == b * m;
    assert (a + b) * m == a * m + b * m;
    MultipleIs(x + y, a + b, m);
  }

  lemma RemainderCongruent(x: int, m: nat)
    requires m > 0
    ensures (x % m - x) % m == 0
  {
    assert x == m * (x / m) + x % m;
    assert -(x / m) * m == x % m - x;
    MultipleIs(x % m - x, -(x / m), m);
  }

  /** Reducing modulo a multiple of m does not change the residue modulo m. */
  lemma ReduceFirst(x: int, m: nat, k: nat, big: nat)
    requires m > 0 && big == k * m > 0
    ensures (x % big - x) % m == 0
  {
    var q := x / big;
    assert x == big * q + x % big;
    assert x % big - x == -(k * q) * m;
    MultipleIs(x % big - x, -(k * q), m);
  }

  lemma CongruentChain(x: int, y: int, z: int, bits: nat)
    requires Congruent(x, y, bits) && Congruent(y, z, bits)
    ensures Congruent(x, z, bits)
  {
    SumOfMultiples(x - y, y - z, Pow2(bits));
    assert (x - y) + (y - z) == x - z;
  }

  lemma AsUnsignedCongruent(x: int, bits: nat)
    requires bits <= 64
    ensures Congruent(AsUnsigned(x), x, bits)
  {
    hide Pow2;
    WordPowers();
    var k := PowDivides(bits, 64);
    ReduceFirst(x, Pow2(bits), k, TWO_64);
  }

  /** The low bits of the machine sum are congruent to the sum. */
  lemma LowBitsCongruent(x: int, bits: nat)
    requires bits <= 64
    ensures Congruent(AsUnsigned(x) % Pow2(bits), x, bits)
  {
    hide Pow2, AsUnsigned;
    AsUnsignedCongruent(x, bits);
    RemainderCongruent(AsUnsigned(x), Pow2(bits));
    CongruentChain(AsUnsigned(x) % Pow2(bits), AsUnsigned(x), x, bits);
  }

  /** What is found for a value that is itself too great: overflow, whatever the sum. */
  ghost predicate TooGreat(sum: int, bits: nat, signed: bool, policy: Policy, r: Check)
    requires bits > 0
  {
    && r.code == 1 && MinOf(bits, signed) <= r.limit <= MaxOf(bits, signed)
    && (policy.Sat? ==> r.limit == MaxOf(bits, signed))
    && (policy.Wrap? ==> Congruent(r.limit, sum, bits))
  }

  lemma UnsignedLimits(max: nat, value: nat)
    requires value <= max < TWO_63
    ensures AsSigned(AsUnsigned(max - value)) == max - value
    ensures AsSigned(AsUnsigned(0 - value)) == 0 - value
  {
    assert value > 0 ==> (0 - value) % TWO_64 == TWO_64 - value;
  }

  /** The unsigned check: overflow and underflow are the value or the sum leaving the range, and the
      limit is what the policy stores for it. */
  lemma UnsignedCheckIs(value: nat, incr: int, bits: nat, policy: Policy, limit: int)
    requires 0 < bits < 64 && IsInt64(incr) && value < TWO_64
    ensures var r := CheckUnsigned(value, incr, bits, policy, limit); var max := MaxOf(bits, false);
            && (r.code != 0 <==> value > max || !(0 <= value + incr <= max))
            && (r.code < 0 <==> value <= max && value + incr < 0 && !policy.Wrap?)
            && (value <= max && r.code != 0 && !policy.Fail? ==> Stored(value + incr, bits, false, policy, r.limit))
            && (value > max && !policy.Fail? ==> TooGreat(value + incr, bits, false, policy, r))
  {
    hide Pow2, Congruent;
    PowFacts(bits);
    var max := Pow2(bits) - 1;
    LowBitsCongruent(value + incr, bits);
    if value <= max {
      UnsignedLimits(max, value);
    }
  }

  /** The signed wrap is in range and congruent to the sum. */
  lemma WrapSignedIs(value: int, incr: int, bits: nat)
    requires 0 < bits < 64
    ensures var r := WrapSigned(value, incr, bits);
            MinOf(bits, true) <= r <= MaxOf(bits, true) && Congruent(r, value + incr, bits)
  {
    hide Pow2, Congruent, AsUnsigned;
    PowFacts(bits);
    var c := AsUnsigned(AsUnsigned(value) + AsUnsigned(incr));
    var low := c % Pow2(bits);
    TopBit(c, Pow2(bits - 1), Pow2(bits));
    SumCongruent(value, incr, bits);
    NegativeForm(low, Pow2(bits));
    MinusWidth(low, value + incr, bits);
  }

  /** The top bit of the low part tells whether it is at least half the range. */
  lemma TopBit(c: nat, half: nat, m: nat)
    requires half > 0 && m == 2 * half
    ensures c / half % 2 == 1 <==> c % m >= half
    ensures c % m < m
  {
    var q, r := c / m, c % m;
    assert c == m * q + r;
    if r >= half {
      assert c == half * (2 * q + 1) + (r - half);
      QuotientIs(c, half, 2 * q + 1, r - half);
    } else {
      assert c == half * (2 * q) + r;
      QuotientIs(c, half, 2 * q, r);
    }
  }

  lemma NegativeForm(low: nat, m: nat)
    requires low < m <= TWO_63
    ensures AsSigned(AsUnsigned(low - m)) == low - m && AsSigned(low) == low
  {
    assert (low - m) % TWO_64 == TWO_64 + low - m;
  }

  lemma SumCongruent(value: int, incr: int, bits: nat)
    requires bits <= 64
    ensures Congruent(AsUnsigned(AsUnsigned(value) + AsUnsigned(incr)) % Pow2(bits), value + incr, bits)
  {
    hide Pow2, AsUnsigned;
    var a, b := AsUnsigned(value), AsUnsigned(incr);
    LowBitsCongruent(a + b, bits);
    AsUnsignedCongruent(value, bits);
    AsUnsignedCongruent(incr, bits);
    SumOfMultiples(a - value, b - incr, Pow2(bits));
    assert (a - value) + (b - incr) == (a + b) - (value + incr);
    CongruentChain(AsUnsigned(a + b) % Pow2(bits), a + b, value + incr, bits);
  }

  lemma MinusWidth(low: nat, sum: int, bits: nat)
    requires Congruent(low, sum, bits)
    ensures Congruent(low - Pow2(bits), sum, bits)
  {
    var m: int := Pow2(bits);
    MultipleIs(0 - m, -1, m);
    SumOfMultiples(low - sum, 0 - m, m);
    assert (low - sum) + (0 - m) == low - m - sum;
  }

  /** 64-bit arithmetic is exact on what fits and off by 2^64 on what is too great. */
  lemma SignedForm(x: int)
    ensures IsInt64(x) ==> AsSigned(AsUnsigned(x)) == x
    ensures TWO_63 <= x < TWO_64 ==> AsSigned(AsUnsigned(x)) == x - TWO_64
  {
    assert 0 - TWO_64 <= x < 0 ==> x % TWO_64 == x + TWO_64;
  }

  /** The signed check of every 64-bit value: overflow and underflow are the value or the sum leaving
      the range. The limit is what the policy stores if the value fits, or is too great. */
  lemma SignedCheckIs(value: int, incr: int, bits: nat, policy: Policy, limit: int)
    requires 0 < bits < 64 && IsInt64(value) && IsInt64(incr)
    ensures var r := CheckSigned(value, incr, bits, policy, limit);
            var min, max := MinOf(bits, true), MaxOf(bits, true);
            && (r.code != 0 <==> !(min <= value <= max) || !(min <= value + incr <= max))
            && (min <= value <= max ==> (r.code < 0 <==> value + incr < min && !policy.Wrap?))
            && (min <= value <= max && r.code != 0 && !policy.Fail? ==>
                  Stored(value + incr, bits, true, policy, r.limit))
            && (value > max && !policy.Fail? ==> TooGreat(value + incr, bits, true, policy, r))
            && (value < min && policy.Wrap? ==> min <= r.limit <= max && Congruent(r.limit, value + incr, bits))
  {
    hide Pow2, Congruent, WrapSigned, AsUnsigned;
    PowFacts(bits);
    WrapSignedIs(value, incr, bits);
    SignedForm(MaxOf(bits, true) - value);
    SignedForm(MinOf(bits, true) - value);
  }

  /** Setting a signed field to a number that is too small: saturation stores the least number of the
      field if and only if the number is greater than the greatest one minus 2^63. Below that the room
      above it is computed as negative, and the greatest number is stored. */
  lemma SaturatesDownExactlyWhen(value: int, bits: nat, limit: int)
    requires 0 < bits < 64 && IsInt64(value) && value < MinOf(bits, true)
    ensures var r := CheckSigned(value, 0, bits, Sat, limit);
            && (Stored(value, bits, true, Sat, r.limit) <==> value > MaxOf(bits, true) - TWO_63)
            && r.limit == if value > MaxOf(bits, true) - TWO_63 then MinOf(bits, true) else MaxOf(bits, true)
  {
    hide Pow2, Congruent, AsUnsigned;
    PowFacts(bits);
    SignedForm(MaxOf(bits, true) - value);
  }

  lemma SmallMultiple(d: int, m: nat)
    requires m > 0 && d % m == 0 && 0 - m < d < m
    ensures d == 0
  {
    var k := d / m;
    assert d == k * m;
    assert k >= 1 ==> k * m >= m;
    assert k <= -1 ==> k * m <= -1 * m;
  }

  lemma DifferenceOfMultiples(x: int, y: int, m: nat)
    requires m > 0 && x % m == 0 && y % m == 0
    ensures (x - y) % m == 0
  {
    var a, b := x / m, y / m;
    assert x == a * m && y == b * m;
    assert (a - b) * m == a * m - b * m;
    MultipleIs(x - y, a - b, m);
  }

  /** A range as wide as the modulus holds one representative of each residue, so wrapping has
      one possible result. */
  lemma OneRepresentative(r: int, q: int, sum: int, bits: nat, signed: bool)
    requires bits > 0
    requires Stored(sum, bits, signed, Wrap, r) && Stored(sum, bits, signed, Wrap, q)
    ensures r == q
  {
    DifferenceOfMultiples(r - sum, q - sum, Pow2(bits));
    assert (r - sum) - (q - sum) == r - q;
    assert Pow2(bits) == 2 * Pow2(bits - 1);
    SmallMultiple(r - q, Pow2(bits));
  }

  // ---------------------------------------------------------------------------
  // The commands
  // ---------------------------------------------------------------------------

  lemma FieldInRange(s: seq<Byte>, offset: nat, bits: nat, signed: bool)
    requires 0 < bits && offset + bits <= 8 * |s|
    ensures MinOf(bits, signed) <= Field(s, offset, bits, signed) <= MaxOf(bits, signed)
  {
    ValueBound(FieldBits(s, offset, bits));
    assert Pow2(bits) == 2 * Pow2(bits - 1);
  }

  method GetSigned(p: array<Byte>, offset: nat, bits: nat) returns (value: int)
    requires 0 < bits < 64 && offset + bits <= 8 * p.Length
    ensures value == Field(p[..], offset, bits, true)
  {
    hide FieldBits, Value, Pow2, AsUnsigned;
    var u := GetUnsigned(p, offset, bits);
    ValueBound(FieldBits(p[..], offset, bits));
    PowFacts(bits);
    NegativeForm(u, Pow2(bits));
    TopBit(u, Pow2(bits - 1), Pow2(bits));
    SmallMod(u, Pow2(bits));
    value := AsSigned(u);
    if u / Pow2(bits - 1) % 2 == 1 {
      value := AsSigned(AsUnsigned(u - Pow2(bits)));
    }
  }

  /** Storing a number that fits. */
  method SetField(p: array<Byte>, offset: nat, bits: nat, signed: bool, value: int)
    requires 0 < bits < 64 && offset + bits <= 8 * p.Length
    requires MinOf(bits, signed) <= value <= MaxOf(bits, signed)
    modifies p
    ensures SameOutside(old(p[..]), p[..], offset, bits) && Field(p[..], offset, bits, signed) == value
  {
    hide FieldBits, Value, Pow2, Digits, AsUnsigned, StringBits;
    var u := AsUnsigned(value);
    PowFacts(bits);
    SetUnsigned(p, offset, bits, u);
    ValueDigitsMod(u, bits);
    LowBits(value, bits);
  }

  /** The low bits of the unsigned form of a number between -2^bits and 2^bits. */
  lemma LowBits(value: int, bits: nat)
    requires bits < 64 && 0 - Pow2(bits) <= value < Pow2(bits)
    ensures AsUnsigned(value) % Pow2(bits) == if value < 0 then value + Pow2(bits) else value
  {
    hide Pow2, AsUnsigned;
    var m := Pow2(bits);
    LowBitsCongruent(value, bits);
    var low := AsUnsigned(value) % m;
    var k := (low - value) / m;
    assert low - value == k * m;
    assert k >= 2 ==> k * m >= 2 * m;
    assert k <= -1 ==> k * m <= -1 * m;
    assert k == 1 ==> k * m == m;
  }

  /** The field now holds what the policy makes of the sum, and the reply is that number. */
  ghost predicate Incremented(s: seq<Byte>, offset: nat, bits: nat, signed: bool, policy: Policy, sum: int,
      reply: Reply)
    requires 0 < bits && offset + bits <= 8 * |s|
  {
    && reply == Number(Field(s, offset, bits, signed))
    && Stored(sum, bits, signed, policy, Field(s, offset, bits, signed))
  }

  lemma RangeFits(bits: nat, signed: bool)
    requires 0 < bits < 64
    ensures 0 - TWO_63 <= MinOf(bits, signed) <= MaxOf(bits, signed) < TWO_63
    ensures !signed ==> MinOf(bits, signed) == 0
  {
    PowFacts(bits);
  }

  /** A sum in range is computed exactly in 64 bits. */
  lemma ExactSum(sum: int, bits: nat, signed: bool)
    requires 0 < bits < 64 && MinOf(bits, signed) <= sum <= MaxOf(bits, signed)
    ensures AsSigned(AsUnsigned(sum)) == sum && (!signed ==> AsUnsigned(sum) == sum)
    ensures forall policy :: Stored(sum, bits, signed, policy, sum)
  {
    PowFacts(bits);
    assert sum < 0 ==> sum % TWO_64 == TWO_64 + sum;
  }

  /** BITFIELD INCRBY on one field. A failed increment is answered with nil. */
  method IncrBy(p: array<Byte>, offset: nat, bits: nat, signed: bool, policy: Policy, incr: int) returns (reply: Reply)
    requires 0 < bits < 64 && offset + bits <= 8 * p.Length && IsInt64(incr)
    modifies p
    ensures SameOutside(old(p[..]), p[..], offset, bits)
    ensures var sum := Field(old(p[..]), offset, bits, signed) + incr;
            if policy.Fail? && !(MinOf(bits, signed) <= sum <= MaxOf(bits, signed))
            then reply == Nil && p[..] == old(p[..])
            else Incremented(p[..], offset, bits, signed, policy, sum, reply)
  {
    hide FieldBits, Value, Pow2, StringBits, AsUnsigned, CheckSigned, CheckUnsigned, MinOf, MaxOf, Congruent;
    FieldInRange(p[..], offset, bits, signed);
    RangeFits(bits, signed);
    var oldval, newval: int;
    var check: Check;
    if signed {
      oldval := GetSigned(p, offset, bits);
      newval := AsSigned(AsUnsigned(oldval + incr));
      check := CheckSigned(oldval, incr, bits, policy, 0);
      SignedCheckIs(oldval, incr, bits, policy, 0);
    } else {
      oldval := GetUnsigned(p, offset, bits);
      newval := AsUnsigned(oldval + incr);
      check := CheckUnsigned(oldval, incr, bits, policy, 0);
      UnsignedCheckIs(oldval, incr, bits, policy, 0);
    }
    if check.code != 0 {
      newval := check.limit;
    } else {
      ExactSum(oldval + incr, bits, signed);
    }
    reply := Nil;
    if !(check.code != 0 && policy.Fail?) {
      reply := Number(newval);
      SetField(p, offset, bits, signed, newval);
    }
  }

  /** The argument of BITFIELD SET as the field's own kind takes it. */
  function Argument(i64: int, signed: bool): int {
    if signed then i64 else AsUnsigned(i64)
  }

  /** Saturation turns the wrong way: a signed number so small that the room above it overflows. */
  predicate Misjudged(arg: int, bits: nat, signed: bool, policy: Policy)
    requires bits > 0
  {
    signed && policy.Sat? && arg <= MaxOf(bits, true) - TWO_63
  }

  lemma SetCheckIs(arg: int, bits: nat, signed: bool, policy: Policy, check: Check)
    requires 0 < bits < 64 && (if signed then IsInt64(arg) else 0 <= arg < TWO_64)
    requires check == if signed then CheckSigned(arg, 0, bits, policy, 0) else CheckUnsigned(arg, 0, bits, policy, 0)
    ensures check.code != 0 <==> !(MinOf(bits, signed) <= arg <= MaxOf(bits, signed))
    ensures check.code != 0 && !policy.Fail? ==>
      if Misjudged(arg, bits, signed, policy) then check.limit == MaxOf(bits, signed)
      else Stored(arg, bits, signed, policy, check.limit)
    ensures check.code != 0 && !policy.Fail? ==> MinOf(bits, signed) <= check.limit <= MaxOf(bits, signed)
  {
    hide Pow2, Congruent, CheckSigned, CheckUnsigned, AsUnsigned;
    PowFacts(bits);
    if signed {
      SignedCheckIs(arg, 0, bits, policy, 0);
      if arg < MinOf(bits, true) {
        SaturatesDownExactlyWhen(arg, bits, 0);
      }
    } else {
      UnsignedCheckIs(arg, 0, bits, policy, 0);
    }
  }

  lemma InRangeIsJudged(arg: int, bits: nat, signed: bool, policy: Policy)
    requires 0 < bits < 64 && MinOf(bits, signed) <= arg <= MaxOf(bits, signed)
    ensures !Misjudged(arg, bits, signed, policy)
  {
    PowFacts(bits);
  }

  /** BITFIELD SET on one field: the reply is what was there. A number that does not fit is stored as
      the policy says, except that saturation turns the wrong way when it is misjudged. */
  method Set(p: array<Byte>, offset: nat, bits: nat, signed: bool, policy: Policy, i64: int) returns (reply: Reply)
    requires 0 < bits < 64 && offset + bits <= 8 * p.Length && IsInt64(i64)
    modifies p
    ensures SameOutside(old(p[..]), p[..], offset, bits)
    ensures var arg := Argument(i64, signed);
            if policy.Fail? && !(MinOf(bits, signed) <= arg <= MaxOf(bits, signed))
            then reply == Nil && p[..] == old(p[..])
            else
              && reply == Number(Field(old(p[..]), offset, bits, signed))
              && if Misjudged(arg, bits, signed, policy) then Field(p[..], offset, bits, signed) == MaxOf(bits, signed)
                 else Stored(arg, bits, signed, policy, Field(p[..], offset, bits, signed))
  {
    hide FieldBits, Value, Pow2, StringBits, AsUnsigned, CheckSigned, CheckUnsigned, MinOf, MaxOf, Congruent;
    var oldval: int;
    var newval := Argument(i64, signed);
    var check: Check;
    if signed {
      oldval := GetSigned(p, offset, bits);
      check := CheckSigned(newval, 0, bits, policy, 0);
    } else {
      oldval := GetUnsigned(p, offset, bits);
      check := CheckUnsigned(newval, 0, bits, policy, 0);
    }
    SetCheckIs(newval, bits, signed, policy, check);
    if check.code != 0 {
      newval := check.limit;
    } else {
      ExactSum(newval, bits, signed);
      InRangeIsJudged(newval, bits, signed, policy);
    }
    reply := Nil;
    if !(check.code != 0 && policy.Fail?) {
      reply := Number(oldval);
      SetField(p, offset, bits, signed, newval);
    }
  }

  lemma NoBitsOfNothing()
    ensures StringBits([]) == []
  {
  }

  lemma LastByteBits(s: seq<Byte>)
    requires s != []
    ensures StringBits(s) == StringBits(s[..|s| - 1]) + ByteBits(s[|s| - 1])
  {
  }

  lemma SplitSlice(all: seq<bool>, i: nat, j: nat, k: nat)
    requires i <= j <= k <= |all|
    ensures all[i..k] == all[i..j] + all[j..k]
  {
  }

  lemma {:induction false} BitsOfSlice(s: seq<Byte>, p: nat, q: nat)
    requires p <= q <= |s|
    ensures StringBits(s)[8 * p..8 * q] == StringBits(s[p..q])
    decreases q
  {
    hide ByteBits, StringBits;
    if p == q {
      NoBitsOfNothing();
    } else {
      BitsOfSlice(s, p, q - 1);
      BitsOfByte(s, q - 1);
      assert s[p..q][..q - 1 - p] == s[p..q - 1];
      LastByteBits(s[p..q]);
      SplitSlice(StringBits(s), 8 * p, 8 * q - 8, 8 * q);
    }
  }

  lemma SliceOfSlice(all: seq<bool>, from: nat, to: nat, offset: nat, bits: nat)
    requires from <= offset && offset + bits <= to <= |all|
    ensures all[from..to][offset - from..offset - from + bits] == all[offset..offset + bits]
  {
    var inner, outer := all[from..to][offset - from..offset - from + bits], all[offset..offset + bits];
    forall i | 0 <= i < bits
      ensures inner[i] == outer[i]
    {
      assert inner[i] == all[from..to][offset - from + i];
    }
    assert inner == outer;
  }

  lemma FieldOfSlice(s: seq<Byte>, p: nat, q: nat, offset: nat, bits: nat)
    requires p <= q <= |s| && 8 * p <= offset && offset + bits <= 8 * q
    ensures FieldBits(s[p..q], offset - 8 * p, bits) == FieldBits(s, offset, bits)
  {
    hide StringBits;
    BitsOfSlice(s, p, q);
    SliceOfSlice(StringBits(s), 8 * p, 8 * q, offset, bits);
  }

  /** The string with zero bytes after its end. */
  function Extended(s: seq<Byte>, n: nat): (r: seq<Byte>)
    ensures |r| == |s| + n
  {
    s + seq(n, _ => 0)
  }

  /** BITFIELD GET: nine bytes around the field are copied, zero beyond the end of the string, and
      the field is fetched from the copy. */
  method Get(s: seq<Byte>, offset: nat, bits: nat, signed: bool) returns (value: int)
    requires 0 < bits < 64
    ensures value == Field(Extended(s, offset / 8 + 9), offset, bits, signed)
  {
    hide StringBits, Value, Pow2, FieldBits;
    var buf := new Byte[9](_ => 0);
    var byte := offset / 8;
    ghost var all := Extended(s, byte + 9);
    var i := 0;
    while i < 9
      invariant 0 <= i <= 9
      invariant forall k :: 0 <= k < i ==> buf[k] == all[byte + k]
      invariant forall k :: i <= k < 9 ==> buf[k] == 0
    {
      if i + byte >= |s| {
        break;
      }
      buf[i] := s[i + byte];
      i := i + 1;
    }
    assert buf[..] == all[byte..byte + 9];
    FieldOfSlice(all, byte, byte + 9, offset, bits);
    if signed {
      value := GetSigned(buf, offset - 8 * byte, bits);
    } else {
      value := GetUnsigned(buf, offset - 8 * byte, bits);
    }
  }
}
