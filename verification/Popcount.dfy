/** Counting set bits: the loop that reduces seven 32-bit words at a time inside their lanes
    returns the number of set bits of the string.

    A 32-bit word is its value; `Lanes(b, ds)` is the word whose base-b digits are ds. Every
    reduction step of the loop body adds neighbouring digits, so the digits of a word sum to
    its number of set bits from the first step to the last. */
module Popcount {
  import opened Bytes
  import BitString

  const WORD: nat := 0x1_0000_0000

  // ---------------------------------------------------------------------------
  // Digits and lanes
  // ---------------------------------------------------------------------------

  function Sum(ds: seq<nat>): nat {
    if |ds| == 0 then 0 else ds[0] + Sum(ds[1..])
  }

  /** The n low bits of x, least significant first. */
  function Bits(x: nat, n: nat): (ds: seq<nat>)
    ensures |ds| == n && forall i :: 0 <= i < n ==> ds[i] < 2
  {
    if n == 0 then [] else [x % 2] + Bits(x / 2, n - 1)
  }

  /** The specification: the number of set bits of a byte string. */
  function SetBits(s: seq<Byte>): nat {
    if |s| == 0 then 0 else SetBits(s[..|s| - 1]) + Sum(Bits(s[|s| - 1], 8))
  }

  function Lanes(b: nat, ds: seq<nat>): nat {
    if |ds| == 0 then 0 else ds[0] + b * Lanes(b, ds[1..])
  }

  ghost predicate Below(ds: seq<nat>, b: nat) {
    forall i :: 0 <= i < |ds| ==> ds[i] < b
  }

  function PairSums(ds: seq<nat>): seq<nat> {
    if |ds| < 2 then [] else [ds[0] + ds[1]] + PairSums(ds[2..])
  }

  /** Bitwise and. */
  function And(x: nat, y: nat): nat {
    if x == 0 || y == 0 then 0 else (x % 2) * (y % 2) + 2 * And(x / 2, y / 2)
  }

  /** n copies of a lane of k ones followed by a lane of k zeros: 0x5.., 0x3.., 0x0F.. */
  function Mask(b: nat, n: nat): nat
    requires b > 0
  {
    if n == 0 then 0 else b - 1 + b * b * Mask(b, n - 1)
  }

  lemma AndZero(x: nat)
    ensures And(x, 0) == 0 && And(0, x) == 0
  {
  }

  lemma AndStep(a: nat, x: nat, c: nat, y: nat)
    requires a < 2 && c < 2
    ensures And(a + 2 * x, c + 2 * y) == a * c + 2 * And(x, y)
  {
    assert (a + 2 * x) % 2 == a && (a + 2 * x) / 2 == x;
    assert (c + 2 * y) % 2 == c && (c + 2 * y) / 2 == y;
  }

  lemma AndStep4(a: nat, x: nat, c: nat, y: nat)
    requires a < 4 && c < 4
    ensures And(a + 4 * x, c + 4 * y) == And(a, c) + 4 * And(x, y)
  {
    AndStep(a % 2, a / 2 + 2 * x, c % 2, c / 2 + 2 * y);
    AndStep(a / 2, x, c / 2, y);
    AndStep(a % 2, a / 2, c % 2, c / 2);
    AndStep(a / 2, 0, c / 2, 0);
  }

  lemma AndStep16(a: nat, x: nat, c: nat, y: nat)
    requires a < 16 && c < 16
    ensures And(a + 16 * x, c + 16 * y) == And(a, c) + 16 * And(x, y)
  {
    hide And;
    var a0, a1, c0, c1 := a % 4, a / 4, c % 4, c / 4;
    assert a == a0 + 4 * a1 && c == c0 + 4 * c1;
    AndStep4(a0, a1, c0, c1);
    AndStep4(a0, a1 + 4 * x, c0, c1 + 4 * y);
    AndStep4(a1, x, c1, y);
  }

  /** Bitwise and works digit by digit in the bases the loop body uses. */
  lemma AndDigit(b: nat, a: nat, x: nat, c: nat, y: nat)
    requires b in {2, 4, 16} && a < b && c < b
    ensures And(a + b * x, c + b * y) == And(a, c) + b * And(x, y)
  {
    if b == 2 {
      AndStep(a, x, c, y);
      AndStep(a, 0, c, 0);
    } else if b == 4 {
      AndStep4(a, x, c, y);
    } else {
      AndStep16(a, x, c, y);
    }
  }

  lemma AndAllOnes(b: nat, a: nat)
    requires b in {2, 4, 16} && a < b
    ensures And(a, b - 1) == a
  {
    if b == 2 {
      AndStep(a, 0, 1, 0);
    } else if b == 4 {
      AndThree(a);
    } else {
      AndStep4(a % 4, a / 4, 3, 3);
      AndThree(a % 4);
      AndThree(a / 4);
    }
  }

  lemma AndThree(a: nat)
    requires a < 4
    ensures And(a, 3) == a
  {
    AndStep(a % 2, a / 2, 1, 1);
    AndStep(a / 2, 0, 1, 0);
  }

  function Evens(ds: seq<nat>): seq<nat> {
    if |ds| < 2 then [] else [ds[0]] + Evens(ds[2..])
  }

  /** Masking keeps every other digit, as a digit of twice the width. */
  lemma {:induction false} MaskKeepsEvens(b: nat, ds: seq<nat>, n: nat)
    requires b in {2, 4, 16} && |ds| == 2 * n && Below(ds, b)
    ensures And(Lanes(b, ds), Mask(b, n)) == Lanes(b * b, Evens(ds))
  {
    hide And;
    if n == 0 {
      AndZero(Lanes(b, ds));
    } else {
      var rest, mask := Lanes(b, ds[2..]), Mask(b, n - 1);
      var square := b * b;
      LanesOfPair(b, ds);
      MaskPair(b, square, ds[0], ds[1], rest, mask);
      MaskKeepsEvens(b, ds[2..], n - 1);
      assert Mask(b, n) == b - 1 + square * mask;
      assert Lanes(square, Evens(ds)) == ds[0] + square * Lanes(square, Evens(ds[2..]));
    }
  }

  lemma MaskPair(b: nat, square: nat, d0: nat, d1: nat, rest: nat, mask: nat)
    requires b in {2, 4, 16} && square == b * b && d0 < b && d1 < b
    ensures And(d0 + b * (d1 + b * rest), b - 1 + square * mask) == d0 + square * And(rest, mask)
  {
    hide And;
    AndZero(d1);
    MultiplyTwice(b, mask);
    AndDigit(b, d0, d1 + b * rest, b - 1, 0 + b * mask);
    AndDigit(b, d1, rest, 0, mask);
    AndAllOnes(b, d0);
    MultiplyTwice(b, And(rest, mask));
  }

  lemma Distribute(b: nat, x: nat, y: nat)
    ensures b * (x + y) == b * x + b * y
  {
  }

  lemma MultiplyTwice(b: nat, x: nat)
    ensures b * (b * x) == b * b * x
  {
  }

  lemma LanesOfPair(b: nat, ds: seq<nat>)
    requires |ds| >= 2
    ensures Lanes(b, ds) == ds[0] + b * (ds[1] + b * Lanes(b, ds[2..]))
    ensures Lanes(b, ds) == (ds[0] + b * ds[1]) + b * b * Lanes(b, ds[2..])
  {
    assert ds[1..][1..] == ds[2..];
    MultiplyTwice(b, Lanes(b, ds[2..]));
  }

  // ---------------------------------------------------------------------------
  // The three reduction steps
  // ---------------------------------------------------------------------------

  lemma {:induction false} PairSumsFacts(ds: seq<nat>, n: nat, bound: nat)
    requires |ds| == 2 * n && forall i :: 0 <= i < |ds| ==> ds[i] <= bound
    ensures |PairSums(ds)| == n && Sum(PairSums(ds)) == Sum(ds)
    ensures forall i :: 0 <= i < n ==> PairSums(ds)[i] <= 2 * bound
  {
    if n == 0 {
    } else {
      PairSumsFacts(ds[2..], n - 1, bound);
      assert ds[1..][1..] == ds[2..];
    }
  }

  /** x - ((x >> 1) & 0x55555555): bits become two-bit counts. */
  lemma {:induction false} ReduceBits(ds: seq<nat>, n: nat)
    requires |ds| == 2 * n && Below(ds, 2)
    ensures Lanes(2, ds) - And(Lanes(2, ds) / 2, Mask(2, n)) == Lanes(4, PairSums(ds))
  {
    if n == 0 {
    } else {
      var rest := Lanes(2, ds[2..]);
      LanesOfPair(2, ds);
      ReducePair(ds[0], ds[1], rest, Mask(2, n - 1));
      ReduceBits(ds[2..], n - 1);
    }
  }

  lemma ReducePair(d0: nat, d1: nat, rest: nat, mask: nat)
    requires d0 < 2 && d1 < 2
    ensures And((d0 + 2 * (d1 + 2 * rest)) / 2, 1 + 4 * mask) == d1 + 4 * And(rest / 2, mask)
  {
    assert (d0 + 2 * (d1 + 2 * rest)) / 2 == d1 + 2 * rest;
    assert rest == rest % 2 + 2 * (rest / 2);
    AndStep(d1, rest, 1, 2 * mask);
    AndStep(rest % 2, rest / 2, 0, mask);
  }

  /** (x & m) + ((x >> k) & m): neighbouring digits are masked apart and added. */
  lemma {:induction false} ReduceDigits(b: nat, ds: seq<nat>, n: nat)
    requires b in {2, 4, 16} && |ds| == 2 * n && Below(ds, b) && n > 0
    ensures And(Lanes(b, ds), Mask(b, n)) + And(Lanes(b, ds) / b, Mask(b, n)) == Lanes(b * b, PairSums(ds))
  {
    hide And, Lanes, Mask, Evens, PairSums;
    var shifted := ds[1..] + [0];
    ShiftDigits(b, ds);
    MaskKeepsEvens(b, ds, n);
    MaskKeepsEvens(b, shifted, n);
    EvensPlusOdds(b * b, ds, shifted);
  }

  lemma {:induction false} ShiftDigits(b: nat, ds: seq<nat>)
    requires b in {2, 4, 16} && |ds| > 0 && Below(ds, b)
    ensures Lanes(b, ds) / b == Lanes(b, ds[1..] + [0])
  {
    AppendZero(b, ds[1..]);
    DropDigit(b, ds[0], Lanes(b, ds[1..]));
  }

  lemma DropDigit(b: nat, d: nat, x: nat)
    requires b in {2, 4, 16} && d < b
    ensures (d + b * x) / b == x
  {
    if b == 2 {
    } else if b == 4 {
    } else {
    }
  }

  lemma {:induction false} AppendZero(b: nat, ds: seq<nat>)
    ensures Lanes(b, ds + [0]) == Lanes(b, ds)
  {
    if |ds| == 0 {
    } else {
      assert (ds + [0])[1..] == ds[1..] + [0];
      AppendZero(b, ds[1..]);
    }
  }

  lemma {:induction false} EvensPlusOdds(b: nat, ds: seq<nat>, shifted: seq<nat>)
    requires |shifted| == |ds| && |ds| % 2 == 0
    requires forall i :: 0 <= i < |ds| - 1 ==> shifted[i] == ds[i + 1]
    ensures Lanes(b, Evens(ds)) + Lanes(b, Evens(shifted)) == Lanes(b, PairSums(ds))
  {
    if |ds| < 2 {
    } else {
      EvensPlusOdds(b, ds[2..], shifted[2..]);
      Distribute(b, Lanes(b, Evens(ds[2..])), Lanes(b, Evens(shifted[2..])));
    }
  }

  // ---------------------------------------------------------------------------
  // One word, seven words
  // ---------------------------------------------------------------------------

  /** The three steps of the loop body on one word, in 32-bit arithmetic. */
  function Pairs(w: nat): nat {
    (w - And(w / 2, 0x55555555)) % WORD
  }

  function Nibbles(x: nat): nat {
    (And(x, 0x33333333) + And(x / 4, 0x33333333)) % WORD
  }

  function ByteLanes(x: nat): nat {
    And((x + x / 16) % WORD, 0x0F0F0F0F)
  }

  function Reduce(w: nat): nat {
    ByteLanes(Nibbles(Pairs(w)))
  }

  lemma MaskValues()
    ensures Mask(2, 16) == 0x55555555 && Mask(4, 8) == 0x33333333 && Mask(16, 4) == 0x0F0F0F0F
  {
    assert Mask(2, 4) == 0x55;
    assert Mask(2, 8) == 0x5555;
    assert Mask(2, 12) == 0x555555;
    assert Mask(4, 4) == 0x3333;
  }

  lemma Pow2Values()
    ensures Pow2(4) == 16 && Pow2(8) == 256 && Pow2(32) == WORD
  {
    assert Pow2(12) == 0x1000;
    assert Pow2(16) == 0x10000;
    assert Pow2(20) == 0x100000;
    assert Pow2(24) == 0x1000000;
    assert Pow2(28) == 0x10000000;
  }

  lemma {:induction false} LanesOfBits(x: nat, n: nat)
    requires x < Pow2(n)
    ensures Lanes(2, Bits(x, n)) == x
  {
    if n == 0 {
    } else {
      LanesOfBits(x / 2, n - 1);
    }
  }

  /** The word all of whose base-b digits are 1. */
  function Ones(b: nat, n: nat): nat {
    if n == 0 then 0 else 1 + b * Ones(b, n - 1)
  }

  lemma {:induction false} NibblesBound(ds: seq<nat>)
    requires forall i :: 0 <= i < |ds| ==> ds[i] <= 4
    ensures Lanes(16, ds) <= 4 * Ones(16, |ds|)
  {
    if |ds| == 0 {
    } else {
      NibblesBound(ds[1..]);
    }
  }

  /** ((x + (x >> 4)) & 0x0F0F0F0F): with digits below 8 the addition carries nothing. */
  lemma {:induction false} ReduceNibbles(ds: seq<nat>, n: nat)
    requires |ds| == 2 * n && n > 0 && Below(ds, 8)
    ensures And(Lanes(16, ds) + Lanes(16, ds) / 16, Mask(16, n)) == Lanes(256, PairSums(ds))
  {
    hide And, Lanes, Mask, Evens, PairSums, Added;
    var shifted := ds[1..] + [0];
    ShiftDigits(16, ds);
    var sums := Added(ds, shifted);
    LanesOfAdded(16, ds, shifted);
    MaskKeepsEvens(16, sums, n);
    EvensOfAdded(ds, shifted);
  }

  function Added(xs: seq<nat>, ys: seq<nat>): (zs: seq<nat>)
    requires |xs| == |ys|
    ensures |zs| == |xs| && forall i :: 0 <= i < |xs| ==> zs[i] == xs[i] + ys[i]
  {
    if |xs| == 0 then [] else [xs[0] + ys[0]] + Added(xs[1..], ys[1..])
  }

  lemma {:induction false} LanesOfAdded(b: nat, xs: seq<nat>, ys: seq<nat>)
    requires |xs| == |ys|
    ensures Lanes(b, Added(xs, ys)) == Lanes(b, xs) + Lanes(b, ys)
  {
    if |xs| == 0 {
    } else {
      LanesOfAdded(b, xs[1..], ys[1..]);
      assert Added(xs, ys)[1..] == Added(xs[1..], ys[1..]);
      Distribute(b, Lanes(b, xs[1..]), Lanes(b, ys[1..]));
    }
  }

  lemma {:induction false} EvensOfAdded(ds: seq<nat>, shifted: seq<nat>)
    requires |shifted| == |ds|
    requires forall i :: 0 <= i < |ds| - 1 ==> shifted[i] == ds[i + 1]
    ensures Evens(Added(ds, shifted)) == PairSums(ds)
  {
    if |ds| < 2 {
    } else {
      EvensOfAdded(ds[2..], shifted[2..]);
      assert Added(ds, shifted)[2..] == Added(ds[2..], shifted[2..]);
    }
  }

  lemma PairsStep(bits: seq<nat>)
    requires |bits| == 32 && Below(bits, 2) && Lanes(2, bits) < WORD
    ensures Pairs(Lanes(2, bits)) == Lanes(4, PairSums(bits))
  {
    hide And, Lanes, PairSums;
    MaskValues();
    ReduceBits(bits, 16);
  }

  lemma NibblesStep(twos: seq<nat>)
    requires |twos| == 16 && Below(twos, 3)
    ensures Nibbles(Lanes(4, twos)) == Lanes(16, PairSums(twos))
  {
    hide And, Lanes, PairSums, Sum;
    MaskValues();
    ReduceDigits(4, twos, 8);
    PairSumsFacts(twos, 8, 2);
    NibblesBound(PairSums(twos));
    assert Ones(16, 4) == 0x1111 && Ones(16, 8) == 0x11111111;
  }

  lemma BytesStep(fours: seq<nat>)
    requires |fours| == 8 && Below(fours, 5)
    ensures ByteLanes(Lanes(16, fours)) == Lanes(256, PairSums(fours))
  {
    hide And, Lanes, PairSums, Sum;
    NibblesBound(fours);
    assert Ones(16, 4) == 0x1111 && Ones(16, 8) == 0x11111111;
    ReduceNibbles(fours, 4);
    MaskValues();
  }

  lemma WordBits(w: nat)
    requires w < WORD
    ensures Lanes(2, Bits(w, 32)) == w
  {
    Pow2Values();
    LanesOfBits(w, 32);
  }

  lemma NoWrap(x: nat)
    requires x < WORD
    ensures x % WORD == x
  {
  }

  /** Four byte lanes, each at most 8, that sum to the number of set bits of the word. */
  lemma ReduceIsCounts(w: nat, bits: seq<nat>) returns (counts: seq<nat>)
    requires w < WORD && w == Lanes(2, bits) && |bits| == 32 && Below(bits, 2)
    ensures |counts| == 4 && (forall i :: 0 <= i < 4 ==> counts[i] <= 8)
    ensures Reduce(w) == Lanes(256, counts) && Sum(counts) == Sum(bits)
  {
    hide Lanes, PairSums, Pairs, Nibbles, ByteLanes, Sum;
    var twos := PairSums(bits);
    var fours := PairSums(twos);
    PairSumsFacts(bits, 16, 1);
    PairSumsFacts(twos, 8, 2);
    PairSumsFacts(fours, 4, 4);
    PairsStep(bits);
    NibblesStep(twos);
    BytesStep(fours);
    counts := PairSums(fours);
  }

  /** The number of set bits of a 32-bit word. */
  function WordCount(w: nat): nat {
    Sum(Bits(w, 32))
  }

  /** Seven reduced words summed before one multiplication gathers the lanes in the top byte. */
  function Gather(total: nat): nat {
    total % WORD * 0x01010101 % WORD / 0x1000000
  }

  /** A word by its four byte lanes. */
  datatype Quad = Quad(a: nat, b: nat, c: nat, d: nat) {
    function Packed(): nat {
      a + 0x100 * b + 0x10000 * c + 0x1000000 * d
    }

    function Total(): nat {
      a + b + c + d
    }

    predicate AtMost(m: nat) {
      a <= m && b <= m && c <= m && d <= m
    }

    function Plus(q: Quad): Quad {
      Quad(a + q.a, b + q.b, c + q.c, d + q.d)
    }
  }

  /** No lane overflows: with lanes of at most 56 the top byte is the sum of the four lanes. */
  lemma GatherIsSum(q: Quad)
    requires q.AtMost(56)
    ensures Gather(q.Packed()) == q.Total()
  {
    var Quad(a, b, c, d) := q;
    var t := q.Packed();
    NoWrap(t);
    var low := a + 0x100 * (a + b) + 0x10000 * (a + b + c) + 0x1000000 * (a + b + c + d);
    var high := (b + c + d) + 0x100 * (c + d) + 0x10000 * d;
    assert t * 0x01010101 == low + WORD * high;
    RemainderOf(low, high);
    TopByte(a + 0x100 * (a + b) + 0x10000 * (a + b + c), a + b + c + d);
  }

  lemma RemainderOf(low: nat, high: nat)
    requires low < WORD
    ensures (low + WORD * high) % WORD == low
  {
  }

  lemma TopByte(low: nat, top: nat)
    requires low < 0x1000000
    ensures (low + 0x1000000 * top) / 0x1000000 == top
  {
  }

  lemma FourLanes(q: Quad)
    ensures Lanes(256, [q.a, q.b, q.c, q.d]) == q.Packed() && Sum([q.a, q.b, q.c, q.d]) == q.Total()
  {
    var Quad(a, b, c, d) := q;
    assert [a, b, c, d][1..] == [b, c, d] && [b, c, d][1..] == [c, d] && [c, d][1..] == [d];
    assert Lanes(256, [d]) == d && Sum([d]) == d;
    assert Lanes(256, [c, d]) == c + 256 * d && Sum([c, d]) == c + d;
    assert Lanes(256, [b, c, d]) == b + 256 * (c + 256 * d) && Sum([b, c, d]) == b + (c + d);
  }

  /** ONE WORD. Reducing a word leaves four byte lanes of at most 8 that sum to its bit count. */
  lemma ReducedLanes(w: nat) returns (q: Quad)
    requires w < WORD
    ensures Reduce(w) == q.Packed() && q.Total() == WordCount(w) && q.AtMost(8)
  {
    WordBits(w);
    var ds := ReduceIsCounts(w, Bits(w, 32));
    q := Quad(ds[0], ds[1], ds[2], ds[3]);
    assert ds == [q.a, q.b, q.c, q.d];
    FourLanes(q);
  }

  // ---------------------------------------------------------------------------
  // Bytes
  // ---------------------------------------------------------------------------

  lemma {:induction false} BitsConcat(k: nat, x: nat, y: nat, n: nat)
    requires x < Pow2(k)
    ensures Sum(Bits(x + Pow2(k) * y, k + n)) == Sum(Bits(x, k)) + Sum(Bits(y, n))
  {
    if k == 0 {
      assert x + Pow2(0) * y == y;
    } else {
      var p := Pow2(k - 1);
      var v := x + Pow2(k) * y;
      assert v == x % 2 + 2 * (x / 2 + p * y) by { assert Pow2(k) * y == 2 * (p * y); }
      assert v % 2 == x % 2 && v / 2 == x / 2 + p * y;
      BitsConcat(k - 1, x / 2, y, n);
    }
  }

  /** The 32-bit little-endian load of four bytes. */
  function Word(s: seq<Byte>, p: nat): (w: nat)
    requires p + 4 <= |s|
    ensures w < WORD
  {
    var b0: nat, b1: nat, b2: nat, b3: nat := s[p], s[p + 1], s[p + 2], s[p + 3];
    b0 + 0x100 * (b1 + 0x100 * (b2 + 0x100 * b3))
  }

  lemma WordIsFourBytes(s: seq<Byte>, p: nat)
    requires p + 4 <= |s|
    ensures SetBits(s[..p + 4]) == SetBits(s[..p]) + WordCount(Word(s, p))
  {
    hide SetBits, Bits, Sum;
    var b0: nat, b1: nat, b2: nat, b3: nat := s[p], s[p + 1], s[p + 2], s[p + 3];
    FourByteCount(b0, b1, b2, b3, 8);
    SetBitsNext(s, p);
    SetBitsNext(s, p + 1);
    SetBitsNext(s, p + 2);
    SetBitsNext(s, p + 3);
  }

  lemma FourByteCount(b0: nat, b1: nat, b2: nat, b3: nat, n: nat)
    requires b0 < 256 && b1 < 256 && b2 < 256
    ensures Sum(Bits(b0 + 0x100 * (b1 + 0x100 * (b2 + 0x100 * b3)), 8 + (8 + (8 + n))))
         == Sum(Bits(b0, 8)) + Sum(Bits(b1, 8)) + Sum(Bits(b2, 8)) + Sum(Bits(b3, n))
  {
    hide Bits, Sum;
    ByteThen(b0, b1 + 0x100 * (b2 + 0x100 * b3), 8 + (8 + n));
    ByteThen(b1, b2 + 0x100 * b3, 8 + n);
    ByteThen(b2, b3, n);
  }

  lemma ByteThen(b: nat, high: nat, n: nat)
    requires b < 256
    ensures Sum(Bits(b + 0x100 * high, 8 + n)) == Sum(Bits(b, 8)) + Sum(Bits(high, n))
  {
    Pow2Values();
    BitsConcat(8, b, high, n);
  }

  lemma NibbleThen(l: nat, high: nat, n: nat)
    requires l < 16
    ensures Sum(Bits(l + 16 * high, 4 + n)) == Sum(Bits(l, 4)) + Sum(Bits(high, n))
  {
    Pow2Values();
    BitsConcat(4, l, high, n);
  }

  lemma SetBitsNext(s: seq<Byte>, p: nat)
    requires p < |s|
    ensures SetBits(s[..p + 1]) == SetBits(s[..p]) + Sum(Bits(s[p], 8))
  {
    assert s[..p + 1][..p] == s[..p];
  }

  const ROW0: seq<nat> := [0, 1, 1, 2, 1, 2, 2, 3, 1, 2, 2, 3, 2, 3, 3, 4]
  const ROW1: seq<nat> := [1, 2, 2, 3, 2, 3, 3, 4, 2, 3, 3, 4, 3, 4, 4, 5]
  const ROW2: seq<nat> := [2, 3, 3, 4, 3, 4, 4, 5, 3, 4, 4, 5, 4, 5, 5, 6]
  const ROW3: seq<nat> := [3, 4, 4, 5, 4, 5, 5, 6, 4, 5, 5, 6, 5, 6, 6, 7]
  const ROW4: seq<nat> := [4, 5, 5, 6, 5, 6, 6, 7, 5, 6, 6, 7, 6, 7, 7, 8]

  /** The 256-entry lookup table, in sixteen rows of sixteen. */
  const BITS_IN_BYTE: seq<nat> :=
    ROW0 + ROW1 + ROW1 + ROW2 + (ROW1 + ROW2 + ROW2 + ROW3) + (ROW1 + ROW2 + ROW2 + ROW3) + (ROW2 + ROW3 + ROW3 + ROW4)

  function Raised(k: nat, base: seq<nat>): (r: seq<nat>)
    ensures |r| == |base| && forall i :: 0 <= i < |base| ==> r[i] == k + base[i]
  {
    seq(|base|, i requires 0 <= i < |base| => k + base[i])
  }

  function FourRows(k: nat, base: seq<nat>): seq<nat> {
    Raised(k, base) + Raised(k + 1, base) + Raised(k + 1, base) + Raised(k + 2, base)
  }

  lemma FourRowsAt(k: nat, base: seq<nat>, r: nat, l: nat)
    requires |base| == 16 && r < 4 && l < 16
    ensures |FourRows(k, base)| == 64
    ensures FourRows(k, base)[16 * r + l] == k + [0, 1, 1, 2][r] + base[l]
  {
  }

  lemma SixteenRowsAt(base: seq<nat>, q: nat, r: nat, l: nat)
    requires |base| == 16 && q < 4 && r < 4 && l < 16
    ensures var t := FourRows(0, base) + FourRows(1, base) + FourRows(1, base) + FourRows(2, base);
            |t| == 256 && t[64 * q + (16 * r + l)] == [0, 1, 1, 2][q] + [0, 1, 1, 2][r] + base[l]
  {
    hide Raised, FourRows;
    FourRowsAt(0, base, r, l);
    FourRowsAt(1, base, r, l);
    FourRowsAt(2, base, r, l);
  }

  lemma RowsAreRaised()
    ensures |ROW0| == 16
    ensures ROW0 == Raised(0, ROW0) && ROW1 == Raised(1, ROW0) && ROW2 == Raised(2, ROW0)
    ensures ROW3 == Raised(3, ROW0) && ROW4 == Raised(4, ROW0)
  {
  }

  lemma NibbleRow(h: nat)
    requires h < 16
    ensures ROW0[h] == [0, 1, 1, 2][h / 4] + [0, 1, 1, 2][h % 4]
  {
  }

  lemma NibbleCount(h: nat)
    requires h < 16
    ensures Sum(Bits(h, 4)) == ROW0[h]
  {
    NibbleRow(h);
    PairCount(h % 4);
    PairCount(h / 4);
    assert Pow2(2) == 4;
    BitsConcat(2, h % 4, h / 4, 2);
  }

  lemma SumOfTwo(x: nat, y: nat)
    ensures Sum([x, y]) == x + y
  {
    assert [x, y][1..] == [y];
    assert Sum([y]) == y;
  }

  lemma PairCount(h: nat)
    requires h < 4
    ensures Sum(Bits(h, 2)) == [0, 1, 1, 2][h]
  {
    assert Bits(h, 2) == [h % 2, h / 2 % 2];
    SumOfTwo(h % 2, h / 2 % 2);
  }

  lemma TableEntry(h: nat, l: nat)
    requires h < 16 && l < 16
    ensures |BITS_IN_BYTE| == 256 && BITS_IN_BYTE[16 * h + l] == ROW0[h] + ROW0[l]
  {
    RowsAreRaised();
    SixteenRowsAt(ROW0, h / 4, h % 4, l);
    assert 16 * h + l == 64 * (h / 4) + (16 * (h % 4) + l);
    NibbleRow(h);
  }

  /** Every entry of the table is the number of set bits of its index. */
  lemma TableIsBitCount(b: Byte)
    ensures |BITS_IN_BYTE| == 256 && BITS_IN_BYTE[b] == Sum(Bits(b, 8))
  {
    var v: nat := b;
    var h, l := v / 16, v % 16;
    TableEntry(h, l);
    NibbleCount(h);
    NibbleCount(l);
    NibbleThen(l, h, 4);
  }

  lemma NoSetBits(s: seq<Byte>)
    ensures SetBits(s[..0]) == 0
  {
  }

  lemma BlockStep(s: seq<Byte>, p: nat, lanes: Quad, m: nat) returns (next: Quad)
    requires p + 4 <= |s| && lanes.AtMost(m)
    ensures next.Packed() == lanes.Packed() + Reduce(Word(s, p)) && next.AtMost(m + 8)
    ensures SetBits(s[..p + 4]) == SetBits(s[..p]) + (next.Total() - lanes.Total())
  {
    hide Reduce, Word, SetBits, WordCount;
    var q := ReducedLanes(Word(s, p));
    WordIsFourBytes(s, p);
    next := lanes.Plus(q);
  }

  lemma EmptyQuad()
    ensures var q := Quad(0, 0, 0, 0); q.Packed() == 0 && q.Total() == 0 && q.AtMost(0)
  {
  }

  /** SEVEN WORDS. Summed before the one multiplication, their lanes still do not overflow: the
      wrapped product and shift give the exact number of set bits of 28 bytes. */
  lemma SevenWords(s: seq<Byte>, p: nat)
    requires p + 28 <= |s|
    ensures Gather(Reduce(Word(s, p)) + Reduce(Word(s, p + 4)) + Reduce(Word(s, p + 8)) + Reduce(Word(s, p + 12))
                   + Reduce(Word(s, p + 16)) + Reduce(Word(s, p + 20)) + Reduce(Word(s, p + 24)))
         == SetBits(s[..p + 28]) - SetBits(s[..p])
  {
    hide *;
    var q := Quad(0, 0, 0, 0);
    EmptyQuad();
    q := BlockStep(s, p, q, 0);
    q := BlockStep(s, p + 4, q, 8);
    q := BlockStep(s, p + 8, q, 16);
    q := BlockStep(s, p + 12, q, 24);
    q := BlockStep(s, p + 16, q, 32);
    q := BlockStep(s, p + 20, q, 40);
    q := BlockStep(s, p + 24, q, 48);
    GatherIsSum(q);
  }

  /** One pass of the word loop. */
  method CountBlock(s: seq<Byte>, p: nat) returns (delta: nat)
    requires p + 28 <= |s|
    ensures SetBits(s[..p + 28]) == SetBits(s[..p]) + delta
  {
    hide *;
    SevenWords(s, p);
    delta := Gather(Reduce(Word(s, p)) + Reduce(Word(s, p + 4)) + Reduce(Word(s, p + 8)) + Reduce(Word(s, p + 12))
                   + Reduce(Word(s, p + 16)) + Reduce(Word(s, p + 20)) + Reduce(Word(s, p + 24)));
  }

  lemma {:induction false} DigitsCounted(x: nat, n: nat)
    ensures Sum(Bits(x, n)) == BitString.Count(BitString.Digits(x, n))
  {
    if n == 0 {
    } else {
      DigitsCounted(x / 2, n - 1);
      var front := BitString.Digits(x / 2, n - 1);
      assert (front + [x % 2 == 1])[..n - 1] == front;
    }
  }

  /** The specification agrees with the string seen as a sequence of bits. */
  lemma {:induction false} SetBitsAreCounted(s: seq<Byte>)
    ensures SetBits(s) == BitString.Count(BitString.StringBits(s))
  {
    if s == [] {
    } else {
      var n := |s| - 1;
      SetBitsAreCounted(s[..n]);
      DigitsCounted(s[n], 8);
      BitString.CountConcat(BitString.StringBits(s[..n]), BitString.ByteBits(s[n]));
    }
  }

  /** POPCOUNT. Single bytes up to a 4-byte boundary, then 28 bytes at a time, then the
      remaining bytes: the number of set bits, at every length and alignment. */
  method Popcount(s: seq<Byte>, address: nat) returns (bits: nat)
    ensures bits == SetBits(s) == BitString.Count(BitString.StringBits(s))
  {
    hide *;
    SetBitsAreCounted(s);
    bits := 0;
    var p, count := 0, |s|;
    NoSetBits(s);
    while (address + p) % 4 != 0 && count != 0
      invariant 0 <= p && 0 <= count && p + count == |s|
      invariant bits == SetBits(s[..p])
      decreases count
    {
      TableIsBitCount(s[p]);
      SetBitsNext(s, p);
      bits := bits + BITS_IN_BYTE[s[p]];
      p, count := p + 1, count - 1;
    }
    while count >= 28
      invariant 0 <= p && 0 <= count && p + count == |s|
      invariant bits == SetBits(s[..p])
    {
      var delta := CountBlock(s, p);
      bits := bits + delta;
      p, count := p + 28, count - 28;
    }
    while count != 0
      invariant 0 <= p && 0 <= count && p + count == |s|
      invariant bits == SetBits(s[..p])
      decreases count
    {
      TableIsBitCount(s[p]);
      SetBitsNext(s, p);
      bits := bits + BITS_IN_BYTE[s[p]];
      p, count := p + 1, count - 1;
    }
    assert s[..p] == s;
  }
}
