/** A byte string as a sequence of bits, the most significant bit of the first byte first. */
module BitString {
  import opened Bytes

  function Bit(b: bool): nat {
    if b then 1 else 0
  }

  /** The number written with these binary digits, most significant first. */
  function Value(bits: seq<bool>): nat {
    if bits == [] then 0 else 2 * Value(bits[..|bits| - 1]) + Bit(bits[|bits| - 1])
  }

  /** The n low binary digits of x, most significant first. */
  function Digits(x: nat, n: nat): (bits: seq<bool>)
    ensures |bits| == n
  {
    if n == 0 then [] else Digits(x / 2, n - 1) + [x % 2 == 1]
  }

  function ByteBits(b: Byte): (bits: seq<bool>)
    ensures |bits| == 8
  {
    Digits(b, 8)
  }

  function StringBits(s: seq<Byte>): (bits: seq<bool>)
    ensures |bits| == 8 * |s|
  {
    if s == [] then [] else StringBits(s[..|s| - 1]) + ByteBits(s[|s| - 1])
  }

  // ---------------------------------------------------------------------------
  // Numbers and their digits
  // ---------------------------------------------------------------------------

  lemma {:induction false} ValueBound(bits: seq<bool>)
    ensures Value(bits) < Pow2(|bits|)
  {
    if bits == [] {
    } else {
      ValueBound(bits[..|bits| - 1]);
    }
  }

  lemma ValueMore(bits: seq<bool>, b: bool)
    ensures Value(bits + [b]) == 2 * Value(bits) + Bit(b)
  {
    assert (bits + [b])[..|bits|] == bits;
  }

  lemma {:induction false} ValueDigits(x: nat, n: nat)
    requires x < Pow2(n)
    ensures Value(Digits(x, n)) == x
  {
    if n == 0 {
    } else {
      ValueDigits(x / 2, n - 1);
      ValueMore(Digits(x / 2, n - 1), x % 2 == 1);
    }
  }

  lemma {:induction false} DigitsValue(bits: seq<bool>)
    ensures Digits(Value(bits), |bits|) == bits
  {
    if bits == [] {
    } else {
      var front := bits[..|bits| - 1];
      DigitsValue(front);
      assert Value(bits) / 2 == Value(front);
      assert bits == front + [bits[|bits| - 1]];
    }
  }

  lemma Halve(x: nat, p: nat)
    requires p > 0
    ensures x / (2 * p) == x / 2 / p
  {
    var q := x / (2 * p);
    var r := x % (2 * p);
    assert x == 2 * p * q + r;
    assert x / 2 == p * q + r / 2 && r / 2 < p by {
      assert x == 2 * (p * q) + r;
    }
    QuotientIs(x / 2, p, q, r / 2);
  }

  lemma QuotientIs(x: nat, p: nat, q: nat, r: nat)
    requires p > 0 && x == p * q + r && r < p
    ensures x / p == q && x % p == r
  {
    var d := x / p - q;
    assert p * d == r - x % p;
    assert d >= 1 ==> p * d >= p;
    assert d <= -1 ==> p * d <= -1 * p;
  }

  lemma {:induction false} PowMonotone(m: nat, n: nat)
    requires m <= n
    ensures Pow2(m) <= Pow2(n)
  {
    if m == n {
    } else {
      PowMonotone(m, n - 1);
    }
  }

  lemma SmallMod(x: nat, m: nat)
    requires x < m
    ensures x % m == x
  {
  }

  /** Shifting a number right and looking at its lowest bit gives one of its digits. */
  lemma {:induction false} DigitAt(bits: seq<bool>, i: nat)
    requires i < |bits|
    ensures Value(bits) / Pow2(|bits| - 1 - i) % 2 == Bit(bits[i])
  {
    var n := |bits| - 1;
    if i == n {
    } else {
      DigitAt(bits[..n], i);
      Halve(Value(bits), Pow2(n - 1 - i));
    }
  }

  lemma {:induction false} DigitsAt(x: nat, n: nat, i: nat)
    requires i < n
    ensures Digits(x, n)[i] <==> x / Pow2(n - 1 - i) % 2 == 1
  {
    if i == n - 1 {
    } else {
      DigitsAt(x / 2, n - 1, i);
      Halve(x, Pow2(n - 2 - i));
    }
  }

  lemma Twice(p: nat, x: nat, q: nat)
    requires q == 2 * p
    ensures q * x == 2 * (p * x)
  {
  }

  lemma PowNext(n: nat)
    ensures Pow2(n + 1) == 2 * Pow2(n)
  {
  }

  lemma ValueOfNothing()
    ensures Value([]) == 0 && Pow2(0) == 1
  {
  }

  lemma {:induction false} ValueConcat(a: seq<bool>, b: seq<bool>)
    ensures Value(a + b) == Pow2(|b|) * Value(a) + Value(b)
    decreases |b|
  {
    hide Value, Pow2;
    if b == [] {
      ValueOfNothing();
      assert a + b == a;
    } else {
      var n := |b| - 1;
      assert a + b == (a + b[..n]) + [b[n]];
      assert b == b[..n] + [b[n]];
      ValueMore(a + b[..n], b[n]);
      ValueMore(b[..n], b[n]);
      ValueConcat(a, b[..n]);
      PowNext(n);
      Twice(Pow2(n), Value(a), Pow2(n + 1));
    }
  }

  lemma {:induction false} ValueOfClear(bits: seq<bool>)
    ensures Value(bits) == 0 <==> forall i :: 0 <= i < |bits| ==> !bits[i]
  {
    if bits == [] {
    } else {
      var n := |bits| - 1;
      ValueOfClear(bits[..n]);
      assert forall i :: 0 <= i < n ==> bits[..n][i] == bits[i];
    }
  }

  lemma {:induction false} ValueOfSet(bits: seq<bool>)
    ensures Value(bits) == Pow2(|bits|) - 1 <==> forall i :: 0 <= i < |bits| ==> bits[i]
  {
    if bits == [] {
    } else {
      var n := |bits| - 1;
      ValueOfSet(bits[..n]);
      ValueBound(bits[..n]);
      assert forall i :: 0 <= i < n ==> bits[..n][i] == bits[i];
    }
  }

  // ---------------------------------------------------------------------------
  // Strings
  // ---------------------------------------------------------------------------

  lemma ByteValue(b: Byte)
    ensures Value(ByteBits(b)) == b
  {
    PowersOf2();
    ValueDigits(b, 8);
  }

  lemma PowersOf2()
    ensures Pow2(0) == 1 && Pow2(1) == 2 && Pow2(2) == 4 && Pow2(3) == 8 && Pow2(4) == 16
    ensures Pow2(5) == 32 && Pow2(6) == 64 && Pow2(7) == 128 && Pow2(8) == 256
  {
    assert Pow2(2) == 2 * Pow2(1) && Pow2(4) == 2 * Pow2(3) && Pow2(6) == 2 * Pow2(5) && Pow2(8) == 2 * Pow2(7);
  }

  /** A byte other than 0 has a set bit, one other than 255 a clear one; 0 and 255 have not. */
  lemma ByteHas(b: Byte, bit: bool)
    ensures b == (if bit then 0 else 255) <==> forall k :: 0 <= k < 8 ==> ByteBits(b)[k] != bit
  {
    PowersOf2();
    ByteValue(b);
    ValueOfClear(ByteBits(b));
    ValueOfSet(ByteBits(b));
  }

  /** The bits of a byte are where its place in the string says. */
  lemma {:induction false} BitsOfByte(s: seq<Byte>, p: nat)
    requires p < |s|
    ensures StringBits(s)[8 * p..8 * p + 8] == ByteBits(s[p])
  {
    var n := |s| - 1;
    if p == n {
    } else {
      BitsOfByte(s[..n], p);
      assert StringBits(s)[8 * p..8 * p + 8] == StringBits(s[..n])[8 * p..8 * p + 8];
    }
  }

  /** Bit j of the string, read from its byte by a shift and a mask. */
  lemma BitOfString(s: seq<Byte>, j: nat)
    requires j < 8 * |s|
    ensures StringBits(s)[j] <==> s[j / 8] / Pow2(7 - j % 8) % 2 == 1
  {
    var p, k := j / 8, j % 8;
    BitsOfByte(s, p);
    assert StringBits(s)[8 * p..8 * p + 8][k] == StringBits(s)[j];
    DigitsAt(s[p], 8, k);
  }

  // ---------------------------------------------------------------------------
  // Counting
  // ---------------------------------------------------------------------------

  /** The number of set bits. */
  function Count(bits: seq<bool>): nat {
    if |bits| == 0 then 0 else Count(bits[..|bits| - 1]) + (if bits[|bits| - 1] then 1 else 0)
  }

  lemma {:induction false} CountUpdate(bits: seq<bool>, j: nat, b: bool)
    requires j < |bits|
    ensures Count(bits[j := b]) == Count(bits) + (if b then 1 else 0) - (if bits[j] then 1 else 0)
  {
    var n := |bits| - 1;
    if j == n {
      assert bits[j := b][..n] == bits[..n];
    } else {
      assert bits[j := b][..n] == bits[..n][j := b];
      CountUpdate(bits[..n], j, b);
    }
  }

  lemma {:induction false} CountZero(bits: seq<bool>)
    ensures Count(bits) == 0 <==> forall j :: 0 <= j < |bits| ==> !bits[j]
  {
    if |bits| == 0 {
    } else {
      CountZero(bits[..|bits| - 1]);
      assert forall j :: 0 <= j < |bits| - 1 ==> bits[..|bits| - 1][j] == bits[j];
    }
  }

  lemma {:induction false} CountConcat(a: seq<bool>, b: seq<bool>)
    ensures Count(a + b) == Count(a) + Count(b)
    decreases |b|
  {
    if b == [] {
      assert a + b == a;
    } else {
      assert (a + b)[..|a + b| - 1] == a + b[..|b| - 1];
      CountConcat(a, b[..|b| - 1]);
    }
  }
}
