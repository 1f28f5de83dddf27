/** Decimal text, as printf and atoi have it. A char stands for a byte. */
module Decimal {

  predicate IsDigit(c: char) {
    '0' <= c <= '9'
  }

  predicate IsBlank(c: char) {
    c == ' ' || '\t' <= c <= '\r'
  }

  /** What isspace accepts: space, tab, newline, vertical tab, form feed, carriage return. */
  lemma BlankIsSpace(c: char)
    ensures IsBlank(c) <==> c as int in {32, 9, 10, 11, 12, 13}
  {
  }

  function DigitValue(c: char): (d: nat)
    requires IsDigit(c)
    ensures d < 10
  {
    (c as int) - ('0' as int)
  }

  function DigitChar(d: nat): (c: char)
    requires d < 10
    ensures IsDigit(c) && DigitValue(c) == d
  {
    ('0' as int + d) as char
  }

  /** The text of a number, without leading zeros. */
  function Print(n: nat): (s: string)
    ensures |s| > 0 && forall i :: 0 <= i < |s| ==> IsDigit(s[i])
  {
    if n < 10 then [DigitChar(n)] else Print(n / 10) + [DigitChar(n % 10)]
  }

  /** The number the leading digits of s go on to, after n was read. */
  function Read(n: nat, s: string): nat
    decreases |s|
  {
    if s == [] || !IsDigit(s[0]) then n else Read(10 * n + DigitValue(s[0]), s[1..])
  }

  /** Blanks, a sign, digits; anything after that is ignored and no digits mean 0. */
  function Atoi(s: string): int {
    if s == [] then 0
    else if IsBlank(s[0]) then Atoi(s[1..])
    else if s[0] == '-' then 0 - Read(0, s[1..])
    else if s[0] == '+' then Read(0, s[1..])
    else Read(0, s)
  }

  /** Reading digit after digit. */
  lemma {:induction false} ReadConcat(n: nat, s: string, rest: string)
    requires forall i :: 0 <= i < |s| ==> IsDigit(s[i])
    ensures Read(n, s + rest) == Read(Read(n, s), rest)
    decreases |s|
  {
    if s == [] {
      assert s + rest == rest;
    } else {
      assert (s + rest)[1..] == s[1..] + rest;
      ReadConcat(10 * n + DigitValue(s[0]), s[1..], rest);
    }
  }

  lemma {:induction false} ReadPrint(n: nat)
    ensures Read(0, Print(n)) == n
  {
    if n >= 10 {
      ReadPrint(n / 10);
      ReadConcat(0, Print(n / 10), [DigitChar(n % 10)]);
      assert Read(n / 10, [DigitChar(n % 10)]) == Read(10 * (n / 10) + n % 10, []);
    } else {
      assert Read(0, [DigitChar(n)]) == Read(n, []);
    }
  }

  /** Round trip: a printed number reads back, whatever follows it that is not a digit. */
  lemma AtoiPrint(n: nat, rest: string)
    requires rest == [] || !IsDigit(rest[0])
    ensures Atoi(Print(n) + rest) == n
  {
    var s := Print(n);
    assert (s + rest)[0] == s[0];
    assert IsDigit(s[0]);
    ReadConcat(0, s, rest);
    ReadPrint(n);
  }

  /** The text of an integer. */
  function Numeral(n: int): string {
    if n < 0 then "-" + Print(0 - n) else Print(n)
  }

  lemma ReadStops(n: nat, rest: string)
    requires rest == [] || !IsDigit(rest[0])
    ensures Read(n, rest) == n
  {
  }

  lemma ReadDigit(n: nat, c: char)
    requires IsDigit(c)
    ensures Read(n, [c]) == 10 * n + DigitValue(c) && DigitChar(DigitValue(c)) == c
  {
    assert [c][1..] == [];
  }

  lemma AtoiSigned(s: string)
    requires s != "" && s[0] in "-+"
    ensures Atoi(s) == if s[0] == '-' then 0 - Read(0, s[1..]) else Read(0, s[1..])
  {
  }

  lemma AtoiPlain(s: string)
    requires s == "" || (!IsBlank(s[0]) && s[0] !in "-+")
    ensures Atoi(s) == Read(0, s)
  {
  }

  lemma AtoiBlank(s: string)
    requires s != "" && IsBlank(s[0])
    ensures Atoi(s) == Atoi(s[1..])
  {
  }

  /** A sign is kept: the text of an integer reads back, whatever follows it that is not a digit. */
  lemma AtoiNumeral(n: int, rest: string)
    requires rest == [] || !IsDigit(rest[0])
    ensures Atoi(Numeral(n) + rest) == n
  {
    hide Print, Read, Atoi;
    if n < 0 {
      var s := Print(0 - n);
      var all := Numeral(n) + rest;
      assert all[0] == '-' && all[1..] == s + rest;
      AtoiSigned(all);
      ReadConcat(0, s, rest);
      ReadPrint(0 - n);
      ReadStops(0 - n, rest);
    } else {
      AtoiPrint(n, rest);
    }
  }

  /** Digits without a superfluous zero in front. */
  predicate IsNumeral(s: string) {
    s != "" && (forall i :: 0 <= i < |s| ==> IsDigit(s[i])) && (s[0] == '0' ==> |s| == 1)
  }

  lemma {:induction false} PrintIsNumeral(n: nat)
    ensures IsNumeral(Print(n)) && (n > 0 ==> Print(n)[0] != '0')
  {
    if n < 10 {
    } else {
      PrintIsNumeral(n / 10);
    }
  }

  lemma {:induction false} ReadGrows(n: nat, s: string)
    requires forall i :: 0 <= i < |s| ==> IsDigit(s[i])
    ensures Read(n, s) >= n
    decreases |s|
  {
    if s == "" {
    } else {
      ReadGrows(10 * n + DigitValue(s[0]), s[1..]);
    }
  }

  lemma PositiveNumeral(s: string)
    requires IsNumeral(s) && s[0] != '0'
    ensures Read(0, s) > 0
  {
    ReadGrows(DigitValue(s[0]), s[1..]);
  }

  /** A number has one numeral: the text is the printed number and no other. */
  lemma {:induction false} OneNumeral(s: string)
    requires IsNumeral(s)
    ensures s == Print(Read(0, s))
    decreases |s|
  {
    hide Read;
    var k := |s| - 1;
    var m := Read(0, s[..k]);
    assert s == s[..k] + [s[k]];
    ReadConcat(0, s[..k], [s[k]]);
    ReadDigit(m, s[k]);
    if k == 0 {
      assert s[..k] == [];
      ReadStops(0, []);
    } else {
      OneNumeral(s[..k]);
      PositiveNumeral(s[..k]);
    }
  }

  /** What atoi makes of blanks, a sign, digits and something that is no digit. */
  lemma {:induction false} AtoiParts(blanks: string, sign: string, digits: string, rest: string)
    requires (forall i :: 0 <= i < |blanks| ==> IsBlank(blanks[i])) && sign in {"", "-", "+"}
    requires (forall i :: 0 <= i < |digits| ==> IsDigit(digits[i])) && (rest == "" || !IsDigit(rest[0]))
    requires sign == "" && digits == "" && rest != "" ==> !IsBlank(rest[0]) && rest[0] !in "-+"
    ensures Atoi(blanks + sign + digits + rest) == if sign == "-" then 0 - Read(0, digits) else Read(0, digits)
    decreases |blanks|
  {
    hide Read, Atoi;
    var s := blanks + sign + digits + rest;
    if blanks == "" {
      var number := digits + rest;
      ReadConcat(0, digits, rest);
      ReadStops(Read(0, digits), rest);
      assert s == sign + number;
      if sign == "" {
        assert s == number;
        AtoiPlain(number);
      } else {
        assert s[0] == sign[0] && s[1..] == number;
        AtoiSigned(s);
      }
    } else {
      assert s[0] == blanks[0] && s[1..] == blanks[1..] + sign + digits + rest;
      AtoiBlank(s);
      AtoiParts(blanks[1..], sign, digits, rest);
    }
  }
}
