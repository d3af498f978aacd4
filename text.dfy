/**
 * Bytes, characters and the character classes the response recognisers use.
 * Decoding maps each byte to the character with the same code, which is what
 * UTF-8 decoding gives for ASCII; every character the model ever sees is
 * therefore below U+0100, and the classes below are exact on that range.
 */
module Text {

  /** An octet, as `Stream.ReadByteAsync` yields it when it does not report the end. */
  type Byte = b: int | 0 <= b < 256

  const CR: Byte := 13
  const LF: Byte := 10

  function Decode(bs: seq<Byte>): (s: string)
    ensures |s| == |bs|
    ensures forall i :: 0 <= i < |bs| ==> s[i] as int == bs[i]
  {
    seq(|bs|, i requires 0 <= i < |bs| => bs[i] as char)
  }

  predicate IsAscii(s: string)
  {
    forall i :: 0 <= i < |s| ==> s[i] as int < 128
  }

  /** The UTF-8 encoding of one character: one byte below U+0080, two to four bytes of 128 or more above it. */
  function CharUtf8(c: char): (bs: seq<Byte>)
    ensures 1 <= |bs| <= 4
    ensures c as int < 128 ==> bs == [c as int]
    ensures c as int >= 128 ==> forall i :: 0 <= i < |bs| ==> bs[i] >= 128
  {
    var n := c as int;
    if n < 0x80 then [n]
    else if n < 0x800 then [0xC0 + n / 0x40, 0x80 + n % 0x40]
    else if n < 0x1_0000 then [0xE0 + n / 0x1000, 0x80 + n / 0x40 % 0x40, 0x80 + n % 0x40]
    else [0xF0 + n / 0x4_0000, 0x80 + n / 0x1000 % 0x40, 0x80 + n / 0x40 % 0x40, 0x80 + n % 0x40]
  }

  /** `Encoding.UTF8.GetBytes`: the characters' encodings one after the other; ASCII text keeps one byte per character. */
  function Encode(s: string): (bs: seq<Byte>)
    ensures |bs| >= |s|
    ensures IsAscii(s) ==> |bs| == |s| && forall i :: 0 <= i < |s| ==> bs[i] == s[i] as int
  {
    if s == [] then [] else Encode(s[..|s| - 1]) + CharUtf8(s[|s| - 1])
  }

  lemma DecodeEncode(s: string)
    requires IsAscii(s)
    ensures Decode(Encode(s)) == s
  {
  }

  lemma {:induction false} EncodeConcat(a: string, b: string)
    ensures Encode(a + b) == Encode(a) + Encode(b)
    decreases |b|
  {
    if b == [] {
      assert a + b == a;
    } else {
      var b' := b[..|b| - 1];
      assert (a + b)[..|a + b| - 1] == a + b';
      assert (a + b)[|a + b| - 1] == b[|b| - 1];
      EncodeConcat(a, b');
      calc {
        Encode(a + b);
        Encode(a + b') + CharUtf8(b[|b| - 1]);
        Encode(a) + Encode(b') + CharUtf8(b[|b| - 1]);
      }
    }
  }

  /** `\s` of .NET regular expressions: `[\f\n\r\t\v\x85\p{Z}]`, restricted to U+0000..U+00FF. */
  predicate IsRegexSpace(c: char)
  {
    var n := c as int;
    n == 32 || 9 <= n <= 13 || n == 0x85 || n == 0xA0
  }

  /** `\d` of .NET regular expressions (`\p{Nd}`), restricted to U+0000..U+00FF. */
  predicate IsDigit(c: char)
  {
    '0' <= c <= '9'
  }

  predicate AllDigits(s: string)
  {
    forall i :: 0 <= i < |s| ==> IsDigit(s[i])
  }

  predicate AllSpace(s: string)
  {
    forall i :: 0 <= i < |s| ==> IsRegexSpace(s[i])
  }

  predicate HasNoSpace(s: string)
  {
    forall i :: 0 <= i < |s| ==> !IsRegexSpace(s[i])
  }

  /**
   * A character that `ToUpperInvariant` changes, within U+0000..U+00FF: `a`-`z`,
   * the micro sign, `à`-`þ` except `÷`, and `ÿ`. (`ß` has no one-character
   * upper case form and is kept.)
   */
  predicate HasUpperForm(c: char)
  {
    var n := c as int;
    'a' <= c <= 'z' || n == 0xB5 || (0xE0 <= n <= 0xFE && n != 0xF7) || n == 0xFF
  }

  /** The invariant-culture upper case of a character below U+0100. */
  function UpperChar(c: char): (u: char)
    ensures HasUpperForm(c) <==> u != c
    ensures !HasUpperForm(u)
  {
    var n := c as int;
    if 'a' <= c <= 'z' || (0xE0 <= n <= 0xFE && n != 0xF7) then (n - 32) as char
    else if n == 0xB5 then 0x39C as char
    else if n == 0xFF then 0x178 as char
    else c
  }

  /** `String.ToUpperInvariant`, character by character. */
  function ToUpperInvariant(s: string): (u: string)
    ensures |u| == |s|
    ensures forall i :: 0 <= i < |s| ==> u[i] == UpperChar(s[i])
  {
    seq(|s|, i requires 0 <= i < |s| => UpperChar(s[i]))
  }

  /** No character of `s` has an upper-case form. */
  predicate IsUpperCase(s: string)
  {
    forall i :: 0 <= i < |s| ==> !HasUpperForm(s[i])
  }

  lemma UpperIsUpperCase(s: string)
    ensures IsUpperCase(ToUpperInvariant(s))
    ensures ToUpperInvariant(ToUpperInvariant(s)) == ToUpperInvariant(s)
  {
  }

  function DigitValue(c: char): nat
    requires IsDigit(c)
  {
    c as int - '0' as int
  }

  function DigitChar(d: nat): (c: char)
    requires d < 10
    ensures IsDigit(c) && DigitValue(c) == d
  {
    ('0' as int + d) as char
  }

  /** The value of a run of decimal digits, as `Int32.Parse` reads it (without its overflow). */
  function DigitsValue(s: string): nat
    requires AllDigits(s)
  {
    if s == [] then 0 else DigitsValue(s[..|s| - 1]) * 10 + DigitValue(s[|s| - 1])
  }

  /** Decimal text of a natural number, as `String.Format("{0}", n)` prints it. */
  function NatToString(n: nat): (s: string)
    ensures s != [] && AllDigits(s)
    ensures |s| > 1 ==> s[0] != '0'
    decreases n
  {
    if n < 10 then [DigitChar(n)] else NatToString(n / 10) + [DigitChar(n % 10)]
  }

  lemma {:induction false} DigitsValueOfNatToString(n: nat)
    ensures DigitsValue(NatToString(n)) == n
    decreases n
  {
    if n >= 10 {
      var p := NatToString(n / 10);
      assert NatToString(n)[..|NatToString(n)| - 1] == p;
      DigitsValueOfNatToString(n / 10);
    }
  }

  /** Decimal text of an integer, with a leading minus sign when it is negative. */
  function IntToString(i: int): (s: string)
    ensures s != [] && IsAscii(s)
    ensures forall k :: 0 <= k < |s| ==> s[k] == '-' || IsDigit(s[k])
    ensures i >= 0 ==> AllDigits(s) && DigitsValue(s) == i
  {
    if i < 0 then "-" + NatToString(-i)
    else
      DigitsValueOfNatToString(i);
      NatToString(i)
  }
}
