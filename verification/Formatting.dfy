/** How C++ output streams write numbers, and why what they write can be told apart. */
module Formatting {
  import opened Bitwise

  predicate IsDigit(c: char) {
    '0' <= c <= '9'
  }

  function DigitChar(d: nat): (c: char)
    requires d < 10
    ensures IsDigit(c) && (c as int) == ('0' as int) + d
  {
    (('0' as int) + d) as char
  }

  /** A hexadecimal digit; `ten` is the letter that stands for ten, 'a' or 'A'. */
  function HexChar(d: nat, ten: char): char
    requires d < 16 && 'A' <= ten <= 'a'
  {
    if d < 10 then DigitChar(d) else ((ten as int) + (d - 10)) as char
  }

  /** `oss << n` for an unsigned value in decimal. */
  function Decimal(n: nat): (s: string)
    ensures |s| > 0
    ensures forall c <- s :: IsDigit(c)
  {
    if n < 10 then [DigitChar(n)] else Decimal(n / 10) + [DigitChar(n % 10)]
  }

  /** `oss << n` for a signed value. */
  function SignedDecimal(n: int): string {
    if n < 0 then "-" + Decimal(-n) else Decimal(n)
  }

  /** `setw(width) << setfill('0') << hex << v` for v that fits: exactly `width` digits. */
  function PaddedHex(ten: char, v: nat, width: nat): (s: string)
    requires 'A' <= ten <= 'a'
    ensures |s| == width
  {
    if width == 0 then "" else PaddedHex(ten, v / 16, width - 1) + [HexChar(v % 16, ten)]
  }

  /** The number some digits stand for. */
  function DecimalValue(s: string): nat
    requires forall c <- s :: IsDigit(c)
  {
    if s == "" then 0
    else
      var last := s[|s| - 1];
      assert IsDigit(last);
      10 * DecimalValue(s[..|s| - 1]) + (last as int - '0' as int)
  }

  lemma {:induction false} DecimalValueOf(n: nat)
    ensures DecimalValue(Decimal(n)) == n
  {
    if n >= 10 {
      var s := Decimal(n);
      assert s[..|s| - 1] == Decimal(n / 10);
      DecimalValueOf(n / 10);
    } else {
      assert [DigitChar(n)][..0] == "";
    }
  }

  /** No digit is wasted. */
  lemma {:induction false} NoLeadingZero(n: nat)
    ensures Decimal(n)[0] == '0' <==> n == 0
  {
    if n >= 10 {
      NoLeadingZero(n / 10);
    }
  }

  lemma SignDecidesHead(n: int)
    ensures |SignedDecimal(n)| > 0 && (SignedDecimal(n)[0] == '-' <==> n < 0)
    ensures forall c <- SignedDecimal(n) :: c == '-' || IsDigit(c)
  {
    if n >= 0 {
      assert IsDigit(Decimal(n)[0]);
    }
  }

  /** The number a hexadecimal digit of either case stands for. */
  function HexDigitValue(c: char): nat {
    if IsDigit(c) then c as int - '0' as int
    else if 'a' <= c <= 'f' then 10 + (c as int - 'a' as int)
    else if 'A' <= c <= 'F' then 10 + (c as int - 'A' as int)
    else 0
  }

  /** The number some hexadecimal digits stand for. */
  function HexValue(s: string): nat {
    if s == "" then 0 else 16 * HexValue(s[..|s| - 1]) + HexDigitValue(s[|s| - 1])
  }

  predicate HexInCase(ten: char, c: char) {
    IsDigit(c) || 0 <= c as int - ten as int < 6
  }

  lemma HexCharReads(d: nat, ten: char)
    requires d < 16 && (ten == 'a' || ten == 'A')
    ensures HexDigitValue(HexChar(d, ten)) == d && HexInCase(ten, HexChar(d, ten))
  {
  }

  lemma HexValueGrows(s: string, c: char)
    ensures HexValue(s + [c]) == 16 * HexValue(s) + HexDigitValue(c)
  {
    assert (s + [c])[..|s|] == s;
  }

  /** What is written is read back, if it fits; and the letters have the case asked for. */
  lemma {:induction false} PaddedHexReads(ten: char, v: nat, width: nat)
    requires ten == 'a' || ten == 'A'
    ensures v < Shl(1, 4 * width) ==> HexValue(PaddedHex(ten, v, width)) == v
    ensures forall c <- PaddedHex(ten, v, width) :: HexInCase(ten, c)
  {
    hide HexValue, HexDigitValue, HexChar, HexInCase;
    if width > 0 {
      ShlNibble(4 * (width - 1));
      PaddedHexReads(ten, v / 16, width - 1);
      HexCharReads(v % 16, ten);
      HexValueGrows(PaddedHex(ten, v / 16, width - 1), HexChar(v % 16, ten));
    } else {
      assert HexValue("") == 0 by { NoDigits(); }
    }
  }

  lemma NoDigits()
    ensures HexValue("") == 0
  {
  }

  lemma ShlNibble(k: nat)
    ensures Shl(1, k + 4) == 16 * Shl(1, k)
  {
    assert Shl(1, k + 2) == 2 * Shl(1, k + 1);
    assert Shl(1, k + 4) == 2 * Shl(1, k + 3);
  }
}
