/** Decimal and hexadecimal text of integers, as the tester produces and
    consumes it: Python's str() of an int and int() of a string (base 10 and
    base 16), restricted to ASCII digits and underscores. */
module Numerals {
  import opened Types

  predicate IsDigit(c: char) { '0' <= c <= '9' }

  predicate IsHexDigit(c: char) { IsDigit(c) || 'a' <= c <= 'f' || 'A' <= c <= 'F' }

  function DigitValue(c: char): (d: nat)
    requires IsHexDigit(c)
    ensures d < 16
    ensures d < 10 <==> IsDigit(c)
  {
    if IsDigit(c) then c as int - '0' as int
    else if 'a' <= c <= 'f' then c as int - 'a' as int + 10
    else c as int - 'A' as int + 10
  }

  /** Every character of `s` is a digit of the given base. */
  predicate DigitsIn(s: string, base: nat) {
    forall i :: 0 <= i < |s| ==> IsHexDigit(s[i]) && DigitValue(s[i]) < base
  }

  /** The number a digit string denotes, most significant digit first. */
  function ValueOf(s: string, base: nat): nat
    requires DigitsIn(s, base)
  {
    if s == [] then 0 else ValueOf(s[..|s| - 1], base) * base + DigitValue(s[|s| - 1])
  }

  /** The upper-case digit for a value below 16. */
  function DigitChar(d: nat): (c: char)
    requires d < 16
    ensures IsHexDigit(c) && DigitValue(c) == d
  {
    if d < 10 then ('0' as int + d) as char else ('A' as int + d - 10) as char
  }

  /** The shortest digit string of `n` in `base`; its value is `n`. */
  function NatToDigits(n: nat, base: nat): (s: string)
    requires 2 <= base <= 16
    ensures |s| > 0 && DigitsIn(s, base)
    ensures ValueOf(s, base) == n
    ensures n > 0 ==> s[0] != '0'
    decreases n
  {
    if n < base then [DigitChar(n)]
    else
      DivMod(n, base);
      var high := NatToDigits(n / base, base);
      assert (high + [DigitChar(n % base)])[..|high|] == high;
      high + [DigitChar(n % base)]
  }

  lemma DivMod(n: nat, base: nat)
    requires 2 <= base <= n
    ensures (n / base) * base + n % base == n && 0 <= n % base < base
    ensures 0 < n / base < n
  {
  }

  /** Python's str() of a non-negative int. */
  function NatToString(n: nat): (s: string)
    ensures |s| > 0 && DigitsIn(s, 10) && ValueOf(s, 10) == n
  {
    NatToDigits(n, 10)
  }

  /** Python's str() of an int. */
  function IntToString(i: int): string {
    if i < 0 then "-" + NatToString(-i) else NatToString(i)
  }

  /** Python's str.isspace on the Latin-1 characters; int() ignores these
      around the number. */
  predicate IsSpace(c: char) {
    c == ' ' || '\t' <= c <= '\r' || 0x1C as char <= c <= 0x1F as char || c == 0x85 as char || c == 0xA0 as char
  }

  function StripLeft(s: string): (r: string)
    ensures |r| <= |s| && r == s[|s| - |r|..]
    ensures r == [] || !IsSpace(r[0])
    ensures s == [] || !IsSpace(s[0]) ==> r == s
  {
    if |s| > 0 && IsSpace(s[0]) then StripLeft(s[1..]) else s
  }

  function StripRight(s: string): (r: string)
    ensures |r| <= |s| && r == s[..|r|]
    ensures r == [] || !IsSpace(r[|r| - 1])
    ensures s == [] || !IsSpace(s[|s| - 1]) ==> r == s
  {
    if |s| > 0 && IsSpace(s[|s| - 1]) then StripRight(s[..|s| - 1]) else s
  }

  /** Python's str.strip(): the text without whitespace at either end; text
      that does not start or end with whitespace is unchanged. */
  function Strip(s: string): (r: string)
    ensures r == [] || (!IsSpace(r[0]) && !IsSpace(r[|r| - 1]))
    ensures s == [] || (!IsSpace(s[0]) && !IsSpace(s[|s| - 1])) ==> r == s
  {
    var t := StripLeft(s);
    var r := StripRight(t);
    assert r != [] ==> r[0] == t[0];
    r
  }

  /** Python's int() of a string in base 10: surrounding whitespace, an
      optional sign and one or more ASCII digits, which single underscores
      may group; anything else raises ValueError (None here). */
  function ParseInt(text: string): Option<int> {
    ParseDecimal(Strip(text))
  }

  /** The digits of `s` once the underscores grouping them are dropped,
      when `s` is digits of the base with single underscores allowed only
      between two digits; None otherwise. */
  function Ungroup(s: string, base: nat): (r: Option<string>)
    ensures r.Some? ==> |r.value| > 0 && DigitsIn(r.value, base)
    ensures r.Some? ==> |r.value| <= |s| && s[0] == r.value[0]
    ensures |s| > 0 && DigitsIn(s, base) ==> r == Some(s)
    ensures |s| > 0 && s[0] == '_' ==> r == None
    ensures |s| > 0 && s[|s| - 1] == '_' ==> r == None
  {
    if |s| == 0 || !IsHexDigit(s[0]) || DigitValue(s[0]) >= base then None
    else if |s| == 1 then Some(s)
    else
      var rest := if s[1] == '_' then s[2..] else s[1..];
      DigitsTail(s, base);
      match Ungroup(rest, base)
      case None => None
      case Some(t) =>
        assert rest[|rest| - 1] == s[|s| - 1];
        PrependDigit(s[0], t, base);
        Some([s[0]] + t)
  }

  /** Digits of a base, two or more, are their first and the digits after
      it, with no underscore among them. */
  lemma DigitsTail(s: string, base: nat)
    requires |s| >= 2
    ensures DigitsIn(s, base) ==> s[1] != '_' && DigitsIn(s[1..], base) && s == [s[0]] + s[1..]
  {
    if DigitsIn(s, base) {
      assert IsHexDigit(s[1]);
      assert forall i :: 0 <= i < |s| - 1 ==> s[1..][i] == s[i + 1];
    }
  }

  /** A digit of the base before digits of the base. */
  lemma PrependDigit(c: char, t: string, base: nat)
    requires IsHexDigit(c) && DigitValue(c) < base && DigitsIn(t, base)
    ensures DigitsIn([c] + t, base)
  {
    forall i | 0 <= i < |[c] + t|
      ensures IsHexDigit(([c] + t)[i]) && DigitValue(([c] + t)[i]) < base
    {
      if i > 0 {
        assert ([c] + t)[i] == t[i - 1];
      }
    }
  }

  /** int() of text without surrounding whitespace. */
  function ParseDecimal(s: string): Option<int> {
    var unsigned := if |s| > 0 && (s[0] == '+' || s[0] == '-') then s[1..] else s;
    match Ungroup(unsigned, 10)
    case None => None
    case Some(d) =>
      var v: int := ValueOf(d, 10);
      Some(if |s| > 0 && s[0] == '-' then -v else v)
  }

  /** Python's int(s, 16): surrounding whitespace, an optional sign, an
      optional 0x or 0X (which one underscore may follow), and one or more
      hexadecimal digits of either case, grouped as in base 10. */
  function ParseHex(text: string): Option<int> {
    ParseHexDigits(Strip(text))
  }

  /** int(s, 16) of text without surrounding whitespace. */
  function ParseHexDigits(s: string): Option<int> {
    var unsigned := if |s| > 0 && (s[0] == '+' || s[0] == '-') then s[1..] else s;
    var digits :=
      if |unsigned| >= 2 && unsigned[0] == '0' && (unsigned[1] == 'x' || unsigned[1] == 'X') then
        if |unsigned| >= 3 && unsigned[2] == '_' then unsigned[3..] else unsigned[2..]
      else unsigned;
    match Ungroup(digits, 16)
    case None => None
    case Some(d) =>
      var v: int := ValueOf(d, 16);
      Some(if |s| > 0 && s[0] == '-' then -v else v)
  }

  /** str() never puts whitespace at either end. */
  lemma IntToStringUnstripped(i: int)
    ensures Strip(IntToString(i)) == IntToString(i)
  {
    var s := IntToString(i);
    if i < 0 {
      var d := NatToString(-i);
      assert s[|s| - 1] == d[|d| - 1] && IsHexDigit(d[|d| - 1]);
    } else {
      assert IsHexDigit(s[0]) && IsHexDigit(s[|s| - 1]);
    }
  }

  /** int(str(i)) == i. */
  lemma ParseIntOfIntToString(i: int)
    ensures ParseInt(IntToString(i)) == Some(i)
  {
    IntToStringUnstripped(i);
    if i < 0 {
      var d := NatToString(-i);
      assert ("-" + d)[1..] == d;
    }
  }

  /** A plain run of hexadecimal digits parses to its value. */
  lemma ParseHexOfDigits(s: string)
    requires |s| > 0 && DigitsIn(s, 16)
    ensures ParseHex(s) == Some(ValueOf(s, 16))
  {
    HexDigitNotSpace(s[0]);
    HexDigitNotSpace(s[|s| - 1]);
    UnsignedHex(s);
  }

  lemma HexDigitNotSpace(c: char)
    requires IsHexDigit(c)
    ensures !IsSpace(c)
  {
  }

  lemma UnsignedHex(s: string)
    requires |s| > 0 && DigitsIn(s, 16)
    ensures ParseHexDigits(s) == Some(ValueOf(s, 16))
  {
    assert IsHexDigit(s[0]) && s[0] != '+' && s[0] != '-';
    if |s| >= 2 {
      assert IsHexDigit(s[1]) && s[1] != 'x' && s[1] != 'X';
    }
  }

  /** Leading zeros do not change a digit string's value (terminals pad the
      checksum to four hexadecimal digits). */
  lemma {:induction false} ValueOfLeadingZero(s: string, base: nat)
    requires DigitsIn(s, base) && base > 0
    ensures DigitsIn("0" + s, base) && ValueOf("0" + s, base) == ValueOf(s, base)
  {
    if s != [] {
      var t := "0" + s;
      assert t[..|t| - 1] == "0" + s[..|s| - 1];
      ValueOfLeadingZero(s[..|s| - 1], base);
    }
  }

  /** Underscores group digits, one at a time and only between digits;
      after 0x in base 16 one may also lead. */
  lemma GroupedDigits()
    ensures ParseDecimal("1_0") == Some(10)
    ensures ParseDecimal("1__0") == None
    ensures ParseHexDigits("0x_f") == Some(15)
  {
    GroupedDecimal();
    DoubledUnderscore();
    assert "0x_f"[3..] == "f";
    assert Ungroup("f", 16) == Some("f");
  }

  lemma GroupedDecimal()
    ensures ParseDecimal("1_0") == Some(10)
  {
    assert Ungroup("0", 10) == Some("0");
    assert "1_0"[2..] == "0";
    assert "1_0"[1] == '_' && "1_0"[0] == '1';
    assert Ungroup("1_0", 10) == Some(['1'] + "0");
    assert ['1'] + "0" == "10";
    assert ValueOf("10", 10) == 10 by {
      assert "10"[..1] == "1";
    }
  }

  lemma DoubledUnderscore()
    ensures ParseDecimal("1__0") == None
  {
    assert "1__0"[2..] == "_0";
  }

}
