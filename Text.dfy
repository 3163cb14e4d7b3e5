/** The string conversions the tracker relies on: `Number.prototype.toString`
    for integers, `padStart(2, '0')`, `parseInt` with no radix, and the
    code-point order MongoDB uses to sort string fields. */
module Text {
  import opened Records

  predicate IsDigit(c: char) {
    '0' <= c <= '9'
  }

  predicate AllDigits(s: string) {
    forall i :: 0 <= i < |s| ==> IsDigit(s[i])
  }

  function DigitChar(d: nat): (c: char)
    requires d < 10
    ensures IsDigit(c) && c as int - '0' as int == d
  {
    (48 + d) as char
  }

  function DigitValue(c: char): nat
    requires IsDigit(c)
  {
    (c as int - '0' as int) as nat
  }

  /** Decimal text of a non-negative integer, most significant digit first. */
  function NatToString(n: nat): (s: string)
    ensures |s| > 0 && AllDigits(s)
    ensures n < 10 <==> |s| == 1
  {
    if n < 10 then [DigitChar(n)] else NatToString(n / 10) + [DigitChar(n % 10)]
  }

  /** `String(i)` for an integer value. */
  function IntToString(i: int): string {
    if i < 0 then "-" + NatToString(-i) else NatToString(i)
  }

  /** `s.padStart(width, fill)` for a one-character fill. */
  function PadStart(s: string, width: nat, fill: char): (r: string)
    ensures |r| == if |s| >= width then |s| else width
    ensures r[|r| - |s|..] == s
    ensures forall i :: 0 <= i < |r| - |s| ==> r[i] == fill
  {
    if |s| >= width then s else seq(width - |s|, _ => fill) + s
  }

  /** `n.toString().padStart(2, '0')`, the month encoding of the forms and routes. */
  function PadTwo(n: int): string {
    PadStart(IntToString(n), 2, '0')
  }

  /** The value of a string made only of decimal digits. */
  function DigitsValue(s: string): nat
    requires AllDigits(s)
  {
    if |s| == 0 then 0 else DigitsValue(s[..|s| - 1]) * 10 + DigitValue(s[|s| - 1])
  }

  /** The number of leading decimal digits of s. */
  function DigitPrefixLength(s: string): (n: nat)
    ensures n <= |s| && AllDigits(s[..n])
    ensures n < |s| ==> !IsDigit(s[n])
  {
    if |s| == 0 || !IsDigit(s[0]) then 0
    else
      var n := 1 + DigitPrefixLength(s[1..]);
      assert s[..n] == [s[0]] + s[1..][..n - 1];
      n
  }

  /** StrWhiteSpaceChar of ECMAScript: tab, line feed, vertical tab, form
      feed, carriage return, the space separators of Unicode category Zs,
      the line and paragraph separators, and the byte order mark. */
  predicate IsWhiteSpace(c: char) {
    var n := c as int;
    || 9 <= n <= 13 || n == 0x20 || n == 0xA0 || n == 0x1680 || 0x2000 <= n <= 0x200A
    || n == 0x2028 || n == 0x2029 || n == 0x202F || n == 0x205F || n == 0x3000 || n == 0xFEFF
  }

  /** `parseInt`'s first step: s without its leading white space. */
  function TrimStart(s: string): (t: string)
    ensures |t| <= |s|
    ensures |t| > 0 ==> !IsWhiteSpace(t[0])
  {
    if |s| > 0 && IsWhiteSpace(s[0]) then TrimStart(s[1..]) else s
  }

  predicate IsHexDigit(c: char) {
    IsDigit(c) || 'a' <= c <= 'f' || 'A' <= c <= 'F'
  }

  predicate AllHexDigits(s: string) {
    forall i :: 0 <= i < |s| ==> IsHexDigit(s[i])
  }

  function HexDigitValue(c: char): (d: nat)
    requires IsHexDigit(c)
    ensures d < 16
  {
    if IsDigit(c) then DigitValue(c)
    else if 'a' <= c <= 'f' then (c as int - 'a' as int + 10) as nat
    else (c as int - 'A' as int + 10) as nat
  }

  /** The value of a string made only of hexadecimal digits. */
  function HexValue(s: string): nat
    requires AllHexDigits(s)
  {
    if |s| == 0 then 0 else HexValue(s[..|s| - 1]) * 16 + HexDigitValue(s[|s| - 1])
  }

  /** The number of leading hexadecimal digits of s. */
  function HexPrefixLength(s: string): (n: nat)
    ensures n <= |s| && AllHexDigits(s[..n])
    ensures n < |s| ==> !IsHexDigit(s[n])
  {
    if |s| == 0 || !IsHexDigit(s[0]) then 0
    else
      var n := 1 + HexPrefixLength(s[1..]);
      assert s[..n] == [s[0]] + s[1..][..n - 1];
      n
  }

  /** The value of the leading decimal digits of s, None when there are none. */
  function DecimalField(s: string): Option<nat> {
    var n := DigitPrefixLength(s);
    if n == 0 then None else Some(DigitsValue(s[..n]))
  }

  /** The value of the leading hexadecimal digits of s, None when there are none. */
  function HexField(s: string): Option<nat> {
    var n := HexPrefixLength(s);
    if n == 0 then None else Some(HexValue(s[..n]))
  }

  /** Whether s opens with the `0x` or `0X` prefix of hexadecimal text. */
  predicate HasHexPrefix(s: string) {
    |s| >= 2 && s[0] == '0' && (s[1] == 'x' || s[1] == 'X')
  }

  /** `parseInt(s)` with no radix: leading white space is skipped, then the
      trimmed text is read by ParseTrimmed. */
  function ParseInt(s: string): (r: Option<int>)
    ensures |s| == 0 ==> r.None?
    ensures |s| > 0 && IsDigit(s[0]) && !HasHexPrefix(s) ==> r.Some? && r.value >= 0
    ensures |s| > 0 && !IsDigit(s[0]) && !IsWhiteSpace(s[0]) && s[0] != '-' && s[0] != '+' ==> r.None?
    ensures r.Some? && r.value < 0 ==> var t := TrimStart(s); |t| > 0 && t[0] == '-'
  {
    ParseTrimmed(TrimStart(s))
  }

  /** `parseInt` after its white space: an optional sign; a `0x`/`0X` prefix
      selects base 16, otherwise base 10; the value is that of the longest run
      of digits of the base, and None (JavaScript's NaN) when that run is
      empty. */
  function ParseTrimmed(t: string): Option<int> {
    var signed := |t| > 0 && (t[0] == '-' || t[0] == '+');
    var body := if signed then t[1..] else t;
    var field := if HasHexPrefix(body) then HexField(body[2..]) else DecimalField(body);
    if field.None? then None
    else if signed && t[0] == '-' then Some(0 - field.value as int)
    else Some(field.value)
  }

  /** Text that does not open with white space is its own trimmed form. */
  lemma {:induction false} TrimmedText(s: string)
    requires |s| == 0 || !IsWhiteSpace(s[0])
    ensures TrimStart(s) == s
  {
  }

  lemma {:induction false} DigitsValueOfNatToString(n: nat)
    ensures DigitsValue(NatToString(n)) == n
  {
    var s := NatToString(n);
    if n >= 10 {
      DigitsValueOfNatToString(n / 10);
      assert s[..|s| - 1] == NatToString(n / 10);
    }
  }

  lemma {:induction false} DigitPrefixOfDigits(s: string)
    requires AllDigits(s)
    ensures DigitPrefixLength(s) == |s|
  {
    if |s| > 0 {
      DigitPrefixOfDigits(s[1..]);
    }
  }

  /** The digit prefix of digits followed by a non-digit is the digits. */
  lemma {:induction false} DigitPrefixOfDigitsThen(s: string, rest: string)
    requires AllDigits(s) && (|rest| == 0 || !IsDigit(rest[0]))
    ensures DigitPrefixLength(s + rest) == |s|
  {
    if |s| > 0 {
      DigitPrefixOfDigitsThen(s[1..], rest);
      assert (s + rest)[1..] == s[1..] + rest;
    } else {
      assert s + rest == rest;
    }
  }

  /** parseInt reads back what toString wrote, and stops at the first
      character that is not a digit (unless that character is the `x` that
      turns the text "0" into a hex prefix). */
  lemma {:induction false} ParseIntOfIntToStringThen(i: int, rest: string)
    requires |rest| == 0 || (!IsDigit(rest[0]) && (i == 0 ==> rest[0] != 'x' && rest[0] != 'X'))
    ensures ParseInt(IntToString(i) + rest) == Some(i)
  {
    var n: nat := if i < 0 then -i else i;
    var body := NatToString(n) + rest;
    DecimalFieldOfDigitsThen(n, rest);
    NoHexPrefixOfDigitsThen(n, rest);
    assert IntToString(i) + rest == if i < 0 then "-" + body else body;
    SignedDecimalText(IntToString(i) + rest, body, n, i < 0);
  }

  /** Decimal text, or a minus sign followed by it, parses to its value or
      to the negation of that value. */
  lemma {:induction false} SignedDecimalText(x: string, body: string, v: nat, negative: bool)
    requires |body| > 0 && IsDigit(body[0]) && !HasHexPrefix(body) && DecimalField(body) == Some(v)
    requires x == if negative then "-" + body else body
    ensures ParseInt(x) == Some(if negative then 0 - v else v)
  {
    assert x[0] == if negative then '-' else body[0];
    TrimmedText(x);
    if negative {
      assert x[1..] == body;
    }
  }

  /** The decimal field of toString's digits followed by a non-digit is
      the number written. */
  lemma {:induction false} DecimalFieldOfDigitsThen(n: nat, rest: string)
    requires |rest| == 0 || !IsDigit(rest[0])
    ensures DecimalField(NatToString(n) + rest) == Some(n)
  {
    var digits := NatToString(n);
    var body := digits + rest;
    DigitsValueOfNatToString(n);
    DigitPrefixOfDigitsThen(digits, rest);
    assert body[..|digits|] == digits;
  }

  /** toString's digits open with "0x" only as the single digit 0 followed
      by an x. */
  lemma {:induction false} NoHexPrefixOfDigitsThen(n: nat, rest: string)
    requires |rest| == 0 || (!IsDigit(rest[0]) && (n == 0 ==> rest[0] != 'x' && rest[0] != 'X'))
    ensures var body := NatToString(n) + rest; IsDigit(body[0]) && !HasHexPrefix(body)
  {
    var digits := NatToString(n);
    var body := digits + rest;
    assert body[0] == digits[0];
    if |digits| >= 2 {
      assert body[1] == digits[1];
    } else if |body| >= 2 {
      assert digits == [DigitChar(n)];
      assert body[1] == rest[0];
    }
  }

  /** parseInt reads back what toString wrote. */
  lemma {:induction false} ParseIntOfIntToString(i: int)
    ensures ParseInt(IntToString(i)) == Some(i)
  {
    ParseIntOfIntToStringThen(i, "");
    assert IntToString(i) + "" == IntToString(i);
  }

  /** Leading white space does not change what parseInt reads. */
  lemma {:induction false} ParseIntSkipsWhiteSpace(w: string, s: string)
    requires forall i :: 0 <= i < |w| ==> IsWhiteSpace(w[i])
    ensures ParseInt(w + s) == ParseInt(s)
  {
    TrimStartSkips(w, s);
  }

  lemma {:induction false} TrimStartSkips(w: string, s: string)
    requires forall i :: 0 <= i < |w| ==> IsWhiteSpace(w[i])
    ensures TrimStart(w + s) == TrimStart(s)
  {
    if |w| == 0 {
      assert w + s == s;
    } else {
      assert (w + s)[0] == w[0];
      assert (w + s)[1..] == w[1..] + s;
      TrimStartSkips(w[1..], s);
    }
  }

  /** `0x` or `0X` followed by hexadecimal digits reads as a base-16 number. */
  lemma {:induction false} ParseIntOfHex(h: string)
    requires |h| > 0 && AllHexDigits(h)
    ensures ParseInt("0x" + h) == Some(HexValue(h))
    ensures ParseInt("0X" + h) == Some(HexValue(h))
  {
    HexPrefixOfHex(h);
    assert h[..|h|] == h;
    var lower, upper := "0x" + h, "0X" + h;
    TrimmedText(lower);
    TrimmedText(upper);
    assert lower[2..] == h && upper[2..] == h;
  }

  lemma {:induction false} HexPrefixOfHex(s: string)
    requires AllHexDigits(s)
    ensures HexPrefixLength(s) == |s|
  {
    if |s| > 0 {
      HexPrefixOfHex(s[1..]);
    }
  }

  /** A query month " 3" reads as March, as JavaScript reads it. */
  lemma SpacedMonthExample()
    ensures ParseInt(" 3") == Some(3)
  {
    assert IntToString(3) == "3";
    ParseIntOfIntToString(3);
    ParseIntSkipsWhiteSpace(" ", "3");
    assert " " + "3" == " 3";
  }

  /** A query month "0x1" reads as January. */
  lemma HexMonthExample()
    ensures ParseInt("0x1") == Some(1)
  {
    assert HexValue("1") == 1 by {
      assert "1"[..0] == [];
    }
    ParseIntOfHex("1");
    assert "0x" + "1" == "0x1";
  }

  /** A bare hex prefix, and a sign followed by white space, give NaN. */
  lemma NaNExamples()
    ensures ParseInt("0x") == None
    ensures ParseInt("- 3") == None
  {
    var dash := "- 3";
    TrimmedText(dash);
    assert dash[1..] == " 3";
    TrimmedText("0x");
  }

  /** A month or day number 0..99 padded to two digits. */
  lemma {:induction false} PadTwoDigits(n: int)
    requires 0 <= n <= 99
    ensures PadTwo(n) == [DigitChar(n / 10), DigitChar(n % 10)]
  {
    if n >= 10 {
      assert NatToString(n / 10) == [DigitChar(n / 10)];
    }
  }

  /** The padded month string parses back to the month number, as the
      budget-vs-actual route's `parseInt(month)` does with it. */
  lemma {:induction false} ParseIntOfPadTwo(n: int)
    requires 0 <= n <= 99
    ensures |PadTwo(n)| == 2
    ensures ParseInt(PadTwo(n)) == Some(n)
  {
    PadTwoDigits(n);
    ParseTwoDigits(n / 10, n % 10);
  }

  /** Two decimal digits parse to their two-digit value. */
  lemma {:induction false} ParseTwoDigits(hi: nat, lo: nat)
    requires hi < 10 && lo < 10
    ensures ParseInt([DigitChar(hi), DigitChar(lo)]) == Some(hi * 10 + lo)
  {
    var s := [DigitChar(hi), DigitChar(lo)];
    assert DecimalField(s) == Some(hi * 10 + lo) by {
      DigitPrefixOfDigits(s);
      assert s[..2] == s;
      assert s[..1] == [DigitChar(hi)];
      assert DigitsValue(s[..1]) == hi by {
        assert s[..1][..0] == [];
      }
    }
    assert IsDigit(s[0]) && !HasHexPrefix(s);
    SignedDecimalText(s, s, hi * 10 + lo, false);
  }

  lemma {:induction false} PadTwoInjective(a: int, b: int)
    requires 0 <= a <= 99 && 0 <= b <= 99
    ensures PadTwo(a) == PadTwo(b) <==> a == b
  {
    ParseIntOfPadTwo(a);
    ParseIntOfPadTwo(b);
  }

  /** Lexicographic order on code points: MongoDB's order for string fields
      without a collation. */
  predicate StrLe(a: string, b: string)
    decreases |a|
  {
    |a| == 0 || (|b| > 0 && (a[0] < b[0] || (a[0] == b[0] && StrLe(a[1..], b[1..]))))
  }

  lemma {:induction false} StrLeTotal(a: string, b: string)
    ensures StrLe(a, b) || StrLe(b, a)
    decreases |a|
  {
    if |a| > 0 && |b| > 0 && a[0] == b[0] {
      StrLeTotal(a[1..], b[1..]);
    }
  }

  lemma {:induction false} StrLeTransitive(a: string, b: string, c: string)
    requires StrLe(a, b) && StrLe(b, c)
    ensures StrLe(a, c)
    decreases |a|
  {
    if |a| > 0 && a[0] == b[0] && b[0] == c[0] {
      StrLeTransitive(a[1..], b[1..], c[1..]);
    }
  }

  lemma {:induction false} StrLeAntisymmetric(a: string, b: string)
    requires StrLe(a, b) && StrLe(b, a)
    ensures a == b
    decreases |a|
  {
    if |a| > 0 {
      StrLeAntisymmetric(a[1..], b[1..]);
      assert a == [a[0]] + a[1..];
      assert b == [b[0]] + b[1..];
    }
  }

  /** Sorting padded month strings as strings sorts them as numbers. */
  lemma {:induction false} PadTwoOrder(a: int, b: int)
    requires 0 <= a <= 99 && 0 <= b <= 99
    ensures StrLe(PadTwo(a), PadTwo(b)) <==> a <= b
  {
    PadTwoDigits(a);
    PadTwoDigits(b);
    TwoDigitsOrder(a / 10, a % 10, b / 10, b % 10);
  }

  /** Two-digit strings compare as their values do. */
  lemma {:induction false} TwoDigitsOrder(hi: nat, lo: nat, hi': nat, lo': nat)
    requires hi < 10 && lo < 10 && hi' < 10 && lo' < 10
    ensures StrLe([DigitChar(hi), DigitChar(lo)], [DigitChar(hi'), DigitChar(lo')]) <==> hi * 10 + lo <= hi' * 10 + lo'
  {
    var s, t := [DigitChar(hi), DigitChar(lo)], [DigitChar(hi'), DigitChar(lo')];
    assert s[1..] == [DigitChar(lo)] && t[1..] == [DigitChar(lo')];
    assert s[1..][1..] == [] && t[1..][1..] == [];
    assert StrLe(s[1..], t[1..]) <==> lo <= lo';
  }

  /** An amount text field: empty, or text that `parseFloat` turns into a
      number (Some) or into NaN (None). */
  datatype NumberText = Blank | Typed(parsed: Option<real>)

  /** `!isNaN(parseFloat(text)) && parseFloat(text) > 0` for non-empty text. */
  predicate ParsesPositive(text: NumberText) {
    text.Typed? && text.parsed.Some? && text.parsed.value > 0.0
  }
}
