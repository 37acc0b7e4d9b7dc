/** `parseInt` and the decimal form `String(n)` that `Storage.setItem` stores
    for a number, over unbounded integers. */
module JsNumbers {
  import opened Wrappers
  import opened JsStrings

  predicate IsDecimalDigit(c: char) {
    '0' <= c <= '9'
  }

  predicate IsHexDigit(c: char) {
    IsDecimalDigit(c) || 'a' <= c <= 'f' || 'A' <= c <= 'F'
  }

  /** A digit of base 16 when `hex` holds, of base 10 otherwise. */
  predicate IsDigit(c: char, hex: bool) {
    if hex then IsHexDigit(c) else IsDecimalDigit(c)
  }

  function DigitValue(c: char): (d: nat)
    requires IsHexDigit(c)
    ensures d < 16
    ensures IsDecimalDigit(c) ==> d < 10
  {
    if IsDecimalDigit(c) then (c - '0') as nat
    else if 'a' <= c <= 'f' then (c - 'a') as nat + 10
    else (c - 'A') as nat + 10
  }

  /** The length of the longest prefix of `s` made of digits. */
  function DigitRunLength(s: string, hex: bool): (n: nat)
    ensures n <= |s|
    ensures forall i :: 0 <= i < n ==> IsDigit(s[i], hex)
    ensures n < |s| ==> !IsDigit(s[n], hex)
  {
    if s == [] || !IsDigit(s[0], hex) then 0 else 1 + DigitRunLength(s[1..], hex)
  }

  /** The value of a run of digits, most significant first. */
  function DigitsValue(ds: string, hex: bool): nat
    requires forall i :: 0 <= i < |ds| ==> IsDigit(ds[i], hex)
  {
    if ds == [] then 0
    else
      assert IsDigit(ds[|ds| - 1], hex);
      DigitsValue(ds[..|ds| - 1], hex) * (if hex then 16 else 10) + DigitValue(ds[|ds| - 1])
  }

  /** `s` after the leading whitespace and at most one sign `parseInt` skips. */
  function Unsigned(s: string): string {
    var t := TrimStart(s);
    if |t| > 0 && (t[0] == '-' || t[0] == '+') then t[1..] else t
  }

  /** The sign `parseInt` reads is a minus. */
  predicate IsNegative(s: string) {
    var t := TrimStart(s);
    |t| > 0 && t[0] == '-'
  }

  /** With no radix given, a `0x` or `0X` prefix selects base 16. */
  predicate HasHexPrefix(u: string) {
    |u| >= 2 && u[0] == '0' && (u[1] == 'x' || u[1] == 'X')
  }

  /** `parseInt(s)` with no radix: leading whitespace is skipped, one sign is
      accepted, a `0x`/`0X` prefix selects base 16, and the longest run of
      digits that follows is the value. With no digit there, the result is
      NaN, here `None`. */
  function ParseInt(s: string): (r: Option<int>)
    ensures (forall i :: 0 <= i < |s| ==> !IsDecimalDigit(s[i])) ==> r == None
  {
    var t := TrimStart(s);
    TrimStartDropsLeadingWhitespace(s);
    var u := Unsigned(s);
    var hex := HasHexPrefix(u);
    var digits := if hex then u[2..] else u;
    var n := DigitRunLength(digits, hex);
    assert n > 0 ==> exists i :: 0 <= i < |s| && IsDecimalDigit(s[i]) by {
      if n > 0 && !hex {
        assert digits[0] == s[|s| - |digits|];
      } else if n > 0 {
        assert u[0] == s[|s| - |u|];
      }
    }
    if n == 0 then None
    else
      var magnitude: int := DigitsValue(digits[..n], hex);
      Some(if IsNegative(s) then -magnitude else magnitude)
  }

  /** NaN whenever no digit follows the skipped whitespace and sign: the next
      character is not a decimal digit, or a `0x`/`0X` prefix is followed by
      no hex digit. */
  lemma ParseIntNaN(s: string)
    requires var u := Unsigned(s);
      if HasHexPrefix(u) then |u| == 2 || !IsHexDigit(u[2])
      else u == [] || !IsDecimalDigit(u[0])
    ensures ParseInt(s) == None
  {
  }

  /** Strings that start with something other than a number are NaN, even
      when digits come later. */
  lemma ParseIntNaNExamples()
    ensures ParseInt("x1") == None
    ensures ParseInt("abc123") == None
    ensures ParseInt("0x") == None
    ensures ParseInt("0xg") == None
  {
    ParseIntNaN("x1");
    ParseIntNaN("abc123");
    ParseIntNaN("0x");
    ParseIntNaN("0xg");
  }

  /** A leading run of decimal digits is read up to the first non-digit and
      is worth its value. */
  lemma ParseIntLeadingDigits(ds: string, rest: string)
    requires |ds| >= 1
    requires forall i :: 0 <= i < |ds| ==> IsDecimalDigit(ds[i])
    requires !HasHexPrefix(ds + rest)
    requires rest == [] || !IsDecimalDigit(rest[0])
    ensures ParseInt(ds + rest) == Some(DigitsValue(ds, false))
  {
    var s := ds + rest;
    TrimStartDropsLeadingWhitespace(s);
    assert s[0] == ds[0] && !IsWhitespace(s[0]);
    assert TrimStart(s) == s;
    assert Unsigned(s) == s && !IsNegative(s);
    DigitRunOfPrefix(ds, rest);
    assert s[..|ds|] == ds;
  }

  /** Leading whitespace is skipped. */
  lemma ParseIntSkipsWhitespace()
    ensures ParseInt(" 12") == Some(12)
  {
    assert TrimStart(" 12") == TrimStart("12") == "12";
    assert Unsigned(" 12") == "12" && !IsNegative(" 12");
    assert DigitRunLength("12", false) == 2;
    assert "12"[..2] == "12" && "12"[..1] == "1" && "1"[..0] == "";
    assert DigitsValue("12", false) == 12;
  }

  /** One sign is skipped. */
  lemma ParseIntSkipsSign()
    ensures ParseInt("+7") == Some(7)
  {
    assert TrimStart("+7") == "+7";
    assert Unsigned("+7") == "7" && !IsNegative("+7");
    assert DigitRunLength("7", false) == 1;
    assert "7"[..1] == "7" && "7"[..0] == "";
    assert DigitsValue("7", false) == 7;
  }

  /** A `0x` prefix reads hex, under a minus sign too. */
  lemma ParseIntReadsHex()
    ensures ParseInt("-0x1F") == Some(-31)
  {
    assert TrimStart("-0x1F") == "-0x1F";
    assert Unsigned("-0x1F") == "0x1F" && IsNegative("-0x1F");
    assert "0x1F"[2..] == "1F";
    assert DigitRunLength("1F", true) == 2;
    assert "1F"[..2] == "1F" && "1F"[..1] == "1" && "1"[..0] == "";
    assert DigitsValue("1F", true) == 31;
  }

  /** Reading stops at the first character that is not a digit. */
  lemma ParseIntStopsAtNonDigit()
    ensures ParseInt("10px") == Some(10)
  {
    assert "10" + "px" == "10px";
    ParseIntLeadingDigits("10", "px");
    assert "10"[..1] == "1" && "1"[..0] == "";
    assert DigitsValue("10", false) == 10;
  }

  /** The digit run of `ds + rest` is `ds` when `rest` does not start with a
      digit. */
  lemma {:induction false} DigitRunOfPrefix(ds: string, rest: string)
    requires forall i :: 0 <= i < |ds| ==> IsDecimalDigit(ds[i])
    requires rest == [] || !IsDecimalDigit(rest[0])
    ensures DigitRunLength(ds + rest, false) == |ds|
  {
    if ds != [] {
      DigitRunOfPrefix(ds[1..], rest);
      assert (ds + rest)[1..] == ds[1..] + rest;
    } else {
      assert ds + rest == rest;
    }
  }

  function DigitChar(d: nat): (c: char)
    requires d < 10
    ensures IsDecimalDigit(c) && DigitValue(c) == d
  {
    ('0' as int + d) as char
  }

  /** `String(n)` for a non-negative integer: its decimal digits, most
      significant first, with no leading zero. */
  function NatToString(n: nat): (s: string)
    ensures |s| >= 1
    ensures forall i :: 0 <= i < |s| ==> IsDecimalDigit(s[i])
    ensures s[0] == '0' ==> n == 0
  {
    if n < 10 then [DigitChar(n)] else NatToString(n / 10) + [DigitChar(n % 10)]
  }

  /** The digits `NatToString` writes are worth `n`. */
  lemma {:induction false} DigitsValueOfNatToString(n: nat)
    ensures DigitsValue(NatToString(n), false) == n
  {
    var s := NatToString(n);
    if n >= 10 {
      DigitsValueOfNatToString(n / 10);
      assert s[..|s| - 1] == NatToString(n / 10);
    }
  }

  /** `parseInt(String(n)) == n`: the stored decimal form reads back as the
      same number. */
  lemma ParseIntOfNatToString(n: nat)
    ensures ParseInt(NatToString(n)) == Some(n)
  {
    var s := NatToString(n);
    if |s| >= 2 {
      assert s[1] != 'x' && s[1] != 'X';
    }
    ParseIntLeadingDigits(s, "");
    assert s + "" == s;
    DigitsValueOfNatToString(n);
  }
}
