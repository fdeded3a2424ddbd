/**
 * The small part of PHP's string semantics the bot relies on: `trim()` with
 * its default character list, string truthiness for the `?:` operator, and
 * the decimal spelling of integers used in the correlation map's keys.
 */
module Text {

  import opened Wrappers

  /** The characters `trim()` strips by default: space, tab, line feed,
      carriage return, NUL and vertical tab. */
  predicate IsTrimmable(c: char) {
    c == ' ' || c == '\t' || c == '\n' || c == '\r' || c as int == 0 || c as int == 11
  }

  predicate AllTrimmable(s: string) {
    forall k | 0 <= k < |s| :: IsTrimmable(s[k])
  }

  /** The number of leading trimmable characters. */
  function TrimStart(s: string): (i: nat)
    ensures i <= |s|
    ensures forall k | 0 <= k < i :: IsTrimmable(s[k])
    ensures i < |s| ==> !IsTrimmable(s[i])
  {
    if |s| > 0 && IsTrimmable(s[0]) then 1 + TrimStart(s[1..]) else 0
  }

  /** The end of `s` once trailing trimmable characters are dropped, never
      going below `i`. */
  function TrimEnd(s: string, i: nat): (j: nat)
    requires i <= |s|
    ensures i <= j <= |s|
    ensures forall k | j <= k < |s| :: IsTrimmable(s[k])
    ensures i < j ==> !IsTrimmable(s[j - 1])
    decreases |s|
  {
    if |s| > i && IsTrimmable(s[|s| - 1]) then TrimEnd(s[..|s| - 1], i) else |s|
  }

  /** PHP `trim($s)`: neither starts nor ends with a trimmable character,
      and is empty exactly when `s` is all blank (see `TrimIsSlice` for what
      is cut off). */
  function Trim(s: string): (r: string)
    ensures r != [] ==> !IsTrimmable(r[0]) && !IsTrimmable(r[|r| - 1])
    ensures r == [] <==> AllTrimmable(s)
  {
    var i := TrimStart(s);
    var j := TrimEnd(s, i);
    s[i..j]
  }

  /** A string that neither starts nor ends with a trimmable character is
      its own trim. */
  lemma TrimUntrimmed(s: string)
    requires |s| > 0 && !IsTrimmable(s[0]) && !IsTrimmable(s[|s| - 1])
    ensures Trim(s) == s
  {
    assert TrimStart(s) == 0;
    assert TrimEnd(s, 0) == |s|;
  }

  /** `Trim(s)` is a slice of `s`, and everything it cuts off on either side
      is trimmable. */
  lemma TrimIsSlice(s: string) returns (i: nat)
    ensures i + |Trim(s)| <= |s| && Trim(s) == s[i..i + |Trim(s)|]
    ensures AllTrimmable(s[..i]) && AllTrimmable(s[i + |Trim(s)|..])
  {
    i := TrimStart(s);
  }

  /** PHP truthiness of a string column value used with `?:`: `null`, `""`
      and `"0"` are falsy, every other string is truthy. */
  predicate IsFalsy(s: Option<string>) {
    s.None? || s.value == "" || s.value == "0"
  }

  predicate IsDigit(c: char) {
    '0' <= c <= '9'
  }

  predicate AllDigits(s: string) {
    forall k | 0 <= k < |s| :: IsDigit(s[k])
  }

  function DigitChar(d: nat): (c: char)
    requires d < 10
    ensures IsDigit(c) && c as int - '0' as int == d
  {
    ('0' as int + d) as char
  }

  function DigitValue(c: char): (d: nat)
    requires IsDigit(c)
    ensures d < 10 && DigitChar(d) == c
  {
    c as int - '0' as int
  }

  /** How PHP writes a non-negative integer: decimal, no leading zero. */
  function NatToDecimal(n: nat): (s: string)
    ensures |s| > 0 && AllDigits(s)
    ensures s[0] == '0' ==> n == 0 && |s| == 1
  {
    if n < 10 then [DigitChar(n)] else NatToDecimal(n / 10) + [DigitChar(n % 10)]
  }

  /** How PHP writes an integer, e.g. when it is concatenated with `.`. */
  function IntToDecimal(n: int): string {
    if n < 0 then "-" + NatToDecimal(-n) else NatToDecimal(n)
  }

  /** Only zero is spelled `"0"`, and no integer is spelled `""`: of all the
      values PHP's `?:` treats as false, an integer's decimal spelling can
      only be `"0"`. */
  lemma IntToDecimalFalsy(n: int)
    ensures IsFalsy(Some(IntToDecimal(n))) <==> n == 0
  {
    if n < 0 {
      assert IntToDecimal(n)[0] == '-';
    }
  }

  /** The value of a string of decimal digits. */
  function ParseDigits(s: string): nat
    requires AllDigits(s)
  {
    if s == [] then 0 else ParseDigits(s[..|s| - 1]) * 10 + DigitValue(s[|s| - 1])
  }

  /** A digit string in the form `NatToDecimal` produces. */
  predicate IsCanonicalNat(s: string) {
    |s| > 0 && AllDigits(s) && (s[0] == '0' ==> |s| == 1)
  }

  /** Reads back an integer written in the canonical decimal form; any
      other spelling ("007", "-0", "+1", "") is not an integer key. */
  function ParseInt(s: string): Option<int> {
    if IsCanonicalNat(s) then Some(ParseDigits(s) as int)
    else if |s| >= 2 && s[0] == '-' && s[1] != '0' && IsCanonicalNat(s[1..]) then Some(-(ParseDigits(s[1..]) as int))
    else None
  }

  lemma {:induction false} ParseNatToDecimal(n: nat)
    ensures ParseDigits(NatToDecimal(n)) == n
    decreases n
  {
    if n >= 10 {
      var s := NatToDecimal(n);
      ParseNatToDecimal(n / 10);
      assert s[..|s| - 1] == NatToDecimal(n / 10);
    }
  }

  lemma {:induction false} ParseDigitsPositive(s: string)
    requires |s| > 0 && AllDigits(s) && s[0] != '0'
    ensures ParseDigits(s) >= 1
    decreases |s|
  {
    if |s| > 1 {
      ParseDigitsPositive(s[..|s| - 1]);
    }
  }

  lemma {:induction false} NatToDecimalOfParse(s: string)
    requires IsCanonicalNat(s)
    ensures NatToDecimal(ParseDigits(s)) == s
    decreases |s|
  {
    if |s| > 1 {
      var p := s[..|s| - 1];
      ParseDigitsPositive(p);
      NatToDecimalOfParse(p);
      var n := ParseDigits(s);
      assert n / 10 == ParseDigits(p) && n % 10 == DigitValue(s[|s| - 1]);
      assert s == p + [s[|s| - 1]];
    }
  }

  /** Reading back what `IntToDecimal` writes gives the same integer. */
  lemma ParseIntToDecimal(n: int)
    ensures ParseInt(IntToDecimal(n)) == Some(n)
  {
    if n < 0 {
      var d := NatToDecimal(-n);
      ParseNatToDecimal(-n);
      assert IntToDecimal(n)[1..] == d;
      assert !IsDigit('-');
    } else {
      ParseNatToDecimal(n);
    }
  }

  /** Only the canonical spelling of an integer is read back as that integer. */
  lemma ParseIntCanonical(s: string, n: int)
    requires ParseInt(s) == Some(n)
    ensures s == IntToDecimal(n)
  {
    if IsCanonicalNat(s) {
      NatToDecimalOfParse(s);
    } else {
      var t := s[1..];
      NatToDecimalOfParse(t);
      ParseDigitsPositive(t);
      assert s == "-" + t;
    }
  }

  /** The decimal spelling of an integer never contains `_`. */
  lemma DecimalHasNoUnderscore(n: int)
    ensures '_' !in IntToDecimal(n)
  {
    var s := IntToDecimal(n);
    assert forall k | 0 <= k < |s| :: s[k] == '-' || IsDigit(s[k]);
  }
}
