/** The pieces of JavaScript's value semantics that the front end's logic relies on. */
module Js {
  import opened Wrappers
  import Strings

  /** Truthiness of an optional string field: `undefined`, `null` and `""` are falsy. */
  predicate Truthy(s: Option<string>) {
    s.Some? && s.value != ""
  }

  /** `a ? a : b` on optional strings. */
  function OrElse(a: Option<string>, b: Option<string>): Option<string> {
    if Truthy(a) then a else b
  }

  /** The ASCII part of the white space that `parseInt` skips. */
  predicate IsSpace(c: char) {
    c == ' ' || c == '\t' || c == '\n' || c == '\r' || c as int == 11 || c as int == 12
  }

  function TrimStart(s: string): (r: string)
    ensures |r| <= |s| && r == s[|s| - |r|..]
  {
    if |s| > 0 && IsSpace(s[0]) then TrimStart(s[1..]) else s
  }

  /** The longest prefix of `s` made of characters satisfying `digit`. */
  function DigitPrefix(s: string, hex: bool): (r: string)
    ensures |r| <= |s| && r == s[..|r|]
    ensures forall i :: 0 <= i < |r| ==> IsRadixDigit(r[i], hex)
    ensures |r| < |s| ==> !IsRadixDigit(s[|r|], hex)
  {
    if |s| > 0 && IsRadixDigit(s[0], hex) then [s[0]] + DigitPrefix(s[1..], hex) else []
  }

  predicate IsRadixDigit(c: char, hex: bool) {
    Strings.IsDigit(c) || (hex && ('a' <= c <= 'f' || 'A' <= c <= 'F'))
  }

  function RadixDigitValue(c: char, hex: bool): nat
    requires IsRadixDigit(c, hex)
  {
    if Strings.IsDigit(c) then Strings.DigitValue(c)
    else if 'a' <= c <= 'f' then c as int - 'a' as int + 10
    else c as int - 'A' as int + 10
  }

  function RadixValue(s: string, hex: bool): nat
    requires forall i :: 0 <= i < |s| ==> IsRadixDigit(s[i], hex)
  {
    if s == [] then 0
    else RadixValue(s[..|s| - 1], hex) * (if hex then 16 else 10) + RadixDigitValue(s[|s| - 1], hex)
  }

  /**
   * `parseInt(s)` without a radix: leading white space is skipped, one sign is read,
   * a `0x`/`0X` prefix selects base 16, and the longest run of digits that follows is the
   * value; `None` stands for `NaN` (no digits at all).
   */
  function ParseInt(s: string): Option<int> {
    var t := TrimStart(s);
    var negative := |t| > 0 && t[0] == '-';
    var u := if |t| > 0 && (t[0] == '-' || t[0] == '+') then t[1..] else t;
    var hex := |u| >= 2 && u[0] == '0' && (u[1] == 'x' || u[1] == 'X');
    var digits := DigitPrefix(if hex then u[2..] else u, hex);
    if digits == [] then None
    else
      var n: int := RadixValue(digits, hex);
      Some(if negative then -n else n)
  }

  /** The digit run at the front of decimal digits followed by a non-digit is those digits. */
  lemma {:induction false} DigitPrefixOfDigits(digits: string, rest: string)
    requires Strings.AllDigits(digits) && rest != [] && !Strings.IsDigit(rest[0])
    ensures DigitPrefix(digits + rest, false) == digits
  {
    if digits != [] {
      assert (digits + rest)[1..] == digits[1..] + rest;
      DigitPrefixOfDigits(digits[1..], rest);
      assert digits == [digits[0]] + digits[1..];
    } else {
      assert digits + rest == rest;
    }
  }

  /** The radix value of a decimal string is its decimal value. */
  lemma {:induction false} RadixValueDecimal(s: string)
    requires Strings.AllDigits(s)
    ensures RadixValue(s, false) == Strings.DigitsValue(s)
  {
    if s != [] {
      RadixValueDecimal(s[..|s| - 1]);
    }
  }

  /** `parseInt` of a non-empty run of decimal digits is their decimal value. */
  lemma ParseIntOfDigits(s: string)
    requires s != [] && Strings.AllDigits(s)
    ensures ParseInt(s) == Some(Strings.DigitsValue(s))
  {
    assert !IsSpace(s[0]) && TrimStart(s) == s;
    assert s[0] != '-' && s[0] != '+';
    assert !(|s| >= 2 && s[0] == '0' && (s[1] == 'x' || s[1] == 'X'));
    var d := DigitPrefix(s, false);
    assert |d| == |s|;
    assert d == s;
    RadixValueDecimal(s);
  }

  /** `parseInt(String(n)) === n` for every natural `n`. */
  lemma ParseIntOfNatToString(n: nat)
    ensures ParseInt(Strings.NatToString(n)) == Some(n)
  {
    ParseIntOfDigits(Strings.NatToString(n));
    Strings.DigitsValueOfNatToString(n);
  }
}
