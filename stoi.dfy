/**
 * Stoi: `std::stoi(str, nullptr, base)` for bases 10 and 16, and
 * `std::to_string` for integers, as the rest of the model uses them.
 *
 * `std::stoi` skips leading `isspace` characters, accepts one optional
 * '+' or '-', in base 16 an optional "0x"/"0X" prefix, and then converts the
 * longest run of digits; trailing text is ignored. It throws
 * `invalid_argument` when there is no digit and `out_of_range` when the value
 * does not fit a 32-bit `int`; both are `None` here.
 */
module Stoi {
  import opened Wrappers
  import StringUtils

  predicate IsDigitIn(c: char, base: nat)
  {
    if base == 16 then StringUtils.IsDigit(c) || 'a' <= c <= 'f' || 'A' <= c <= 'F'
    else StringUtils.IsDigit(c)
  }

  function DigitValue(c: char, base: nat): (v: nat)
    requires IsDigitIn(c, base)
  {
    if StringUtils.IsDigit(c) then c as int - '0' as int
    else if 'a' <= c <= 'f' then c as int - 'a' as int + 10
    else c as int - 'A' as int + 10
  }

  /** Length of the run of digits at the front of `s`. */
  function DigitRun(s: string, base: nat): (n: nat)
    ensures n <= |s|
    ensures forall i :: 0 <= i < n ==> IsDigitIn(s[i], base)
    ensures n < |s| ==> !IsDigitIn(s[n], base)
  {
    if s == [] || !IsDigitIn(s[0], base) then 0 else 1 + DigitRun(s[1..], base)
  }

  predicate AllDigits(s: string, base: nat)
  {
    forall i :: 0 <= i < |s| ==> IsDigitIn(s[i], base)
  }

  /** The value of a digit string, most significant digit first. */
  function DigitsValue(s: string, base: nat): nat
    requires AllDigits(s, base)
  {
    if s == [] then 0 else base * DigitsValue(s[..|s| - 1], base) + DigitValue(s[|s| - 1], base)
  }

  predicate InIntRange(v: int)
  {
    StringUtils.INT_MIN <= v <= StringUtils.INT_MAX
  }

  /** `std::stoi(s, nullptr, base)`; `None` where it throws. */
  function Stoi(s: string, base: nat): Option<int>
    requires base == 10 || base == 16
  {
    var t := StringUtils.TrimLeft(s);
    var signed := |t| > 0 && (t[0] == '-' || t[0] == '+');
    var u := if signed then t[1..] else t;
    var v := if base == 16 && |u| >= 3 && u[0] == '0' && (u[1] == 'x' || u[1] == 'X') && IsDigitIn(u[2], 16)
             then u[2..] else u;
    var n := DigitRun(v, base);
    if n == 0 then None
    else
      var m: int := DigitsValue(v[..n], base);
      var value := if |t| > 0 && t[0] == '-' then -m else m;
      if InIntRange(value) then Some(value) else None
  }

  /** On text that starts with a decimal digit `std::stoi` converts the
      leading digit run. */
  lemma StoiOfDigitStart(s: string)
    requires s != [] && IsDigitIn(s[0], 10)
    ensures DigitRun(s, 10) >= 1
    ensures var m := DigitsValue(s[..DigitRun(s, 10)], 10);
      Stoi(s, 10) == if InIntRange(m) then Some(m) else None
  {
    assert !StringUtils.IsSpace(s[0]);
    assert StringUtils.TrimLeft(s) == s;
  }

  /** A digit run is converted only up to its end: whatever follows the
      first non-digit is ignored. */
  lemma {:induction false} StoiIgnoresTrailing(digits: string, rest: string)
    requires digits != [] && AllDigits(digits, 10)
    requires rest == [] || !IsDigitIn(rest[0], 10)
    ensures Stoi(digits + rest, 10) == Stoi(digits, 10)
  {
    var s := digits + rest;
    assert s[0] == digits[0];
    DigitRunOfDigits(digits, rest);
    assert s[..|digits|] == digits;
    assert digits[..|digits|] == digits;
    StoiBySameRun(s, digits);
  }

  /** Two texts that start with the same run of digits convert alike. */
  lemma StoiBySameRun(s: string, t: string)
    requires s != [] && IsDigitIn(s[0], 10) && t != [] && IsDigitIn(t[0], 10)
    requires DigitRun(s, 10) == DigitRun(t, 10) && s[..DigitRun(s, 10)] == t[..DigitRun(t, 10)]
    ensures Stoi(s, 10) == Stoi(t, 10)
  {
    StoiOfDigitStart(s);
    StoiOfDigitStart(t);
  }

  lemma {:induction false} DigitRunOfDigits(digits: string, rest: string)
    requires AllDigits(digits, 10)
    requires rest == [] || !IsDigitIn(rest[0], 10)
    ensures DigitRun(digits + rest, 10) == |digits|
    ensures DigitRun(digits, 10) == |digits|
    decreases |digits|
  {
    if digits != [] {
      assert (digits + rest)[1..] == digits[1..] + rest;
      DigitRunOfDigits(digits[1..], rest);
    } else {
      assert digits + rest == rest;
    }
  }

  /** Text with no digit after the optional whitespace and sign throws. */
  lemma StoiNoDigit(s: string)
    requires var t := StringUtils.TrimLeft(s);
      var u := if |t| > 0 && (t[0] == '-' || t[0] == '+') then t[1..] else t;
      u == [] || !IsDigitIn(u[0], 10)
    ensures Stoi(s, 10).None?
  {
  }

  // ---------------------------------------------------------------------
  // std::to_string
  // ---------------------------------------------------------------------

  function DigitChar(d: nat): char
    requires d < 10
  {
    ('0' as int + d) as char
  }

  /** Decimal digits of `n` without leading zeros ("0" for 0). */
  function NatToString(n: nat): (r: string)
    ensures |r| >= 1 && AllDigits(r, 10)
    ensures |r| > 1 ==> r[0] != '0'
    decreases n
  {
    if n < 10 then [DigitChar(n)] else NatToString(n / 10) + [DigitChar(n % 10)]
  }

  /** `std::to_string(n)` for an integer. */
  function IntToString(n: int): string
  {
    if n < 0 then "-" + NatToString(-n) else NatToString(n)
  }

  lemma {:induction false} NatToStringValue(n: nat)
    ensures DigitsValue(NatToString(n), 10) == n
    decreases n
  {
    if n >= 10 {
      var r := NatToString(n);
      assert r[..|r| - 1] == NatToString(n / 10);
      NatToStringValue(n / 10);
    }
  }

  /** `std::to_string` is injective on naturals. */
  lemma NatToStringInjective(a: nat, b: nat)
    requires NatToString(a) == NatToString(b)
    ensures a == b
  {
    NatToStringValue(a);
    NatToStringValue(b);
  }

  /** `std::stoi` reads back what `std::to_string` writes, for every `int`. */
  lemma StoiIntToString(n: int)
    requires InIntRange(n)
    ensures Stoi(IntToString(n), 10) == Some(n)
  {
    var m: nat := if n < 0 then -n else n;
    var digits := NatToString(m);
    NatToStringValue(m);
    DigitRunOfDigits(digits, []);
    assert digits + [] == digits;
    assert digits[..|digits|] == digits;
    var s := IntToString(n);
    assert !StringUtils.IsSpace(s[0]);
    assert StringUtils.TrimLeft(s) == s;
    if n < 0 {
      assert s[1..] == digits;
    }
  }
}
