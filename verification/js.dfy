/**
 * The JavaScript built-ins the source leans on, stated over exact integers:
 * `a || b` on optional strings, `Math.round` / `Math.floor` of a ratio, and
 * `parseInt` with no radix.
 */
module Js {
  import opened Wrappers
  import opened Text

  /** A string is truthy when it is present and not empty. */
  predicate Truthy(s: Option<string>) {
    s.Some? && s.value != ""
  }

  /** `a || b` on optional strings. */
  function Or(a: Option<string>, b: Option<string>): (r: Option<string>)
    ensures Truthy(a) ==> r == a
    ensures !Truthy(a) ==> r == b
  {
    if Truthy(a) then a else b
  }

  /** `a || fallback` on optional strings, with a present fallback. */
  function OrElse(a: Option<string>, fallback: string): (r: string)
    ensures Truthy(a) ==> r == a.value
    ensures !Truthy(a) ==> r == fallback
  {
    if Truthy(a) then a.value else fallback
  }

  /** `Math.floor(num / den)` */
  function FloorDiv(num: int, den: int): (r: int)
    requires den > 0
    ensures den * r <= num < den * (r + 1)
  {
    num / den
  }

  /** `Math.round(num / den)`: the nearest integer, halves rounded up. */
  function RoundRatio(num: int, den: int): (r: int)
    requires den > 0
    ensures 2 * den * r <= 2 * num + den < 2 * den * (r + 1)
  {
    (2 * num + den) / (2 * den)
  }

  /** `total === 0 ? 0 : Math.round((part / total) * 100)` */
  function Percent(part: int, total: nat): (r: int)
    ensures total == 0 ==> r == 0
    ensures total > 0 ==> 2 * total * r <= 200 * part + total < 2 * total * (r + 1)
  {
    if total == 0 then 0 else RoundRatio(part * 100, total)
  }

  /** A share of a total is a percentage between 0 and 100, and all of it is 100. */
  lemma PercentBounds(part: nat, total: nat)
    requires part <= total
    ensures 0 <= Percent(part, total) <= 100
    ensures total > 0 && part == total ==> Percent(part, total) == 100
    ensures part == 0 ==> Percent(part, total) == 0
  {
    if total > 0 {
      var r := Percent(part, total);
      assert 2 * total * r <= 200 * part + total;
      assert 200 * part + total < 2 * total * (r + 1);
      assert 200 * part <= 200 * total by { MulMono(200, part, total); }
      if r > 100 {
        MulMono(2 * total, 101, r);
        assert false;
      }
      if r < 0 {
        MulMono(2 * total, r + 1, 0);
        assert false;
      }
      if part == total && r < 100 {
        MulMono(2 * total, r + 1, 100);
        assert false;
      }
      if part == 0 && r > 0 {
        MulMono(2 * total, 1, r);
        assert false;
      }
    }
  }

  /** A rounded mean of `n` values between `lo` and `hi` is between them too. */
  lemma RoundedMeanWithin(total: int, n: int, lo: int, hi: int)
    requires n > 0 && n * lo <= total <= n * hi
    ensures lo <= RoundRatio(total, n) <= hi
  {
    var r := RoundRatio(total, n);
    assert 2 * n * r <= 2 * total + n < 2 * n * (r + 1);
    if r < lo {
      MulMono(2 * n, r + 1, lo);
      assert false;
    }
    if r > hi {
      MulMono(2 * n, hi + 1, r);
      assert false;
    }
  }

  lemma MulMono(a: int, x: int, y: int)
    requires a >= 0 && x <= y
    ensures a * x <= a * y
  {
    assert a * y - a * x == a * (y - x);
  }

  predicate IsHexDigit(c: char) {
    IsDigit(c) || 'a' <= c <= 'f' || 'A' <= c <= 'F'
  }

  function HexDigitValue(c: char): nat
    requires IsHexDigit(c)
  {
    if IsDigit(c) then DigitValue(c)
    else if 'a' <= c <= 'f' then c as int - 'a' as int + 10
    else c as int - 'A' as int + 10
  }

  /** The longest prefix of `s` made of decimal digits. */
  function DigitPrefix(s: string): (r: string)
    ensures AllDigits(r) && StartsWith(s, r)
    ensures |r| < |s| ==> !IsDigit(s[|r|])
  {
    if |s| > 0 && IsDigit(s[0]) then [s[0]] + DigitPrefix(s[1..]) else ""
  }

  /** The value of the longest prefix of `s` made of hexadecimal digits, if any. */
  function HexPrefixValue(s: string, acc: nat, seen: bool): Option<nat>
    decreases |s|
  {
    if |s| > 0 && IsHexDigit(s[0]) then HexPrefixValue(s[1..], acc * 16 + HexDigitValue(s[0]), true)
    else if seen then Some(acc) else None
  }

  /** The unsigned part of `parseInt`: hexadecimal after `0x`/`0X`, else decimal digits. */
  function Magnitude(u: string): Option<nat> {
    if StartsWith(u, "0x") || StartsWith(u, "0X") then HexPrefixValue(u[2..], 0, false)
    else
      var d := DigitPrefix(u);
      if |d| == 0 then None else Some(DigitsValue(d))
  }

  /**
   * `parseInt(s)` with no radix: leading whitespace skipped, one optional sign,
   * a `0x`/`0X` prefix switches to base 16, then the longest digit prefix is read;
   * `None` stands for `NaN`.
   */
  function ParseInt(s: string): Option<int> {
    var t := TrimStart(s);
    var negative := |t| > 0 && t[0] == '-';
    var u := if |t| > 0 && (t[0] == '-' || t[0] == '+') then t[1..] else t;
    match Magnitude(u)
    case None => None
    case Some(m) =>
      var v: int := m;
      Some(if negative then -v else v)
  }

  /** The digit prefix of digits followed by a non-digit is exactly those digits. */
  lemma {:induction false} DigitPrefixOf(digits: string, tail: string)
    requires AllDigits(digits)
    requires |tail| == 0 || !IsDigit(tail[0])
    ensures DigitPrefix(digits + tail) == digits
  {
    if |digits| > 0 {
      assert (digits + tail)[1..] == digits[1..] + tail;
      DigitPrefixOf(digits[1..], tail);
    } else {
      assert digits + tail == tail;
    }
  }

  /** The condition under which text after a number does not change what `parseInt` reads. */
  predicate InertTail(n: nat, tail: string) {
    && (|tail| == 0 || !IsDigit(tail[0]))
    && (n == 0 && |tail| > 0 ==> tail[0] != 'x' && tail[0] != 'X')
  }

  lemma MagnitudeReadsDecimal(n: nat, tail: string)
    requires InertTail(n, tail)
    ensures Magnitude(NatToString(n) + tail) == Some(n)
  {
    var digits := NatToString(n);
    var u := digits + tail;
    assert !StartsWith(u, "0x") && !StartsWith(u, "0X") by {
      if |u| >= 2 && u[0] == '0' {
        if |digits| >= 2 {
          assert u[1] == digits[1];
        } else {
          NatToStringRoundTrip(n);
          assert u[1] == tail[0];
        }
      }
    }
    DigitPrefixOf(digits, tail);
    NatToStringRoundTrip(n);
  }

  /**
   * `parseInt` reads back the decimal rendering of an integer, whatever
   * non-digit text follows it (except the `x` that would turn a leading
   * `0` into a hexadecimal prefix).
   */
  lemma ParseIntReadsDecimal(i: int, tail: string)
    requires InertTail(if i < 0 then -i else i, tail)
    ensures ParseInt(IntToString(i) + tail) == Some(i)
  {
    var s := IntToString(i) + tail;
    if i < 0 {
      var digits := NatToString(-i);
      assert s == "-" + (digits + tail);
      assert TrimStart(s) == s;
      assert s[1..] == digits + tail;
      MagnitudeReadsDecimal(-i, tail);
    } else {
      var digits := NatToString(i);
      assert s == digits + tail;
      assert IsDigit(s[0]);
      assert TrimStart(s) == s;
      MagnitudeReadsDecimal(i, tail);
    }
  }
}
