/**
 * Fixed-width ASCII decimal numbers: the zero-padded rendering of the
 * header counters (Rust `format!("{:05}", n)` and friends) and the
 * parsing of unsigned integers by Rust's `from_str`.
 */
module Decimal {
  import opened Bytes

  datatype Option<+T> = None | Some(value: T)

  const ZERO: byte := 0x30
  const PLUS: byte := 0x2B

  function Pow10(n: nat): (r: nat)
    ensures r >= 1
  {
    if n == 0 then 1 else 10 * Pow10(n - 1)
  }

  predicate IsDigit(b: byte) {
    ZERO <= b <= 0x39
  }

  predicate AllDigits(s: seq<byte>) {
    forall i :: 0 <= i < |s| ==> IsDigit(s[i])
  }

  /** The number written by the ASCII decimal digits `s`, most significant first. */
  function Value(s: seq<byte>): nat
    requires AllDigits(s)
  {
    if s == [] then 0 else 10 * Value(s[..|s| - 1]) + (s[|s| - 1] - ZERO)
  }

  /**
   * `n` written as exactly `width` ASCII decimal digits, zero-padded on the
   * left: what `format!("{:0width$}", n)` produces when `n` has at most
   * `width` digits.
   */
  function Digits(n: nat, width: nat): (r: seq<byte>)
    requires n < Pow10(width)
    ensures |r| == width && AllDigits(r)
    ensures Value(r) == n
  {
    if width == 0 then []
    else
      var r := Digits(n / 10, width - 1) + [ZERO + n % 10];
      assert r[..|r| - 1] == Digits(n / 10, width - 1);
      r
  }

  /** Every run of digits is the rendering of its own value: `Digits` is onto. */
  lemma {:induction false} DigitsOfValue(s: seq<byte>)
    requires AllDigits(s)
    ensures Value(s) < Pow10(|s|)
    ensures Digits(Value(s), |s|) == s
  {
    if s != [] {
      var init := s[..|s| - 1];
      assert AllDigits(init);
      DigitsOfValue(init);
      var v := Value(s);
      assert v / 10 == Value(init) && v % 10 == s[|s| - 1] - ZERO;
    }
  }

  /** The text after an optional leading `+`. */
  function Magnitude(s: seq<byte>): seq<byte> {
    if |s| > 0 && s[0] == PLUS then s[1..] else s
  }

  /**
   * Rust's `from_str` for an unsigned type whose largest value is `max`:
   * an optional `+`, then one or more ASCII digits, whose value must not
   * exceed `max`. Anything else (empty, a lone `+`, a `-`, a space, a
   * non-digit, an overflow) is an error.
   */
  function ParseUnsigned(s: seq<byte>, max: nat): (r: Option<nat>)
    ensures r.Some? ==> r.value <= max
    ensures r.Some? ==> |s| > 0 && forall i :: 0 <= i < |s| ==> IsDigit(s[i]) || (i == 0 && s[i] == PLUS)
    ensures |s| > 0 && AllDigits(s) && Value(s) <= max ==> r == Some(Value(s))
  {
    if |s| == 0 then None
    else
      var digits := if s[0] == PLUS then s[1..] else s;
      if |digits| == 0 || !AllDigits(digits) then None
      else if Value(digits) <= max then Some(Value(digits))
      else None
  }

  /**
   * What `from_str` accepts, exactly: after an optional `+`, one or more
   * digits whose value is at most `max`; the result is that value.
   */
  lemma ParseUnsignedMeaning(s: seq<byte>, max: nat)
    ensures var d := Magnitude(s);
      ParseUnsigned(s, max).Some? <==> |d| > 0 && AllDigits(d) && Value(d) <= max
    ensures var d := Magnitude(s);
      ParseUnsigned(s, max).Some? ==> ParseUnsigned(s, max).value == Value(d)
  {
  }

  /** A zero-padded counter reads back as the number it was made from. */
  lemma ParseDigits(n: nat, width: nat, max: nat)
    requires 0 < width && n < Pow10(width) && n <= max
    ensures ParseUnsigned(Digits(n, width), max) == Some(n)
  {
  }

  /** An accepted number is written in ASCII and has no more digits than its field. */
  lemma ParsedNumberShape(s: seq<byte>, max: nat)
    requires ParseUnsigned(s, max).Some?
    ensures forall i :: 0 <= i < |s| ==> s[i] < 0x80
    ensures ParseUnsigned(s, max).value < Pow10(|s|)
  {
    forall i | 0 <= i < |s|
      ensures s[i] < 0x80
    {
      assert IsDigit(s[i]) || s[i] == PLUS;
    }
    var digits := if s[0] == PLUS then s[1..] else s;
    assert AllDigits(digits) && ParseUnsigned(s, max).value == Value(digits);
    DigitsOfValue(digits);
    PowMonotone(|digits|, |s|);
  }

  lemma {:induction false} PowMonotone(m: nat, n: nat)
    requires m <= n
    ensures Pow10(m) <= Pow10(n)
  {
    if m < n {
      PowMonotone(m, n - 1);
    }
  }
}
