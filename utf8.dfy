/**
 * Well-formed UTF-8, as Rust's `std::str::from_utf8` accepts it. The header's
 * free-text fields are Rust `String`s: on encode their UTF-8 bytes are
 * written, and on decode a field is accepted only if its bytes are UTF-8.
 */
module Utf8 {
  import opened Bytes

  predicate IsContinuation(b: byte) {
    0x80 <= b <= 0xBF
  }

  /**
   * Length of the well-formed UTF-8 sequence that starts `s` (1 to 4 bytes),
   * or 0 when `s` does not start with one. Overlong forms, surrogates and
   * values above U+10FFFF are rejected.
   */
  function ScalarLength(s: seq<byte>): (n: nat)
    ensures n <= |s| && n <= 4
  {
    if |s| == 0 then 0
    else if s[0] < 0x80 then 1
    else if 0xC2 <= s[0] <= 0xDF then
      (if |s| >= 2 && IsContinuation(s[1]) then 2 else 0)
    else if 0xE0 <= s[0] <= 0xEF then
      (if |s| >= 3 && IsContinuation(s[2]) &&
          (if s[0] == 0xE0 then 0xA0 <= s[1] <= 0xBF
           else if s[0] == 0xED then 0x80 <= s[1] <= 0x9F
           else IsContinuation(s[1]))
       then 3 else 0)
    else if 0xF0 <= s[0] <= 0xF4 then
      (if |s| >= 4 && IsContinuation(s[2]) && IsContinuation(s[3]) &&
          (if s[0] == 0xF0 then 0x90 <= s[1] <= 0xBF
           else if s[0] == 0xF4 then 0x80 <= s[1] <= 0x8F
           else IsContinuation(s[1]))
       then 4 else 0)
    else 0
  }

  /** `s` is a sequence of well-formed UTF-8 scalars. */
  predicate Valid(s: seq<byte>)
    decreases |s|
  {
    |s| == 0 || (ScalarLength(s) > 0 && Valid(s[ScalarLength(s)..]))
  }

  /** The bytes of a Rust `String`. */
  type Str = s: seq<byte> | Valid(s) witness []

  predicate IsAscii(s: seq<byte>) {
    forall i :: 0 <= i < |s| ==> s[i] < 0x80
  }

  /** ASCII text is UTF-8. */
  lemma {:induction false} AsciiValid(s: seq<byte>)
    requires IsAscii(s)
    ensures Valid(s)
  {
    if |s| > 0 {
      assert IsAscii(s[1..]);
      AsciiValid(s[1..]);
    }
  }

  /** The first scalar of `a` is also the first scalar of `a + b`. */
  lemma ScalarLengthOfAppend(a: seq<byte>, b: seq<byte>)
    requires ScalarLength(a) > 0
    ensures ScalarLength(a + b) == ScalarLength(a)
  {
    var n := ScalarLength(a);
    assert forall i :: 0 <= i < n ==> (a + b)[i] == a[i];
  }

  /** Joining two UTF-8 strings gives a UTF-8 string. */
  lemma {:induction false} ValidAppend(a: seq<byte>, b: seq<byte>)
    requires Valid(a) && Valid(b)
    ensures Valid(a + b)
  {
    if |a| > 0 {
      var n := ScalarLength(a);
      ScalarLengthOfAppend(a, b);
      assert (a + b)[n..] == a[n..] + b;
      ValidAppend(a[n..], b);
    } else {
      assert a + b == b;
    }
  }

  /** `s` padded with spaces, still a string: what push_string writes. */
  function PadStr(s: Str, width: nat): (r: Str)
    requires |s| <= width
    ensures r == Pad(s, width)
  {
    AsciiValid(Repeat(SPACE, width - |s|));
    ValidAppend(s, Repeat(SPACE, width - |s|));
    Pad(s, width)
  }
}
