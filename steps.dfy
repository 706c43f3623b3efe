/**
 * The combinators the reader is built from, in the style of nom: a forward
 * cursor over the input bytes. A step either finishes a field at a new
 * position, fails on a malformed field, or runs out of input and says how
 * far into the input it needed to read.
 */
module Steps {
  import opened Bytes
  import opened Decimal
  import opened Utf8
  import Errors

  /**
   * The outcome of a parser started somewhere in `data`: `Done` with the
   * position after what it read, `Error` for a malformed field (the combinator
   * error carries no kind of its own), or `Incomplete` when the input ended;
   * `needed` is the length of input the parser asked for, counted from the
   * start of the input.
   */
  datatype Step<+T> = Done(next: nat, value: T) | Error | Incomplete(needed: nat) {
    predicate IsFailure() {
      !Done?
    }

    function PropagateFailure<U>(): Step<U>
      requires IsFailure()
    {
      if Error? then Error else Incomplete(needed)
    }

    function Extract(): Parsed<T>
      requires Done?
    {
      Parsed(next, value)
    }
  }

  /** A value read, with the position after it. */
  datatype Parsed<+T> = Parsed(next: nat, value: T)

  /** `take!(n)`: the next `n` bytes. */
  function Take(data: seq<byte>, pos: nat, n: nat): Step<seq<byte>> {
    if pos + n <= |data| then Done(pos + n, data[pos..pos + n]) else Incomplete(pos + n)
  }

  /** `be_u8`: the next byte. */
  function BeU8(data: seq<byte>, pos: nat): Step<byte> {
    if pos + 1 <= |data| then Done(pos + 1, data[pos]) else Incomplete(pos + 1)
  }

  /** `le_u16`: the next two bytes, low byte first. */
  function LeU16(data: seq<byte>, pos: nat): Step<u16> {
    if pos + 2 <= |data| then Done(pos + 2, (data[pos] as int + 0x100 * data[pos + 1] as int) as u16) else Incomplete(pos + 2)
  }

  /** `take_str!(n)`: the next `n` bytes, which must be UTF-8. */
  function TakeStr(data: seq<byte>, pos: nat, n: nat): Step<Str> {
    if pos + n > |data| then Incomplete(pos + n)
    else if Valid(data[pos..pos + n]) then Done(pos + n, data[pos..pos + n])
    else Error
  }

  /**
   * The second half of `map_res!`: the conversion of a field already taken,
   * whose failure turns into a plain combinator error.
   */
  function Convert<B>(res: Errors.Result<B>, next: nat): Step<B> {
    match res
    case Ok(b) => Done(next, b)
    case Err(_) => Error
  }

  /** `map_res!` around `from_str`, whose failure carries nothing either. */
  function ConvertNumber<B>(res: Option<B>, next: nat): Step<B> {
    match res
    case Some(b) => Done(next, b)
    case None => Error
  }

  /**
   * Rust `u16::from_str`: an optional `+`, then one or more ASCII digits
   * whose value is at most 65535.
   */
  function U16FromStr(s: seq<byte>): (r: Option<u16>)
    ensures r.Some? <==> |Magnitude(s)| > 0 && AllDigits(Magnitude(s)) && Value(Magnitude(s)) <= 0xFFFF
    ensures r.Some? ==> r.value as nat == Value(Magnitude(s))
    ensures r.Some? <==> ParseUnsigned(s, 0xFFFF).Some?
    ensures r.Some? ==> ParseUnsigned(s, 0xFFFF) == Some(r.value as nat)
  {
    ParseUnsignedMeaning(s, 0xFFFF);
    match ParseUnsigned(s, 0xFFFF)
    case None => None
    case Some(v) => Some(v as u16)
  }

  /**
   * Rust `u8::from_str`: an optional `+`, then one or more ASCII digits
   * whose value is at most 255.
   */
  function U8FromStr(s: seq<byte>): (r: Option<byte>)
    ensures r.Some? <==> |Magnitude(s)| > 0 && AllDigits(Magnitude(s)) && Value(Magnitude(s)) <= 0xFF
    ensures r.Some? ==> r.value as nat == Value(Magnitude(s))
    ensures r.Some? <==> ParseUnsigned(s, 0xFF).Some?
    ensures r.Some? ==> ParseUnsigned(s, 0xFF) == Some(r.value as nat)
  {
    ParseUnsignedMeaning(s, 0xFF);
    match ParseUnsigned(s, 0xFF)
    case None => None
    case Some(v) => Some(v as byte)
  }

  /** `u16::from_str` rejects a lone `+`, and accepts a `+` sign and leading zeros. */
  lemma U16FromStrSigns()
    ensures U16FromStr([PLUS]) == None && U16FromStr([]) == None
    ensures U16FromStr([PLUS, 0x35]) == Some(5)
    ensures U16FromStr([0x30, 0x30, 0x31, 0x32]) == Some(12)
  {
    assert Magnitude([PLUS, 0x35]) == [0x35];
    assert [0x30, 0x30, 0x31, 0x32][..3] == [0x30, 0x30, 0x31];
    assert [0x30, 0x30, 0x31][..2] == [0x30, 0x30];
    assert [0x30, 0x30][..1] == [0x30];
  }

  /** `from_str` rejects a number one past the type's largest value. */
  lemma FromStrOverflow()
    ensures U16FromStr([0x36, 0x35, 0x35, 0x33, 0x36]) == None
    ensures U8FromStr([0x32, 0x35, 0x36]) == None && U8FromStr([0x39]) == Some(9)
  {
    assert [0x36, 0x35, 0x35, 0x33, 0x36][..4] == [0x36, 0x35, 0x35, 0x33];
    assert [0x36, 0x35, 0x35, 0x33][..3] == [0x36, 0x35, 0x35];
    assert [0x36, 0x35, 0x35][..2] == [0x36, 0x35];
    assert [0x36, 0x35][..1] == [0x36];
    assert Value([0x36, 0x35, 0x35]) == 655;
    assert [0x32, 0x35, 0x36][..2] == [0x32, 0x35];
    assert [0x32, 0x35][..1] == [0x32];
  }
}
