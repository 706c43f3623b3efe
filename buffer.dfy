/**
 * The growable byte buffer the serialisers build their output in (Rust
 * `Vec<u8>`), and `push_string`, which appends a space-padded text field.
 */
module Buffer {
  import opened Bytes

  class ByteVec {
    var bytes: seq<byte>

    /** An empty buffer (`Vec::new`, `Vec::with_capacity`). */
    constructor ()
      ensures bytes == []
    {
      bytes := [];
    }

    function Len(): nat
      reads this
    {
      |bytes|
    }

    method Push(b: byte)
      modifies this
      ensures bytes == old(bytes) + [b]
    {
      bytes := bytes + [b];
    }

    method Extend(s: seq<byte>)
      modifies this
      ensures bytes == old(bytes) + s
    {
      bytes := bytes + s;
    }

    /** Keeps the first `n` bytes; a buffer no longer than `n` is left as it is. */
    method Truncate(n: nat)
      modifies this
      ensures n < |old(bytes)| ==> bytes == old(bytes)[..n]
      ensures n >= |old(bytes)| ==> bytes == old(bytes)
    {
      if n < |bytes| {
        bytes := bytes[..n];
      }
    }
  }

  /**
   * Appends the bytes of `s` and then spaces up to exactly `len` bytes. The
   * padding is computed as `len - |s|` on an unsigned size, so a string longer
   * than its field is a caller error.
   */
  method PushString(v: ByteVec, s: seq<byte>, len: nat)
    requires |s| <= len
    modifies v
    ensures v.bytes == old(v.bytes) + Pad(s, len)
  {
    var padding := len - |s|;
    v.Extend(s);
    v.Extend(Repeat(SPACE, padding));
  }
}
