/**
 * Byte-level vocabulary shared by the codec: byte and u16 values, padding,
 * and a generic description of a block made of fixed-offset fields.
 */
module Bytes {

  /** An unsigned 8-bit value (Rust `u8`). */
  type byte = b: int | 0 <= b < 0x100

  /** An unsigned 16-bit value (Rust `u16`). */
  type u16 = n: int | 0 <= n < 0x1_0000

  const SPACE: byte := 0x20

  /** `n` copies of `b` (Rust `vec![b; n]`). */
  function Repeat(b: byte, n: nat): (r: seq<byte>)
    ensures |r| == n
    ensures forall i :: 0 <= i < n ==> r[i] == b
  {
    seq(n, _ => b)
  }

  /** `s` right-padded with spaces to exactly `width` bytes. */
  function Pad(s: seq<byte>, width: nat): (r: seq<byte>)
    requires |s| <= width
    ensures |r| == width && r[..|s|] == s
    ensures forall i :: |s| <= i < width ==> r[i] == SPACE
  {
    s + Repeat(SPACE, width - |s|)
  }

  /** A string that already fills its field gets no padding. */
  lemma PadExact(s: seq<byte>)
    ensures Pad(s, |s|) == s
  {
  }

  /** Appending is associative; stated for the solver, which does not regroup appends on its own. */
  lemma AppendAssoc<T>(a: seq<T>, b: seq<T>, c: seq<T>)
    ensures (a + b) + c == a + (b + c)
  {
  }

  /** Appending never changes a slice that lies inside the original sequence. */
  lemma SliceOfAppend(a: seq<byte>, b: seq<byte>, i: nat, j: nat)
    requires i <= j <= |a|
    ensures (a + b)[i..j] == a[i..j]
  {
    assert forall k :: 0 <= k < j - i ==> (a + b)[i..j][k] == a[i..j][k];
  }

  /** `part` occupies `data[pos + offset ..]`. */
  ghost predicate PartAt(data: seq<byte>, pos: nat, part: seq<byte>, offset: nat)
  {
    pos + offset + |part| <= |data| && data[pos + offset .. pos + offset + |part|] == part
  }

  /**
   * The first `n` parts of a fixed-layout block lie back to back from
   * `data[pos + offsets[0]]` on: part `i` occupies
   * `data[pos + offsets[i] .. pos + offsets[i + 1]]`.
   */
  ghost predicate Placed(data: seq<byte>, pos: nat, parts: seq<seq<byte>>, offsets: seq<nat>, n: nat)
    requires n <= |parts| && |offsets| == |parts| + 1
  {
    n > 0 ==>
      && Placed(data, pos, parts, offsets, n - 1)
      && offsets[n] == offsets[n - 1] + |parts[n - 1]|
      && PartAt(data, pos, parts[n - 1], offsets[n - 1])
  }

  /** Every part of a fixed-layout block lies at its offset. */
  ghost predicate PartsAt(data: seq<byte>, pos: nat, parts: seq<seq<byte>>, offsets: seq<nat>) {
    |offsets| == |parts| + 1 && Placed(data, pos, parts, offsets, |parts|)
  }

  /** Any one placed part is at its offset. */
  lemma {:induction false} PlacedGet(data: seq<byte>, pos: nat, parts: seq<seq<byte>>, offsets: seq<nat>, n: nat, i: nat)
    requires n <= |parts| && |offsets| == |parts| + 1
    requires Placed(data, pos, parts, offsets, n) && i < n
    ensures offsets[i + 1] == offsets[i] + |parts[i]|
    ensures PartAt(data, pos, parts[i], offsets[i])
  {
    if i < n - 1 {
      PlacedGet(data, pos, parts, offsets, n - 1, i);
    }
  }

  /** Any one part of a laid-out block is at its offset. */
  lemma PartsAtGet(data: seq<byte>, pos: nat, parts: seq<seq<byte>>, offsets: seq<nat>, i: nat)
    requires PartsAt(data, pos, parts, offsets) && i < |parts|
    ensures offsets[i + 1] == offsets[i] + |parts[i]|
    ensures PartAt(data, pos, parts[i], offsets[i])
  {
    PlacedGet(data, pos, parts, offsets, |parts|, i);
  }

  /** Placed parts stay placed when bytes are added after them. */
  lemma {:induction false} PlacedAppend(data: seq<byte>, more: seq<byte>, pos: nat, parts: seq<seq<byte>>, offsets: seq<nat>, n: nat)
    requires n <= |parts| && |offsets| == |parts| + 1
    requires Placed(data, pos, parts, offsets, n)
    ensures Placed(data + more, pos, parts, offsets, n)
  {
    if n > 0 {
      PlacedAppend(data, more, pos, parts, offsets, n - 1);
      SliceOfAppend(data, more, pos + offsets[n - 1], pos + offsets[n - 1] + |parts[n - 1]|);
    }
  }

  /** A laid-out block stays laid out when bytes are added after it. */
  lemma PartsAtAppend(data: seq<byte>, more: seq<byte>, pos: nat, parts: seq<seq<byte>>, offsets: seq<nat>)
    requires PartsAt(data, pos, parts, offsets)
    ensures PartsAt(data + more, pos, parts, offsets)
  {
    PlacedAppend(data, more, pos, parts, offsets, |parts|);
  }

  /**
   * Building a block part by part: if the first `k` parts are placed and
   * the buffer ends at `offsets[k]`, appending part `k` places `k + 1` parts.
   */
  lemma PlaceNext(w: seq<byte>, parts: seq<seq<byte>>, offsets: seq<nat>, k: nat)
    requires k < |parts| && |offsets| == |parts| + 1 && offsets[0] == 0
    requires Placed(w, 0, parts, offsets, k)
    requires |w| == offsets[k] && offsets[k + 1] == offsets[k] + |parts[k]|
    ensures Placed(w + parts[k], 0, parts, offsets, k + 1)
  {
    PlacedAppend(w, parts[k], 0, parts, offsets, k);
    assert (w + parts[k])[|w| .. |w| + |parts[k]|] == parts[k];
  }

  /** The first `n` parts written back to back. */
  function Concat(parts: seq<seq<byte>>, n: nat): seq<byte>
    requires n <= |parts|
  {
    if n == 0 then [] else Concat(parts, n - 1) + parts[n - 1]
  }

  /** Writing parts back to back puts each one at its offset. */
  lemma {:induction false} ConcatPlaced(parts: seq<seq<byte>>, offsets: seq<nat>, n: nat)
    requires n <= |parts| && |offsets| == |parts| + 1 && offsets[0] == 0
    requires forall i :: 0 <= i < |parts| ==> offsets[i + 1] == offsets[i] + |parts[i]|
    ensures |Concat(parts, n)| == offsets[n] && Placed(Concat(parts, n), 0, parts, offsets, n)
  {
    if n > 0 {
      ConcatPlaced(parts, offsets, n - 1);
      PlaceNext(Concat(parts, n - 1), parts, offsets, n - 1);
    }
  }

  lemma ConcatPartsAt(parts: seq<seq<byte>>, offsets: seq<nat>)
    requires |offsets| == |parts| + 1 && offsets[0] == 0
    requires forall i :: 0 <= i < |parts| ==> offsets[i + 1] == offsets[i] + |parts[i]|
    ensures |Concat(parts, |parts|)| == offsets[|parts|]
    ensures PartsAt(Concat(parts, |parts|), 0, parts, offsets)
  {
    ConcatPlaced(parts, offsets, |parts|);
  }

  /** Placed parts stay placed, shifted, when bytes are put in front of them. */
  lemma {:induction false} PlacedShift(front: seq<byte>, data: seq<byte>, pos: nat, parts: seq<seq<byte>>, offsets: seq<nat>, n: nat)
    requires n <= |parts| && |offsets| == |parts| + 1
    requires Placed(data, pos, parts, offsets, n)
    ensures Placed(front + data, |front| + pos, parts, offsets, n)
  {
    if n > 0 {
      PlacedShift(front, data, pos, parts, offsets, n - 1);
      var a, b := pos + offsets[n - 1], pos + offsets[n - 1] + |parts[n - 1]|;
      assert (front + data)[|front| + a .. |front| + b] == data[a..b];
    }
  }

  /** A laid-out block keeps its layout, shifted, when bytes are put in front of it. */
  lemma PartsAtShift(front: seq<byte>, data: seq<byte>, pos: nat, parts: seq<seq<byte>>, offsets: seq<nat>)
    requires PartsAt(data, pos, parts, offsets)
    ensures PartsAt(front + data, |front| + pos, parts, offsets)
  {
    PlacedShift(front, data, pos, parts, offsets, |parts|);
  }

  /** A laid-out block keeps its layout wherever it is copied into a larger input. */
  lemma PartsAtSlice(block: seq<byte>, data: seq<byte>, pos: nat, parts: seq<seq<byte>>, offsets: seq<nat>)
    requires PartsAt(block, 0, parts, offsets)
    requires pos + |block| <= |data| && data[pos..pos + |block|] == block
    ensures PartsAt(data, pos, parts, offsets)
  {
    PartsAtAppend(block, data[pos + |block|..], 0, parts, offsets);
    PartsAtShift(data[..pos], block + data[pos + |block|..], 0, parts, offsets);
    assert data[..pos] + (block + data[pos + |block|..]) == data;
  }
}
