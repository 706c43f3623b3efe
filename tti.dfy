/**
 * The 128-byte subtitle record (TTI block): its fields, how `TtiBlock::new`
 * fills them, and the byte layout `TtiBlock::serialize` writes.
 */
module Tti {
  import opened Bytes
  import opened Codes
  import opened Buffer
  import opened Teletext

  /** A time code: hours, minutes, seconds and frames, one byte each. */
  datatype Time = Time(hours: byte, minutes: byte, seconds: byte, frames: byte) {
    /** The four bytes of the time code, in field order. */
    function Serialize(): (r: seq<byte>)
      ensures |r| == 4
    {
      [hours, minutes, seconds, frames]
    }
  }

  /** Presentation options for a new subtitle. */
  datatype TtiFormat = TtiFormat(jc: byte, vp: byte, dh: bool)

  /**
   * One subtitle record. `cct` is not written to the record: it is the
   * header's character code table, kept to decode the text field.
   */
  datatype TtiBlock = TtiBlock(
    sgn: byte,
    sn: u16,
    ebn: byte,
    cs: CumulativeStatus,
    tci: Time,
    tco: Time,
    vp: byte,
    jc: byte,
    cf: byte,
    tf: seq<byte>,
    cct: CharacterCodeTable)

  /** Bytes before the text field. */
  const TTI_HEADER_LENGTH: nat := 16
  const TTI_LENGTH: nat := 128

  /** The record's fields in the order they are written, the subtitle number low byte first. */
  function RecordParts(t: TtiBlock): seq<seq<byte>> {
    [[t.sgn], [t.sn % 0x100], [t.sn / 0x100], [t.ebn], [t.cs.Serialize()],
     t.tci.Serialize(), t.tco.Serialize(), [t.vp], [t.jc], [t.cf], t.tf]
  }

  /** Field offsets within a record whose text field has `tfLength` bytes. */
  function RecordOffsets(tfLength: nat): seq<nat> {
    [0, 1, 2, 3, 4, 5, 9, 13, 14, 15, TTI_HEADER_LENGTH, TTI_HEADER_LENGTH + tfLength]
  }

  /** `data[pos..]` holds the record `t`, every field at its offset. */
  ghost predicate TtiAt(t: TtiBlock, data: seq<byte>, pos: nat) {
    PartsAt(data, pos, RecordParts(t), RecordOffsets(|t.tf|))
  }

  /** The record `TtiBlock::new` makes for subtitle number `idx`. */
  function NewRecord(idx: u16, tci: Time, tco: Time, txt: string, opt: TtiFormat,
                     cct: CharacterCodeTable, enc: Encoder): TtiBlock
  {
    TtiBlock(0, idx, 0xFF, NotPartOfASet, tci, tco, opt.vp, opt.jc, 0, Frame(enc(cct, txt), opt.dh), cct)
  }

  /**
   * `TtiBlock::new`: group 0, no extension block (0xFF), not part of a
   * cumulative set, no comment, and the text framed by `encode_text`.
   */
  method NewTti(idx: u16, tci: Time, tco: Time, txt: string, opt: TtiFormat,
                cct: CharacterCodeTable, enc: Encoder) returns (t: TtiBlock)
    ensures t == NewRecord(idx, tci, tco, txt, opt, cct, enc)
    ensures t.sn == idx && t.sgn == 0 && t.ebn == 0xFF && t.cs == NotPartOfASet && t.cf == 0
    ensures t.vp == opt.vp && t.jc == opt.jc && t.cct == cct && |t.tf| == TF_LENGTH
  {
    var tf := EncodeText(txt, opt.dh, cct, enc);
    t := TtiBlock(0, idx, 0xFF, NotPartOfASet, tci, tco, opt.vp, opt.jc, 0, tf, cct);
  }

  /** The record's fields written back to back. */
  function RecordImage(t: TtiBlock): seq<byte> {
    [t.sgn] + [t.sn % 0x100] + [t.sn / 0x100] + [t.ebn] + [t.cs.Serialize()]
      + t.tci.Serialize() + t.tco.Serialize() + [t.vp] + [t.jc] + [t.cf] + t.tf
  }

  /** Placing the five one-byte fields that open a record. */
  lemma PlaceOpening(t: TtiBlock)
    ensures Placed(RecordImage(t)[..5], 0, RecordParts(t), RecordOffsets(|t.tf|), 5)
  {
    var parts, offsets := RecordParts(t), RecordOffsets(|t.tf|);
    var w: seq<byte> := [];
    PlaceNext(w, parts, offsets, 0);
    w := w + parts[0];
    PlaceNext(w, parts, offsets, 1);
    w := w + parts[1];
    PlaceNext(w, parts, offsets, 2);
    w := w + parts[2];
    PlaceNext(w, parts, offsets, 3);
    w := w + parts[3];
    PlaceNext(w, parts, offsets, 4);
    w := w + parts[4];
    assert w == RecordImage(t)[..5];
  }

  /** Every field of `RecordImage(t)` lies at its offset. */
  lemma RecordLayout(t: TtiBlock)
    ensures |RecordImage(t)| == TTI_HEADER_LENGTH + |t.tf|
    ensures TtiAt(t, RecordImage(t), 0)
  {
    var parts, offsets := RecordParts(t), RecordOffsets(|t.tf|);
    PlaceOpening(t);
    var w := RecordImage(t)[..5];
    PlaceNext(w, parts, offsets, 5);
    w := w + parts[5];
    PlaceNext(w, parts, offsets, 6);
    w := w + parts[6];
    PlaceNext(w, parts, offsets, 7);
    w := w + parts[7];
    PlaceNext(w, parts, offsets, 8);
    w := w + parts[8];
    PlaceNext(w, parts, offsets, 9);
    w := w + parts[9];
    PlaceNext(w, parts, offsets, 10);
    w := w + parts[10];
    assert w == RecordImage(t);
  }

  /** `TtiBlock::serialize`: the record's bytes, `TTI_LENGTH` of them for a full text field. */
  method Serialize(t: TtiBlock) returns (res: seq<byte>)
    ensures res == RecordImage(t)
    ensures |res| == TTI_HEADER_LENGTH + |t.tf| && TtiAt(t, res, 0)
  {
    var v := new ByteVec();
    v.Push(t.sgn);
    v.Push(t.sn % 0x100);
    v.Push(t.sn / 0x100);
    v.Push(t.ebn);
    v.Push(t.cs.Serialize());
    v.Extend(t.tci.Serialize());
    v.Extend(t.tco.Serialize());
    v.Push(t.vp);
    v.Push(t.jc);
    v.Push(t.cf);
    v.Extend(t.tf);
    res := v.bytes;
    RecordLayout(t);
  }
}
