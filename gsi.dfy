/**
 * The 1024-byte general subtitle information block (GSI header): its fields,
 * the defaults `GsiBlock::new` gives them, and the byte layout
 * `GsiBlock::serialize` writes, each field at the offset of its documentation.
 */
module Gsi {
  import opened Bytes
  import opened Decimal
  import opened Utf8
  import opened Codes
  import opened Buffer

  /**
   * The header. Free-text fields hold the UTF-8 bytes of a string; counters
   * are numbers, written as zero-padded decimal.
   */
  datatype GsiBlock = GsiBlock(
    cpn: CodePageNumber,
    dfc: DiskFormatCode,
    dsc: DisplayStandardCode,
    cct: CharacterCodeTable,
    lc: Str,
    opt: Str,
    oet: Str,
    tpt: Str,
    tet: Str,
    tn: Str,
    tcd: Str,
    slr: Str,
    cd: Str,
    rd: Str,
    rn: Str,
    tnb: u16,
    tns: u16,
    tng: u16,
    mnc: u16,
    mnr: u16,
    tcs: TimeCodeStatus,
    tcp: Str,
    tcf: Str,
    tnd: byte,
    dsn: byte,
    co: Str,
    publisher: Str,
    en: Str,
    ecd: Str,
    spare: Str,
    uda: Str)

  const GSI_LENGTH: nat := 1024

  /** Width in bytes of header field `i`. */
  function Width(i: nat): nat
    requires i < FIELD_COUNT
  {
    match i
    case 0 => 3 case 1 => 8 case 2 => 1 case 3 => 2 case 4 => 2
    case 5 => 32 case 6 => 32 case 7 => 32 case 8 => 32 case 9 => 32 case 10 => 32
    case 11 => 16 case 12 => 6 case 13 => 6 case 14 => 2
    case 15 => 5 case 16 => 5 case 17 => 3 case 18 => 2 case 19 => 2
    case 20 => 1 case 21 => 8 case 22 => 8 case 23 => 1 case 24 => 1
    case 25 => 3 case 26 => 32 case 27 => 32 case 28 => 32 case 29 => 75
    case _ => 576
  }

  const FIELD_COUNT: nat := 31

  /** Start offset of header field `i`; `Offset(FIELD_COUNT)` is the block length. */
  function Offset(i: nat): nat
    requires i <= FIELD_COUNT
  {
    if i == 0 then 0 else Offset(i - 1) + Width(i - 1)
  }

  /** The start offsets of all header fields, and the block length last. */
  function Offsets(): (r: seq<nat>)
    ensures |r| == FIELD_COUNT + 1
    ensures forall i :: 0 <= i < |r| ==> r[i] == Offset(i)
  {
    seq(FIELD_COUNT + 1, i requires 0 <= i <= FIELD_COUNT => Offset(i))
  }

  /**
   * Every text field fits its width and every counter fits its number of
   * digits: `push_string` computes the padding on an unsigned size, so a
   * longer value is a caller error.
   */
  predicate Fits(g: GsiBlock) {
    && |g.lc| <= 2 && |g.opt| <= 32 && |g.oet| <= 32 && |g.tpt| <= 32 && |g.tet| <= 32
    && |g.tn| <= 32 && |g.tcd| <= 32 && |g.slr| <= 16 && |g.cd| <= 6 && |g.rd| <= 6
    && |g.rn| <= 2 && |g.tcp| <= 8 && |g.tcf| <= 8 && |g.co| <= 3 && |g.publisher| <= 32
    && |g.en| <= 32 && |g.ecd| <= 32 && |g.spare| <= 75 && |g.uda| <= 576
    && g.tng < 1000 && g.mnc < 100 && g.mnr < 100 && g.tnd < 10 && g.dsn < 10
  }

  /** Field `i` of the header as written: free text space-padded, counters zero-padded. */
  function Field(g: GsiBlock, i: nat): (r: seq<byte>)
    requires Fits(g) && i < FIELD_COUNT
    ensures |r| == Width(i)
  {
    match i
    case 0 => g.cpn.Serialize()
    case 1 => g.dfc.Serialize()
    case 2 => [g.dsc.Serialize()]
    case 3 => g.cct.Serialize()
    case 4 => Pad(g.lc, 2)
    case 5 => Pad(g.opt, 32)
    case 6 => Pad(g.oet, 32)
    case 7 => Pad(g.tpt, 32)
    case 8 => Pad(g.tet, 32)
    case 9 => Pad(g.tn, 32)
    case 10 => Pad(g.tcd, 32)
    case 11 => Pad(g.slr, 16)
    case 12 => Pad(g.cd, 6)
    case 13 => Pad(g.rd, 6)
    case 14 => Pad(g.rn, 2)
    case 15 => Digits(g.tnb, 5)
    case 16 => Digits(g.tns, 5)
    case 17 => Digits(g.tng, 3)
    case 18 => Digits(g.mnc, 2)
    case 19 => Digits(g.mnr, 2)
    case 20 => [g.tcs.Serialize()]
    case 21 => Pad(g.tcp, 8)
    case 22 => Pad(g.tcf, 8)
    case 23 => Digits(g.tnd, 1)
    case 24 => Digits(g.dsn, 1)
    case 25 => Pad(g.co, 3)
    case 26 => Pad(g.publisher, 32)
    case 27 => Pad(g.en, 32)
    case 28 => Pad(g.ecd, 32)
    case 29 => Pad(g.spare, 75)
    case _ => Pad(g.uda, 576)
  }

  /** The header's fields as written, in order. */
  function Fields(g: GsiBlock): (r: seq<seq<byte>>)
    requires Fits(g)
    ensures |r| == FIELD_COUNT
    ensures forall i :: 0 <= i < |r| ==> |r[i]| == Width(i)
  {
    seq(FIELD_COUNT, i requires 0 <= i < FIELD_COUNT => Field(g, i))
  }

  /** `data[pos..]` holds the header `g`, every field at its offset. */
  ghost predicate GsiAt(g: GsiBlock, data: seq<byte>, pos: nat) {
    Fits(g) && PartsAt(data, pos, Fields(g), Offsets())
  }

  /** The bytes `GsiBlock::serialize` writes: the fields back to back, in order. */
  function GsiImage(g: GsiBlock): seq<byte>
    requires Fits(g)
  {
    g.cpn.Serialize() + g.dfc.Serialize() + [g.dsc.Serialize()] + g.cct.Serialize()
      + Pad(g.lc, 2) + Pad(g.opt, 32) + Pad(g.oet, 32) + Pad(g.tpt, 32) + Pad(g.tet, 32)
      + Pad(g.tn, 32) + Pad(g.tcd, 32) + Pad(g.slr, 16) + Pad(g.cd, 6) + Pad(g.rd, 6) + Pad(g.rn, 2)
      + Digits(g.tnb, 5) + Digits(g.tns, 5) + Digits(g.tng, 3) + Digits(g.mnc, 2) + Digits(g.mnr, 2)
      + [g.tcs.Serialize()] + Pad(g.tcp, 8) + Pad(g.tcf, 8) + Digits(g.tnd, 1) + Digits(g.dsn, 1)
      + Pad(g.co, 3) + Pad(g.publisher, 32) + Pad(g.en, 32) + Pad(g.ecd, 32) + Pad(g.spare, 75)
      + Pad(g.uda, 576)
  }

  lemma ImageOpening(g: GsiBlock)
    requires Fits(g)
    ensures Concat(Fields(g), 6)
      == g.cpn.Serialize() + g.dfc.Serialize() + [g.dsc.Serialize()] + g.cct.Serialize()
         + Pad(g.lc, 2) + Pad(g.opt, 32)
  {
    var f := Fields(g);
    assert Concat(f, 1) == f[0];
    assert Concat(f, 2) == Concat(f, 1) + f[1];
    assert Concat(f, 3) == Concat(f, 2) + f[2];
    assert Concat(f, 4) == Concat(f, 3) + f[3];
    assert Concat(f, 5) == Concat(f, 4) + f[4];
  }
  lemma ImageTitles(g: GsiBlock)
    requires Fits(g)
    ensures Concat(Fields(g), 11)
      == Concat(Fields(g), 6)
         + Pad(g.oet, 32) + Pad(g.tpt, 32) + Pad(g.tet, 32) + Pad(g.tn, 32) + Pad(g.tcd, 32)
  {
    var f := Fields(g);
    assert Concat(f, 7) == Concat(f, 6) + f[6];
    assert Concat(f, 8) == Concat(f, 7) + f[7];
    assert Concat(f, 9) == Concat(f, 8) + f[8];
    assert Concat(f, 10) == Concat(f, 9) + f[9];
  }

  lemma ImageDates(g: GsiBlock)
    requires Fits(g)
    ensures Concat(Fields(g), 16)
      == Concat(Fields(g), 11)
         + Pad(g.slr, 16) + Pad(g.cd, 6) + Pad(g.rd, 6) + Pad(g.rn, 2) + Digits(g.tnb, 5)
  {
    var f := Fields(g);
    assert Concat(f, 12) == Concat(f, 11) + f[11];
    assert Concat(f, 13) == Concat(f, 12) + f[12];
    assert Concat(f, 14) == Concat(f, 13) + f[13];
    assert Concat(f, 15) == Concat(f, 14) + f[14];
  }

  lemma ImageCounts(g: GsiBlock)
    requires Fits(g)
    ensures Concat(Fields(g), 21)
      == Concat(Fields(g), 16)
         + Digits(g.tns, 5) + Digits(g.tng, 3) + Digits(g.mnc, 2) + Digits(g.mnr, 2) + [g.tcs.Serialize()]
  {
    var f := Fields(g);
    assert Concat(f, 17) == Concat(f, 16) + f[16];
    assert Concat(f, 18) == Concat(f, 17) + f[17];
    assert Concat(f, 19) == Concat(f, 18) + f[18];
    assert Concat(f, 20) == Concat(f, 19) + f[19];
  }

  lemma ImageTimes(g: GsiBlock)
    requires Fits(g)
    ensures Concat(Fields(g), 26)
      == Concat(Fields(g), 21)
         + Pad(g.tcp, 8) + Pad(g.tcf, 8) + Digits(g.tnd, 1) + Digits(g.dsn, 1) + Pad(g.co, 3)
  {
    var f := Fields(g);
    assert Concat(f, 22) == Concat(f, 21) + f[21];
    assert Concat(f, 23) == Concat(f, 22) + f[22];
    assert Concat(f, 24) == Concat(f, 23) + f[23];
    assert Concat(f, 25) == Concat(f, 24) + f[24];
  }

  lemma ImageTrailer(g: GsiBlock)
    requires Fits(g)
    ensures Concat(Fields(g), 31)
      == Concat(Fields(g), 26)
         + Pad(g.publisher, 32) + Pad(g.en, 32) + Pad(g.ecd, 32) + Pad(g.spare, 75) + Pad(g.uda, 576)
  {
    var f := Fields(g);
    assert Concat(f, 27) == Concat(f, 26) + f[26];
    assert Concat(f, 28) == Concat(f, 27) + f[27];
    assert Concat(f, 29) == Concat(f, 28) + f[28];
    assert Concat(f, 30) == Concat(f, 29) + f[29];
  }

  /** The header image is its fields written one after the other. */
  lemma ImageIsConcat(g: GsiBlock)
    requires Fits(g)
    ensures GsiImage(g) == Concat(Fields(g), FIELD_COUNT)
  {
    ImageOpening(g);
    ImageTitles(g);
    ImageDates(g);
    ImageCounts(g);
    ImageTimes(g);
    ImageTrailer(g);
  }

  /** The offsets agree with the field documentation; the block is 1024 bytes long. */
  lemma DocumentedOffsets()
    ensures Offset(0) == 0 && Offset(1) == 3 && Offset(2) == 11 && Offset(3) == 12
    ensures Offset(4) == 14 && Offset(5) == 16 && Offset(6) == 48 && Offset(7) == 80
    ensures Offset(8) == 112 && Offset(9) == 144 && Offset(10) == 176 && Offset(11) == 208
    ensures Offset(12) == 224 && Offset(13) == 230 && Offset(14) == 236 && Offset(15) == 238
    ensures Offset(16) == 243 && Offset(17) == 248 && Offset(18) == 251 && Offset(19) == 253
    ensures Offset(20) == 255 && Offset(21) == 256 && Offset(22) == 264 && Offset(23) == 272
    ensures Offset(24) == 273 && Offset(25) == 274 && Offset(26) == 277 && Offset(27) == 309
    ensures Offset(28) == 341 && Offset(29) == 373 && Offset(30) == 448 && Offset(31) == 1024
  {
  }

  lemma BlockLength()
    ensures Offset(FIELD_COUNT) == GSI_LENGTH
  {
    DocumentedOffsets();
  }

  /** Each field ends where the next one starts. */
  lemma FieldsAdjacent(g: GsiBlock)
    requires Fits(g)
    ensures forall i :: 0 <= i < |Fields(g)| ==> Offsets()[i + 1] == Offsets()[i] + |Fields(g)[i]|
  {
    var f, o := Fields(g), Offsets();
    forall i | 0 <= i < |f|
      ensures o[i + 1] == o[i] + |f[i]|
    {
      assert |f[i]| == Width(i);
      assert o[i + 1] == Offset(i + 1) == Offset(i) + Width(i);
    }
  }

  lemma ConcatLayout(g: GsiBlock)
    requires Fits(g)
    ensures |Concat(Fields(g), FIELD_COUNT)| == GSI_LENGTH
    ensures GsiAt(g, Concat(Fields(g), FIELD_COUNT), 0)
  {
    BlockLength();
    FieldsAdjacent(g);
    ConcatPartsAt(Fields(g), Offsets());
  }

  /** The serialised header has every field at its documented offset. */
  lemma GsiLayout(g: GsiBlock)
    requires Fits(g)
    ensures |GsiImage(g)| == GSI_LENGTH && GsiAt(g, GsiImage(g), 0)
  {
    ConcatLayout(g);
    ImageIsConcat(g);
  }

  /** ASCII bytes as a string. */
  function AsciiStr(s: seq<byte>): (r: Str)
    requires IsAscii(s)
    ensures r == s
  {
    AsciiValid(s);
    s
  }

  /**
   * The date as `%y%m%d`: two-digit year of the century, month and day, the
   * creation and revision dates of a new header.
   */
  function DateStamp(year: nat, month: nat, day: nat): (r: Str)
    requires 1 <= month <= 12 && 1 <= day <= 31
    ensures |r| == 6 && AllDigits(r)
    ensures Value(r[..2]) == year % 100 && Value(r[2..4]) == month && Value(r[4..]) == day
  {
    var y, m, d := Digits(year % 100, 2), Digits(month, 2), Digits(day, 2);
    var r := y + m + d;
    assert r[..2] == y && r[2..4] == m && r[4..] == d;
    AsciiStr(r)
  }

  /**
   * A new header as `GsiBlock::new` makes it, dated with the local date of
   * the call: code page 850, 25 frames per second, Level-1 teletext, Latin
   * alphabet, no subtitles yet, one group, 40 characters by 23 rows, time
   * codes intended for use from 00:00:00:00, disk 1 of 1.
   */
  function NewGsi(year: nat, month: nat, day: nat): (g: GsiBlock)
    requires 1 <= month <= 12 && 1 <= day <= 31
    ensures Fits(g)
    ensures g.cpn.Number() == 850 && g.dfc.GetFps() == 25
    ensures g.tnb == 0 && g.tns == 0 && g.tng == 1 && g.tnd == 1 && g.dsn == 1
    ensures g.cd == g.rd == DateStamp(year, month, day)
  {
    var none := AsciiStr([]);
    var zeros := AsciiStr(Repeat(ZERO, 8));
    var now := DateStamp(year, month, day);
    GsiBlock(
      Cpn850, Stl25_01, Level1Teletext, Latin,
      AsciiStr([ZERO, 0x46]), none, none, none, none, none, none, none,
      now, now, AsciiStr([ZERO, ZERO]),
      0, 0, 1, 40, 23,
      IntendedForUse, zeros, zeros, 1, 1,
      none, none, none, none, none, none)
  }

  /** Every text field of the header fills its width exactly. */
  predicate FullWidth(g: GsiBlock) {
    && |g.lc| == 2 && |g.opt| == 32 && |g.oet| == 32 && |g.tpt| == 32 && |g.tet| == 32
    && |g.tn| == 32 && |g.tcd| == 32 && |g.slr| == 16 && |g.cd| == 6 && |g.rd| == 6
    && |g.rn| == 2 && |g.tcp| == 8 && |g.tcf| == 8 && |g.co| == 3 && |g.publisher| == 32
    && |g.en| == 32 && |g.ecd| == 32 && |g.spare| == 75 && |g.uda| == 576
  }

  /**
   * The header with every text field padded with spaces to its full width:
   * what reading a serialised header gives back, since the reader keeps the
   * padding.
   */
  function Padded(g: GsiBlock): (r: GsiBlock)
    requires Fits(g)
    ensures Fits(r) && FullWidth(r)
  {
    g.(lc := PadStr(g.lc, 2), opt := PadStr(g.opt, 32), oet := PadStr(g.oet, 32),
       tpt := PadStr(g.tpt, 32), tet := PadStr(g.tet, 32), tn := PadStr(g.tn, 32),
       tcd := PadStr(g.tcd, 32), slr := PadStr(g.slr, 16), cd := PadStr(g.cd, 6),
       rd := PadStr(g.rd, 6), rn := PadStr(g.rn, 2), tcp := PadStr(g.tcp, 8),
       tcf := PadStr(g.tcf, 8), co := PadStr(g.co, 3), publisher := PadStr(g.publisher, 32),
       en := PadStr(g.en, 32), ecd := PadStr(g.ecd, 32), spare := PadStr(g.spare, 75),
       uda := PadStr(g.uda, 576))
  }

  /** Padding the text fields changes nothing in the serialised header. */
  lemma PaddedSameImage(g: GsiBlock)
    requires Fits(g)
    ensures GsiImage(Padded(g)) == GsiImage(g)
  {
    var r := Padded(g);
    PadExact(Pad(g.lc, 2));
    PadExact(Pad(g.opt, 32));
    PadExact(Pad(g.oet, 32));
    PadExact(Pad(g.tpt, 32));
    PadExact(Pad(g.tet, 32));
    PadExact(Pad(g.tn, 32));
    PadExact(Pad(g.tcd, 32));
    PadExact(Pad(g.slr, 16));
    PadExact(Pad(g.cd, 6));
    PadExact(Pad(g.rd, 6));
    PadExact(Pad(g.rn, 2));
    PadExact(Pad(g.tcp, 8));
    PadExact(Pad(g.tcf, 8));
    PadExact(Pad(g.co, 3));
    PadExact(Pad(g.publisher, 32));
    PadExact(Pad(g.en, 32));
    PadExact(Pad(g.ecd, 32));
    PadExact(Pad(g.spare, 75));
    PadExact(Pad(g.uda, 576));
  }

  /** Padding is idempotent: a padded header is its own padding. */
  lemma PaddedIdempotent(g: GsiBlock)
    requires Fits(g)
    ensures Padded(Padded(g)) == Padded(g)
  {
    FullWidthPadded(Padded(g));
  }

  /** A header whose text fields already fill their widths is its own padding. */
  lemma FullWidthPadded(g: GsiBlock)
    requires Fits(g) && FullWidth(g)
    ensures Padded(g) == g
  {
    PadExact(g.lc);
    PadExact(g.opt);
    PadExact(g.oet);
    PadExact(g.tpt);
    PadExact(g.tet);
    PadExact(g.tn);
    PadExact(g.tcd);
    PadExact(g.slr);
    PadExact(g.cd);
    PadExact(g.rd);
    PadExact(g.rn);
    PadExact(g.tcp);
    PadExact(g.tcf);
    PadExact(g.co);
    PadExact(g.publisher);
    PadExact(g.en);
    PadExact(g.ecd);
    PadExact(g.spare);
    PadExact(g.uda);
  }

  /**
   * `GsiBlock::serialize`: the 1024-byte header, every field at its offset.
   * The pushes are grouped below as the field documentation groups them.
   */
  method Serialize(g: GsiBlock) returns (res: seq<byte>)
    requires Fits(g)
    ensures res == GsiImage(g)
    ensures |res| == GSI_LENGTH && GsiAt(g, res, 0)
  {
    var v := new ByteVec();
    PushCodes(v, g);
    assert v.bytes == g.cpn.Serialize() + g.dfc.Serialize() + [g.dsc.Serialize()] + g.cct.Serialize();
    PushTitles(v, g);
    PushListDetails(v, g);
    PushCounts(v, g);
    PushTimeCodes(v, g);
    PushTrailer(v, g);
    res := v.bytes;
    GsiLayout(g);
  }

  /** Code page, disk format, display standard and character code table. */
  method PushCodes(v: ByteVec, g: GsiBlock)
    modifies v
    ensures v.bytes == old(v.bytes) + g.cpn.Serialize() + g.dfc.Serialize() + [g.dsc.Serialize()] + g.cct.Serialize()
  {
    v.Extend(g.cpn.Serialize());
    v.Extend(g.dfc.Serialize());
    v.Push(g.dsc.Serialize());
    v.Extend(g.cct.Serialize());
  }

  /** Language code, programme and episode titles, their translations, translator and contact. */
  method PushTitles(v: ByteVec, g: GsiBlock)
    requires Fits(g)
    modifies v
    ensures v.bytes == old(v.bytes) + Pad(g.lc, 2) + Pad(g.opt, 32) + Pad(g.oet, 32) + Pad(g.tpt, 32)
      + Pad(g.tet, 32) + Pad(g.tn, 32) + Pad(g.tcd, 32)
  {
    PushString(v, g.lc, 2);
    PushString(v, g.opt, 32);
    PushString(v, g.oet, 32);
    PushString(v, g.tpt, 32);
    PushString(v, g.tet, 32);
    PushString(v, g.tn, 32);
    PushString(v, g.tcd, 32);
  }

  /** Subtitle list reference, creation and revision dates, revision number. */
  method PushListDetails(v: ByteVec, g: GsiBlock)
    requires Fits(g)
    modifies v
    ensures v.bytes == old(v.bytes) + Pad(g.slr, 16) + Pad(g.cd, 6) + Pad(g.rd, 6) + Pad(g.rn, 2)
  {
    PushString(v, g.slr, 16);
    PushString(v, g.cd, 6);
    PushString(v, g.rd, 6);
    PushString(v, g.rn, 2);
  }

  /** Block and subtitle counts, group count, row length and row count. */
  method PushCounts(v: ByteVec, g: GsiBlock)
    requires Fits(g)
    modifies v
    ensures v.bytes == old(v.bytes) + Digits(g.tnb, 5) + Digits(g.tns, 5) + Digits(g.tng, 3)
      + Digits(g.mnc, 2) + Digits(g.mnr, 2)
  {
    PushCounter(v, g.tnb, 5);
    PushCounter(v, g.tns, 5);
    PushCounter(v, g.tng, 3);
    PushCounter(v, g.mnc, 2);
    PushCounter(v, g.mnr, 2);
  }

  /** Time code status, start of programme, first in-cue, disk count and disk number. */
  method PushTimeCodes(v: ByteVec, g: GsiBlock)
    requires Fits(g)
    modifies v
    ensures v.bytes == old(v.bytes) + [g.tcs.Serialize()] + Pad(g.tcp, 8) + Pad(g.tcf, 8)
      + Digits(g.tnd, 1) + Digits(g.dsn, 1)
  {
    v.Push(g.tcs.Serialize());
    PushString(v, g.tcp, 8);
    PushString(v, g.tcf, 8);
    PushCounter(v, g.tnd, 1);
    PushCounter(v, g.dsn, 1);
  }

  /** Country, publisher, editor and contact, spare bytes and the user-defined area. */
  method PushTrailer(v: ByteVec, g: GsiBlock)
    requires Fits(g)
    modifies v
    ensures v.bytes == old(v.bytes) + Pad(g.co, 3) + Pad(g.publisher, 32) + Pad(g.en, 32)
      + Pad(g.ecd, 32) + Pad(g.spare, 75) + Pad(g.uda, 576)
  {
    PushString(v, g.co, 3);
    PushString(v, g.publisher, 32);
    PushString(v, g.en, 32);
    PushString(v, g.ecd, 32);
    PushString(v, g.spare, 75);
    PushString(v, g.uda, 576);
  }

  /** A counter written with `push_string(v, &format!("{:0width$}", n), width)`. */
  method PushCounter(v: ByteVec, n: nat, width: nat)
    requires n < Pow10(width)
    modifies v
    ensures v.bytes == old(v.bytes) + Digits(n, width)
  {
    var digits := Digits(n, width);
    PushString(v, digits, width);
    PadExact(digits);
  }
}
