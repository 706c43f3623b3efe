/**
 * `parse_time`, `parse_tti_block`, `parse_gsi_block`, `parse_stl` and
 * `parse_stl_from_slice`: the reader of a whole subtitle file.
 */
module Parser {
  import opened Bytes
  import opened Decimal
  import opened Utf8
  import Errors
  import opened Codes
  import opened Teletext
  import opened Tti
  import opened Gsi
  import opened Steps
  import opened StlFile

  // ---------------------------------------------------------------- time codes

  /** `parse_time`: hours, minutes, seconds and frames, one byte each. */
  function ParseTime(data: seq<byte>, pos: nat): (r: Step<Time>)
    ensures pos + 4 <= |data| ==> r == Done(pos + 4, Time(data[pos], data[pos + 1], data[pos + 2], data[pos + 3]))
    ensures pos <= |data| < pos + 4 ==> r == Incomplete(|data| + 1)
  {
    var h :- BeU8(data, pos);
    var m :- BeU8(data, h.next);
    var s :- BeU8(data, m.next);
    var f :- BeU8(data, s.next);
    Done(f.next, Time(h.value, m.value, s.value, f.value))
  }

  /** A written time code reads back as itself, and the input after it is left alone. */
  lemma TimeRoundTrip(t: Time, rest: seq<byte>)
    ensures ParseTime(t.Serialize() + rest, 0) == Done(4, t)
  {
    var data := t.Serialize() + rest;
    assert data[0] == t.hours && data[1] == t.minutes && data[2] == t.seconds && data[3] == t.frames;
  }

  /** The two cases of the unit test of `parse_time`. */
  lemma ParseTimeExamples()
    ensures ParseTime([1, 2, 3, 4], 0) == Done(4, Time(1, 2, 3, 4))
    ensures ParseTime([1], 0) == Incomplete(2)
  {
  }

  // ------------------------------------------------------------- TTI records

  /** The record `t` is what the 128 bytes at `data[pos..]` say, field by field. */
  ghost predicate RecordRead(t: TtiBlock, data: seq<byte>, pos: nat) {
    && pos + TTI_LENGTH <= |data|
    && t.sgn == data[pos]
    && t.sn as int == data[pos + 1] as int + 0x100 * data[pos + 2] as int
    && t.ebn == data[pos + 3]
    && t.cs.Serialize() == data[pos + 4]
    && t.tci == Time(data[pos + 5], data[pos + 6], data[pos + 7], data[pos + 8])
    && t.tco == Time(data[pos + 9], data[pos + 10], data[pos + 11], data[pos + 12])
    && t.vp == data[pos + 13]
    && t.jc == data[pos + 14]
    && t.cf == data[pos + 15]
    && t.tf == data[pos + TTI_HEADER_LENGTH .. pos + TTI_LENGTH]
  }

  /**
   * `parse_tti_block`: one 128-byte record. The character code table is the
   * header's, passed in by the caller, since the record does not carry it.
   */
  function ParseTtiBlock(data: seq<byte>, pos: nat, cct: CharacterCodeTable): (r: Step<TtiBlock>)
    ensures r.Done? ==> r.next == pos + TTI_LENGTH && RecordRead(r.value, data, pos) && r.value.cct == cct
    ensures pos + TTI_LENGTH <= |data| ==> (r.Done? <==> data[pos + 4] <= 3) && !r.Incomplete?
    ensures pos + TTI_LENGTH > |data| ==>
      if pos + 5 <= |data| && data[pos + 4] > 3 then r.Error? else r.Incomplete?
  {
    var sgn :- BeU8(data, pos);
    var sn :- LeU16(data, sgn.next);
    var ebn :- BeU8(data, sn.next);
    var csField :- BeU8(data, ebn.next);
    var cs :- Convert(CumulativeStatus.Parse(csField.value), csField.next);
    var tci :- ParseTime(data, cs.next);
    var tco :- ParseTime(data, tci.next);
    var vp :- BeU8(data, tco.next);
    var jc :- BeU8(data, vp.next);
    var cf :- BeU8(data, jc.next);
    var tf :- Take(data, cf.next, TF_LENGTH);
    Done(tf.next, TtiBlock(sgn.value, sn.value, ebn.value, cs.value, tci.value, tco.value,
                           vp.value, jc.value, cf.value, tf.value, cct))
  }

  /** The 16 header bytes of a record read as `t` are what `t` writes. */
  lemma RecordHeaderRead(t: TtiBlock, data: seq<byte>, pos: nat)
    requires RecordRead(t, data, pos)
    ensures data[pos..pos + TTI_HEADER_LENGTH] == RecordImage(t)[..TTI_HEADER_LENGTH]
  {
    assert t.sn % 0x100 == data[pos + 1] && t.sn / 0x100 == data[pos + 2];
  }

  /** A record read from the input is laid out there exactly as `TtiBlock::serialize` writes it. */
  lemma RecordReadLayout(t: TtiBlock, data: seq<byte>, pos: nat)
    requires RecordRead(t, data, pos)
    ensures data[pos..pos + TTI_LENGTH] == RecordImage(t)
    ensures TtiAt(t, data, pos)
  {
    RecordHeaderRead(t, data, pos);
    var image := RecordImage(t);
    assert |image| == TTI_LENGTH;
    assert image[TTI_HEADER_LENGTH..] == t.tf;
    assert image == image[..TTI_HEADER_LENGTH] + image[TTI_HEADER_LENGTH..];
    assert data[pos..pos + TTI_LENGTH]
      == data[pos..pos + TTI_HEADER_LENGTH] + data[pos + TTI_HEADER_LENGTH..pos + TTI_LENGTH];
    RecordLayout(t);
    PartsAtSlice(image, data, pos, RecordParts(t), RecordOffsets(|t.tf|));
  }

  /** A record laid out in the input, with a full text field, is read as itself. */
  lemma RecordReadOfLayout(t: TtiBlock, data: seq<byte>, pos: nat)
    requires TtiAt(t, data, pos) && |t.tf| == TF_LENGTH
    ensures RecordRead(t, data, pos)
  {
    var parts, offsets := RecordParts(t), RecordOffsets(|t.tf|);
    PartsAtGet(data, pos, parts, offsets, 0);
    PartsAtGet(data, pos, parts, offsets, 1);
    PartsAtGet(data, pos, parts, offsets, 2);
    PartsAtGet(data, pos, parts, offsets, 3);
    PartsAtGet(data, pos, parts, offsets, 4);
    PartsAtGet(data, pos, parts, offsets, 5);
    PartsAtGet(data, pos, parts, offsets, 6);
    PartsAtGet(data, pos, parts, offsets, 7);
    PartsAtGet(data, pos, parts, offsets, 8);
    PartsAtGet(data, pos, parts, offsets, 9);
    PartsAtGet(data, pos, parts, offsets, 10);
    assert data[pos + 1] == t.sn % 0x100 && data[pos + 2] == t.sn / 0x100;
    assert data[pos + 5..pos + 9] == t.tci.Serialize() && data[pos + 9..pos + 13] == t.tco.Serialize();
  }

  /** Two records read from the same bytes, for the same character table, are the same record. */
  lemma RecordReadUnique(t: TtiBlock, u: TtiBlock, data: seq<byte>, pos: nat)
    requires RecordRead(t, data, pos) && RecordRead(u, data, pos) && t.cct == u.cct
    ensures t == u
  {
  }

  /**
   * Record round trip: a record laid out in the input with a full text field
   * reads back as itself, and the reader stops right after it.
   */
  lemma TtiRoundTrip(t: TtiBlock, data: seq<byte>, pos: nat)
    requires TtiAt(t, data, pos) && |t.tf| == TF_LENGTH
    ensures ParseTtiBlock(data, pos, t.cct) == Done(pos + TTI_LENGTH, t)
  {
    RecordReadOfLayout(t, data, pos);
    var r := ParseTtiBlock(data, pos, t.cct);
    assert r.Done?;
    RecordReadUnique(r.value, t, data, pos);
  }

  /** What `TtiBlock::serialize` writes reads back as the same record, whatever follows it. */
  lemma TtiSerializeRoundTrip(t: TtiBlock, rest: seq<byte>)
    requires |t.tf| == TF_LENGTH
    ensures ParseTtiBlock(RecordImage(t) + rest, 0, t.cct) == Done(TTI_LENGTH, t)
  {
    RecordLayout(t);
    PartsAtAppend(RecordImage(t), rest, 0, RecordParts(t), RecordOffsets(|t.tf|));
    TtiRoundTrip(t, RecordImage(t) + rest, 0);
  }

  // ------------------------------------------------------------------ header
  //
  // `parse_gsi_block` reads the 31 header fields in order; the reader below
  // takes them in the six groups of the field documentation, in the same
  // order, so the first malformed or missing field decides the outcome.

  type HeaderCodes = (CodePageNumber, DiskFormatCode, DisplayStandardCode, CharacterCodeTable)
  type Titles = (Str, Str, Str, Str, Str, Str, Str)
  type ListDetails = (Str, Str, Str, Str)
  type Counts = (u16, u16, u16, u16, u16)
  type TimeCodes = (TimeCodeStatus, Str, Str, byte, byte)
  type Trailer = (Str, Str, Str, Str, Str, Str)

  /** Bytes 0..13 hold codes that write exactly as these bytes. */
  ghost predicate CodesRead(c: HeaderCodes, data: seq<byte>, p: nat) {
    && p + 14 <= |data|
    && c.0.Serialize() == data[p..p + 3]
    && c.1.Serialize() == data[p + 3..p + 11]
    && c.2.Serialize() == data[p + 11]
    && c.3.Serialize() == data[p + 12..p + 14]
  }

  /** Code page, disk format, display standard and character code table. */
  function ParseCodes(data: seq<byte>, p: nat): (r: Step<HeaderCodes>)
    ensures r.Done? ==> r.next == p + 14 && CodesRead(r.value, data, p)
    ensures p + 14 <= |data| ==> !r.Incomplete?
  {
    var cpnField :- Take(data, p, 3);
    var cpn :- Convert(CodePageNumber.Parse(cpnField.value), cpnField.next);
    var dfcField :- TakeStr(data, cpn.next, 8);
    var dfc :- Convert(DiskFormatCode.Parse(dfcField.value), dfcField.next);
    var dscField :- BeU8(data, dfc.next);
    var dsc :- Convert(DisplayStandardCode.Parse(dscField.value), dscField.next);
    var cctField :- Take(data, dsc.next, 2);
    var cct :- Convert(CharacterCodeTable.Parse(cctField.value), cctField.next);
    CodePageNumberCanonical(data[p..p + 3]);
    Done(cct.next, (cpn.value, dfc.value, dsc.value, cct.value))
  }

  /** The text fields from byte 14 to 207 are these strings, padding and all. */
  ghost predicate TitlesRead(t: Titles, data: seq<byte>, p: nat) {
    && p + 194 <= |data|
    && t.0 == data[p..p + 2]
    && t.1 == data[p + 2..p + 34]
    && t.2 == data[p + 34..p + 66]
    && t.3 == data[p + 66..p + 98]
    && t.4 == data[p + 98..p + 130]
    && t.5 == data[p + 130..p + 162]
    && t.6 == data[p + 162..p + 194]
  }

  /** Language code, titles and translations, translator and contact. */
  function ParseTitles(data: seq<byte>, p: nat): (r: Step<Titles>)
    ensures r.Done? ==> r.next == p + 194 && TitlesRead(r.value, data, p)
    ensures p + 194 <= |data| ==> !r.Incomplete?
  {
    var lc :- TakeStr(data, p, 2);
    var opt :- TakeStr(data, lc.next, 32);
    var oet :- TakeStr(data, opt.next, 32);
    var tpt :- TakeStr(data, oet.next, 32);
    var tet :- TakeStr(data, tpt.next, 32);
    var tn :- TakeStr(data, tet.next, 32);
    var tcd :- TakeStr(data, tn.next, 32);
    Done(tcd.next, (lc.value, opt.value, oet.value, tpt.value, tet.value, tn.value, tcd.value))
  }

  /** The text fields from byte 208 to 237 are these strings. */
  ghost predicate ListDetailsRead(l: ListDetails, data: seq<byte>, p: nat) {
    && p + 30 <= |data|
    && l.0 == data[p..p + 16]
    && l.1 == data[p + 16..p + 22]
    && l.2 == data[p + 22..p + 28]
    && l.3 == data[p + 28..p + 30]
  }

  /** Subtitle list reference, creation and revision dates, revision number. */
  function ParseListDetails(data: seq<byte>, p: nat): (r: Step<ListDetails>)
    ensures r.Done? ==> r.next == p + 30 && ListDetailsRead(r.value, data, p)
    ensures p + 30 <= |data| ==> !r.Incomplete?
  {
    var slr :- TakeStr(data, p, 16);
    var cd :- TakeStr(data, slr.next, 6);
    var rd :- TakeStr(data, cd.next, 6);
    var rn :- TakeStr(data, rd.next, 2);
    Done(rn.next, (slr.value, cd.value, rd.value, rn.value))
  }

  /** The counters from byte 238 to 254 read, as decimal numbers, as these values. */
  ghost predicate CountsRead(n: Counts, data: seq<byte>, p: nat) {
    && p + 17 <= |data|
    && ParseUnsigned(data[p..p + 5], 0xFFFF) == Some(n.0 as nat)
    && ParseUnsigned(data[p + 5..p + 10], 0xFFFF) == Some(n.1 as nat)
    && ParseUnsigned(data[p + 10..p + 13], 0xFFFF) == Some(n.2 as nat)
    && ParseUnsigned(data[p + 13..p + 15], 0xFFFF) == Some(n.3 as nat)
    && ParseUnsigned(data[p + 15..p + 17], 0xFFFF) == Some(n.4 as nat)
  }

  /** A `u16` counter written in decimal over `width` bytes. */
  function ParseCounter(data: seq<byte>, p: nat, width: nat): (r: Step<u16>)
    ensures r.Done? ==> r.next == p + width && p + width <= |data|
    ensures r.Done? ==> ParseUnsigned(data[p..p + width], 0xFFFF) == Some(r.value as nat)
    ensures p + width <= |data| ==> !r.Incomplete?
  {
    var field :- TakeStr(data, p, width);
    ConvertNumber(U16FromStr(field.value), field.next)
  }

  /** A `u8` written as one decimal digit. */
  function ParseDigit(data: seq<byte>, p: nat): (r: Step<byte>)
    ensures r.Done? ==> r.next == p + 1 && p + 1 <= |data|
    ensures r.Done? ==> ParseUnsigned(data[p..p + 1], 0xFF) == Some(r.value as nat)
    ensures p + 1 <= |data| ==> !r.Incomplete?
  {
    var field :- TakeStr(data, p, 1);
    ConvertNumber(U8FromStr(field.value), field.next)
  }

  /** Block count, subtitle count, group count, row length and row count. */
  function ParseCounts(data: seq<byte>, p: nat): (r: Step<Counts>)
    ensures r.Done? ==> r.next == p + 17 && CountsRead(r.value, data, p)
    ensures p + 17 <= |data| ==> !r.Incomplete?
  {
    var tnb :- ParseCounter(data, p, 5);
    var tns :- ParseCounter(data, tnb.next, 5);
    var tng :- ParseCounter(data, tns.next, 3);
    var mnc :- ParseCounter(data, tng.next, 2);
    var mnr :- ParseCounter(data, mnc.next, 2);
    Done(mnr.next, (tnb.value, tns.value, tng.value, mnc.value, mnr.value))
  }

  /** Bytes 255 to 273: the status, two time codes as text, and two one-digit numbers. */
  ghost predicate TimeCodesRead(t: TimeCodes, data: seq<byte>, p: nat) {
    && p + 19 <= |data|
    && t.0.Serialize() == data[p]
    && t.1 == data[p + 1..p + 9]
    && t.2 == data[p + 9..p + 17]
    && ParseUnsigned(data[p + 17..p + 18], 0xFF) == Some(t.3 as nat)
    && ParseUnsigned(data[p + 18..p + 19], 0xFF) == Some(t.4 as nat)
  }

  /** Time code status, start of programme, first in-cue, disk count and disk number. */
  function ParseTimeCodes(data: seq<byte>, p: nat): (r: Step<TimeCodes>)
    ensures r.Done? ==> r.next == p + 19 && TimeCodesRead(r.value, data, p)
    ensures p + 19 <= |data| ==> !r.Incomplete?
  {
    var tcsField :- BeU8(data, p);
    var tcs :- Convert(TimeCodeStatus.Parse(tcsField.value), tcsField.next);
    var tcp :- TakeStr(data, tcs.next, 8);
    var tcf :- TakeStr(data, tcp.next, 8);
    var tnd :- ParseDigit(data, tcf.next);
    var dsn :- ParseDigit(data, tnd.next);
    Done(dsn.next, (tcs.value, tcp.value, tcf.value, tnd.value, dsn.value))
  }

  /** The text fields from byte 274 to the end of the header are these strings. */
  ghost predicate TrailerRead(t: Trailer, data: seq<byte>, p: nat) {
    && p + 750 <= |data|
    && t.0 == data[p..p + 3]
    && t.1 == data[p + 3..p + 35]
    && t.2 == data[p + 35..p + 67]
    && t.3 == data[p + 67..p + 99]
    && t.4 == data[p + 99..p + 174]
    && t.5 == data[p + 174..p + 750]
  }

  /** Country, publisher, editor and contact, spare bytes and the user-defined area. */
  function ParseTrailer(data: seq<byte>, p: nat): (r: Step<Trailer>)
    ensures r.Done? ==> r.next == p + 750 && TrailerRead(r.value, data, p)
    ensures p + 750 <= |data| ==> !r.Incomplete?
  {
    var co :- TakeStr(data, p, 3);
    var publisher :- TakeStr(data, co.next, 32);
    var en :- TakeStr(data, publisher.next, 32);
    var ecd :- TakeStr(data, en.next, 32);
    var spare :- TakeStr(data, ecd.next, 75);
    var uda :- TakeStr(data, spare.next, 576);
    Done(uda.next, (co.value, publisher.value, en.value, ecd.value, spare.value, uda.value))
  }

  /** The header `g` is what the 1024 bytes at `data[pos..]` say, group by group. */
  ghost predicate HeaderRead(g: GsiBlock, data: seq<byte>, pos: nat) {
    && CodesRead((g.cpn, g.dfc, g.dsc, g.cct), data, pos)
    && TitlesRead((g.lc, g.opt, g.oet, g.tpt, g.tet, g.tn, g.tcd), data, pos + 14)
    && ListDetailsRead((g.slr, g.cd, g.rd, g.rn), data, pos + 208)
    && CountsRead((g.tnb, g.tns, g.tng, g.mnc, g.mnr), data, pos + 238)
    && TimeCodesRead((g.tcs, g.tcp, g.tcf, g.tnd, g.dsn), data, pos + 255)
    && TrailerRead((g.co, g.publisher, g.en, g.ecd, g.spare, g.uda), data, pos + 274)
  }

  /** `parse_gsi_block`: the 1024-byte header. */
  function ParseGsiBlock(data: seq<byte>, pos: nat): (r: Step<GsiBlock>)
    ensures r.Done? ==> r.next == pos + GSI_LENGTH && HeaderRead(r.value, data, pos)
    ensures pos + GSI_LENGTH <= |data| ==> !r.Incomplete?
  {
    var c :- ParseCodes(data, pos);
    var t :- ParseTitles(data, c.next);
    var l :- ParseListDetails(data, t.next);
    var n :- ParseCounts(data, l.next);
    var tc :- ParseTimeCodes(data, n.next);
    var tr :- ParseTrailer(data, tc.next);
    Done(tr.next, GsiBlock(
      c.value.0, c.value.1, c.value.2, c.value.3,
      t.value.0, t.value.1, t.value.2, t.value.3, t.value.4, t.value.5, t.value.6,
      l.value.0, l.value.1, l.value.2, l.value.3,
      n.value.0, n.value.1, n.value.2, n.value.3, n.value.4,
      tc.value.0, tc.value.1, tc.value.2, tc.value.3, tc.value.4,
      tr.value.0, tr.value.1, tr.value.2, tr.value.3, tr.value.4, tr.value.5))
  }

  /** A header read from the input fits its fields, so it can be written back. */
  lemma HeaderReadFits(g: GsiBlock, data: seq<byte>, pos: nat)
    requires HeaderRead(g, data, pos)
    ensures Fits(g)
  {
    var q := pos + 238;
    ParsedNumberShape(data[q + 10..q + 13], 0xFFFF);
    ParsedNumberShape(data[q + 13..q + 15], 0xFFFF);
    ParsedNumberShape(data[q + 15..q + 17], 0xFFFF);
    ParsedNumberShape(data[pos + 272..pos + 273], 0xFF);
    ParsedNumberShape(data[pos + 273..pos + 274], 0xFF);
  }

  /**
   * A code page, disk format, display standard, character code table or time
   * code status outside its table makes the whole header fail as malformed,
   * and no header is produced.
   */
  lemma InvalidCodeFails(data: seq<byte>, pos: nat)
    requires pos + GSI_LENGTH <= |data|
    requires || CodePageNumber.Parse(data[pos..pos + 3]).Err?
             || DiskFormatCode.Parse(data[pos + 3..pos + 11]).Err?
             || DisplayStandardCode.Parse(data[pos + 11]).Err?
             || CharacterCodeTable.Parse(data[pos + 12..pos + 14]).Err?
             || TimeCodeStatus.Parse(data[pos + 255]).Err?
    ensures ParseGsiBlock(data, pos) == Error
  {
    var r := ParseGsiBlock(data, pos);
    if r.Done? {
      var g := r.value;
      CodePageNumberRoundTrip(g.cpn);
      DiskFormatCodeRoundTrip(g.dfc);
      DisplayStandardCodeRoundTrip(g.dsc);
      CharacterCodeTableRoundTrip(g.cct);
      TimeCodeStatusRoundTrip(g.tcs);
      assert false;
    }
  }

  /** Decimal digits are UTF-8. */
  lemma DigitsValid(n: nat, width: nat)
    requires n < Pow10(width)
    ensures Valid(Digits(n, width))
  {
    var d := Digits(n, width);
    assert forall i :: 0 <= i < |d| ==> IsDigit(d[i]);
    AsciiValid(d);
  }

  /** The written disk format code is UTF-8. */
  lemma DiskFormatValid(c: DiskFormatCode)
    ensures Valid(c.Serialize())
  {
    var s := c.Serialize();
    assert forall i | 0 <= i < |s| :: s[i] < 0x80;
    AsciiValid(s);
  }

  /** Reading a group back: each group reader accepts exactly what its predicate describes. */
  lemma CodesReadBack(c: HeaderCodes, data: seq<byte>, p: nat)
    requires CodesRead(c, data, p)
    ensures ParseCodes(data, p) == Done(p + 14, c)
  {
    CodePageNumberRoundTrip(c.0);
    DiskFormatValid(c.1);
    DiskFormatCodeRoundTrip(c.1);
    DisplayStandardCodeRoundTrip(c.2);
    CharacterCodeTableRoundTrip(c.3);
  }

  lemma TitlesReadBack(t: Titles, data: seq<byte>, p: nat)
    requires TitlesRead(t, data, p)
    ensures ParseTitles(data, p) == Done(p + 194, t)
  {
  }

  lemma ListDetailsReadBack(l: ListDetails, data: seq<byte>, p: nat)
    requires ListDetailsRead(l, data, p)
    ensures ParseListDetails(data, p) == Done(p + 30, l)
  {
  }

  /** A field that reads as a number is ASCII, hence UTF-8. */
  lemma NumberFieldValid(s: seq<byte>, max: nat)
    requires ParseUnsigned(s, max).Some?
    ensures Valid(s)
  {
    ParsedNumberShape(s, max);
    AsciiValid(s);
  }

  lemma CounterReadBack(data: seq<byte>, p: nat, width: nat, n: u16)
    requires p + width <= |data| && ParseUnsigned(data[p..p + width], 0xFFFF) == Some(n as nat)
    ensures ParseCounter(data, p, width) == Done(p + width, n)
  {
    NumberFieldValid(data[p..p + width], 0xFFFF);
  }

  lemma CountsReadBack(n: Counts, data: seq<byte>, p: nat)
    requires CountsRead(n, data, p)
    ensures ParseCounts(data, p) == Done(p + 17, n)
  {
    CounterReadBack(data, p, 5, n.0);
    CounterReadBack(data, p + 5, 5, n.1);
    CounterReadBack(data, p + 10, 3, n.2);
    CounterReadBack(data, p + 13, 2, n.3);
    CounterReadBack(data, p + 15, 2, n.4);
  }

  lemma DigitReadBack(data: seq<byte>, p: nat, n: byte)
    requires p + 1 <= |data| && ParseUnsigned(data[p..p + 1], 0xFF) == Some(n as nat)
    ensures ParseDigit(data, p) == Done(p + 1, n)
  {
    NumberFieldValid(data[p..p + 1], 0xFF);
  }

  lemma TimeCodesReadBack(t: TimeCodes, data: seq<byte>, p: nat)
    requires TimeCodesRead(t, data, p)
    ensures ParseTimeCodes(data, p) == Done(p + 19, t)
  {
    TimeCodeStatusRoundTrip(t.0);
    DigitReadBack(data, p + 17, t.3);
    DigitReadBack(data, p + 18, t.4);
  }

  lemma TrailerReadBack(t: Trailer, data: seq<byte>, p: nat)
    requires TrailerRead(t, data, p)
    ensures ParseTrailer(data, p) == Done(p + 750, t)
  {
  }

  /**
   * The header reader accepts exactly the headers its layout describes:
   * together with the contract of `ParseGsiBlock`, reading succeeds with `g`
   * if and only if the 1024 bytes say `g`.
   */
  lemma HeaderReadBack(g: GsiBlock, data: seq<byte>, pos: nat)
    requires HeaderRead(g, data, pos)
    ensures ParseGsiBlock(data, pos) == Done(pos + GSI_LENGTH, g)
  {
    CodesReadBack((g.cpn, g.dfc, g.dsc, g.cct), data, pos);
    TitlesReadBack((g.lc, g.opt, g.oet, g.tpt, g.tet, g.tn, g.tcd), data, pos + 14);
    ListDetailsReadBack((g.slr, g.cd, g.rd, g.rn), data, pos + 208);
    CountsReadBack((g.tnb, g.tns, g.tng, g.mnc, g.mnr), data, pos + 238);
    TimeCodesReadBack((g.tcs, g.tcp, g.tcf, g.tnd, g.dsn), data, pos + 255);
    TrailerReadBack((g.co, g.publisher, g.en, g.ecd, g.spare, g.uda), data, pos + 274);
  }

  /** Field `i` of a laid-out header sits at its offset. */
  lemma HeaderFieldAt(g: GsiBlock, data: seq<byte>, pos: nat, i: nat)
    requires GsiAt(g, data, pos) && i < FIELD_COUNT
    ensures PartAt(data, pos, Field(g, i), Offset(i))
  {
    PartsAtGet(data, pos, Fields(g), Offsets(), i);
  }

  lemma CodesFromParts(g: GsiBlock, data: seq<byte>, pos: nat)
    requires Fits(g)
    requires PartAt(data, pos, Field(g, 0), 0)
    requires PartAt(data, pos, Field(g, 1), 3)
    requires PartAt(data, pos, Field(g, 2), 11)
    requires PartAt(data, pos, Field(g, 3), 12)
    ensures CodesRead((g.cpn, g.dfc, g.dsc, g.cct), data, pos)
  {
  }

  /** The codes of a laid-out header read back as its codes. */
  lemma CodesAt(g: GsiBlock, data: seq<byte>, pos: nat)
    requires GsiAt(g, data, pos)
    ensures CodesRead((g.cpn, g.dfc, g.dsc, g.cct), data, pos)
  {
    HeaderFieldAt(g, data, pos, 0);
    HeaderFieldAt(g, data, pos, 1);
    HeaderFieldAt(g, data, pos, 2);
    HeaderFieldAt(g, data, pos, 3);
    DocumentedOffsets();
    CodesFromParts(g, data, pos);
  }

  lemma TitlesPlaced1(g: GsiBlock, data: seq<byte>, pos: nat)
    requires Fits(g)
    requires PartAt(data, pos, Field(g, 4), 14)
    requires PartAt(data, pos, Field(g, 5), 16)
    ensures PartAt(data, pos, Pad(g.lc, 2), 14)
    ensures PartAt(data, pos, Pad(g.opt, 32), 16)
  {
    assert Field(g, 4) == Pad(g.lc, 2);
    assert Field(g, 5) == Pad(g.opt, 32);
  }

  lemma TitlesPlaced2(g: GsiBlock, data: seq<byte>, pos: nat)
    requires Fits(g)
    requires PartAt(data, pos, Field(g, 6), 48)
    requires PartAt(data, pos, Field(g, 7), 80)
    ensures PartAt(data, pos, Pad(g.oet, 32), 48)
    ensures PartAt(data, pos, Pad(g.tpt, 32), 80)
  {
    assert Field(g, 6) == Pad(g.oet, 32);
    assert Field(g, 7) == Pad(g.tpt, 32);
  }

  lemma TitlesPlaced3(g: GsiBlock, data: seq<byte>, pos: nat)
    requires Fits(g)
    requires PartAt(data, pos, Field(g, 8), 112)
    requires PartAt(data, pos, Field(g, 9), 144)
    ensures PartAt(data, pos, Pad(g.tet, 32), 112)
    ensures PartAt(data, pos, Pad(g.tn, 32), 144)
  {
    assert Field(g, 8) == Pad(g.tet, 32);
    assert Field(g, 9) == Pad(g.tn, 32);
  }

  lemma TitlesPlaced4(g: GsiBlock, data: seq<byte>, pos: nat)
    requires Fits(g)
    requires PartAt(data, pos, Field(g, 10), 176)
    ensures PartAt(data, pos, Pad(g.tcd, 32), 176)
  {
    assert Field(g, 10) == Pad(g.tcd, 32);
  }

  lemma TitlesFromParts(lc: Str, opt: Str, oet: Str, tpt: Str, tet: Str, tn: Str, tcd: Str,
      data: seq<byte>, pos: nat)
    requires |lc| <= 2 && |opt| <= 32 && |oet| <= 32 && |tpt| <= 32 && |tet| <= 32 && |tn| <= 32 && |tcd| <= 32
    requires PartAt(data, pos, Pad(lc, 2), 14)
    requires PartAt(data, pos, Pad(opt, 32), 16)
    requires PartAt(data, pos, Pad(oet, 32), 48)
    requires PartAt(data, pos, Pad(tpt, 32), 80)
    requires PartAt(data, pos, Pad(tet, 32), 112)
    requires PartAt(data, pos, Pad(tn, 32), 144)
    requires PartAt(data, pos, Pad(tcd, 32), 176)
    ensures TitlesRead((PadStr(lc, 2), PadStr(opt, 32), PadStr(oet, 32), PadStr(tpt, 32), PadStr(tet, 32), PadStr(tn, 32), PadStr(tcd, 32)), data, pos + 14)
  {
  }

  /** The text fields in bytes 14..207 of a laid-out header read back as the padded fields. */
  lemma TitlesAt(g: GsiBlock, data: seq<byte>, pos: nat)
    requires GsiAt(g, data, pos)
    ensures TitlesRead((PadStr(g.lc, 2), PadStr(g.opt, 32), PadStr(g.oet, 32), PadStr(g.tpt, 32), PadStr(g.tet, 32), PadStr(g.tn, 32), PadStr(g.tcd, 32)), data, pos + 14)
  {
    forall i | 4 <= i < 11 ensures PartAt(data, pos, Field(g, i), Offset(i)) {
      HeaderFieldAt(g, data, pos, i);
    }
    DocumentedOffsets();
    TitlesPlaced1(g, data, pos);
    TitlesPlaced2(g, data, pos);
    TitlesPlaced3(g, data, pos);
    TitlesPlaced4(g, data, pos);
    TitlesFromParts(g.lc, g.opt, g.oet, g.tpt, g.tet, g.tn, g.tcd, data, pos);
  }

  lemma ListDetailsPlaced1(g: GsiBlock, data: seq<byte>, pos: nat)
    requires Fits(g)
    requires PartAt(data, pos, Field(g, 11), 208)
    requires PartAt(data, pos, Field(g, 12), 224)
    ensures PartAt(data, pos, Pad(g.slr, 16), 208)
    ensures PartAt(data, pos, Pad(g.cd, 6), 224)
  {
    assert Field(g, 11) == Pad(g.slr, 16);
    assert Field(g, 12) == Pad(g.cd, 6);
  }

  lemma ListDetailsPlaced2(g: GsiBlock, data: seq<byte>, pos: nat)
    requires Fits(g)
    requires PartAt(data, pos, Field(g, 13), 230)
    requires PartAt(data, pos, Field(g, 14), 236)
    ensures PartAt(data, pos, Pad(g.rd, 6), 230)
    ensures PartAt(data, pos, Pad(g.rn, 2), 236)
  {
    assert Field(g, 13) == Pad(g.rd, 6);
    assert Field(g, 14) == Pad(g.rn, 2);
  }

  lemma ListDetailsFromParts(slr: Str, cd: Str, rd: Str, rn: Str,
      data: seq<byte>, pos: nat)
    requires |slr| <= 16 && |cd| <= 6 && |rd| <= 6 && |rn| <= 2
    requires PartAt(data, pos, Pad(slr, 16), 208)
    requires PartAt(data, pos, Pad(cd, 6), 224)
    requires PartAt(data, pos, Pad(rd, 6), 230)
    requires PartAt(data, pos, Pad(rn, 2), 236)
    ensures ListDetailsRead((PadStr(slr, 16), PadStr(cd, 6), PadStr(rd, 6), PadStr(rn, 2)), data, pos + 208)
  {
  }

  /** The list details in bytes 208..237 of a laid-out header read back as the padded fields. */
  lemma ListDetailsAt(g: GsiBlock, data: seq<byte>, pos: nat)
    requires GsiAt(g, data, pos)
    ensures ListDetailsRead((PadStr(g.slr, 16), PadStr(g.cd, 6), PadStr(g.rd, 6), PadStr(g.rn, 2)), data, pos + 208)
  {
    forall i | 11 <= i < 15 ensures PartAt(data, pos, Field(g, i), Offset(i)) {
      HeaderFieldAt(g, data, pos, i);
    }
    DocumentedOffsets();
    ListDetailsPlaced1(g, data, pos);
    ListDetailsPlaced2(g, data, pos);
    ListDetailsFromParts(g.slr, g.cd, g.rd, g.rn, data, pos);
  }

  lemma CountsPlaced1(g: GsiBlock, data: seq<byte>, pos: nat)
    requires Fits(g)
    requires PartAt(data, pos, Field(g, 15), 238)
    requires PartAt(data, pos, Field(g, 16), 243)
    ensures PartAt(data, pos, Digits(g.tnb, 5), 238)
    ensures PartAt(data, pos, Digits(g.tns, 5), 243)
  {
    assert Field(g, 15) == Digits(g.tnb, 5);
    assert Field(g, 16) == Digits(g.tns, 5);
  }

  lemma CountsPlaced2(g: GsiBlock, data: seq<byte>, pos: nat)
    requires Fits(g)
    requires PartAt(data, pos, Field(g, 17), 248)
    requires PartAt(data, pos, Field(g, 18), 251)
    ensures PartAt(data, pos, Digits(g.tng, 3), 248)
    ensures PartAt(data, pos, Digits(g.mnc, 2), 251)
  {
    assert Field(g, 17) == Digits(g.tng, 3);
    assert Field(g, 18) == Digits(g.mnc, 2);
  }

  lemma CountsPlaced3(g: GsiBlock, data: seq<byte>, pos: nat)
    requires Fits(g)
    requires PartAt(data, pos, Field(g, 19), 253)
    ensures PartAt(data, pos, Digits(g.mnr, 2), 253)
  {
    assert Field(g, 19) == Digits(g.mnr, 2);
  }

  lemma CountsFromParts(tnb: u16, tns: u16, tng: u16, mnc: u16, mnr: u16,
      data: seq<byte>, pos: nat)
    requires tnb as nat < Pow10(5) && tns as nat < Pow10(5) && tng as nat < Pow10(3) && mnc as nat < Pow10(2) && mnr as nat < Pow10(2)
    requires PartAt(data, pos, Digits(tnb, 5), 238)
    requires PartAt(data, pos, Digits(tns, 5), 243)
    requires PartAt(data, pos, Digits(tng, 3), 248)
    requires PartAt(data, pos, Digits(mnc, 2), 251)
    requires PartAt(data, pos, Digits(mnr, 2), 253)
    ensures CountsRead((tnb, tns, tng, mnc, mnr), data, pos + 238)
  {
    assert data[pos + 238..pos + 243] == Digits(tnb, 5);
    ParseDigits(tnb as nat, 5, 0xFFFF);
    assert data[pos + 243..pos + 248] == Digits(tns, 5);
    ParseDigits(tns as nat, 5, 0xFFFF);
    assert data[pos + 248..pos + 251] == Digits(tng, 3);
    ParseDigits(tng as nat, 3, 0xFFFF);
    assert data[pos + 251..pos + 253] == Digits(mnc, 2);
    ParseDigits(mnc as nat, 2, 0xFFFF);
    assert data[pos + 253..pos + 255] == Digits(mnr, 2);
    ParseDigits(mnr as nat, 2, 0xFFFF);
  }

  /** The counters in bytes 238..254 of a laid-out header read back as the padded fields. */
  lemma CountsAt(g: GsiBlock, data: seq<byte>, pos: nat)
    requires GsiAt(g, data, pos)
    ensures CountsRead((g.tnb, g.tns, g.tng, g.mnc, g.mnr), data, pos + 238)
  {
    forall i | 15 <= i < 20 ensures PartAt(data, pos, Field(g, i), Offset(i)) {
      HeaderFieldAt(g, data, pos, i);
    }
    DocumentedOffsets();
    CountsPlaced1(g, data, pos);
    CountsPlaced2(g, data, pos);
    CountsPlaced3(g, data, pos);
    CountsFromParts(g.tnb, g.tns, g.tng, g.mnc, g.mnr, data, pos);
  }

  lemma TimeCodesPlaced1(g: GsiBlock, data: seq<byte>, pos: nat)
    requires Fits(g)
    requires PartAt(data, pos, Field(g, 20), 255)
    requires PartAt(data, pos, Field(g, 21), 256)
    ensures PartAt(data, pos, [g.tcs.Serialize()], 255)
    ensures PartAt(data, pos, Pad(g.tcp, 8), 256)
  {
    assert Field(g, 20) == [g.tcs.Serialize()];
    assert Field(g, 21) == Pad(g.tcp, 8);
  }

  lemma TimeCodesPlaced2(g: GsiBlock, data: seq<byte>, pos: nat)
    requires Fits(g)
    requires PartAt(data, pos, Field(g, 22), 264)
    requires PartAt(data, pos, Field(g, 23), 272)
    ensures PartAt(data, pos, Pad(g.tcf, 8), 264)
    ensures PartAt(data, pos, Digits(g.tnd, 1), 272)
  {
    assert Field(g, 22) == Pad(g.tcf, 8);
    assert Field(g, 23) == Digits(g.tnd, 1);
  }

  lemma TimeCodesPlaced3(g: GsiBlock, data: seq<byte>, pos: nat)
    requires Fits(g)
    requires PartAt(data, pos, Field(g, 24), 273)
    ensures PartAt(data, pos, Digits(g.dsn, 1), 273)
  {
    assert Field(g, 24) == Digits(g.dsn, 1);
  }

  lemma TimeCodesFromParts(tcs: TimeCodeStatus, tcp: Str, tcf: Str, tnd: byte, dsn: byte,
      data: seq<byte>, pos: nat)
    requires |tcp| <= 8 && |tcf| <= 8 && tnd as nat < Pow10(1) && dsn as nat < Pow10(1)
    requires PartAt(data, pos, [tcs.Serialize()], 255)
    requires PartAt(data, pos, Pad(tcp, 8), 256)
    requires PartAt(data, pos, Pad(tcf, 8), 264)
    requires PartAt(data, pos, Digits(tnd, 1), 272)
    requires PartAt(data, pos, Digits(dsn, 1), 273)
    ensures TimeCodesRead((tcs, PadStr(tcp, 8), PadStr(tcf, 8), tnd, dsn), data, pos + 255)
  {
    assert data[pos + 272..pos + 273] == Digits(tnd, 1);
    ParseDigits(tnd as nat, 1, 0xFF);
    assert data[pos + 273..pos + 274] == Digits(dsn, 1);
    ParseDigits(dsn as nat, 1, 0xFF);
  }

  /** The time codes in bytes 255..273 of a laid-out header read back as the padded fields. */
  lemma TimeCodesAt(g: GsiBlock, data: seq<byte>, pos: nat)
    requires GsiAt(g, data, pos)
    ensures TimeCodesRead((g.tcs, PadStr(g.tcp, 8), PadStr(g.tcf, 8), g.tnd, g.dsn), data, pos + 255)
  {
    forall i | 20 <= i < 25 ensures PartAt(data, pos, Field(g, i), Offset(i)) {
      HeaderFieldAt(g, data, pos, i);
    }
    DocumentedOffsets();
    TimeCodesPlaced1(g, data, pos);
    TimeCodesPlaced2(g, data, pos);
    TimeCodesPlaced3(g, data, pos);
    TimeCodesFromParts(g.tcs, g.tcp, g.tcf, g.tnd, g.dsn, data, pos);
  }

  lemma TrailerPlaced1(g: GsiBlock, data: seq<byte>, pos: nat)
    requires Fits(g)
    requires PartAt(data, pos, Field(g, 25), 274)
    requires PartAt(data, pos, Field(g, 26), 277)
    ensures PartAt(data, pos, Pad(g.co, 3), 274)
    ensures PartAt(data, pos, Pad(g.publisher, 32), 277)
  {
    assert Field(g, 25) == Pad(g.co, 3);
    assert Field(g, 26) == Pad(g.publisher, 32);
  }

  lemma TrailerPlaced2(g: GsiBlock, data: seq<byte>, pos: nat)
    requires Fits(g)
    requires PartAt(data, pos, Field(g, 27), 309)
    requires PartAt(data, pos, Field(g, 28), 341)
    ensures PartAt(data, pos, Pad(g.en, 32), 309)
    ensures PartAt(data, pos, Pad(g.ecd, 32), 341)
  {
    assert Field(g, 27) == Pad(g.en, 32);
    assert Field(g, 28) == Pad(g.ecd, 32);
  }

  lemma TrailerPlaced3(g: GsiBlock, data: seq<byte>, pos: nat)
    requires Fits(g)
    requires PartAt(data, pos, Field(g, 29), 373)
    requires PartAt(data, pos, Field(g, 30), 448)
    ensures PartAt(data, pos, Pad(g.spare, 75), 373)
    ensures PartAt(data, pos, Pad(g.uda, 576), 448)
  {
    assert Field(g, 29) == Pad(g.spare, 75);
    assert Field(g, 30) == Pad(g.uda, 576);
  }

  lemma TrailerFromParts(co: Str, publisher: Str, en: Str, ecd: Str, spare: Str, uda: Str,
      data: seq<byte>, pos: nat)
    requires |co| <= 3 && |publisher| <= 32 && |en| <= 32 && |ecd| <= 32 && |spare| <= 75 && |uda| <= 576
    requires PartAt(data, pos, Pad(co, 3), 274)
    requires PartAt(data, pos, Pad(publisher, 32), 277)
    requires PartAt(data, pos, Pad(en, 32), 309)
    requires PartAt(data, pos, Pad(ecd, 32), 341)
    requires PartAt(data, pos, Pad(spare, 75), 373)
    requires PartAt(data, pos, Pad(uda, 576), 448)
    ensures TrailerRead((PadStr(co, 3), PadStr(publisher, 32), PadStr(en, 32), PadStr(ecd, 32), PadStr(spare, 75), PadStr(uda, 576)), data, pos + 274)
  {
  }

  /** The trailing text fields in bytes 274..1023 of a laid-out header read back as the padded fields. */
  lemma TrailerAt(g: GsiBlock, data: seq<byte>, pos: nat)
    requires GsiAt(g, data, pos)
    ensures TrailerRead((PadStr(g.co, 3), PadStr(g.publisher, 32), PadStr(g.en, 32), PadStr(g.ecd, 32), PadStr(g.spare, 75), PadStr(g.uda, 576)), data, pos + 274)
  {
    forall i | 25 <= i < 31 ensures PartAt(data, pos, Field(g, i), Offset(i)) {
      HeaderFieldAt(g, data, pos, i);
    }
    DocumentedOffsets();
    TrailerPlaced1(g, data, pos);
    TrailerPlaced2(g, data, pos);
    TrailerPlaced3(g, data, pos);
    TrailerFromParts(g.co, g.publisher, g.en, g.ecd, g.spare, g.uda, data, pos);
  }

  /**
   * Header round trip: a header laid out in the input reads back with every
   * text field padded to its full width, and the reader stops right after it.
   */
  lemma GsiRoundTrip(g: GsiBlock, data: seq<byte>, pos: nat)
    requires GsiAt(g, data, pos)
    ensures ParseGsiBlock(data, pos) == Done(pos + GSI_LENGTH, Padded(g))
  {
    CodesAt(g, data, pos);
    TitlesAt(g, data, pos);
    ListDetailsAt(g, data, pos);
    CountsAt(g, data, pos);
    TimeCodesAt(g, data, pos);
    TrailerAt(g, data, pos);
    HeaderReadBack(Padded(g), data, pos);
  }

  /** The serialised header, found anywhere in the input, reads back as the padded header. */
  lemma GsiImageRoundTrip(g: GsiBlock, data: seq<byte>, pos: nat)
    requires Fits(g)
    requires pos + GSI_LENGTH <= |data| && data[pos..pos + GSI_LENGTH] == GsiImage(g)
    ensures ParseGsiBlock(data, pos) == Done(pos + GSI_LENGTH, Padded(g))
  {
    GsiLayout(g);
    PartsAtSlice(GsiImage(g), data, pos, Fields(g), Offsets());
    GsiRoundTrip(g, data, pos);
  }

  /** The serialised header, followed by anything, reads back as the padded header. */
  lemma GsiSerializeRoundTrip(g: GsiBlock, rest: seq<byte>)
    requires Fits(g)
    ensures |GsiImage(g)| == GSI_LENGTH
    ensures ParseGsiBlock(GsiImage(g) + rest, 0) == Done(GSI_LENGTH, Padded(g))
  {
    GsiLayout(g);
    assert (GsiImage(g) + rest)[0..GSI_LENGTH] == GsiImage(g);
    GsiImageRoundTrip(g, GsiImage(g) + rest, 0);
  }

  /** A record's image, found anywhere in the input, reads back as the record. */
  lemma TtiImageRoundTrip(t: TtiBlock, data: seq<byte>, pos: nat)
    requires |t.tf| == TF_LENGTH
    requires pos + TTI_LENGTH <= |data| && data[pos..pos + TTI_LENGTH] == RecordImage(t)
    ensures ParseTtiBlock(data, pos, t.cct) == Done(pos + TTI_LENGTH, t)
  {
    RecordLayout(t);
    PartsAtSlice(RecordImage(t), data, pos, RecordParts(t), RecordOffsets(|t.tf|));
    TtiRoundTrip(t, data, pos);
  }

  // ---------------------------------------------------------------- document

  /** Records `ttis` are read one after the other from `data[pos..]`, all with table `cct`. */
  ghost predicate RecordsRead(ttis: seq<TtiBlock>, data: seq<byte>, pos: nat, cct: CharacterCodeTable)
    decreases |ttis|
  {
    |ttis| == 0 ||
    (RecordRead(ttis[0], data, pos) && ttis[0].cct == cct && RecordsRead(ttis[1..], data, pos + TTI_LENGTH, cct))
  }

  /**
   * `many1!(parse_tti_block)`: at least one record, then records until the
   * input is used up. A shortage is `Incomplete`, a malformed record an
   * `Error`, wherever it occurs.
   */
  function ParseTtiBlocks(data: seq<byte>, pos: nat, cct: CharacterCodeTable): (r: Step<seq<TtiBlock>>)
    decreases |data| - pos
    ensures r.Done? ==> |r.value| >= 1 && r.next == |data| == pos + TTI_LENGTH * |r.value|
    ensures r.Done? ==> RecordsRead(r.value, data, pos, cct)
    ensures pos >= |data| ==> r.Incomplete?
  {
    var first :- ParseTtiBlock(data, pos, cct);
    if first.next >= |data| then
      Done(first.next, [first.value])
    else
      var rest :- ParseTtiBlocks(data, first.next, cct);
      var ttis := [first.value] + rest.value;
      assert ttis[1..] == rest.value;
      assert TTI_LENGTH * |ttis| == TTI_LENGTH + TTI_LENGTH * |rest.value|;
      Done(rest.next, ttis)
  }

  /** An input that ends on a record boundary is never short of bytes: it reads or it is malformed. */
  lemma {:induction false} WholeRecordsNotIncomplete(data: seq<byte>, pos: nat, cct: CharacterCodeTable)
    requires pos < |data| && (|data| - pos) % TTI_LENGTH == 0
    ensures !ParseTtiBlocks(data, pos, cct).Incomplete?
    decreases |data| - pos
  {
    var first := ParseTtiBlock(data, pos, cct);
    if first.Done? && first.next < |data| {
      WholeRecordsNotIncomplete(data, first.next, cct);
    }
  }

  /** `parse_stl`: the header, then one or more records decoded with the header's table. */
  function ParseStl(data: seq<byte>): (r: Step<Document>)
    ensures r.Done? ==> r.next == |data| == GSI_LENGTH + TTI_LENGTH * |r.value.ttis| && |r.value.ttis| >= 1
    ensures r.Done? ==> HeaderRead(r.value.gsi, data, 0) && RecordsRead(r.value.ttis, data, GSI_LENGTH, r.value.gsi.cct)
    ensures |data| <= GSI_LENGTH ==> !r.Done?
  {
    match ParseGsiBlock(data, 0)
    case Error => Error
    case Incomplete(needed) => Incomplete(needed)
    case Done(next, gsi) =>
      match ParseTtiBlocks(data, next, gsi.cct)
      case Error => Error
      case Incomplete(needed) => Incomplete(needed)
      case Done(end, ttis) => Done(end, Document(gsi, ttis))
  }

  /**
   * `parse_stl_from_slice`: a malformed input is `Unknown`, a short one
   * `Incomplete`; the field-specific kinds never come out of it.
   */
  function ParseStlFromSlice(data: seq<byte>): (r: Errors.Result<Document>)
    ensures r.Ok? <==> ParseStl(data).Done?
    ensures r.Ok? ==> |data| == GSI_LENGTH + TTI_LENGTH * |r.value.ttis| && |r.value.ttis| >= 1
    ensures r.Ok? ==> HeaderRead(r.value.gsi, data, 0) && RecordsRead(r.value.ttis, data, GSI_LENGTH, r.value.gsi.cct)
    ensures r.Err? ==> r.error == Errors.Unknown || r.error == Errors.Incomplete
    ensures r == Errors.Err(Errors.Incomplete) <==> ParseStl(data).Incomplete?
  {
    match ParseStl(data)
    case Error => Errors.Err(Errors.Unknown)
    case Incomplete(_) => Errors.Err(Errors.Incomplete)
    case Done(_, stl) => Errors.Ok(stl)
  }

  /** A header with no record after it is not a file: the reader asks for more input. */
  lemma HeaderAloneIncomplete(g: GsiBlock)
    requires Fits(g)
    ensures ParseStlFromSlice(GsiImage(g)) == Errors.Err(Errors.Incomplete)
  {
    var data := GsiImage(g);
    assert data + [] == data;
    GsiSerializeRoundTrip(g, []);
    assert ParseTtiBlocks(data, GSI_LENGTH, Padded(g).cct).Incomplete?;
  }

  /** Input holding records back to back starts with the first record, then holds the others. */
  lemma RecordsSplit(ttis: seq<TtiBlock>, data: seq<byte>, pos: nat)
    requires |ttis| >= 1 && |ttis[0].tf| == TF_LENGTH
    requires pos <= |data| && data[pos..] == RecordsImage(ttis)
    ensures pos + TTI_LENGTH <= |data| && data[pos..pos + TTI_LENGTH] == RecordImage(ttis[0])
    ensures data[pos + TTI_LENGTH..] == RecordsImage(ttis[1..])
  {
    RecordLayout(ttis[0]);
    RecordsImageCons(ttis);
    assert data[pos..pos + TTI_LENGTH] == data[pos..][..TTI_LENGTH];
    assert data[pos + TTI_LENGTH..] == data[pos..][TTI_LENGTH..];
  }

  /** Full records written back to back read back as themselves, to the end of the input. */
  lemma {:induction false} RecordsRoundTrip(ttis: seq<TtiBlock>, data: seq<byte>, pos: nat, cct: CharacterCodeTable)
    requires |ttis| >= 1 && FullRecords(ttis)
    requires forall k :: 0 <= k < |ttis| ==> ttis[k].cct == cct
    requires pos <= |data| && data[pos..] == RecordsImage(ttis)
    ensures ParseTtiBlocks(data, pos, cct) == Done(|data|, ttis)
  {
    var t := ttis[0];
    RecordsSplit(ttis, data, pos);
    TtiImageRoundTrip(t, data, pos);
    if |ttis| > 1 {
      RecordsRoundTrip(ttis[1..], data, pos + TTI_LENGTH, cct);
      assert [t] + ttis[1..] == ttis;
    } else {
      RecordsImageLength(ttis[1..]);
      assert ttis == [t];
    }
  }

  /**
   * Document round trip: the file `write_to_file` writes for a header and
   * one or more full records reads back as that header, padded, and the same
   * records.
   */
  lemma DocumentRoundTrip(d: Document)
    requires Fits(d.gsi) && |d.ttis| >= 1 && FullRecords(d.ttis)
    requires forall k :: 0 <= k < |d.ttis| ==> d.ttis[k].cct == d.gsi.cct
    ensures ParseStlFromSlice(DocumentImage(d)) == Errors.Ok(Document(Padded(d.gsi), d.ttis))
  {
    var data := DocumentImage(d);
    GsiLayout(d.gsi);
    GsiSerializeRoundTrip(d.gsi, RecordsImage(d.ttis));
    RecordsRoundTrip(d.ttis, data, GSI_LENGTH, Padded(d.gsi).cct);
  }

  /** A header read from any input fits its fields and is already padded. */
  lemma ReadHeaderIsPadded(g: GsiBlock, data: seq<byte>, pos: nat)
    requires HeaderRead(g, data, pos)
    ensures Fits(g) && FullWidth(g) && Padded(g) == g
  {
    HeaderReadFits(g, data, pos);
    FullWidthPadded(g);
  }

  /** Records read all have a full text field and the header's table. */
  lemma {:induction false} RecordsReadFull(ttis: seq<TtiBlock>, data: seq<byte>, pos: nat, cct: CharacterCodeTable)
    requires RecordsRead(ttis, data, pos, cct)
    ensures FullRecords(ttis)
    ensures forall k :: 0 <= k < |ttis| ==> ttis[k].cct == cct
    decreases |ttis|
  {
    if |ttis| > 0 {
      RecordsReadFull(ttis[1..], data, pos + TTI_LENGTH, cct);
      forall k | 0 < k < |ttis|
        ensures |ttis[k].tf| == TF_LENGTH && ttis[k].cct == cct
      {
        assert ttis[k] == ttis[1..][k - 1];
      }
    }
  }

  /**
   * Reader-first round trip: a document read from any input, written again,
   * reads back as the very same document.
   */
  lemma ParsedDocumentRoundTrip(data: seq<byte>)
    requires ParseStlFromSlice(data).Ok?
    ensures var d := ParseStlFromSlice(data).value;
      Fits(d.gsi) && ParseStlFromSlice(DocumentImage(d)) == Errors.Ok(d)
  {
    var d := ParseStlFromSlice(data).value;
    ReadHeaderIsPadded(d.gsi, data, 0);
    RecordsReadFull(d.ttis, data, GSI_LENGTH, d.gsi.cct);
    DocumentRoundTrip(d);
  }
}
