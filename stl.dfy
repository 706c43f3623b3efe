/**
 * `Stl`, the in-memory subtitle file the writer side builds: a header and
 * the records added so far. `add_sub` numbers each new record and updates
 * the header's counters; the bytes `write_to_file` writes are the header's
 * followed by each record's, and they read back as the same file.
 */
module Subtitles {
  import opened Bytes
  import opened Codes
  import opened Teletext
  import opened Tti
  import opened Gsi
  import opened StlFile
  import opened Buffer
  import Errors
  import Parser

  class Stl {
    var gsi: GsiBlock
    var ttis: seq<TtiBlock>

    /**
     * The header fits its fields, and every record has a full text field
     * written in the header's character code table.
     */
    ghost predicate Valid()
      reads this
    {
      && Fits(gsi)
      && FullRecords(ttis)
      && forall k :: 0 <= k < |ttis| ==> ttis[k].cct == gsi.cct
    }

    /**
     * The records are numbered 1, 2, ... in order, and both the block
     * count and the subtitle count are the number of records.
     */
    ghost predicate Numbered()
      reads this
    {
      && gsi.tnb as int == |ttis|
      && gsi.tns as int == |ttis|
      && forall k :: 0 <= k < |ttis| ==> ttis[k].sn as int == k + 1
    }

    /** The file as a value. */
    function Contents(): Document
      reads this
    {
      Document(gsi, ttis)
    }

    /** `Stl::new`: a fresh header dated `year`-`month`-`day` and no records. */
    constructor (year: nat, month: nat, day: nat)
      requires 1 <= month <= 12 && 1 <= day <= 31
      ensures gsi == NewGsi(year, month, day) && ttis == []
      ensures Valid() && Numbered()
    {
      gsi := NewGsi(year, month, day);
      ttis := [];
    }

    /**
     * `Stl::add_sub`: the block count goes up by one and numbers the new
     * record, the subtitle count goes up by one, and the record is
     * appended. The counters are `u16`, so neither may already be at its
     * maximum.
     */
    method AddSub(tci: Time, tco: Time, txt: string, opt: TtiFormat, enc: Encoder)
      requires Valid() && gsi.tnb < 0xFFFF && gsi.tns < 0xFFFF
      modifies this
      ensures gsi == old(gsi).(tnb := old(gsi.tnb) + 1, tns := old(gsi.tns) + 1)
      ensures ttis == old(ttis) + [NewRecord(old(gsi.tnb) + 1, tci, tco, txt, opt, old(gsi.cct), enc)]
      ensures Valid()
      ensures old(Numbered()) ==> Numbered()
    {
      var sn := gsi.tnb + 1;
      var tti := NewTti(sn, tci, tco, txt, opt, gsi.cct, enc);
      CountersKeepFit(gsi, sn, gsi.tns + 1);
      gsi := gsi.(tnb := sn, tns := gsi.tns + 1);
      ttis := ttis + [tti];
    }

    /**
     * The bytes `Stl::write_to_file` writes: the serialised header, then
     * each record in order. A file with at least one record reads back as
     * the same records under the header with its text fields padded; a
     * file with none is reported as incomplete.
     */
    method Serialize() returns (res: seq<byte>)
      requires Valid()
      ensures res == DocumentImage(Contents())
      ensures |res| == GSI_LENGTH + TTI_LENGTH * |ttis|
      ensures |ttis| >= 1 ==> Parser.ParseStlFromSlice(res) == Errors.Ok(Document(Padded(gsi), ttis))
      ensures |ttis| == 0 ==> Parser.ParseStlFromSlice(res) == Errors.Err(Errors.Incomplete)
    {
      var v := new ByteVec();
      WriteHeader(v, gsi);
      assert v.bytes == GsiImage(gsi);
      WriteRecords(v, ttis);
      res := v.bytes;
      FileReadsBack(Contents());
    }
  }

  /** The counters are not part of what a header must fit. */
  lemma CountersKeepFit(g: GsiBlock, tnb: u16, tns: u16)
    requires Fits(g)
    ensures Fits(g.(tnb := tnb, tns := tns))
  {
  }

  /** Appends the header's bytes. */
  method WriteHeader(v: ByteVec, g: GsiBlock)
    requires Fits(g)
    modifies v
    ensures v.bytes == old(v.bytes) + GsiImage(g)
  {
    var header := Gsi.Serialize(g);
    v.Extend(header);
  }

  /** Appends one record's bytes. */
  method WriteRecord(v: ByteVec, t: TtiBlock)
    modifies v
    ensures v.bytes == old(v.bytes) + RecordImage(t)
  {
    var record := Tti.Serialize(t);
    v.Extend(record);
  }

  /** Appends each record's bytes in order (the loop of `write_to_file`). */
  method WriteRecords(v: ByteVec, ttis: seq<TtiBlock>)
    modifies v
    ensures v.bytes == old(v.bytes) + RecordsImage(ttis)
  {
    var i := 0;
    while i < |ttis|
      invariant 0 <= i <= |ttis|
      invariant v.bytes == old(v.bytes) + RecordsImage(ttis[..i])
    {
      RecordsImagePrefix(ttis, i);
      ghost var written := RecordsImage(ttis[..i]);
      WriteRecord(v, ttis[i]);
      AppendAssoc(old(v.bytes), written, RecordImage(ttis[i]));
      i := i + 1;
    }
    assert ttis[..i] == ttis;
  }

  /**
   * The written file has the size of its header and records; with at least
   * one record it reads back as the same file, header text padded, and with
   * none it is incomplete.
   */
  lemma FileReadsBack(d: Document)
    requires Fits(d.gsi) && FullRecords(d.ttis)
    requires forall k :: 0 <= k < |d.ttis| ==> d.ttis[k].cct == d.gsi.cct
    ensures |DocumentImage(d)| == GSI_LENGTH + TTI_LENGTH * |d.ttis|
    ensures |d.ttis| >= 1 ==> Parser.ParseStlFromSlice(DocumentImage(d)) == Errors.Ok(Document(Padded(d.gsi), d.ttis))
    ensures |d.ttis| == 0 ==> Parser.ParseStlFromSlice(DocumentImage(d)) == Errors.Err(Errors.Incomplete)
  {
    DocumentImageLength(d);
    if |d.ttis| >= 1 {
      Parser.DocumentRoundTrip(d);
    } else {
      assert RecordsImage(d.ttis) == [];
      assert DocumentImage(d) == GsiImage(d.gsi);
      Parser.HeaderAloneIncomplete(d.gsi);
    }
  }
}
