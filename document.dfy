/**
 * A whole subtitle file as a value: the header followed by the subtitle
 * records, and the bytes `Stl::write_to_file` writes for it (the serialised
 * header, then each record's bytes in order).
 */
module StlFile {
  import opened Bytes
  import opened Teletext
  import opened Tti
  import opened Gsi

  /** The contents of an `Stl`: one header and the records in file order. */
  datatype Document = Document(gsi: GsiBlock, ttis: seq<TtiBlock>)

  /** The records written back to back, in order. */
  function RecordsImage(ttis: seq<TtiBlock>): seq<byte>
  {
    if |ttis| == 0 then [] else RecordsImage(ttis[..|ttis| - 1]) + RecordImage(ttis[|ttis| - 1])
  }

  /** Every record has a full text field. */
  predicate FullRecords(ttis: seq<TtiBlock>) {
    forall k :: 0 <= k < |ttis| ==> |ttis[k].tf| == TF_LENGTH
  }

  /** The file image of a document whose header fits its fields. */
  function DocumentImage(d: Document): (r: seq<byte>)
    requires Fits(d.gsi)
    ensures |r| >= GSI_LENGTH && r[..GSI_LENGTH] == GsiImage(d.gsi) && r[GSI_LENGTH..] == RecordsImage(d.ttis)
  {
    GsiLayout(d.gsi);
    GsiImage(d.gsi) + RecordsImage(d.ttis)
  }

  /** Full records take `TTI_LENGTH` bytes each. */
  lemma {:induction false} RecordsImageLength(ttis: seq<TtiBlock>)
    requires FullRecords(ttis)
    ensures |RecordsImage(ttis)| == TTI_LENGTH * |ttis|
  {
    if |ttis| > 0 {
      RecordLayout(ttis[|ttis| - 1]);
      RecordsImageLength(ttis[..|ttis| - 1]);
    }
  }

  /** The bytes of the first `i + 1` records are those of the first `i`, then record `i`'s. */
  lemma RecordsImagePrefix(ttis: seq<TtiBlock>, i: nat)
    requires i < |ttis|
    ensures RecordsImage(ttis[..i + 1]) == RecordsImage(ttis[..i]) + RecordImage(ttis[i])
  {
    assert ttis[..i + 1][..i] == ttis[..i];
  }

  /** Records written back to back start with the first record's bytes. */
  lemma {:induction false} RecordsImageCons(ttis: seq<TtiBlock>)
    requires |ttis| >= 1
    ensures RecordsImage(ttis) == RecordImage(ttis[0]) + RecordsImage(ttis[1..])
    decreases |ttis|
  {
    if |ttis| > 1 {
      var n := |ttis|;
      var front, rest := ttis[..n - 1], ttis[1..];
      RecordsImageCons(front);
      assert front[1..] == rest[..n - 2];
      assert RecordsImage(rest) == RecordsImage(rest[..n - 2]) + RecordImage(ttis[n - 1]);
      AppendAssoc(RecordImage(ttis[0]), RecordsImage(front[1..]), RecordImage(ttis[n - 1]));
    } else {
      assert ttis[..0] == [] && ttis[1..] == [];
    }
  }

  /** The file image of a document with full records has the size of a header plus its records. */
  lemma DocumentImageLength(d: Document)
    requires Fits(d.gsi) && FullRecords(d.ttis)
    ensures |DocumentImage(d)| == GSI_LENGTH + TTI_LENGTH * |d.ttis|
  {
    GsiLayout(d.gsi);
    RecordsImageLength(d.ttis);
  }
}
