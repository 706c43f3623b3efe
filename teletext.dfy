/**
 * The 112-byte text field of a subtitle record. Text is written between
 * teletext spacing attributes (0x0D double height, 0x0B start box, 0x0A end
 * box), ends with the STL line break 0x8A and is filled up with 0x8F. Reading
 * it back decodes each run of displayable bytes that a control byte ends.
 *
 * The character-set transcoders (ISO 6937 and ISO 8859-5/6/7/8, chosen by the
 * character code table) are external: they are parameters here.
 */
module Teletext {
  import opened Bytes
  import opened Codes
  import opened Buffer

  /** Text to bytes in the record's character code table. */
  type Encoder = (CharacterCodeTable, string) -> seq<byte>
  /** Bytes of one run to text in the record's character code table. */
  type Decoder = (CharacterCodeTable, seq<byte>) -> string

  const TF_LENGTH: nat := 112
  /** Room left for the lead-in and the text once the three closing codes are counted. */
  const MAX_CONTENT: nat := TF_LENGTH - 3

  const DOUBLE_HEIGHT: byte := 0x0D
  const START_BOX: byte := 0x0B
  const END_BOX: byte := 0x0A
  const NEW_LINE: byte := 0x8A
  const FILLER: byte := 0x8F

  /** The three codes that close the text. */
  const TRAILER: seq<byte> := [END_BOX, END_BOX, NEW_LINE]

  /** Bytes 0x00..0x1F and 0x80..0x9F are codes; every other byte is displayable text. */
  predicate IsControl(c: byte) {
    c <= 0x1F || 0x80 <= c <= 0x9F
  }

  predicate NoControl(s: seq<byte>) {
    forall i :: 0 <= i < |s| ==> !IsControl(s[i])
  }

  /** The attributes written before the text. */
  function Lead(dh: bool): seq<byte> {
    (if dh then [DOUBLE_HEIGHT] else []) + [START_BOX, START_BOX]
  }

  /** How much of the encoded text survives the cut to `MAX_CONTENT` bytes after the lead-in. */
  function Kept(payload: seq<byte>, dh: bool): (r: seq<byte>)
    ensures |Lead(dh)| + |r| <= MAX_CONTENT
    ensures |r| <= |payload| && r == payload[..|r|]
    ensures |Lead(dh)| + |payload| <= MAX_CONTENT ==> r == payload
    ensures |Lead(dh)| + |payload| > MAX_CONTENT ==> |Lead(dh)| + |r| == MAX_CONTENT
  {
    var room := MAX_CONTENT - |Lead(dh)|;
    if |payload| <= room then payload else payload[..room]
  }

  /**
   * The text field `encode_text` builds from the encoded text `payload`:
   * lead-in and text cut to `MAX_CONTENT` bytes, the closing codes, then
   * filler up to `TF_LENGTH` bytes.
   */
  function Frame(payload: seq<byte>, dh: bool): (r: seq<byte>)
    ensures |r| == TF_LENGTH
  {
    var body := Lead(dh) + payload;
    var kept := if |body| > MAX_CONTENT then body[..MAX_CONTENT] else body;
    kept + TRAILER + Repeat(FILLER, TF_LENGTH - |kept| - |TRAILER|)
  }

  /**
   * The text field starts with the lead-in, then the kept text, then the
   * three closing codes, and filler fills the rest.
   */
  lemma FrameLayout(payload: seq<byte>, dh: bool)
    ensures var r, l, e := Frame(payload, dh), |Lead(dh)|, |Lead(dh)| + |Kept(payload, dh)|;
      && e + |TRAILER| <= |r|
      && r[..l] == Lead(dh)
      && r[l..e] == Kept(payload, dh)
      && r[e] == END_BOX && r[e + 1] == END_BOX && r[e + 2] == NEW_LINE
      && forall i :: e + |TRAILER| <= i < |r| ==> r[i] == FILLER
  {
    var body := Lead(dh) + payload;
    var kept := if |body| > MAX_CONTENT then body[..MAX_CONTENT] else body;
    var r := Frame(payload, dh);
    var l, e := |Lead(dh)|, |Lead(dh)| + |Kept(payload, dh)|;
    assert kept == Lead(dh) + Kept(payload, dh);
    assert r[..e] == kept;
    assert r[..l] == kept[..l];
    assert r[l..e] == kept[l..e];
  }

  /**
   * `encode_text`: the text field for `txt`, in double height when `dh`.
   * The buffer is cut to `MAX_CONTENT` bytes before the closing codes go in.
   */
  method EncodeText(txt: string, dh: bool, cct: CharacterCodeTable, enc: Encoder) returns (r: seq<byte>)
    ensures r == Frame(enc(cct, txt), dh)
  {
    var text := enc(cct, txt);
    var res := new ByteVec();
    if dh {
      res.Push(DOUBLE_HEIGHT);
    }
    res.Push(START_BOX);
    res.Push(START_BOX);
    res.Extend(text);
    ghost var body := Lead(dh) + text;
    assert res.bytes == body;
    res.Truncate(MAX_CONTENT);
    ghost var kept := res.bytes;
    assert kept == if |body| > MAX_CONTENT then body[..MAX_CONTENT] else body;
    res.Push(END_BOX);
    res.Push(END_BOX);
    res.Push(NEW_LINE);
    assert res.bytes == kept + TRAILER;
    var padding := TF_LENGTH - res.Len();
    res.Extend(Repeat(FILLER, padding));
    r := res.bytes;
  }

  /** The decoded run `tf[first..i]`; an empty run decodes to nothing. */
  function RunText(tf: seq<byte>, first: nat, i: nat, cct: CharacterCodeTable, dec: Decoder): string
    requires first <= i <= |tf|
  {
    if first < i then dec(cct, tf[first..i]) else ""
  }

  /** What a control byte other than filler adds after the run it ends. */
  function LineBreak(c: byte): string {
    if c == NEW_LINE then "\r\n" else ""
  }

  /**
   * The text read from `tf[i..]` when the current run started at `first`:
   * a control byte ends the run, which is decoded (an empty run adds
   * nothing); 0x8A then adds a line break, 0x8F ends the text, and other
   * codes add nothing; a run that reaches the end of the field is dropped.
   */
  function Scan(tf: seq<byte>, first: nat, i: nat, cct: CharacterCodeTable, dec: Decoder): string
    requires first <= i <= |tf|
    decreases |tf| - i
  {
    if i == |tf| then ""
    else if !IsControl(tf[i]) then Scan(tf, first, i + 1, cct, dec)
    else if tf[i] == FILLER then RunText(tf, first, i, cct, dec)
    else RunText(tf, first, i, cct, dec) + LineBreak(tf[i]) + Scan(tf, i + 1, i + 1, cct, dec)
  }

  /** The text `get_text` reads from the text field `tf`. */
  function Text(tf: seq<byte>, cct: CharacterCodeTable, dec: Decoder): string {
    Scan(tf, 0, 0, cct, dec)
  }

  /** Scanning across a run up to the control byte at `j` that ends it. */
  lemma {:induction false} ScanRun(tf: seq<byte>, first: nat, i: nat, j: nat, cct: CharacterCodeTable, dec: Decoder)
    requires first <= i <= j < |tf| && IsControl(tf[j])
    requires forall k :: i <= k < j ==> !IsControl(tf[k])
    ensures Scan(tf, first, i, cct, dec)
         == if tf[j] == FILLER then RunText(tf, first, j, cct, dec)
            else RunText(tf, first, j, cct, dec) + LineBreak(tf[j]) + Scan(tf, j + 1, j + 1, cct, dec)
    decreases j - i
  {
    if i < j {
      ScanRun(tf, first, i + 1, j, cct, dec);
    }
  }

  /** A run that reaches the end of the field adds nothing. */
  lemma {:induction false} ScanToEnd(tf: seq<byte>, first: nat, i: nat, cct: CharacterCodeTable, dec: Decoder)
    requires first <= i <= |tf|
    requires forall k :: i <= k < |tf| ==> !IsControl(tf[k])
    ensures Scan(tf, first, i, cct, dec) == ""
    decreases |tf| - i
  {
    if i < |tf| {
      ScanToEnd(tf, first, i + 1, cct, dec);
    }
  }

  /**
   * Two fields that agree on their first `n` bytes read the same from `i`
   * when a filler among those bytes ends the scan.
   */
  lemma {:induction false} ScanAgree(x: seq<byte>, y: seq<byte>, n: nat, f: nat, first: nat, i: nat,
                                     cct: CharacterCodeTable, dec: Decoder)
    requires n <= |x| && n <= |y| && x[..n] == y[..n]
    requires first <= i <= f < n && x[f] == FILLER
    ensures Scan(x, first, i, cct, dec) == Scan(y, first, i, cct, dec)
    decreases f - i
  {
    forall k | first <= k <= i
      ensures x[k] == y[k]
    {
      assert x[k] == x[..n][k];
      assert y[k] == y[..n][k];
    }
    if IsControl(x[i]) {
      assert x[first..i] == y[first..i];
      if x[i] != FILLER {
        ScanAgree(x, y, n, f, i + 1, i + 1, cct, dec);
      }
    } else {
      ScanAgree(x, y, n, f, first, i + 1, cct, dec);
    }
  }

  /** `get_text` stops at the first filler: whatever follows it is ignored. */
  lemma TextStopsAtFiller(a: seq<byte>, b: seq<byte>, cct: CharacterCodeTable, dec: Decoder)
    ensures Text(a + [FILLER] + b, cct, dec) == Text(a + [FILLER], cct, dec)
  {
    var x, y := a + [FILLER] + b, a + [FILLER];
    assert x[..|y|] == y[..|y|];
    ScanAgree(x, y, |y|, |a|, 0, 0, cct, dec);
  }

  /**
   * The scan of `a + s` agrees with the scan of `a` up to the end of `a`,
   * when `s` holds no control byte.
   */
  lemma {:induction false} ScanAppendRun(a: seq<byte>, s: seq<byte>, first: nat, i: nat, cct: CharacterCodeTable, dec: Decoder)
    requires NoControl(s) && first <= i <= |a|
    ensures Scan(a + s, first, i, cct, dec) == Scan(a, first, i, cct, dec)
    decreases |a| - i
  {
    var t := a + s;
    if i == |a| {
      ScanToEnd(t, first, i, cct, dec);
    } else {
      assert t[i] == a[i];
      if IsControl(a[i]) {
        assert t[first..i] == a[first..i];
        if a[i] != FILLER {
          ScanAppendRun(a, s, i + 1, i + 1, cct, dec);
        }
      } else {
        ScanAppendRun(a, s, first, i + 1, cct, dec);
      }
    }
  }

  /**
   * A run of displayable bytes at the very end of the field is not decoded:
   * appending text without a control byte changes nothing.
   */
  lemma TextDropsUnterminatedRun(a: seq<byte>, s: seq<byte>, cct: CharacterCodeTable, dec: Decoder)
    requires NoControl(s)
    ensures Text(a + s, cct, dec) == Text(a, cct, dec)
  {
    ScanAppendRun(a, s, 0, 0, cct, dec);
  }

  lemma AppendEmpty(a: string)
    ensures a + "" == a && "" + a == a
  {
  }

  /** The scan from the first end box: one line break, then the filler or the end of the field. */
  lemma ScanClosing(tf: seq<byte>, e: nat, cct: CharacterCodeTable, dec: Decoder)
    requires e + 2 < |tf| && tf[e] == END_BOX && tf[e + 1] == END_BOX && tf[e + 2] == NEW_LINE
    requires forall k :: e + 3 <= k < |tf| ==> tf[k] == FILLER
    ensures Scan(tf, e + 1, e + 1, cct, dec) == "\r\n"
  {
    ScanRun(tf, e + 1, e + 1, e + 1, cct, dec);
    ScanRun(tf, e + 2, e + 2, e + 2, cct, dec);
    if e + 3 < |tf| {
      ScanRun(tf, e + 3, e + 3, e + 3, cct, dec);
    }
    AppendEmpty("\r\n");
  }

  /** The scan over the lead-in codes adds nothing. */
  lemma ScanLead(tf: seq<byte>, dh: bool, cct: CharacterCodeTable, dec: Decoder)
    requires |Lead(dh)| < |tf| && tf[..|Lead(dh)|] == Lead(dh)
    ensures Scan(tf, 0, 0, cct, dec) == Scan(tf, |Lead(dh)|, |Lead(dh)|, cct, dec)
  {
    var l := |Lead(dh)|;
    assert tf[l - 1] == Lead(dh)[l - 1] && tf[l - 2] == Lead(dh)[l - 2];
    ScanRun(tf, l - 1, l - 1, l - 1, cct, dec);
    AppendEmpty(Scan(tf, l, l, cct, dec));
    ScanRun(tf, l - 2, l - 2, l - 2, cct, dec);
    AppendEmpty(Scan(tf, l - 1, l - 1, cct, dec));
    if dh {
      assert tf[0] == DOUBLE_HEIGHT;
      ScanRun(tf, 0, 0, 0, cct, dec);
      AppendEmpty(Scan(tf, 1, 1, cct, dec));
    }
  }

  /**
   * Reading back a field written from text without control bytes gives the
   * decoded kept part of the text and one line break.
   */
  lemma TextOfFrame(payload: seq<byte>, dh: bool, cct: CharacterCodeTable, dec: Decoder)
    requires NoControl(payload)
    ensures var kept := Kept(payload, dh);
      Text(Frame(payload, dh), cct, dec) == (if |kept| > 0 then dec(cct, kept) else "") + "\r\n"
  {
    var tf := Frame(payload, dh);
    var kept := Kept(payload, dh);
    var l := |Lead(dh)|;
    var e := l + |kept|;
    FrameLayout(payload, dh);
    ScanLead(tf, dh, cct, dec);
    forall k | l <= k < e
      ensures !IsControl(tf[k])
    {
      assert tf[k] == tf[l..e][k - l] == payload[k - l];
    }
    ScanRun(tf, l, l, e, cct, dec);
    ScanClosing(tf, e, cct, dec);
    AppendEmpty("\r\n");
  }

  lemma Regroup(a: string, b: string, c: string, d: string)
    ensures a + b + c + d == a + (b + c + d)
  {
  }

  /** `get_text`: scans the field with a running run start `first`. */
  method GetText(tf: seq<byte>, cct: CharacterCodeTable, dec: Decoder) returns (result: string)
    ensures result == Text(tf, cct, dec)
  {
    result := "";
    var first := 0;
    AppendEmpty(Text(tf, cct, dec));
    for i := 0 to |tf|
      invariant first <= i
      invariant result + Scan(tf, first, i, cct, dec) == Text(tf, cct, dec)
    {
      var c := tf[i];
      if IsControl(c) {
        ghost var before := result;
        if first != i {
          var decoded := dec(cct, tf[first..i]);
          result := result + decoded;
        } else {
          AppendEmpty(result);
        }
        assert result == before + RunText(tf, first, i, cct, dec);
        if c == FILLER {
          AppendEmpty(result);
          return;
        } else if c == NEW_LINE {
          result := result + "\r\n";
        } else {
          AppendEmpty(result);
        }
        assert result == before + RunText(tf, first, i, cct, dec) + LineBreak(c);
        Regroup(before, RunText(tf, first, i, cct, dec), LineBreak(c), Scan(tf, i + 1, i + 1, cct, dec));
        first := i + 1;
      }
    }
    AppendEmpty(result);
  }
}
