/**
 * The closed-set fields of the header and of the subtitle records. Each is a
 * tagged variant with a lookup table in each direction: `Serialize` writes the
 * variant's code, `Parse` accepts exactly the codes in the table.
 */
module Codes {
  import opened Bytes
  import opened Decimal
  import opened Errors

  /** Header bytes 0..2: the code page of the header's own free text. */
  datatype CodePageNumber = Cpn437 | Cpn850 | Cpn860 | Cpn863 | Cpn865 {

    /** The number of the code page this variant names. */
    function Number(): u16 {
      match this
      case Cpn437 => 437
      case Cpn850 => 850
      case Cpn860 => 860
      case Cpn863 => 863
      case Cpn865 => 865
    }

    /** The three ASCII digits written at bytes 0..2. */
    function Serialize(): (r: seq<byte>)
      ensures r == Digits(Number(), 3)
    {
      match this
      case Cpn437 => [0x34, 0x33, 0x37]
      case Cpn850 => [0x38, 0x35, 0x30]
      case Cpn860 => [0x38, 0x36, 0x30]
      case Cpn863 => [0x38, 0x36, 0x33]
      case Cpn865 => [0x38, 0x36, 0x35]
    }

    /** The code page numbered `code`, or the code-page error carrying `code`. */
    static function FromU16(code: u16): (r: Result<CodePageNumber>)
      ensures r.Ok? <==> code in {437, 850, 860, 863, 865}
      ensures r.Ok? ==> r.value.Number() == code
      ensures r.Err? ==> r.error == InvalidCodePageNumber(code)
    {
      match code
      case 437 => Ok(Cpn437)
      case 850 => Ok(Cpn850)
      case 860 => Ok(Cpn860)
      case 863 => Ok(Cpn863)
      case 865 => Ok(Cpn865)
      case _ => Err(InvalidCodePageNumber(code))
    }

    /**
     * The code-page field read as a decimal number (Rust `u16::from_str`)
     * and looked up with `FromU16`; a field that is not a number is `Unknown`.
     */
    static function Parse(data: seq<byte>): (r: Result<CodePageNumber>)
      ensures r.Ok? ==> ParseUnsigned(data, 0xFFFF) == Some(r.value.Number() as nat)
      ensures ParseUnsigned(data, 0xFFFF).None? ==> r == Err(Unknown)
    {
      match ParseUnsigned(data, 0xFFFF)
      case None => Err(Unknown)
      case Some(code) => FromU16(code)
    }
  }

  /** Header byte 11. */
  datatype DisplayStandardCode = Blank | OpenSubtitling | Level1Teletext | Level2Teletext {

    function Serialize(): byte {
      match this
      case Blank => 0x20
      case OpenSubtitling => 0x30
      case Level1Teletext => 0x31
      case Level2Teletext => 0x32
    }

    static function Parse(b: byte): (r: Result<DisplayStandardCode>)
      ensures r.Ok? <==> b in {0x20, 0x30, 0x31, 0x32}
      ensures r.Ok? ==> r.value.Serialize() == b
      ensures r.Err? ==> r.error == InvalidDisplayStandardCode
    {
      match b
      case 0x20 => Ok(Blank)
      case 0x30 => Ok(OpenSubtitling)
      case 0x31 => Ok(Level1Teletext)
      case 0x32 => Ok(Level2Teletext)
      case _ => Err(InvalidDisplayStandardCode)
    }
  }

  /** Header byte 255. */
  datatype TimeCodeStatus = NotIntendedForUse | IntendedForUse {

    function Serialize(): byte {
      match this
      case NotIntendedForUse => 0x30
      case IntendedForUse => 0x31
    }

    static function Parse(b: byte): (r: Result<TimeCodeStatus>)
      ensures r.Ok? <==> b in {0x30, 0x31}
      ensures r.Ok? ==> r.value.Serialize() == b
      ensures r.Err? ==> r.error == InvalidTimeCodeStatus
    {
      match b
      case 0x30 => Ok(NotIntendedForUse)
      case 0x31 => Ok(IntendedForUse)
      case _ => Err(InvalidTimeCodeStatus)
    }
  }

  /** Header bytes 12..13: the character set of the subtitle text. */
  datatype CharacterCodeTable = Latin | LatinCyrillic | LatinArabic | LatinGreek | LatinHebrew {

    function Serialize(): seq<byte> {
      match this
      case Latin => [0x30, 0x30]
      case LatinCyrillic => [0x30, 0x31]
      case LatinArabic => [0x30, 0x32]
      case LatinGreek => [0x30, 0x33]
      case LatinHebrew => [0x30, 0x34]
    }

    static function Parse(data: seq<byte>): (r: Result<CharacterCodeTable>)
      ensures r.Ok? <==> |data| == 2 && data[0] == 0x30 && 0x30 <= data[1] <= 0x34
      ensures r.Ok? ==> r.value.Serialize() == data
      ensures r.Err? ==> r.error == InvalidCharacterCodeTable
    {
      if |data| != 2 then Err(InvalidCharacterCodeTable)
      else if data[0] != 0x30 then Err(InvalidCharacterCodeTable)
      else
        match data[1]
        case 0x30 => Ok(Latin)
        case 0x31 => Ok(LatinCyrillic)
        case 0x32 => Ok(LatinArabic)
        case 0x33 => Ok(LatinGreek)
        case 0x34 => Ok(LatinHebrew)
        case _ => Err(InvalidCharacterCodeTable)
    }
  }

  /** "STL25.01" in ASCII. */
  const STL25_01: seq<byte> := [0x53, 0x54, 0x4C, 0x32, 0x35, 0x2E, 0x30, 0x31]
  /** "STL30.01" in ASCII. */
  const STL30_01: seq<byte> := [0x53, 0x54, 0x4C, 0x33, 0x30, 0x2E, 0x30, 0x31]

  /** Header bytes 3..10: the format, which fixes the frame rate. */
  datatype DiskFormatCode = Stl25_01 | Stl30_01 {

    function Serialize(): seq<byte> {
      match this
      case Stl25_01 => STL25_01
      case Stl30_01 => STL30_01
    }

    static function Parse(data: seq<byte>): (r: Result<DiskFormatCode>)
      ensures r.Ok? <==> data == STL25_01 || data == STL30_01
      ensures r.Ok? ==> r.value.Serialize() == data
      ensures r.Err? ==> r.error == InvalidDiskFormatCode(data)
    {
      if data == STL25_01 then Ok(Stl25_01)
      else if data == STL30_01 then Ok(Stl30_01)
      else Err(InvalidDiskFormatCode(data))
    }

    /** Frames per second: the number written at bytes 3..4 of the code. */
    function GetFps(): (r: nat)
      ensures r < 100 && Serialize()[3..5] == Digits(r, 2)
    {
      match this
      case Stl25_01 => 25
      case Stl30_01 => 30
    }
  }

  /** Record byte 4: the position of a record in a cumulative set. */
  datatype CumulativeStatus = NotPartOfASet | FirstInSet | IntermediateInSet | LastInSet {

    function Serialize(): byte {
      match this
      case NotPartOfASet => 0
      case FirstInSet => 1
      case IntermediateInSet => 2
      case LastInSet => 3
    }

    static function Parse(b: byte): (r: Result<CumulativeStatus>)
      ensures r.Ok? <==> b <= 3
      ensures r.Ok? ==> r.value.Serialize() == b
      ensures r.Err? ==> r.error == InvalidCumulativeStatus
    {
      match b
      case 0 => Ok(NotPartOfASet)
      case 1 => Ok(FirstInSet)
      case 2 => Ok(IntermediateInSet)
      case 3 => Ok(LastInSet)
      case _ => Err(InvalidCumulativeStatus)
    }
  }

  /** A written code page field reads back as the same code page. */
  lemma CodePageNumberRoundTrip(c: CodePageNumber)
    ensures CodePageNumber.Parse(c.Serialize()) == Ok(c)
  {
    ParseDigits(c.Number(), 3, 0xFFFF);
  }

  /**
   * A three-byte code-page field is accepted only when it is exactly the
   * code that `Serialize` writes: there is no second spelling of a code page.
   */
  lemma CodePageNumberCanonical(data: seq<byte>)
    requires |data| == 3 && CodePageNumber.Parse(data).Ok?
    ensures CodePageNumber.Parse(data).value.Serialize() == data
  {
    var c := CodePageNumber.Parse(data).value;
    if data[0] == PLUS {
      assert AllDigits(data[1..]);
      DigitsOfValue(data[1..]);
    } else {
      assert AllDigits(data);
      DigitsOfValue(data);
    }
  }

  lemma DisplayStandardCodeRoundTrip(c: DisplayStandardCode)
    ensures DisplayStandardCode.Parse(c.Serialize()) == Ok(c)
  {
  }

  lemma TimeCodeStatusRoundTrip(c: TimeCodeStatus)
    ensures TimeCodeStatus.Parse(c.Serialize()) == Ok(c)
  {
  }

  lemma CharacterCodeTableRoundTrip(c: CharacterCodeTable)
    ensures CharacterCodeTable.Parse(c.Serialize()) == Ok(c)
  {
  }

  lemma DiskFormatCodeRoundTrip(c: DiskFormatCode)
    ensures DiskFormatCode.Parse(c.Serialize()) == Ok(c)
  {
  }

  lemma CumulativeStatusRoundTrip(c: CumulativeStatus)
    ensures CumulativeStatus.Parse(c.Serialize()) == Ok(c)
  {
  }
}
