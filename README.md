# EBU STL subtitle files: a verified model of the codec

EBU STL (Tech 3264) subtitle files are one 1024-byte general subtitle
information block (the GSI header) followed by 128-byte text and timing
information blocks (TTI records). Each record holds the subtitle number, the
time codes in and out, presentation options and a 112-byte teletext text
field. This project models the core of the `ebustl` Rust crate:

- the closed-set codes;
- the header and record serialisers;
- the text-field encoder and decoder;
- `Stl::add_sub`;
- the `nom` readers of `parser.rs`.

It proves that what the writer produces the reader accepts.

Modules, one per file:

| file | module | models |
|---|---|---|
| `bytes.dfy` | `Bytes` | bytes, `u16`, space padding, fixed-offset block layouts |
| `decimal.dfy` | `Decimal` | zero-padded decimal counters and Rust's unsigned `from_str` |
| `utf8.dfy` | `Utf8` | well-formed UTF-8, as `std::str::from_utf8` checks it |
| `errors.dfy` | `Errors` | the `ParseError` kinds and a result type |
| `codes.dfy` | `Codes` | the six closed enums with their `parse`/`serialize` tables, `from_u16` and `get_fps` |
| `buffer.dfy` | `Buffer` | the `Vec<u8>` the serialisers push into, and `push_string` |
| `teletext.dfy` | `Teletext` | `encode_text` and `get_text` |
| `tti.dfy` | `Tti` | `Time`, `TtiBlock`, `TtiBlock::new` and `TtiBlock::serialize` |
| `gsi.dfy` | `Gsi` | `GsiBlock`, `GsiBlock::new` and `GsiBlock::serialize` |
| `steps.dfy` | `Steps` | the `nom` combinators used, as steps of a forward byte cursor |
| `parser.dfy` | `Parser` | `parse_time`, `parse_tti_block`, `parse_gsi_block`, `parse_stl` and `parse_stl_from_slice` |
| `document.dfy` | `StlFile` | a whole file as a value, and its bytes |
| `stl.dfy` | `Subtitles` | the `Stl` object: `new`, `add_sub`, and the bytes `write_to_file` writes |

The main results:

- **Closed enums.** Each one reads back what it writes, and its reader
  accepts exactly the codes of its table.
- **Header.** The serialised header is 1024 bytes, with every field at its
  documented offset. Reading it back gives the same header with its text
  fields space-padded (`Parser.GsiSerializeRoundTrip`).
- **Records.** A record is 128 bytes and reads back as itself
  (`Parser.TtiSerializeRoundTrip`).
- **Text field.** The encoded text field is always 112 bytes. Decoding a
  field encoded from control-free text gives the kept text and one line
  break (`Teletext.TextOfFrame`).
- **Whole file.** The bytes of an `Stl` with at least one subtitle read back
  as the same records under the padded header. An `Stl` with none is
  reported as incomplete (`Subtitles.Stl.Serialize`).
- **Reader first.** A file read from any input, written again, reads back as
  the very same document (`Parser.ParsedDocumentRoundTrip`).

The source is in two places. `parser.rs` no longer matches `lib.rs`, and the
model resolves the mismatches as follows:

- **Code-page field.** The reader calls a `CodePageNumber::parse` that
  `lib.rs` does not define. The model reads the three bytes as a decimal
  `u16` (as `u16::from_str` does) and looks the value up with `from_u16`.
  Bytes that do not form a number are a combinator error.
- **Error payloads.** The `ParseError` of `parser.rs` carries no payloads.
  `lib.rs` builds the code-page and disk-format kinds with the offending
  value, and the model keeps those values.
- **Record `cct`.** The record literal in `parse_tti_block` has no `cct`.
  Every record read is given the character code table of the header it
  follows, as the comment on the field asks.
- **Error kinds.** `ParseError` has a kind for each closed field, and the
  enums' `parse` functions return those kinds. The reader wraps them in
  `map_res!`, which drops the closure's error. `parse_stl_from_slice`
  therefore reports every malformed input as `Unknown` and every short one
  as `Incomplete`. The field-specific kinds appear only in the results of
  the enums' own `parse` functions.

## Model

| member | source | states |
|---|---|---|
| Codes.CodePageNumber.Serialize | src/lib.rs:111-119 | the three bytes written are the ASCII decimal digits of the variant's own code-page number |
| Codes.CodePageNumber.FromU16 | src/lib.rs:121-130 | succeeds exactly for 437, 850, 860, 863 and 865, with the variant of that number; any other number fails with the code-page error carrying it |
| Codes.CodePageNumber.Parse | src/parser.rs:74 | a field that is not a decimal `u16` is `Unknown`; an accepted field is the decimal rendering of the code page's number |
| Codes.CodePageNumberRoundTrip | src/lib.rs:111-130 | the written code-page field reads back as the same code page |
| Codes.CodePageNumberCanonical | src/parser.rs:74 | a three-byte field is accepted only if it is exactly the bytes its code page writes |
| Codes.DisplayStandardCode.Parse | src/lib.rs:142-150 | accepts exactly 0x20, 0x30, 0x31 and 0x32, each as the variant that writes that byte; anything else is the display-standard error |
| Codes.DisplayStandardCodeRoundTrip | src/lib.rs:141-160 | every display standard code reads back as itself |
| Codes.TimeCodeStatus.Parse | src/lib.rs:169-175 | accepts exactly 0x30 and 0x31, each as the variant that writes it; anything else is the time-code-status error |
| Codes.TimeCodeStatusRoundTrip | src/lib.rs:168-183 | every time code status reads back as itself |
| Codes.CharacterCodeTable.Parse | src/lib.rs:195-210 | accepts exactly two bytes, 0x30 then 0x30 to 0x34, as the table that writes those bytes; anything else is the character-code-table error |
| Codes.CharacterCodeTableRoundTrip | src/lib.rs:194-221 | every character code table reads back as itself |
| Codes.DiskFormatCode.Parse | src/lib.rs:231-239 | accepts exactly "STL25.01" and "STL30.01", as the format that writes that text; anything else is the disk-format error carrying the text |
| Codes.DiskFormatCode.GetFps | src/lib.rs:248-253 | the frame rate is below 100 and is the number written at bytes 3 and 4 of the format code (25 and 30) |
| Codes.DiskFormatCodeRoundTrip | src/lib.rs:230-246 | every disk format code reads back as itself |
| Codes.CumulativeStatus.Parse | src/lib.rs:529-537 | accepts exactly the bytes 0 to 3, as the status that writes that byte; anything else is the cumulative-status error |
| Codes.CumulativeStatusRoundTrip | src/lib.rs:528-547 | every cumulative status reads back as itself |
| Bytes.Pad | src/lib.rs:415-420 | a padded field is exactly `width` bytes: the string, then spaces |
| Bytes.PadExact | src/lib.rs:415-420 | a string that fills its field gets no padding |
| Buffer.PushString | src/lib.rs:415-420 | the buffer grows by exactly `len` bytes, the string then 0x20 padding, and its earlier contents are kept |
| Decimal.Digits | src/lib.rs:480-490 | a counter is written as exactly `width` ASCII digits, zero-padded, whose value is the counter |
| Decimal.ParseUnsigned | src/parser.rs:89-98 | an accepted text is non-empty, made of digits after an optional leading `+`, and its value is at most the maximum; text of digits alone within range gives its value |
| Decimal.ParseUnsignedMeaning | src/parser.rs:89-98 | `from_str` succeeds exactly when the text after an optional `+` is one or more digits whose value does not exceed the maximum, and then gives that value |
| Decimal.ParseDigits | src/lib.rs:480-490 | a zero-padded counter reads back as the number written |
| Decimal.ParsedNumberShape | src/parser.rs:89-98 | an accepted counter is ASCII and has no more digits than its field |
| Steps.U16FromStr | src/parser.rs:89-93 | `u16::from_str` succeeds exactly when the text is an unsigned decimal no greater than 65535, with that value |
| Steps.U8FromStr | src/parser.rs:97-98 | `u8::from_str` succeeds exactly when the text is an unsigned decimal no greater than 255, with that value |
| Steps.U16FromStrSigns | src/parser.rs:89-93 | a lone `+` and the empty text are rejected; `+5` is 5 and `0012` is 12 |
| Steps.FromStrOverflow | src/parser.rs:89-98 | 65536 is not a `u16` and 256 is not a `u8`; `9` is a `u8` |
| Utf8.PadStr | src/lib.rs:415-420 | a padded string is still UTF-8 and is the string followed by spaces |
| Teletext.Kept | src/lib.rs:696-700 | the kept text is a prefix of the encoded text, fits with the lead-in in 109 bytes, is the whole text when that fits and otherwise fills the 109 bytes |
| Teletext.Frame | src/lib.rs:677-707 | the text field is exactly 112 bytes |
| Teletext.FrameLayout | src/lib.rs:688-705 | the field is the lead-in (0x0D if double height, then 0x0B 0x0B), the kept text, 0x0A 0x0A 0x8A, and 0x8F filler to the end |
| Teletext.EncodeText | src/lib.rs:677-707 | `encode_text` returns the field `Frame` describes for the transcoded text |
| Teletext.GetText | src/lib.rs:709-740 | `get_text` returns the text `Text` describes: decoded runs ended by control bytes, "\r\n" for each 0x8A, stopping at the first 0x8F |
| Teletext.ScanToEnd | src/lib.rs:712-739 | a run of displayable bytes that reaches the end of the field adds nothing |
| Teletext.TextStopsAtFiller | src/lib.rs:731-732 | nothing after the first 0x8F affects the text read |
| Teletext.TextDropsUnterminatedRun | src/lib.rs:712-739 | displayable bytes appended at the very end of a field are dropped |
| Teletext.TextOfFrame | src/lib.rs:677-740 | reading back a field encoded from text without control bytes gives the decoded kept text followed by one "\r\n" |
| Tti.Time.Serialize | src/lib.rs:583-585 | a time code is written as four bytes (their values: `Parser.TimeRoundTrip`) |
| Tti.NewTti | src/lib.rs:654-675 | a new record has group 0, the given subtitle number, extension block 0xFF, no cumulative set, no comment, the options' position and justification, the given table, and a 112-byte text field from `encode_text` |
| Tti.RecordLayout | src/lib.rs:743-757 | a record is 16 bytes plus its text field, each field at its offset, the subtitle number low byte first |
| Tti.Serialize | src/lib.rs:743-757 | `TtiBlock::serialize` writes exactly the record's bytes, 16 plus the text field, every field at its offset |
| Gsi.Field | src/lib.rs:466-496 | each header field is written with exactly its documented width |
| Gsi.DocumentedOffsets | src/lib.rs:258-319 | the fields start at the offsets of their documentation (0, 3, 11, 12, 14, ..., 448) and the block ends at 1024 |
| Gsi.BlockLength | src/lib.rs:461-499 | the header fields add up to 1024 bytes |
| Gsi.GsiLayout | src/lib.rs:461-499 | the serialised header is 1024 bytes with every field at its documented offset |
| Gsi.DateStamp | src/lib.rs:424-425 | the creation date is six ASCII digits: the year within its century, the month and the day |
| Gsi.NewGsi | src/lib.rs:423-459 | a new header has code page 850, 25 fps, counts 0, one group, disk 1 of 1, and the given date as creation and revision date, and fits every field |
| Gsi.Padded | src/parser.rs:78-104 | the header as read back has every text field exactly its width, and still fits |
| Gsi.FullWidthPadded | src/parser.rs:78-104 | a header whose text fields already fill their widths is its own padding |
| Gsi.PaddedSameImage | src/lib.rs:461-499 | padding the text fields does not change the serialised header |
| Gsi.PaddedIdempotent | src/parser.rs:78-104 | padding a padded header changes nothing |
| Gsi.Serialize | src/lib.rs:461-499 | `GsiBlock::serialize` writes 1024 bytes with every field at its documented offset |
| Parser.ParseTime | src/parser.rs:115-123 | four bytes or more give hours, minutes, seconds and frames and move on by 4; fewer is `Incomplete` |
| Parser.TimeRoundTrip | src/lib.rs:583-585 | a written time code reads back as itself, whatever follows it |
| Parser.ParseTimeExamples | src/parser.rs:148-161 | [1, 2, 3, 4] reads as 1:2:3/4 with the whole input used, and a single byte is `Incomplete` |
| Parser.ParseTtiBlock | src/parser.rs:125-140 | a record takes exactly 128 bytes with every field at its offset and the header's table; with 128 bytes available it succeeds exactly when byte 4 is at most 3; a short input fails if byte 4 is already seen to be bad and is `Incomplete` otherwise |
| Parser.RecordReadLayout | src/parser.rs:125-140 | a record that was read lies in the input exactly as `TtiBlock::serialize` writes it |
| Parser.RecordReadUnique | src/parser.rs:125-140 | the bytes decide the record read |
| Parser.TtiRoundTrip | src/parser.rs:125-140 | a record laid out in the input with a full text field reads back as itself and the reader stops right after it |
| Parser.TtiSerializeRoundTrip | src/lib.rs:743-757 | what `TtiBlock::serialize` writes reads back as the same record, whatever follows |
| Parser.ParseCodes | src/parser.rs:74-77 | the code fields take 14 bytes, and each read code writes back as the bytes it came from |
| Parser.ParseTitles | src/parser.rs:78-84 | the language code, titles, translator and contact take 194 bytes, each field the UTF-8 text at its offset |
| Parser.ParseListDetails | src/parser.rs:85-88 | the list reference, dates and revision number take 30 bytes, each field the UTF-8 text at its offset |
| Parser.ParseCounter | src/parser.rs:89-93 | a counter takes exactly its width and is the `u16` its digits say |
| Parser.ParseDigit | src/parser.rs:97-98 | a one-digit field takes one byte and is the `u8` it says |
| Parser.ParseCounts | src/parser.rs:89-93 | the five counters take 17 bytes, each the number its digits say |
| Parser.ParseTimeCodes | src/parser.rs:94-98 | the status, the two time code texts and the disk numbers take 19 bytes |
| Parser.ParseTrailer | src/parser.rs:99-104 | the country, publisher, editor, contact, spare and user area take 750 bytes |
| Parser.ParseGsiBlock | src/parser.rs:72-113 | a header read takes exactly 1024 bytes and is what its fields say, group by group; with 1024 bytes available it is never `Incomplete` |
| Parser.HeaderReadFits | src/parser.rs:89-98 | a header that was read fits its fields, so it can be written back |
| Parser.HeaderReadBack | src/parser.rs:72-113 | if the 1024 bytes say `g`, the reader returns `g` (the converse of `ParseGsiBlock`'s contract) |
| Parser.InvalidCodeFails | src/parser.rs:74-94 | a code page, disk format, display standard, character code table or time code status outside its table fails the whole header, with no header produced |
| Parser.GsiRoundTrip | src/parser.rs:72-113 | a header laid out in the input reads back as that header with its text fields padded |
| Parser.GsiImageRoundTrip | src/lib.rs:461-499 | a serialised header anywhere in the input reads back as the padded header |
| Parser.GsiSerializeRoundTrip | src/lib.rs:461-499 | the serialised header is 1024 bytes and, whatever follows, reads back as the padded header |
| Parser.TtiImageRoundTrip | src/parser.rs:125-140 | a serialised record anywhere in the input reads back as the record |
| Parser.ParseTtiBlocks | src/parser.rs:59 | one or more records, read to the end of the input, each at the next 128-byte boundary with the header's table; an empty remainder is `Incomplete` |
| Parser.WholeRecordsNotIncomplete | src/parser.rs:59 | input that ends on a record boundary either reads or is malformed, never short |
| Parser.ParseStl | src/parser.rs:56-62 | a file read is a header then at least one record, using the whole input; a header alone, or less, is never a file |
| Parser.ParseStlFromSlice | src/parser.rs:64-70 | success exactly when `parse_stl` finishes; a failure is `Unknown` or `Incomplete`, never a field-specific kind, and `Incomplete` exactly when the input ran out |
| Parser.HeaderAloneIncomplete | src/parser.rs:56-62 | a serialised header with no record after it is reported as `Incomplete` |
| Parser.RecordsRoundTrip | src/parser.rs:59 | full records written back to back read back as themselves, to the end of the input |
| Parser.DocumentRoundTrip | src/parser.rs:56-70 | the header's bytes followed by one or more records' bytes read back as the same records under the padded header |
| Parser.ReadHeaderIsPadded | src/parser.rs:72-113 | a header read from any input fits its fields and every text field already has its full width, so it is its own padding |
| Parser.RecordsReadFull | src/parser.rs:59 | every record read has a full 112-byte text field and the header's character code table |
| Parser.ParsedDocumentRoundTrip | src/parser.rs:56-70 | a document read from any input, written again, reads back as exactly that document |
| StlFile.DocumentImage | src/lib.rs:47-54 | the file's bytes are the serialised header followed by the records' bytes |
| StlFile.RecordsImageLength | src/lib.rs:47-54 | full records take 128 bytes each |
| StlFile.RecordsImageCons | src/lib.rs:49-51 | the records' bytes start with the first record's bytes |
| StlFile.DocumentImageLength | src/lib.rs:47-54 | a file is 1024 bytes plus 128 per record |
| Subtitles.Stl.constructor | src/lib.rs:40-45 | a new document has the new header and no records, and is well formed and numbered |
| Subtitles.Stl.AddSub | src/lib.rs:56-65 | the block and subtitle counts go up by one, the new record is appended with the new block count as its number and the header's table, nothing else changes, and a numbered document stays numbered |
| Subtitles.Stl.Serialize | src/lib.rs:47-54 | the bytes written are the header's, then each record's in order; with a subtitle they read back as the same records under the padded header, and with none they are `Incomplete` |
| Subtitles.WriteRecords | src/lib.rs:50-52 | writing the records in a loop appends each record's bytes in order |
| Subtitles.FileReadsBack | src/parser.rs:56-70 | a well-formed document's bytes read back as the same document, padded, or as `Incomplete` when it has no record |

## Left out

- File I/O: `Stl::write_to_file` and `parse_stl_from_file` open, read and write files. The model keeps only the bytes written (`Subtitles.Stl.Serialize`) and read (`Parser.ParseStlFromSlice`); `Io` errors cannot arise.
- Character-set transcoding of record text: the ISO 6937 and ISO 8859-5/6/7/8 encoders and decoders are external crates, chosen by the character code table. They are the function parameters `Encoder` and `Decoder`, and nothing is proved about their tables.
- `CodePageDecoder` (src/lib.rs:82-96) is never called: the reader takes header text with `take_str!` as UTF-8, which the model follows (`Steps.TakeStr`, `Utf8.Valid`).
- The clock: `GsiBlock::new` reads the local date. The model takes the year, month and day as parameters, so `Subtitles.Stl.constructor` and `Gsi.NewGsi` need a real month and day.
- Console warnings: the `println!` calls in `add_sub` and `encode_text` have no effect on the data. The one in `encode_text` fires exactly at the 109-byte cut the model keeps; the one in `add_sub` fires when the text is longer than 112 UTF-8 bytes.
- `Display`/`Debug` impls, `Time::format_fps`, the field getters, and the `Display`/`Error`/`From` impls of `ParseError` are formatting only.
- Parser.ParseTtiBlocks: models `many1!` as "read records until the input is used up; the first malformed record fails the file; a short remainder is `Incomplete`". How `nom`'s `many1!` treats a malformed record after a good one is library behaviour that the source does not show.
- Parser.ParseTime: the `needed` count of an `Incomplete` step is counted from the start of the input. This agrees with the unit test of `parse_time`, but other `nom` versions count it differently.
- Subtitles.Stl.AddSub: requires both counters below 65535. At that value the source's `u16` increment panics in a debug build and wraps in a release build, and the model covers neither.
- Buffer.PushString: requires the string to fit its field. The source computes the padding on an unsigned size, which panics in a debug build; `Gsi.Serialize` carries the same condition for every field.
- The parser returns the file as a `StlFile.Document` value rather than a new `Stl` object, because a Dafny function cannot allocate. `Subtitles.Stl.Contents` relates the two.
- `srt2stl` and `examples/dump.rs` are command-line tools around the library and are not part of this model.
