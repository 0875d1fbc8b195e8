# The CDX line tokenizer of `CDXLoader`

The Java class `CDXLoader` is a Pig load function. It reads CDX index files, one index entry per line, and
hands each entry to Pig as a tuple of eleven columns. The columns are the URL key,
timestamp, original URL, MIME type, status code, digest, redirect URL, meta tags, compressed
record size, offset and file name. This project models the heart of that loader, the body of
`getNext`:

- **Raw lines.** The line reader hands out a byte buffer and a logical length, and the
  buffer may be longer than the line.
- **Trimming and skipping.** One trailing carriage return is trimmed. Blank lines, ` CDX `
  header lines and lines with fewer than ten spaces are skipped.
- **The delimiter array.** A ten-slot array `spidx` of space positions is filled in place.
  When the line has more than ten spaces, slots 7..9 slide left over slot 6. The first six
  and the last four spaces are kept, so the extra spaces stay inside the redirect column.
- **Cutting the columns.** The line is cut at the kept spaces into eleven columns. Each
  column is a byte range of the line. The `bytearray` helper turns an empty range, or the
  single placeholder byte `-`, into Java `null`.
- **The outer loop.** It pulls lines from the reader until one of them yields a record. It
  returns `null` once the reader is exhausted.

Module layout:

- **`CdxFields`** (`cdx_fields.dfy`): bytes, the column value (`Field`: `Null` or a byte
  range), and both `bytearray` helpers.
- **`CdxTokens`** (`cdx_tokens.dfy`): a reference tokenization that is independent of the
  loader. `Spaces` gives every space position. `Split` splits at every space and keeps empty
  tokens, and `Join` glues the tokens back together. `Pieces` cuts a line at any increasing
  list of space positions.
- **`CdxRecord`** (`cdx_record.dfy`): what the loader makes of one line, as pure functions
  (`Tokenize`, `Classify`). It also holds the lemmas relating the eleven columns to the
  reference tokens.
- **`CdxLoader`** (`cdx_loader.dfy`): the imperative loader.
  - `ArrayCopy` is `System.arraycopy`. `PushSpace`, `ScanSpaces` and `CutFields` are the
    two `for` loops over the `spidx` array. `TokenizeLine` is one pass of the body of
    `getNext`.
  - The `LineReader` class stands for the line record reader. The `Loader` class holds
    `GetNext` with its outer `while` loop.
  - `PushSpace`, `ScanSpaces`, `CutFields`, `TokenizeLine` and `GetNext` are proved against
    the pure functions of `CdxRecord`. `ArrayCopy` and the reader's operations are proved
    against their own contracts.

The header test in the code (`CDXLoader.java:84`) demands a line longer than five bytes.
A line that is exactly ` CDX ` is therefore not taken for a header. It is still skipped, but
as a line with too few fields. The model follows the code.

## Model

| member | source | states |
|---|---|---|
| CdxFields.ByteArray | src/main/java/org/archive/crawler/hadoop/CDXLoader.java:64-70 | `bytearray(bb, s, e)` yields either null or exactly the range [s, e), and that range lies within the buffer |
| CdxFields.ByteArrayValue | src/main/java/org/archive/crawler/hadoop/CDXLoader.java:64-70 | the field is null exactly when its bytes are empty or are the single byte `-`; otherwise its value is exactly the bytes [s, e) |
| CdxFields.ByteArrayPrefix | src/main/java/org/archive/crawler/hadoop/CDXLoader.java:64-70 | only the bytes inside the range decide the field, so cutting the buffer anywhere after `e` changes nothing |
| CdxFields.ByteArrayOfString | src/main/java/org/archive/crawler/hadoop/CDXLoader.java:58-63 | `bytearray(String)` is null exactly when the text is `-`; any other text, the empty one included, is kept unchanged |
| CdxFields.Value | src/main/java/org/archive/crawler/hadoop/CDXLoader.java:68 | a null field has no value; a range field's value is the bytes of its range |
| CdxRecord.EffectiveEnd | src/main/java/org/archive/crawler/hadoop/CDXLoader.java:78-82 | the effective length is one less than the logical length exactly when the last byte is a carriage return, and otherwise equal to it |
| CdxRecord.TrailingCRIgnored | src/main/java/org/archive/crawler/hadoop/CDXLoader.java:79-82 | a line with a trailing carriage return tokenizes exactly like the same line without it |
| CdxRecord.OnlyOneCRDropped | src/main/java/org/archive/crawler/hadoop/CDXLoader.java:79-82 | of two trailing carriage returns only the last is dropped: the line is classified with the other one still in it |
| CdxRecord.SlackIgnored | src/main/java/org/archive/crawler/hadoop/CDXLoader.java:76-78 | bytes of the buffer beyond the logical length never change the outcome |
| CdxRecord.BufferValues | src/main/java/org/archive/crawler/hadoop/CDXLoader.java:76-78 | every column of a record lies within the effective line, and its value read from the whole buffer equals its value read from the line alone |
| CdxRecord.SkipCases | src/main/java/org/archive/crawler/hadoop/CDXLoader.java:79-102 | a line is skipped as blank exactly when its effective length is 0. It is skipped as a header exactly when it is longer than five bytes and starts with ` CDX `. It is skipped for too few fields exactly when it is neither and has fewer than eleven space-separated tokens. Otherwise it yields a record |
| CdxRecord.IsHeader | src/main/java/org/archive/crawler/hadoop/CDXLoader.java:84 | a line is a header exactly when it is longer than five bytes and its first five bytes are space, `C`, `D`, `X`, space |
| CdxRecord.Tokenize | src/main/java/org/archive/crawler/hadoop/CDXLoader.java:76-110 | a raw line that is empty or is a lone carriage return is skipped as blank; a record has eleven columns, and every one of them lies within the logical length, so bytes of the buffer past it are never read |
| CdxRecord.Slide | src/main/java/org/archive/crawler/hadoop/CDXLoader.java:93-94 | the shift keeps slots 0..5 and moves slots 7..9 down by one, overwriting slot 6 and leaving nine slots |
| CdxRecord.Window | src/main/java/org/archive/crawler/hadoop/CDXLoader.java:88-98 | the kept delimiters number as many as the spaces, but at most ten |
| CdxRecord.WindowSlide | src/main/java/org/archive/crawler/hadoop/CDXLoader.java:91-96 | once ten delimiters are kept, one more space slides slots 7..9 over slot 6 and puts the new space last |
| CdxRecord.WindowAt | src/main/java/org/archive/crawler/hadoop/CDXLoader.java:88-98 | with ten or more spaces, slots 0..5 hold the first six space positions and slots 6..9 the last four |
| CdxRecord.WindowCuts | src/main/java/org/archive/crawler/hadoop/CDXLoader.java:88-98 | both all space positions and the kept delimiters are strictly increasing positions of spaces inside the line |
| CdxRecord.WindowPiece | src/main/java/org/archive/crawler/hadoop/CDXLoader.java:92-96 | every column other than the redirect column starts and ends where the matching token between all spaces starts and ends |
| CdxRecord.Fields | src/main/java/org/archive/crawler/hadoop/CDXLoader.java:103-109 | cutting at ten delimiters gives eleven columns, each within the line |
| CdxRecord.FieldsAt | src/main/java/org/archive/crawler/hadoop/CDXLoader.java:103-109 | column k is `bytearray` over the bytes between delimiter k-1 and delimiter k; the first column starts at 0 and the last ends at the effective length |
| CdxRecord.Classify | src/main/java/org/archive/crawler/hadoop/CDXLoader.java:103-110 | a record always has exactly eleven columns |
| CdxRecord.RecordColumns | src/main/java/org/archive/crawler/hadoop/CDXLoader.java:103-109 | each column's range is the piece of the line between its kept delimiters, and its value is that piece with the placeholder rule applied |
| CdxRecord.RecordCoversLine | src/main/java/org/archive/crawler/hadoop/CDXLoader.java:103-109 | the eleven ranges run from 0 to the effective length without gap or overlap. Each is non-decreasing, and consecutive ranges are separated by exactly one space byte |
| CdxRecord.RecordRoundTrip | src/main/java/org/archive/crawler/hadoop/CDXLoader.java:103-109 | joining the eleven pieces with single spaces gives back the line |
| CdxRecord.PieceNotEmpty | src/main/java/org/archive/crawler/hadoop/CDXLoader.java:65 | in a line without empty tokens, no column's piece is empty |
| CdxRecord.RenderRoundTrip | src/main/java/org/archive/crawler/hadoop/CDXLoader.java:64-70 | in a line without empty tokens, writing each null column back as `-` and joining the columns with spaces restores the line |
| CdxRecord.LeadingColumn | src/main/java/org/archive/crawler/hadoop/CDXLoader.java:92-96 | columns 0..5 hold the first six space-separated tokens |
| CdxRecord.TrailingColumn | src/main/java/org/archive/crawler/hadoop/CDXLoader.java:92-96 | columns 7..10 hold the last four space-separated tokens |
| CdxRecord.RedirectColumn | src/main/java/org/archive/crawler/hadoop/CDXLoader.java:92-96 | column 6 holds the middle tokens joined by their spaces, so any extra spaces stay in it |
| CdxRecord.ColumnAt | src/main/java/org/archive/crawler/hadoop/CDXLoader.java:105-109 | column k holds the k-th column of the token layout (first six, joined middle, last four) |
| CdxRecord.RecordLayout | src/main/java/org/archive/crawler/hadoop/CDXLoader.java:88-109 | a record has at least eleven tokens, and all eleven columns follow the layout: first six tokens, joined middle, last four tokens |
| CdxRecord.FixedColumnsHaveNoSpace | src/main/java/org/archive/crawler/hadoop/CDXLoader.java:92-96 | only the redirect column can contain a space |
| CdxRecord.ElevenTokens | src/main/java/org/archive/crawler/hadoop/CDXLoader.java:88-109 | a line of exactly eleven tokens gives column k equal to token k |
| CdxRecord.SkippedOneMore | src/main/java/org/archive/crawler/hadoop/CDXLoader.java:74 | a skipped line after a run of skipped lines extends the run |
| CdxTokens.SpacesCuts | src/main/java/org/archive/crawler/hadoop/CDXLoader.java:90-98 | the space positions found by the scan are increasing and each holds a space |
| CdxTokens.SpacesStep | src/main/java/org/archive/crawler/hadoop/CDXLoader.java:90-98 | scanning one more byte adds its position exactly when it is a space |
| CdxTokens.SpacesComplete | src/main/java/org/archive/crawler/hadoop/CDXLoader.java:90-98 | every space of the line is found by the scan |
| CdxTokens.SplitIsPieces | src/main/java/org/archive/crawler/hadoop/CDXLoader.java:103-109 | splitting at every space equals cutting at all space positions, one token more than spaces |
| CdxTokens.JoinPieces | src/main/java/org/archive/crawler/hadoop/CDXLoader.java:103-109 | joining consecutive pieces with spaces gives the line from the first piece's start to the last piece's end |
| CdxTokens.JoinAllPieces | src/main/java/org/archive/crawler/hadoop/CDXLoader.java:103-109 | joining all the pieces of a cut line gives back the line |
| CdxTokens.JoinSplit | src/main/java/org/archive/crawler/hadoop/CDXLoader.java:103-109 | joining the tokens of a split line gives back the line |
| CdxTokens.PieceBounds | src/main/java/org/archive/crawler/hadoop/CDXLoader.java:103-109 | each piece is the slice between its neighbouring cuts and lies within the line |
| CdxTokens.NoSpaceInPiece | src/main/java/org/archive/crawler/hadoop/CDXLoader.java:90-98 | no byte between two consecutive spaces is a space |
| CdxTokens.SplitTokensHaveNoSpace | src/main/java/org/archive/crawler/hadoop/CDXLoader.java:90-98 | no token of a split line contains a space |
| CdxLoader.ArrayCopy | src/main/java/org/archive/crawler/hadoop/CDXLoader.java:93 | the destination's range is replaced by the source's old range and the rest is kept, even when both are the same array |
| CdxLoader.PushSpace | src/main/java/org/archive/crawler/hadoop/CDXLoader.java:91-96 | a space is appended to the used slots; when all ten are used, slots 7..9 first slide over slot 6 |
| CdxLoader.ScanSpaces | src/main/java/org/archive/crawler/hadoop/CDXLoader.java:88-98 | after the loop `j` is the number of spaces, capped at ten, and `spidx[..j]` is the kept window of the line's space positions |
| CdxLoader.CutFields | src/main/java/org/archive/crawler/hadoop/CDXLoader.java:103-109 | the tuple built by the `tuple.set` loop is exactly the eleven columns cut at the delimiters |
| CdxLoader.TokenizeLine | src/main/java/org/archive/crawler/hadoop/CDXLoader.java:76-110 | one pass of the body gives exactly the outcome `Tokenize` defines for the line |
| CdxLoader.LineReader.NextKeyValue | src/main/java/org/archive/crawler/hadoop/CDXLoader.java:74 | the reader advances by one line exactly when a line remains |
| CdxLoader.LineReader.CurrentValue | src/main/java/org/archive/crawler/hadoop/CDXLoader.java:75 | the current value is the line the reader last advanced to |
| CdxLoader.Loader.GetNext | src/main/java/org/archive/crawler/hadoop/CDXLoader.java:72-75 | it returns the record of the first remaining line that is not skipped, and every line passed over was skipped. It returns null (line 141) only when the reader is exhausted and every remaining line was skipped |

## Left out

- The Pig and Hadoop plumbing (`getInputFormat`, `prepareToRead`, `setLocation`) is not modelled. It only wires the reader up.
- The line record reader and Hadoop's `Text` are reduced to a sequence of (buffer, logical length) pairs with a cursor (`LineReader`). How lines are found in the input split is not modelled.
- `Tuple`, `TupleFactory` and `DataByteArray` are foreign library types. A tuple is a sequence of eleven `Field`s, and a `DataByteArray` over a buffer is the byte range it covers, not a copy of the bytes.
- The warning logged for a trailing carriage return is a logging side effect and is left out.
- The commented-out string-based implementation in the same method is dead code and is not modelled.
- CdxFields.ByteArrayOfString: the UTF-8 encoding that `DataByteArray(String)` applies is not modelled. The value is kept as the text itself.
- Java's signed `byte` is modelled as 0..255. The loader only compares bytes with ASCII characters, so the outcome is the same.
- An `IOException` from the reader is not modelled. The reader here cannot fail.
