# address_parser in Dafny

A model of the core of `address_parser`. The program reads an XML-like
address file of the shape

    <root>
    <item city="C" street="S" house="H" floor="F" />
    ...

It cuts the input into segments ending with `>` and trims spaces and tabs
from both ends of each segment. A small state machine (`waitRoot`,
`waitItem`, `waitName`) then turns the segments into house records. The
records go to a statistics aggregator, which counts:

- complete records (`Items`);
- occurrences of each address (`Addresses`);
- for each city, a histogram of floors 1..5 and "6 and more" (`Floors`),
  credited once per distinct address.

Broken items are counted (`Broken`).

The project has these modules:

- `ByteStrings`: byte strings, plus the library searches `bytes.IndexByte`,
  `strings.Index` and `strings.HasPrefix`.
- `GoStrings`: `CutFunc`, `TrimLeftAnyByte` and `strings.TrimFunc(s, CutFunc)`
  (strings.go).
- `Segments`: the stream of segments a reader hands to the parser, and
  `SplitAfter`, the reference cut of a byte string after every delimiter.
- `Reader`: `SizedBufferedReader` (reader.go). It covers `shift`,
  `NewSizedBufReader` and `ReadString`, over a source that reads a byte
  string the way `strings.Reader` does. It also covers `ReadAll`, the loop
  that calls `ReadString` until the first error. `ReaderExamples`
  derives the cases of reader_test.go from the general results.
- `Statistics` and `StatisticLemmas`: `House`, `reset`, `Address`,
  `Statistic`, `add`, `Init` and `Merge` (parser.go), with their invariants
  and algebraic laws.
- `Scanner`: the markers and the line helpers of `AddressParser`:
  - `IsRoot`, `IsItem`, `IsItemClose`;
  - `ExtractName`, `ExtractQuotedValue`;
  - `TrimLeftSpace`, `Empty`;
  - `strconv.ParseUint(s, 10, 16)`.
- `Tokenizer` and `TokenizerLemmas`: one pass of the `NEW_LINE` loop of
  `read` (`Step`), the loop over one line (`ScanLine`), and what a pass does
  on every shape of attribute.
- `Parser`: `read` as a whole. It covers the outer loop over the segments,
  the final push of the pending record, the statistics of the records sent,
  and the merge of the parser's broken count.
- `ParserLemmas`: what `read` makes of a whole document, in two steps. A
  document is a prologue, the `<root>` segment, then a run of segments of a
  few shapes (`Segment`): a whole item, `<item />`, an item whose first
  attribute is `house`, an item whose first value is not quoted, and
  anything without `<item`. `DocumentTokenize` gives the records sent and
  the broken count from the shapes alone. `ReadStatistics` then gives the
  statistics of any records sent, through reference definitions
  (`Occurrences`, `FirstSightings`, `Tally`, `Cities` in `StatisticLemmas`).
- `ParserExamples`: `TestAddressParser` of parser_test.go. Its inline
  document is written as such shapes, and `FixtureRead` derives the
  statistic the test expects.

A Go panic (`p.line[0]` on an empty line) is an explicit outcome:
`Panic`, `StepPanic`, `LinePanic`, `TokPanic` or `ReadPanic`. The parser
sends records on a channel to a single consumer goroutine. That consumer
becomes a list of the records sent, in order, folded with `add`.

`read` takes a `bufio.Reader`, not the sized reader. `Parser.InputOf`
models the segments `bufio.Reader.ReadString('>')` returns for a byte
string: the cut of `SplitAfter`, then the rest with `io.EOF`.
The sized reader is an immutable datatype, `SizedReader`, whose buffer is a
byte sequence: each call returns the reader that follows, where the Go code
updates a struct and its byte slice in place.
`Reader.ReadAllAsSplit` proves that the sized reader returns the same cut,
unless a line overflows its buffer. `Reader.ReadAllOverflow` proves that
such an overflow happens exactly when a line is longer than the buffer.

## Model

| member | source | states |
|---|---|---|
| ByteStrings.IndexByte | reader.go:63-66 | the index of the first occurrence of the byte, or -1 exactly when it does not occur |
| ByteStrings.Index | parser.go:178-194 | the first position where the marker occurs, or -1 exactly when it occurs nowhere |
| ByteStrings.IndexByteAppend | reader.go:84 | a search of a concatenation finds a byte of the front part first, and otherwise finds it in the back part, offset by the front part's length |
| GoStrings.CutFuncIsSpaceOrTab | strings.go:12-14 | `CutFunc` holds for space and tab and for nothing else, so CR and LF survive the trim |
| GoStrings.TrimLeftAnyByte | strings.go:16-34 | the result is a suffix of the input; every byte dropped is one of the trim bytes; the first byte kept is not one of them |
| GoStrings.TrimLeftAnyByteIdempotent | strings.go:16-34 | trimming a second time removes nothing more |
| GoStrings.TrimLeftAnyByteOf | strings.go:16-34 | conversely, a run of trim bytes in front of a byte that is not a trim byte is exactly what gets dropped |
| GoStrings.TrimRightCut | parser.go:265 | the result is a prefix; every byte cut from the right is a space or tab; the last byte kept is not |
| GoStrings.TrimFunc | parser.go:265 | the segment is a run of blanks, then the result, then a run of blanks; the result neither starts nor ends with a blank |
| GoStrings.TrimFuncKeepsLast | parser.go:256-265 | a segment that ends with a byte other than a blank (such as `>`) still ends with that byte after the trim |
| Segments.SplitAfter | parser.go:256 | the cut of a byte string after every delimiter: the pieces rejoin to the input, each piece ends with its only delimiter, and the rest holds none |
| Segments.SplitAfterOf | parser.go:256 | the cut is unique: delimited pieces followed by a delimiter-free rest are cut back into exactly those pieces |
| Reader.SourceRead | reader.go:75 | a read never takes more than asked or more than is left; it fails only on an exhausted source, with the source's error; it keeps the data in order; a short read means the source is exhausted |
| Reader.Shift | reader.go:45-60 | a move toward the front only: with `src <= dst` or a negative length nothing moves and 0 is returned; otherwise the length is clipped to the end of the array, exactly those bytes land at `dst`, and the rest is untouched |
| Reader.NewSizedBufReader | reader.go:26-43 | the read size is raised to at least 16 and the buffer holds two read sizes; the new reader is empty; over a well-formed source it satisfies the reader invariant `Valid` (the window lies inside the buffer, a buffer holding bytes has handed out at least one, a kept error leaves no window) and will hand out exactly what its source holds |
| Reader.Compact | reader.go:69-74 | the window starts at 0 afterwards; when it started past 0 its bytes move to the front unchanged, and when it already started at 0 the shift takes its no-op branch (`src <= dst`) and the window is dropped, a case `Valid` rules out |
| Reader.Room | reader.go:67-74 | when at least 16 bytes are free past the window the reader is returned unchanged; otherwise the window is moved to offset 0 with its bytes unchanged; either way there is room to read, and the window starts the buffer unless the source is used up |
| Reader.Fill | reader.go:67-83 | the bytes still to be handed out are unchanged; the window then holds all of them or fills the buffer; an error kept is the source's end error, and then the source is exhausted and the window unchanged |
| Reader.FillWindow | reader.go:75-82 | the bytes a read appends to the window, followed by what the source still holds, are the bytes that were unread before |
| Reader.Probe | reader.go:87-93 | with no error kept, a zero-length read keeps the source's error, or an overflow when the source is not exhausted |
| Reader.HandOut | reader.go:94-99 | with an error kept, the whole window goes out without error, and an error comes only with an empty result |
| Reader.Through | reader.go:100-110 | the bytes through the delimiter go out without error and the rest stays unread; a delimiter that ends the window resets it to empty, and otherwise the window starts just past the delimiter |
| Reader.Finish | reader.go:86-110 | covers the three exits: the segment plus what stays unread is what was unread; an error comes exactly when nothing is handed out; a delimiter found is handed out through |
| Reader.Search | reader.go:63-66 | the delimiter's index in the window, or -1 |
| Reader.ReadString | reader.go:62-111 | the reader invariant `Valid` is kept; nothing is lost or duplicated; an error comes exactly with an empty result and is then kept; once kept an error stays; a result holding the delimiter ends with it and holds no other; one without it means an error is now kept |
| Reader.Ready | reader.go:62-66 | the same promises when the delimiter is already in the window or an error is kept |
| Reader.Refilled | reader.go:67-110 | the same promises when the window has to be refilled first |
| Reader.FinishDelimited | reader.go:86-110 | a segment handed out through the delimiter ends with it and holds no other; the segment holds none exactly when the window had none |
| Reader.FinishSegment | reader.go:94-110 | the segment handed out is the window through the delimiter found, or the whole window when none was found |
| Reader.KeptWindowEmpty | reader.go:86-99 | a reader keeping an error has handed out its whole window, so the window search finds nothing |
| Reader.ReadyDelimited | reader.go:62-110 | with the delimiter in the window or an error kept, a segment holding the delimiter ends at its only one, and a non-empty one without it leaves an error kept |
| Reader.RefilledDelimited | reader.go:67-110 | after a refill, a kept error means the window still holds no delimiter; a segment holding the delimiter ends at its only one, and a non-empty one without it leaves an error kept |
| Reader.KeptErrorRepeats | reader.go:86-99 | once an error is kept, every further call returns it with an empty result and changes nothing |
| Reader.FirstLine | reader.go:62-111 | the first line a buffer of a given size can hold is a prefix of the unread bytes |
| Reader.FoundLine | reader.go:100-110 | a delimiter within the buffer ends the first line there |
| Reader.WholeLine | reader.go:86-99 | a delimiter-free rest that fits goes out whole |
| Reader.LongLine | reader.go:78-81 | a delimiter-free line that fills the buffer and has more behind it does not fit |
| Reader.ReadStringWindow | reader.go:62-111 | unless the stream has overflowed, a call returns the first line of the unread bytes; it ends the stream with an overflow exactly when that line does not fit in the buffer |
| Reader.ReadyWindow | reader.go:62-66 | with the delimiter in the window, the result is the first line and no error is raised |
| Reader.RefilledWindow | reader.go:67-110 | after a refill, the result is the first line, and an overflow is raised exactly when it does not fit |
| Reader.FilledWindow | reader.go:84-110 | after the read, the window's first line is the first line of everything unread |
| Reader.ReadAll | reader.go:62-111 | the stream of calls up to the first error: the segments rejoin to the unread bytes; every segment but a last short one ends with the delimiter; an error other than overflow is the source's end error and leaves nothing unread |
| Reader.Ended | reader.go:94-99 | the call that returns an error ends the stream with the same promises |
| Reader.Cons | reader.go:94-110 | a segment handed out without error goes in front of the rest of the stream with the same promises |
| Reader.WellCutAsLines | parser.go:249-264 | a well-cut stream is the delimiter cut of its bytes |
| Reader.ReadAllAsSplit | reader.go:62-111 | unless a line overflows the buffer, the sized reader cuts the input after every delimiter, as `bufio.Reader.ReadString` does, and ends with the source's error |
| Reader.ReadAllOverflow | reader.go:69-92 | a stream ends in `ErrBufferOverflow` exactly when one of its lines is longer than the buffer |
| Reader.LinesFitOf | reader.go:62-111 | delimited lines and a rest, none longer than the buffer, fit |
| ReaderExamples.ShiftCases | reader_test.go:11-80 | the five cases of the shift test give the arrays and lengths the test expects |
| ReaderExamples.PartsDelimited | reader_test.go:93-106 | the expected parts of the reader test each end with `_` and rejoin to the test input |
| ReaderExamples.ReadWith16Splits | reader_test.go:108-124 | with a read size of 16, input whose lines all fit in 32 bytes and whose rest is not empty is cut after every `_`, then ends with `io.EOF` |
| ReaderExamples.OneReadToBuffer | reader_test.go:93-99 | the "one read to buffer" case gives `Test_`, `string_`, `_`, ` ed`, then `io.EOF` |
| ReaderExamples.TwoReadsToBuffer | reader_test.go:100-106 | the "two reads to buffer" case gives `Test_`, `string_`, `_`, ` ended 2 fill`, then `io.EOF` |
| Statistics.Init | parser.go:81-87 | a fresh statistic has no items, no broken items, no addresses, and all-zero histograms; it satisfies both invariants |
| Statistics.Add | parser.go:49-79 | an incomplete record changes nothing; a complete one adds one item and one occurrence of its address; only the first sighting of an address credits the floor bucket of its city, by 1, leaving every other city alone |
| Statistics.MergeCounts | parser.go:92-94 | address counts add keywise, a missing key counting as 0 |
| Statistics.AddHist | parser.go:101-103 | histograms add bucket by bucket |
| Statistics.MergeFloors | parser.go:95-104 | a missing city counts as an all-zero histogram; every city's histogram is the sum of the two |
| Statistics.Merge | parser.go:89-105 | items and broken counts add, address counts add keywise, and histograms add per city and bucket |
| Statistics.AddAll | parser.go:150-157 | the consumer loop adds the complete records to the items and leaves the broken count alone |
| StatisticLemmas.MergeCountsSum | parser.go:92-94 | the counts of a keywise sum total the sum of the two totals |
| StatisticLemmas.AddPreservesValid | parser.go:49-79 | `add` keeps `Items` equal to the total of the address counts |
| StatisticLemmas.AddKeepsCityTotal | parser.go:58-77 | after `add`, each city's histogram still totals the number of its distinct addresses |
| StatisticLemmas.AddNewAddress | parser.go:61-76 | a new address joins its city's addresses and raises that city's histogram total by one |
| StatisticLemmas.FirstFloorWins | parser.go:58-60 | a second complete record of a new address counts twice and adds two items, but only the first record's floor is credited to the city's histogram |
| StatisticLemmas.AddSeenAddress | parser.go:58-60 | an address seen before changes neither the city's addresses nor its histogram |
| StatisticLemmas.AddPreservesHistogramAgrees | parser.go:49-79 | `add` keeps every city's histogram total equal to the number of its distinct addresses |
| StatisticLemmas.MergeCountsCommutative | parser.go:92-94 | the keywise sum of counts does not depend on the order |
| StatisticLemmas.MergeCountsAssociative | parser.go:92-94 | the keywise sum of counts does not depend on the grouping |
| StatisticLemmas.MergeCountsIdentity | parser.go:92-94 | the empty count map is its identity |
| StatisticLemmas.MergeFloorsCommutative | parser.go:95-104 | the sum of histogram maps does not depend on the order |
| StatisticLemmas.AddHistAssociative | parser.go:101-103 | the bucket-wise sum does not depend on the grouping |
| StatisticLemmas.MergeFloorsAssociative | parser.go:95-104 | the sum of histogram maps does not depend on the grouping |
| StatisticLemmas.MergeFloorsIdentity | parser.go:95-104 | the empty histogram map is its identity |
| StatisticLemmas.MergeCommutative | parser.go:89-105 | merging statistics does not depend on the order |
| StatisticLemmas.MergeAssociative | parser.go:89-105 | merging statistics does not depend on the grouping |
| StatisticLemmas.MergeIdentity | parser.go:81-105 | a freshly initialised statistic is the identity of `Merge`, on either side |
| StatisticLemmas.MergePreservesValid | parser.go:89-105 | `Merge` keeps `Items` equal to the total of the address counts |
| StatisticLemmas.MergeCityAddresses | parser.go:92-94 | a merged city's addresses are the union of both sides' |
| StatisticLemmas.MergeCityTotal | parser.go:95-104 | a merged city's histogram totals the sum of both sides' totals |
| StatisticLemmas.MergeDisjointPreservesHistogramAgrees | parser.go:89-105 | with disjoint address sets, `Merge` keeps every city's histogram total equal to its distinct addresses |
| StatisticLemmas.MergeOverlapBreaksHistogramAgrees | parser.go:89-105 | with a shared address, `Merge` credits its floor twice while it is one distinct address, so the invariant fails |
| StatisticLemmas.AddAllPreserves | parser.go:150-157 | the consumer loop keeps both invariants |
| StatisticLemmas.AddAllCounts | parser.go:150-157 | against the reference count `Occurrences`: the loop adds to each address the number of its complete records, and an address is known exactly when it was known before or has a complete record |
| StatisticLemmas.AddAllFloors | parser.go:150-157 | against the reference `FirstSightings` and `Tally`: each bucket of a city's histogram grows by the number of first sightings of that city's addresses whose floor falls in it |
| StatisticLemmas.AddAllCities | parser.go:150-157 | a city has a histogram afterwards exactly when it had one or one of its addresses is sighted for the first time |
| Scanner.IsRoot | parser.go:178-185 | reports no root exactly when `<root>` occurs nowhere, leaving the line; otherwise the line is cut just past the first `<root>` |
| Scanner.IsItem | parser.go:187-194 | reports no item exactly when `<item` occurs nowhere, leaving the line; otherwise the line is cut just past the first `<item` |
| Scanner.SkipThrough | parser.go:178-194 | fails exactly when the marker occurs nowhere, leaving the line; on success, the line is cut just past the first occurrence |
| Scanner.SkipThroughOf | parser.go:178-194 | a marker not preceded by its own first byte is found where it stands, and what follows it is left |
| Scanner.TrimLeftSpace | parser.go:230-237 | panics exactly on an empty line; it reports whether the line started with a blank and drops exactly the leading blanks |
| Scanner.TrimLeftSpaceOf | parser.go:230-237 | blanks in front of a non-blank byte are exactly what is dropped |
| Scanner.IsItemClose | parser.go:196-203 | panics exactly on an empty line; after the left trim, closes exactly when `/>` starts the line and consumes just it, leaving the line otherwise |
| Scanner.IsItemCloseOf | parser.go:196-203 | `/>` after blanks closes, and leaves what follows |
| Scanner.IsItemCloseNot | parser.go:196-203 | a first non-blank byte other than `/` does not close |
| Scanner.IsItemCloseRest | parser.go:196-203 | what is left is a suffix of the line, and is non-empty unless the line was only blanks and `/>` |
| Scanner.SplitName | parser.go:207-213 | a name is the non-empty, `=`-free run before the first `=`; there is none when the line has no `=` or starts with it |
| Scanner.ExtractName | parser.go:205-214 | panics exactly on an empty line; after the left trim, yields the non-empty `=`-free name before the first `=` and leaves what follows it; yields none, leaving the trimmed line, when there is no `=` or it comes first |
| Scanner.ExtractNameOf | parser.go:205-214 | `name=` after blanks yields `name` and the rest |
| Scanner.ExtractNameNoneOf | parser.go:211-213 | a trimmed line without `=` past its first byte yields no name and is left as it is |
| Scanner.ExtractNameRest | parser.go:205-214 | what is left is a suffix of the line, shorter when a name is found, and non-empty unless the line ends with `=` |
| Scanner.ExtractQuotedValue | parser.go:216-228 | panics exactly on an empty line; succeeds exactly when the line starts with a quote that is closed, yielding the bytes between the quotes and leaving what follows; on failure the line is unchanged |
| Scanner.ExtractQuotedValueOf | parser.go:216-228 | a quote-free value between quotes is read back exactly |
| Scanner.DecimalValueMonotone | parser.go:360 | a prefix of a digit string has a value no greater than the whole |
| Scanner.ParseDigits | parser.go:360 | the digit loop succeeds exactly when every byte is a digit and the value fits 16 bits, and then yields that value |
| Scanner.ParseUint16 | parser.go:360 | `ParseUint(s, 10, 16)` succeeds exactly on a non-empty string of decimal digits whose value is at most 65535, and yields that value |
| Scanner.FormatUint | parser.go:360 | the decimal spelling of a number is a non-empty digit string |
| Scanner.DecimalValueOfFormat | parser.go:360 | the value of the decimal spelling of `n` is `n` |
| Scanner.ParseFormatRoundTrip | parser.go:360 | parsing the decimal spelling of a 16-bit value gives the value back |
| Scanner.SkipThroughKeepsLast | parser.go:178-194 | skipping through a marker that does not end the line keeps the line's last byte |
| Scanner.TrimLeftSpaceKeepsLast | parser.go:230-237 | the left trim keeps a last byte that is not blank |
| Tokenizer.Accept | parser.go:301-381 | the `switch name`: sends nothing; either leaves the broken count alone or breaks the item; either stays in `waitName` or leaves an empty record; keeps records clean |
| Tokenizer.Attribute | parser.go:299-381 | reading a value after `name=` panics only on an empty rest; otherwise the pass goes on with a suffix of the line and sends nothing; a line that still ends with `>` keeps ending with it |
| Tokenizer.NameValue | parser.go:299-387 | past the close and emptiness tests, the pass consumes part of the line or falls back to `waitItem`; a broken count rises only together with a move to `waitItem` |
| Tokenizer.NameStep | parser.go:289-387 | the `waitName` case: `/>` sends exactly the record held; an empty line stops with nothing changed; a segment ending in `>` never panics and never stops in `waitName` |
| Tokenizer.RootStep | parser.go:270-274 | `waitRoot` never panics: it stops with nothing changed, or moves past `<root>` to `waitItem` |
| Tokenizer.ItemOpen | parser.go:279-288 | past `<item`, panics exactly on an empty rest; a blank opens the attributes; anything else breaks the item |
| Tokenizer.ItemStep | parser.go:275-288 | `waitItem` stops with nothing changed when there is no item, and otherwise opens the item or breaks it |
| Tokenizer.Step | parser.go:268-389 | one pass shortens the line or moves the state back, so the loop ends; it sends at most the record held, breaks at most one item, keeps records clean, and never panics in `waitRoot` or on a segment ending in `>` |
| Tokenizer.ScanLine | parser.go:267-389 | the loop over one line only appends records and raises the broken count; on a segment ending in `>` it never panics and never ends in `waitName` |
| TokenizerLemmas.NameStepOf | parser.go:299-301 | in `waitName`, a blank-led `name=` hands the rest of the line to the `switch name` |
| TokenizerLemmas.QuotedAttribute | parser.go:310-381 | a closed quoted value of a field not yet set is accepted, and the rest of the line goes on |
| TokenizerLemmas.RepeatedFieldBreaks | parser.go:303-308 | a field set twice breaks the item, resets the record and continues just past the `=` |
| TokenizerLemmas.UnquotedValueBreaks | parser.go:310-316 | a value without quotes, or with an open quote, breaks the item and leaves the line |
| TokenizerLemmas.EmptyCityOrStreetBreaks | parser.go:311-331 | an empty city or street breaks the item |
| TokenizerLemmas.CityIsSet | parser.go:302-316 | a first non-empty city is kept, and the item goes on |
| TokenizerLemmas.StreetIsSet | parser.go:317-331 | a first non-empty street is kept, and the item goes on |
| TokenizerLemmas.HouseNeedsStreet | parser.go:332-346 | a first house number is kept exactly when a street is already set, even when it is empty; otherwise the item breaks |
| TokenizerLemmas.FloorIsParsed | parser.go:347-373 | a first floor is kept when it is a decimal number in 1..65535; any other quoted floor drops the record without counting it broken |
| TokenizerLemmas.FloorStep | parser.go:347-358 | a first quoted floor is handed to the floor case with the rest of the line |
| TokenizerLemmas.AcceptFloor | parser.go:356-367 | the acceptance of a quoted floor, by its parse |
| TokenizerLemmas.UnknownNameSkipped | parser.go:374-381 | a quoted value of an unknown name is skipped and the record is untouched |
| TokenizerLemmas.MissingEqualsKeepsRecord | parser.go:382-387 | without a usable `=`, the item is counted broken and `waitItem` is entered, but the record is not reset |
| TokenizerLemmas.ItemCloseSends | parser.go:290-295 | `/>` sends the record once, resets it, and leaves the line |
| TokenizerLemmas.ItemOpens | parser.go:275-281 | an item marker followed by blanks opens the attributes |
| TokenizerLemmas.ItemWithoutBlankBreaks | parser.go:281-287 | an item marker followed by anything but a blank breaks the item |
| TokenizerLemmas.ItemAtEndPanics | parser.go:276-281 | a line that ends right after `<item` makes `TrimLeftSpace` index an empty line |
| TokenizerLemmas.ValueAtEndPanics | parser.go:289-290 | a line that ends right after a value makes the next `IsItemClose` index an empty line |
| TokenizerLemmas.AttrStep | parser.go:299-381 | in `waitName`, a blank-led `name="v"` is read as its name says |
| TokenizerLemmas.AttrScan | parser.go:299-381 | the loop reads a blank-led attribute and goes on with the rest |
| TokenizerLemmas.FieldsRead | parser.go:302-373 | the four attributes, read in order into an empty record, give that record |
| TokenizerLemmas.CityRead | parser.go:302-316 | the city attribute sets the city |
| TokenizerLemmas.StreetToFloorRead | parser.go:317-373 | street, house and floor, read in order, complete the record |
| TokenizerLemmas.HouseToFloorRead | parser.go:332-373 | house and floor, read in order, complete the record |
| TokenizerLemmas.FloorRead | parser.go:347-373 | the floor attribute sets the floor |
| TokenizerLemmas.ItemLineRoundTrip | parser.go:267-389 | an item written out from a complete, clean record and read in `waitItem` sends that very record and awaits the next item |
| TokenizerLemmas.ItemOpenScan | parser.go:275-288 | the item marker and its blank open the attributes |
| TokenizerLemmas.CloseScan | parser.go:290-295 | the closing ` />` sends the record and ends the line |
| Parser.InputOf | parser.go:256-264 | the segments `bufio.Reader.ReadString('>')` returns for a byte string rejoin to it, each ends with `>`, and the rest holds none and comes with `io.EOF` |
| Parser.ScanLines | parser.go:249-390 | the loop over the segments only appends records and raises the broken count; segments ending with `>` never panic and never leave it inside an item |
| Parser.Tokenize | parser.go:243-394 | `read` returns no error exactly when the stream ended with `io.EOF`; every record sent is clean; with `>`-ended segments a panic can come only from the last segment; it panics exactly when the loop over the trimmed segments and the last piece panics; otherwise the records sent are those the loop pushed, followed by the record still held when the stream ended with `io.EOF` and by nothing on another error, and the broken count is the loop's |
| Parser.MergeBrokenKeeps | parser.go:399 | adding the parser's broken count leaves both invariants of the statistics intact |
| Parser.Read | parser.go:243-403 | panics exactly when the tokenizer does; otherwise the statistics keep both invariants, the error is `read`'s, the broken count is the tokenizer's, and the items are the complete records sent |
| ParserLemmas.TrimFuncAbsent | parser.go:265 | the trim of a segment never brings a marker in |
| ParserLemmas.TrimFuncKept | parser.go:265 | a segment with a non-blank start and a last byte that is not a blank is left alone by the trim |
| ParserLemmas.NoRootScan | parser.go:270-272 | in `waitRoot`, a segment without `<root>` changes nothing |
| ParserLemmas.NoItemScan | parser.go:275-277 | in `waitItem`, a segment without `<item` changes nothing |
| ParserLemmas.RootScan | parser.go:265-274 | a trimmed segment ending in `<root>` moves `waitRoot` to `waitItem` and nothing else |
| ParserLemmas.OpenScan | parser.go:275-281 | `<item` and a blank open the attributes that follow |
| ParserLemmas.CloseAloneScan | parser.go:290-295 | `/>` alone sends the record held and ends the segment |
| ParserLemmas.EmptyItemScan | parser.go:275-295 | `<item />` sends the record held, which is empty between items |
| ParserLemmas.HouseAttrBreaks | parser.go:332-346 | in a record still empty, `house="v"` breaks the item, since no street is set |
| ParserLemmas.HouseFirstScan | parser.go:275-346 | an item whose first attribute is `house` is counted broken once and sends nothing |
| ParserLemmas.UnquotedAttrBreaks | parser.go:299-381 | in a record still empty, a value without closed quotes breaks the item whatever the name |
| ParserLemmas.UnquotedScan | parser.go:275-381 | an item whose first value is not quoted is counted broken once and sends nothing |
| ParserLemmas.SegmentTrim | parser.go:265 | the trim leaves every item segment of a known shape alone |
| ParserLemmas.OtherScan | parser.go:265-277 | a segment without `<item`, trimmed or not, changes nothing between items |
| ParserLemmas.ItemSegmentScan | parser.go:267-389 | an item segment of a known shape takes an idle tokenizer back between items with its records sent and its broken items counted |
| ParserLemmas.SegmentScan | parser.go:265-389 | between items, a trimmed segment of a known shape sends exactly its records, counts exactly its broken items, and ends between items |
| ParserLemmas.TextDelimited | parser.go:256 | a shape with no `>` before its end is exactly one segment of `ReadString('>')` |
| ParserLemmas.SegmentsScan | parser.go:249-390 | between items, the loop over a run of such segments sends exactly their records in order, counts exactly their broken items, and ends between items |
| ParserLemmas.HeadsScan | parser.go:269-274 | before `<root>`, segments without it change nothing |
| ParserLemmas.RootLineScan | parser.go:270-274 | the `<root>` segment moves the loop from `waitRoot` to `waitItem` |
| ParserLemmas.TailScan | parser.go:275-277 | a last piece without `<item` changes nothing between items |
| ParserLemmas.DocumentScan | parser.go:249-390 | the loop over a whole document ends between items with the records and broken items of its shapes |
| ParserLemmas.DocumentTokenize | parser.go:243-394 | step one: a document of known shapes read to `io.EOF` sends the records of its shapes, then the empty record left at the end, counts the broken items of its shapes, and returns no error |
| ParserLemmas.ReadStatistics | parser.go:49-79 | step two, for any input the tokenizer does not panic on: items are the complete records sent; each address counts its complete records and is known exactly when it has one; a city has a histogram exactly when one of its addresses is sighted, and each bucket counts the first sightings whose floor falls in it |
| ParserLemmas.DocumentRead | parser.go:243-403 | the two steps together: `read` of a document of known shapes returns no error, the broken items of its shapes, and the statistics of their records |
| ParserLemmas.DocumentInput | parser.go:256 | a document whose segments each end at their only `>`, followed by a rest without one, is read back as exactly those segments, then the rest with `io.EOF` |
| ParserExamples.FixtureInput | parser_test.go:18-35 | the test's text is cut into the XML declaration, the `<root>` segment and ten shape segments, then a newline with `io.EOF` |
| ParserExamples.ShapesWellFormed | parser_test.go:19-34 | each segment of the test's text is of the shape that names it, so it is read as that shape says |
| ParserExamples.ShapesSend | parser_test.go:21-33 | the shapes send the six complete records and the empty record of `<item />`, and break the items of lines 25 and 26 |
| ParserExamples.FixtureTokenize | parser_test.go:17-76 | the tokenizer sends, in order, the six complete records, the empty record of `<item />` and the empty record left at the end, and counts two broken items |
| ParserExamples.RecordsComplete | parser_test.go:38 | six of the records sent are complete |
| ParserExamples.RecordsOccur | parser_test.go:40-66 | each address occurs among the records as often as the test expects: the first address twice, four others once, any other never |
| ParserExamples.RecordsSightings | parser_test.go:21-33 | the first sightings are the records of lines 21, 28, 29, 30 and 33; the repeat on line 31 and the empty records are passed over |
| ParserExamples.SightingsCities | parser_test.go:67-70 | the first sightings cover exactly Barnaul and Bratsk |
| ParserExamples.SightingsTally | parser_test.go:67-70 | each bucket of each city holds as many first sightings as the test's histograms say |
| ParserExamples.AddressesAre | parser_test.go:82-96 | a count map that agrees with the records on every address is the test's address map |
| ParserExamples.FloorsAre | parser_test.go:98-112 | histograms that agree with the first sightings on every city and bucket are the test's histograms |
| ParserExamples.FixtureRead | parser_test.go:17-113 | `read` of the test's document returns no error and exactly the statistic the test expects: 6 items, 2 broken, the five addresses with the first one counted twice, and the histograms [0,2,1,0,0,0] of Barnaul and [0,0,0,0,1,1] of Bratsk |

## Left out

- main.go, `readAddressFile`, `Dump` and the logging calls: file I/O and printing.
- The goroutine and channels of `statProcessor` and `Init`. They become an in-order fold of `add` over the records sent: a single consumer of a channel receives the records in the order they were sent.
- The internals of `bufio.Reader`. The segments it returns are stated by `Parser.InputOf`, and only for a source that never fails, since a real failure depends on the file system.
- `strconv.ParseUint` beyond base 10 and bit size 16, since the parser only calls it that way. UTF-8 decoding in `strings.TrimFunc` is left out beyond the fact that a byte below `utf8.RuneSelf` is a whole rune. Bytes at or above it are never cut, as `CutFunc` says.
- Reader.SourceRead: a `strings.Reader`-like source that returns as much as is asked for and then its end error with no data. Short reads, and sources that return data together with an error, are not modelled. So the error of the delimiter-at-end branch (reader.go:100-105) is always nil in the model.
- Reader.NewSizedBufReader: does not model the overflow of `readSize*2` for huge read sizes (Go `int` wrap-around). A read size of 0 or less is raised to 16, as in the code.
- Reader.Shift: requires `0 <= dst` and `src <= len(arr)` for a downward move, the inputs on which Go's slicing would otherwise panic. Its only caller, the compaction of reader.go:71, always passes `dst = 0` and `src = pos <= len`, so no reachable behaviour is lost.
- Statistics.Add: the counters are unbounded. Go's `uint` wrap-around after 2^64 items is not modelled.
- The record's floor is a `nat`. The parser only stores values in 1..65535, so Go's `uint` is never exceeded.
- The benchmarks of parser_test.go (lines 115-213): they measure running time and check only that `read` returns no error. The Small benchmark's text is inline; the Large ones read bench/large.xml from disk.
