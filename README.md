# column-store, modelled in Dafny

This project models the core of *column-store*, a small Java library. The library stores records column by column and reads them back through typed column readers and writers. The model covers these parts:

- **The typed query API.**
  - Columns: a lower-cased, non-blank name and one of five types (`Columns`).
  - Filters: boolean, id, long and double ranges, and lower-cased string matches (`Filters`).
  - The query builder: selected columns, ordered filters, and the ALL_OF / AT_LEAST_ONE query types (`Queries`).
  - The exception message of a missing column (`Errors`).
  - The Parquet schema text built from a list of columns (`ParquetSchema`).
- **The in-memory binary store.**
  - `ColumnCodec` gives the byte layout of a column file: `[127][payload]` for a present entry and `[-128]` for a null, with big-endian lengths and numbers.
  - `InMemoryWrite` has one append-only file per column and memoized column writers.
  - `InMemoryRead` gives each column a cursor over its bytes. Its row iterator moves every cursor in lockstep. The benchmark copy of this reader (`src/jmh/java/column/store/input/InMemoryReader.java`) has the same cursor and row logic and is modelled by the same classes.
- **Filter evaluation.** `EvalFilter` decides whether one field text satisfies one filter. String filters compare the field text, as it is, with the lower-cased filter value. Id filters compare the field with the Base64 text of the id (section 4 of RFC 4648, standard alphabet with padding). `Base64`, `Utf8` and `Bytes` give concrete encodings.
- **The CSV reader.**
  - `CsvScan` specifies one batch of the reader as a function over the parser's records: selection by the query, framing into the buffer, and the memory accounting that stops the batch.
  - `CsvRead` holds the reader as a class with the Java fields. Its methods are proved against `CsvScan`.
  - The reader later reads the stored frames back one by one.
- **The CSV writer.**
  - `CsvText` holds the header map and the comma/newline rendering.
  - `CsvWrite` holds the writer: a header map, a current record array whose slots the typed writers overwrite, a queue of pending records, and `flush`.

Lower-casing follows Locale.ROOT for the ASCII letters. Doubles are real numbers, and their text conversions are parameters. Java serialization of a CSV record is a pair of functions, `ser` and `deser`, with `deser(ser(r)) == r`. Files are maps from path to content, given to the constructors.

## Model

| member | source | states |
|---|---|---|
| Columns.NewBaseColumn | src/main/java/column/store/api/column/BaseColumn.java:10-24 | fails with "Name must not be blank" exactly when the name is blank; otherwise keeps the name verbatim and the type |
| Columns.ForType | src/main/java/column/store/api/column/Column.java:44-74 | succeeds exactly when the name is not blank; the column is well formed, has the requested type, and its name is the lower-cased argument, equal to it ignoring case |
| Columns.ForBoolean | src/main/java/column/store/api/column/Column.java:44-46 | a BOOLEAN column with the lower-cased name, exactly when the name is not blank |
| Columns.ForDouble | src/main/java/column/store/api/column/Column.java:51-53 | a DOUBLE column with the lower-cased name, exactly when the name is not blank |
| Columns.ForId | src/main/java/column/store/api/column/Column.java:58-60 | an ID column with the lower-cased name, exactly when the name is not blank |
| Columns.ForLong | src/main/java/column/store/api/column/Column.java:65-67 | a LONG column with the lower-cased name, exactly when the name is not blank |
| Columns.ForString | src/main/java/column/store/api/column/Column.java:72-74 | a STRING column with the lower-cased name, exactly when the name is not blank |
| Columns.FactoryIgnoresCase | src/main/java/column/store/api/column/Column.java:44-74 | names that differ only in case give the same column, or the same error |
| Columns.FactoryIdempotent | src/main/java/column/store/api/column/Column.java:44-74 | rebuilding a well-formed column from its own name and type gives back the same column |
| Text.LowerPreservesBlank | src/main/java/column/store/api/column/Column.java:45 | a name is blank exactly when its lower case is, so lower-casing before the blank check rejects the same names |
| Text.LowerIsLowerCase | src/main/java/column/store/api/query/StringFilter.java:59-61 | the lower case of any text is in lower case, and lower-casing it again changes nothing |
| Errors.NoSuchColumnMessageInjective | src/main/java/column/store/api/column/NoSuchColumnException.java:7-9 | the message "Column <name> of type <TYPE> not found" determines the column: equal messages mean equal columns |
| Filters.BooleanIs | src/main/java/column/store/api/query/BooleanFilter.java:33-35 | a well-typed boolean filter on the column holding the value |
| Filters.IdIs | src/main/java/column/store/api/query/IdFilter.java:35-37 | a well-typed id filter on the column holding the id bytes |
| Filters.LongLessThan | src/main/java/column/store/api/query/LongFilter.java:60-62 | LESS_THAN; upperBound returns the maximum; lowerBound fails with "lessThan does not support lowerBound"; the hidden lower bound is Long.MIN_VALUE |
| Filters.LongGreaterThan | src/main/java/column/store/api/query/LongFilter.java:67-69 | GREATER_THAN; lowerBound returns the minimum; upperBound fails with "greaterThan does not support upperBound"; the hidden upper bound is Long.MAX_VALUE |
| Filters.LongBetween | src/main/java/column/store/api/query/LongFilter.java:74-77 | fails with "minInclusive has to be less than maxExclusive" exactly when min is not below max (equal bounds included); otherwise BETWEEN, and both accessors return the two bounds |
| Filters.DoubleLessThan | src/main/java/column/store/api/query/DoubleFilter.java:60-62 | LESS_THAN; upperBound returns the maximum; lowerBound fails with the lessThan message; the hidden lower bound is Double.MIN_VALUE, the smallest positive double |
| Filters.DoubleGreaterThan | src/main/java/column/store/api/query/DoubleFilter.java:67-69 | GREATER_THAN; lowerBound returns the minimum; upperBound fails with the greaterThan message; the hidden upper bound is Double.MAX_VALUE |
| Filters.DoubleBetween | src/main/java/column/store/api/query/DoubleFilter.java:74-77 | fails with "minInclusive has to be less than maxExclusive" exactly when min is not below max; otherwise BETWEEN with both bounds readable and unchanged |
| Filters.SomeBoundReadable | src/main/java/column/store/api/query/LongFilter.java:26-34 | every range lets at least one bound accessor through; an accessor that fails does so with its fixed UnsupportedOperationException message |
| Filters.StringWith | src/main/java/column/store/api/query/StringFilter.java:59-82 | a string filter with the requested match type; its value is the lower-cased argument, is in lower case, and equals the argument ignoring case |
| Filters.StringIs | src/main/java/column/store/api/query/StringFilter.java:59-61 | IS with the lower-cased argument |
| Filters.StringStartsWith | src/main/java/column/store/api/query/StringFilter.java:66-68 | STARTS_WITH with the lower-cased argument |
| Filters.StringEndsWith | src/main/java/column/store/api/query/StringFilter.java:73-75 | ENDS_WITH with the lower-cased argument |
| Filters.StringContains | src/main/java/column/store/api/query/StringFilter.java:80-82 | CONTAINS with the lower-cased argument |
| Filters.LowerCaseArgumentKept | src/main/java/column/store/api/query/StringFilter.java:59-61 | an argument already in lower case is stored unchanged |
| Filters.StringFilterIgnoresArgumentCase | src/main/java/column/store/api/query/StringFilter.java:59-82 | arguments that differ only in case build the same filter |
| Queries.Builder.From | src/main/java/column/store/api/query/Query.java:45-57 | a builder on the path with no columns and no filters |
| Queries.Builder.Select | src/main/java/column/store/api/query/Query.java:60-63 | the column set grows by the given columns as a set, so repeated columns collapse; the filters are unchanged |
| Queries.Builder.Filter | src/main/java/column/store/api/query/Query.java:68-72 | the filter is appended to the ordered list and its column is added to the column set |
| Queries.Builder.EnsureAtLeastOneColumn | src/main/java/column/store/api/query/Query.java:130-132 | fails with IllegalArgument "At least one column has to be selected" exactly when no column is selected |
| Queries.Builder.Build | src/main/java/column/store/api/query/Query.java:77-132 | fails exactly when no column is selected; otherwise the query has the builder's path, filters, columns and the requested type; a builder that received a filter always builds |
| Queries.Builder.AllOf | src/main/java/column/store/api/query/Query.java:77-100 | as Build, with type ALL_OF |
| Queries.Builder.AtLeastOne | src/main/java/column/store/api/query/Query.java:105-128 | as Build, with type AT_LEAST_ONE |
| ParquetSchema.ParquetTypeFrom | src/main/java/column/store/parquet/ParquetUtils.java:28-35 | one of boolean, double, binary and int64; binary exactly for ID and STRING; never empty and never holds a space or semicolon |
| ParquetSchema.SchemaFrom | src/main/java/column/store/parquet/ParquetUtils.java:14-26 | the builder loop appends "optional <type> <name>;" per column in order between "message record {" and "}": the result is the schema text of the column list |
| ParquetSchema.EmptySchema | src/main/java/column/store/parquet/ParquetUtils.java:15-24 | no columns give "message record {}" |
| ParquetSchema.FieldsAppend | src/main/java/column/store/parquet/ParquetUtils.java:16-23 | the column parts of two lists concatenate in stream order |
| ParquetSchema.ReadDeclarationOf | src/main/java/column/store/parquet/ParquetUtils.java:17-22 | one column part reads back as its Parquet type and its verbatim name |
| ParquetSchema.SplitFields | src/main/java/column/store/parquet/ParquetUtils.java:16-23 | cutting the column parts at semicolons gives one declaration per column, when no name holds a semicolon |
| ParquetSchema.ReadSchemaFrom | src/main/java/column/store/parquet/ParquetUtils.java:14-35 | the schema text reads back as the list of (Parquet type, name) pairs of the columns, in order, when no name holds a semicolon |
| Bytes.IntRoundTrip | src/main/java/column/store/inmemory/InMemoryReader.java:192 | the 4-byte big-endian two's-complement encoding of an int decodes back to it |
| Bytes.LongRoundTrip | src/main/java/column/store/inmemory/InMemoryReader.java:214 | the 8-byte big-endian two's-complement encoding of a long decodes back to it |
| Base64.EncodeLength | src/main/java/column/store/util/EvalFilterUtil.java:74 | the Base64 text of n bytes has 4 characters per started group of 3 bytes |
| Base64.DecodeLength | src/main/java/column/store/csv/read/CSVReader.java:203-204 | a successful decoding of n characters gives at most 3n/4 bytes |
| Base64.DecodeEncode | src/main/java/column/store/csv/read/CSVReader.java:203-204 | decoding the Base64 text of bytes gives the bytes back |
| Base64.EncodeInjective | src/main/java/column/store/util/EvalFilterUtil.java:73-75 | different ids have different Base64 texts |
| Utf8.DecodeEncode | src/main/java/column/store/inmemory/InMemoryReader.java:231-236 | decoding the UTF-8 bytes of a string gives the string back |
| Utf8.EncodeAscii | src/main/java/column/store/csv/write/CSVWriter.java:92 | ASCII text encodes to one byte per character, each the character's code |
| ColumnCodec.EncodeColumnAppend | src/main/java/column/store/inmemory/InMemoryWriter.java:159-168 | the bytes of a column of entries are the bytes of its parts, concatenated |
| ColumnCodec.EmptyColumn | src/main/java/column/store/inmemory/InMemoryReader.java:124-127 | a column's bytes are empty exactly when nothing was written |
| ColumnCodec.ReadHeader | src/main/java/column/store/inmemory/InMemoryReader.java:114-143 | at an entry's header byte: present exactly for a written value, next moves past the whole entry, hasNext exactly when bytes follow |
| ColumnCodec.ReadSize | src/main/java/column/store/inmemory/InMemoryReader.java:157-242 | the payload size read at a present entry is 1 for booleans, 8 for longs and doubles, and 4 plus the length for ids and strings |
| ColumnCodec.ReadId | src/main/java/column/store/inmemory/InMemoryReader.java:190-195 | get at a written id returns its bytes |
| ColumnCodec.ReadString | src/main/java/column/store/inmemory/InMemoryReader.java:231-236 | get at a written string returns the string |
| ColumnCodec.ReadFixed | src/main/java/column/store/inmemory/InMemoryReader.java:152-215 | get at a written boolean, double or long returns the value |
| ColumnCodec.ReadValue | src/main/java/column/store/inmemory/InMemoryReader.java:152-236 | get at any written value returns the value |
| ColumnCodec.ReadColumn | src/main/java/column/store/inmemory/InMemoryReader.java:124-143 | the round trip: a cursor over n written entries, after j steps, has a next entry exactly when j < n; its next step lands on entry j, which is present exactly when non-null and whose get returns the written value |
| ColumnCodec.CursorAt | src/main/java/column/store/inmemory/InMemoryReader.java:114-143 | at the k-th entry of a written column: isPresent exactly when non-null, isNull exactly when null, next lands on the (k+1)-th, hasNext exactly when it is not the last |
| ColumnCodec.ValueAt | src/main/java/column/store/inmemory/InMemoryReader.java:152-236 | get at the k-th entry of a written column returns the k-th written value |
| ColumnCodec.CursorStep | src/main/java/column/store/inmemory/InMemoryReader.java:245-259 | after j of n written entries, a row step moves the cursor exactly when j < n, onto entry j |
| InMemoryWrite.InMemoryWriter.constructor | src/main/java/column/store/inmemory/InMemoryWriter.java:25-29 | no writers and no channels over the existing files |
| InMemoryWrite.InMemoryWriter.OpenChannelFor | src/main/java/column/store/inmemory/InMemoryWriter.java:146-157 | fails with FileAlreadyExists when the column file exists; otherwise creates it empty and registers the channel, failing with "Channel has already been opened" when one was registered |
| InMemoryWrite.InMemoryWriter.Of | src/main/java/column/store/inmemory/InMemoryWriter.java:31-144 | a column's writer is made once: later calls return it and change nothing; the first call creates the empty column file and opens its channel |
| InMemoryWrite.InMemoryWriter.WriteEntry | src/main/java/column/store/inmemory/InMemoryWriter.java:159-168 | appends exactly the entry's bytes to its own column's file, leaving every other file alone; fails on a closed channel |
| InMemoryWrite.ColumnWriter.Write | src/main/java/column/store/inmemory/InMemoryWriter.java:36-134 | appends the entry of the value (header byte 127, then its payload) to the column's file and nothing else; the file stays the encoding of everything written to it |
| InMemoryWrite.ColumnWriter.WriteNull | src/main/java/column/store/inmemory/InMemoryWriter.java:44-141 | appends the single byte -128 to the column's file and nothing else |
| InMemoryWrite.InMemoryWriter.Next | src/main/java/column/store/inmemory/InMemoryWriter.java:170-173 | changes nothing |
| InMemoryWrite.InMemoryWriter.Flush | src/main/java/column/store/inmemory/InMemoryWriter.java:175-188 | changes nothing; fails when a channel is closed |
| InMemoryWrite.InMemoryWriter.Close | src/main/java/column/store/inmemory/InMemoryWriter.java:190-204 | flushes, then closes every channel; the files are unchanged |
| InMemoryRead.ByteReader.constructor | src/main/java/column/store/inmemory/InMemoryReader.java:94-103 | a new cursor stands before the first entry (index -1) |
| InMemoryRead.ByteReader.Reset | src/main/java/column/store/inmemory/InMemoryReader.java:109-111 | the cursor goes back to index -1 |
| InMemoryRead.ByteReader.Next | src/main/java/column/store/inmemory/InMemoryReader.java:134-143 | moves to 0 from the start, else by 1 plus the payload size of a present entry; fails where the header or size cannot be read (same logic at src/jmh/java/column/store/input/InMemoryReader.java:125-134) |
| InMemoryRead.InMemoryReader.constructor | src/main/java/column/store/inmemory/InMemoryReader.java:29-34 | no root, no cursors, consumed and no pending row |
| InMemoryRead.InMemoryReader.Query | src/main/java/column/store/inmemory/InMemoryReader.java:36-43 | a query with filters fails with the "does not support filters" message and changes nothing; otherwise the cursors are dropped and the root is set |
| InMemoryRead.InMemoryReader.ReadAllBytesOf | src/main/java/column/store/inmemory/InMemoryReader.java:85-92 | the column's file under the root; fails without a root or without the file |
| InMemoryRead.InMemoryReader.Of | src/main/java/column/store/inmemory/InMemoryReader.java:45-83 | the first call for a column makes a cursor over its whole file, at -1; later calls return the same cursor |
| InMemoryRead.InMemoryReader.HasNext | src/main/java/column/store/inmemory/InMemoryReader.java:245-259 | while the row is not consumed, returns the cached answer and moves nothing; otherwise moves every cursor with a next entry one step and answers whether any moved (same logic at src/jmh/java/column/store/input/InMemoryReader.java:237-250) |
| InMemoryRead.InMemoryReader.Next | src/main/java/column/store/inmemory/InMemoryReader.java:261-271 | fails with "No next value" when no row is pending, stepping first when the last row was consumed; otherwise marks the row consumed |
| InMemoryRead.InMemoryReader.Close | src/main/java/column/store/inmemory/InMemoryReader.java:273-276 | drops every cursor |
| InMemoryRead.InMemoryReader.Reset | src/main/java/column/store/inmemory/InMemoryReader.java:278-282 | every cursor back to -1, consumed and no pending row |
| EvalFilter.EvalBoolean | src/main/java/column/store/util/EvalFilterUtil.java:17-23 | a boolean filter matches exactly when the text is "true" or "false" ignoring case and names the filter's value; any other text is a non-match |
| EvalFilter.EvalLongUnparsable | src/main/java/column/store/util/EvalFilterUtil.java:35-39 | text that does not parse as a long never matches |
| EvalFilter.EvalLongLessThan | src/main/java/column/store/util/EvalFilterUtil.java:79-81 | the text of v matches isLessThan(m) exactly when v < m |
| EvalFilter.EvalLongGreaterThan | src/main/java/column/store/util/EvalFilterUtil.java:82-84 | the text of v matches isGreaterThan(m) exactly when v > m |
| EvalFilter.EvalLongBetween | src/main/java/column/store/util/EvalFilterUtil.java:85-87 | the text of v matches isBetween(a, b) exactly when a <= v < b |
| EvalFilter.EvalDoubleBetween | src/main/java/column/store/util/EvalFilterUtil.java:63-65 | parsed text matches isBetween(a, b) exactly when a <= value < b |
| EvalFilter.EvalId | src/main/java/column/store/util/EvalFilterUtil.java:73-75 | the Base64 text of some bytes matches an id filter exactly when they are the filter's id |
| EvalFilter.EvalStringBuilders | src/main/java/column/store/util/EvalFilterUtil.java:95-115 | is, startsWith, endsWith and contains match exactly on equality, prefix, suffix and substring with the lower-cased argument |
| EvalFilter.EvalStringIsCaseSensitive | src/main/java/column/store/util/EvalFilterUtil.java:98-100 | a field text that is not all lower case never matches any is filter |
| EvalFilter.StringIsCaseSensitiveWitness | src/main/java/column/store/util/EvalFilterUtil.java:98-100 | the field "ABC" does not match is("ABC") |
| EvalFilter.EvalIgnoringCaseIs | src/main/java/column/store/api/query/StringFilter.java:8-11 | with the documented case-insensitive comparison, is(value) matches exactly the texts equal to value ignoring case |
| EvalFilter.EvalIgnoringCaseInvariant | src/main/java/column/store/api/query/StringFilter.java:8-11 | with the case-insensitive comparison, field texts that differ only in case match the same string filters |
| EvalFilter.EvalIgnoringCaseWitness | src/main/java/column/store/api/query/StringFilter.java:8-11 | with the case-insensitive comparison, "ABC" matches is("ABC") |
| CsvText.HeaderMapLast | src/main/java/column/store/csv/write/CSVWriter.java:28-33 | a name is a key exactly when some header entry lower-cases to it, and it maps to the last such position |
| CsvText.FirstLine | src/main/java/column/store/csv/write/CSVWriter.java:29 | readLine gives a line exactly for a non-empty file, without line breaks, as a prefix of the file |
| CsvText.RenderRecords | src/main/java/column/store/csv/write/CSVWriter.java:145-147 | one line per pending record, in order, each its fields joined by commas |
| CsvText.RenderingSplits | src/main/java/column/store/csv/write/CSVWriter.java:143-153 | the flushed text starts with a line break, and cutting the rest at line breaks and then commas gives the records back, when no field holds a comma or line break |
| CsvScan.AllMatchMeaning | src/main/java/column/store/csv/read/CSVReader.java:89-97 | evalAll is true exactly when every filter, evaluated on its field by EvalFilterUtil.eval, is true; false means some filter evaluated false |
| CsvScan.AnyMatchMeaning | src/main/java/column/store/csv/read/CSVReader.java:143-151 | evalAny is false exactly when every filter, evaluated on its field by EvalFilterUtil.eval, is false; true means some filter evaluated true |
| CsvScan.CaseSensitiveRecordDropped | src/main/java/column/store/csv/read/CSVReader.java:78-97 | as written, an ALL_OF query for is("abc") keeps no record whose field is "ABC": the reader compares strings case-sensitively |
| CsvScan.AllOfWithoutFiltersKeepsAll | src/main/java/column/store/csv/read/CSVReader.java:78-97 | an ALL_OF query without filters selects every record |
| CsvScan.AtLeastOneWithoutFiltersKeepsNone | src/main/java/column/store/csv/read/CSVReader.java:132-151 | an AT_LEAST_ONE query without filters selects no record |
| CsvScan.KeepStep | src/main/java/column/store/csv/read/CSVReader.java:99-113 | storing a record uses 4 plus its length; the threshold is set to twice that by the first store and otherwise kept |
| CsvScan.Step | src/main/java/column/store/csv/read/CSVReader.java:79-86 | each turn pulls one record; a turn that stops the batch has stored something |
| CsvScan.Keep | src/main/java/column/store/csv/read/CSVReader.java:80-84 | storing does not move the parser; a store that stops the batch has stored something |
| CsvScan.ScanBatches | src/main/java/column/store/csv/read/CSVReader.java:78-87 | from any state between two turns, the batch ends as Batched says (stated for the loop's invariant) |
| CsvScan.StepEnds | src/main/java/column/store/csv/read/CSVReader.java:79-86 | a turn that ends the batch leaves a state that satisfies Batched |
| CsvScan.KeepStops | src/main/java/column/store/csv/read/CSVReader.java:81-84 | a store that leaves less memory than the threshold ends the batch, and no earlier store did |
| CsvScan.BatchRun | src/main/java/column/store/csv/read/CSVReader.java:60-87 | a batch started with given memory, threshold and position ends with: memory lowered by exactly the stored frames; the threshold set by the first store; the stored records being the pulled ones that satisfy the query under EvalFilterUtil.eval, framed back to back; the batch stopped at the end of the records or right after the first store that left less memory than the threshold; or an evaluation error or a record that did not fit |
| CsvScan.FramePrefix | src/main/java/column/store/csv/read/CSVReader.java:115-130 | the frames of the first k stored records, then the k-th frame, lie at the start of the buffer |
| CsvScan.ReadFrame | src/main/java/column/store/csv/read/CSVReader.java:115-130 | at the end of the first k frames, the 4 bytes decode to the k-th record's length, the bytes after them deserialize to the k-th record, and the next frame starts right after |
| CsvRead.CsvReader.constructor | src/main/java/column/store/csv/read/CSVReader.java:28-42 | threshold -1, all memory left, empty buffer and counters, no filters, empty header, ALL_OF, no parser, no current record |
| CsvRead.HeaderNamesBlank | src/main/java/column/store/csv/CSVFile.java:16-21 | the header line "a,,b" has a blank name and is refused; "a,b," gives the names a and b, since the split drops trailing empty names; "," splits into no names, so the line itself is read as the header record, and its two blank names are refused with "A header name is missing in [, ]" |
| CsvRead.CsvReader.Query | src/main/java/column/store/csv/read/CSVReader.java:44-58 | sets the type and filters; a missing file fails with FileNotFound, an empty one with a null pointer, and a header with a blank name with "A header name is missing in [...]" (when the line is commas only, the names checked are the fields of the line itself); on these failures the parser is closed, the header empty, memory and threshold reset, and the previous batch's buffer, counters and offset kept; otherwise the header is the lower-cased first line, read counter and offset are 0, and a batch runs from the first record with all memory and threshold -1, ending as BatchRun says |
| CsvRead.CsvReader.FetchNextRecords | src/main/java/column/store/csv/read/CSVReader.java:60-76 | clears the buffer and the counters and runs one batch from the parser's position with the memory left by earlier batches, ending as BatchRun says |
| CsvRead.CsvReader.RunBatch | src/main/java/column/store/csv/read/CSVReader.java:78-87 | the allOfQuery / atLeastOne loop computes exactly the batch function |
| CsvRead.CsvReader.PullRecord | src/main/java/column/store/csv/read/CSVReader.java:79-86 | one loop turn: the parser moves by one, and the buffer, memory and threshold change as one turn of the batch function says |
| CsvRead.CsvReader.EvalAll | src/main/java/column/store/csv/read/CSVReader.java:89-97 | the early-exit loop computes evalAll over the filters |
| CsvRead.CsvReader.EvalAny | src/main/java/column/store/csv/read/CSVReader.java:143-151 | the early-exit loop computes evalAny over the filters |
| CsvRead.CsvReader.PutRecord | src/main/java/column/store/csv/read/CSVReader.java:99-113 | appends the 4-byte length and the serialized record, counts it, returns 4 plus its length, and sets the threshold to twice that when unset; overflows when the length or the record does not fit into the buffer |
| CsvRead.CsvReader.GetNextRecord | src/main/java/column/store/csv/read/CSVReader.java:115-130 | the k-th read of a batch makes the k-th stored record current and moves the offset past its frame |
| CsvRead.CsvReader.Next | src/main/java/column/store/csv/read/CSVReader.java:249-258 | with an unread stored record, makes it current and moves past it, leaving the buffer, parser position, memory and threshold alone; otherwise, when the parser has more, fetches a batch (read counter and offset back to 0) and keeps the current record; otherwise fails with "No next value" and changes nothing |
| CsvRead.CsvReader.Close | src/main/java/column/store/csv/read/CSVReader.java:260-265 | the parser is closed |
| CsvRead.CsvReader.IsPresent | src/main/java/column/store/csv/read/CSVReader.java:153-159 | fails with NoSuchColumn exactly for a name outside the header; true exactly when a current record has a non-empty field for the column |
| CsvRead.CsvReader.ColumnValue | src/main/java/column/store/csv/read/CSVReader.java:161-166 | the field text exactly when present, which is non-empty; "Current value is null" when absent |
| CsvWrite.IdText | src/main/java/column/store/csv/read/CSVReader.java:202-205 | the text an id slot needs for the reader's getId: Base64-decoded it is the id again; it is empty exactly for an empty id |
| CsvWrite.IdTextUtf8NotFound | src/main/java/column/store/csv/write/CSVWriter.java:92 | as written, the id "1234".getBytes() gets the slot text "1234", which the id filter for the same bytes does not match |
| CsvWrite.IdTextUtf8NeverFound | src/main/java/column/store/csv/write/CSVWriter.java:92 | as written, the slot text of a non-empty id never matches the id filter for that id: it has at most as many characters as the id has bytes, fewer than the id's Base64 text |
| CsvWrite.IdTextReadBack | src/main/java/column/store/csv/read/CSVReader.java:202-205 | with the Base64 text in the slot, getId gives the id back (an empty id reads as absent), and an id filter matches exactly when its id is the written one |
| CsvWrite.WrittenCellReadBack | src/main/java/column/store/csv/read/CSVReader.java:168-242 | the reader's typed get of a field the writer filled returns the written boolean, long or string; an empty string or id reads as absent; a double comes back when its text parses to it; a non-empty id never comes back, since getId Base64-decodes the UTF-8 text into fewer bytes or fails |
| CsvWrite.WriterHeaderIsReaderHeader | src/main/java/column/store/csv/CSVFile.java:16 | the writer lower-cases each name of the split first line and the reader the whole line before splitting: both give the same header map |
| CsvWrite.CsvWriter.constructor | src/main/java/column/store/csv/write/CSVWriter.java:20-34 | the header map of the first line, no pending records, and a blank current record with one slot per key |
| CsvWrite.CsvWriter.InitNewRecord | src/main/java/column/store/csv/write/CSVWriter.java:36-39 | a fresh record with one empty slot per header key |
| CsvWrite.CsvWriter.WriteNull | src/main/java/column/store/csv/write/CSVWriter.java:41-43 | the column's slot becomes empty and no other slot changes; a name outside the header fails with a null pointer, and a position beyond the record with an index error |
| CsvWrite.CsvWriter.Of | src/main/java/column/store/csv/write/CSVWriter.java:45-55 | fails with NoSuchColumn exactly when the column name is not a header key; otherwise a writer for that column |
| CsvWrite.ColumnWriter.Write | src/main/java/column/store/csv/write/CSVWriter.java:52-134 | the column's slot gets the value's text and no other slot changes; fails with an index error, changing nothing, when the name's position lies beyond the record |
| CsvWrite.ColumnWriter.WriteNull | src/main/java/column/store/csv/write/CSVWriter.java:61-64 | the column's slot becomes empty and no other slot changes |
| CsvWrite.CsvWriter.Next | src/main/java/column/store/csv/write/CSVWriter.java:137-140 | the current record joins the end of the pending list, and a blank record replaces it |
| CsvWrite.CsvWriter.Flush | src/main/java/column/store/csv/write/CSVWriter.java:143-153 | the file grows by a line break and the pending records joined by line breaks, fields by commas, unquoted; the list empties and a blank record is current |
| CsvWrite.CsvWriter.Close | src/main/java/column/store/csv/write/CSVWriter.java:156-158 | changes nothing, so pending records are never written |
| CsvWrite.Open | src/main/java/column/store/csv/write/CSVWriter.java:20-29 | a missing file fails with FileNotFound and an empty one with a null pointer; otherwise a new writer over the file |

## Left out

- Integer widths: the int counters of the CSV reader (`memoryLeft`, `offset`, record lengths) are unbounded integers. Buffer positions are bounded by the 268,435,456-byte buffer. Java int overflow of these counters is not modelled.
- ColumnCodec.HasNextAt, ColumnCodec.NextAt, ColumnCodec.CopyOfRange: the in-memory reader's cursor arithmetic (`index + 1 + size < length` in hasNext and next, `start + length` in copyOfRange) is done on unbounded integers. Java does it in 32-bit `int`, which wraps for a corrupt length field near `Integer.MAX_VALUE`: for the STRING bytes [127, 127, -1, -1, -1, 0] at index 0, Java's hasNext holds after the wrap, while `HasNextAt` is `Success(false)`. Files written by the writers never hold such lengths.
- Floating point: a double is a real number. Its 8 stored bytes are opaque, and `Double.parseDouble` is a decimal parser without exponents, NaN or infinities (see the `Text.ParseDouble` line). `String.valueOf(double)` is the writer's `formatDouble` parameter. `Double.MIN_VALUE` and `Double.MAX_VALUE` are their exact real values.
- Text.ParseDouble: rejects what `Double.parseDouble` also accepts: surrounding whitespace (it trims), a trailing type suffix d, D, f or F, hexadecimal floats, exponents, NaN and Infinity. A field such as " 1.5" or "1.5d" is therefore a non-match for a double filter in the model (`EvalFilter.Eval`) and a NumberFormat failure of `CsvRead.CsvReader.GetDouble`, where Java reads 1.5.
- Unicode: lower-casing covers the ASCII letters only; other characters are kept as they are.
- Text.ParseLong: accepts ASCII digits only, where `Long.parseLong` accepts any Unicode decimal digit (through `Character.digit`).
- Utf8.Decode: on ill-formed bytes it gives one U+FFFD per byte that does not start a well-formed sequence; `new String(bytes, UTF_8)` can replace a longer ill-formed run (an encoded surrogate such as ED A0 80, a truncated sequence at the end) by a single U+FFFD. Well-formed bytes decode alike, and in both a character takes at least one byte, which is all the id lemmas use.
- File I/O: files, directories and channels are maps and sets. Locating a column file by the type and name under the root is the `Column` key. `force` and `close` of a channel are modelled as a set of closed channels.
- The memory-mapped temporary file of the CSV reader is the byte sequence `mmap`, as long as what was put into it. Its 256 MB capacity is the overflow bound.
- CSV parsing by commons-csv: a CSV file is its first line and the already-parsed records. Of the parser's own checks, only the refusal of a blank header name is modelled. The parser is a position in those records. The text written by the CSV writer is tied to those records by `CsvText.RenderingSplits`, for fields without separators; quoting is not modelled.
- Java serialization of a record is the pair `ser`/`deser` with `deser(ser(r)) == r`. Its bytes are not modelled.
- Exception messages of the JDK's own exceptions (file not found, index out of bounds, null pointer) are kept as categories, not texts.
- CsvScan.Field: the message for a name outside the header is "Mapping for X not found", without commons-csv's ", expected one of [...]" suffix, which lists the header names in insertion order, an order the header map does not keep.
- `InMemoryReader.columns()` (a directory listing) is not part of this model.
- Aliasing: the Java query hands its own filter list and column set to the query it builds. The model copies them as values.
- HashMap iteration order: the row iterator's loop visits the cursors in any order. Its contract holds for every order.
- The CSV writer's pending list holds copies of the finished record arrays, not the arrays themselves. Java's list cannot observe the difference, because `next` makes a new array.
- `IOException` from the CSV writer's `flush` and the CSV reader's `close` is not modelled. Those file operations always succeed here.
- Some Java methods are split into more than one Dafny member to keep the proofs small: `OpenParser`, `ClearBuffer`, `Turn`, `PullRecord`, `Store` and `Evaluate` in the CSV reader, `Create` in the in-memory writer, and `SetSlot` in the CSV writer. They appear in the table through the members that call them.
- A null `String` or `byte[]` handed to a writer is not modelled: values are never null.

## Findings

| source | as written | input that shows it | evidently intended | confidence | as-written member | corrected member |
|---|---|---|---|---|---|---|
| src/main/java/column/store/util/EvalFilterUtil.java:95-115 | string filters compare the raw field text with the lower-cased filter value, case-sensitively | the field "ABC" and the filter is("ABC"), stored as "abc": no match | StringFilter is documented as case-insensitive (StringFilter.java:8-11): the field should be compared ignoring case | not executed | EvalFilter.StringIsCaseSensitiveWitness | EvalFilter.EvalIgnoringCaseWitness |
| src/main/java/column/store/csv/write/CSVWriter.java:92 | an id is written as its bytes decoded as UTF-8, while the reader's get and the id filter use Base64 | the id "1234".getBytes(): the slot holds "1234", but the id filter expects "MTIzNA==" | ids should be written as their Base64 text, which the reader decodes and the filter compares with | not executed | CsvWrite.IdTextUtf8NeverFound | CsvWrite.IdTextReadBack |

The model keeps both behaviours as written: the CSV reader evaluates filters with `EvalFilter.Eval`, and the CSV writer's id column writes `CsvWrite.IdTextUtf8`. The corrected definitions, `EvalFilter.EvalIgnoringCase` and `CsvWrite.IdText`, stand beside them with their properties proved.
