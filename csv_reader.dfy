/**
 * The CSV reader: a query opens the CSV file and fills a memory-mapped
 * buffer with the framed, serialized records that satisfy it, a batch at a
 * time; next reads the buffered records back one by one, and fetches the
 * next batch when the buffer is used up. The file is its header line and
 * the records the CSV parser yields after it; the parser is a position in
 * those records that only moves forward. Java serialization is a pair of
 * functions that undo each other.
 */
module CsvRead {
  import opened Wrappers
  import opened Bytes
  import opened Text
  import opened Columns
  import opened Errors
  import opened Filters
  import opened EvalFilter
  import opened Queries
  import opened CsvText
  import opened CsvScan
  import Base64

  const NO_NEXT := "No next value"
  const NULL_VALUE := "Current value is null"
  /** The IOException of opening a file that does not exist. */
  const FILE_NOT_FOUND := "FileNotFoundException"

  /** A CSV file: its first line (None for an empty file) and the records after it. */
  datatype CsvFile = CsvFile(headerLine: Option<string>, records: seq<Record>)

  /** The header names the parser is given: the first line lower-cased and split at commas. */
  function HeaderNames(line: string): seq<string>
  {
    JavaSplit(Lower(line), ',')
  }

  /** The header map of a CSV file: each of its header names at its position. */
  function HeaderOf(line: string): map<string, nat>
  {
    HeaderMap(HeaderNames(line))
  }

  /**
   * The header record commons-csv checks: the names it is given, or, when
   * the split gave none (a line of commas only), the first record of the
   * file, which it then reads as the header.
   */
  function HeaderRecord(line: string): seq<string>
  {
    var names := HeaderNames(line);
    if names == [] then SplitOn(line, ',') else names
  }

  /** A blank name for commons-csv: trim, which drops the characters up to U+0020, leaves nothing. */
  predicate TrimBlank(name: string)
  {
    forall i :: 0 <= i < |name| ==> name[i] <= ' '
  }

  /**
   * Some header name is blank: commons-csv, which does not allow missing
   * column names by default, refuses such a header.
   */
  predicate MissingName(names: seq<string>)
  {
    exists i :: 0 <= i < |names| && TrimBlank(names[i])
  }

  /**
   * The empty name between two commas of "a,,b" is blank, so that header is
   * refused; the split drops the trailing empty name of "a,b,", so that one
   * is taken; "," splits into no names at all, so commons-csv reads the
   * line itself as the header record and refuses its two blank names.
   */
  lemma HeaderNamesBlank()
    ensures MissingName(HeaderRecord("a,,b"))
    ensures HeaderNames("a,b,") == ["a", "b"] && !MissingName(HeaderRecord("a,b,"))
    ensures HeaderNames(",") == [] && HeaderRecord(",") == ["", ""] && MissingName(HeaderRecord(","))
    ensures MissingNameMessage(HeaderRecord(",")) == "A header name is missing in [, ]"
  {
    SplitCommaOnly();
    assert Lower("a,,b") == "a,,b" && "a,,b"[1] == ',';
    SplitBlankInside();
    assert TrimBlank(HeaderNames("a,,b")[1]);
    assert Lower("a,b,") == "a,b," && "a,b,"[1] == ',';
    SplitBlankAtEnd();
    assert ["a", "b", ""][..2] == ["a", "b"];
    assert !TrimBlank("a") && !TrimBlank("b");
  }

  /** The split of ",": two empty pieces, both dropped by String.split. */
  lemma SplitCommaOnly()
    ensures SplitOn(",", ',') == ["", ""] && Lower(",") == "," && JavaSplit(",", ',') == []
  {
    assert ","[1..] == "" && ","[0] == ',';
    assert ["", ""][..1] == [""] && [""][..0] == [];
  }

  /** The split of "a,,b", piece by piece. */
  lemma SplitBlankInside()
    ensures SplitOn("a,,b", ',') == ["a", "", "b"]
  {
    assert "a,,b"[1..] == ",,b" && ",,b"[1..] == ",b" && ",b"[1..] == "b" && "b"[1..] == "";
    assert ['b'] + "" == "b" && ['a'] + "" == "a";
    assert SplitOn("b", ',') == ["b"];
    assert SplitOn(",b", ',') == ["", "b"];
  }

  /** The split of "a,b,", piece by piece. */
  lemma SplitBlankAtEnd()
    ensures SplitOn("a,b,", ',') == ["a", "b", ""]
  {
    assert "a,b,"[1..] == ",b," && ",b,"[1..] == "b," && "b,"[1..] == "," && ","[1..] == "";
    assert ['b'] + "" == "b" && ['a'] + "" == "a";
    assert SplitOn(",", ',') == ["", ""];
    assert SplitOn("b,", ',') == ["b", ""];
  }

  /** The elements of Arrays.toString: the names separated by ", ". */
  function ListText(names: seq<string>): string
  {
    if names == [] then ""
    else if |names| == 1 then names[0]
    else names[0] + ", " + ListText(names[1..])
  }

  /** The message of the IllegalArgumentException for a header with a blank name. */
  function MissingNameMessage(names: seq<string>): string
  {
    "A header name is missing in [" + ListText(names) + "]"
  }

  class CsvReader {
    const files: map<string, CsvFile>
    const ser: Record -> Serialized
    const deser: seq<int8> -> Record

    var memoryThreshold: int
    var memoryLeft: int
    /** The bytes put into the mapped buffer since it was last cleared. */
    var mmap: seq<int8>
    var offset: int
    var numOfStoredRecords: int
    var numOfReadRecord: int

    var filters: TypedFilters
    var header: map<string, nat>
    var isAllOf: bool
    /** The records of the current parser, and how many it has handed out. */
    var source: seq<Record>
    var position: nat
    /** A parser exists and has not been closed. */
    var parserOpen: bool
    var currentRecord: Option<Record>

    /** The records stored in the buffer by the current batch, in order. */
    ghost var stored: seq<Record>
    /** What the buffer holds after their frames: the length of a record that did not fit. */
    ghost var slack: seq<int8>

    /** The buffer starts with the frames of the stored records. */
    ghost predicate Buffered()
      reads this`mmap, this`stored, this`slack, this`numOfStoredRecords
    {
      numOfStoredRecords == |stored| && mmap == Frames(ser, stored) + slack
    }

    /** The buffer holds the stored records' frames, and the read offset is the end of those already read. */
    ghost predicate Valid()
      reads this`mmap, this`stored, this`slack, this`offset, this`numOfStoredRecords, this`numOfReadRecord
    {
      && Buffered()
      && 0 <= numOfReadRecord <= numOfStoredRecords
      && offset == Used(ser, stored[..numOfReadRecord])
    }

    constructor (files: map<string, CsvFile>, ser: Record -> Serialized, deser: seq<int8> -> Record)
      requires Sound(ser, deser)
      ensures Valid() && position <= |source|
      ensures this.files == files && this.ser == ser && this.deser == deser
      ensures memoryThreshold == -1 && memoryLeft == ALLOCATED_MEMORY
      ensures offset == 0 && numOfStoredRecords == 0 && numOfReadRecord == 0
      ensures filters == [] && header == map[] && isAllOf && !parserOpen && currentRecord == None
    {
      this.files := files;
      this.ser := ser;
      this.deser := deser;
      memoryThreshold := -1;
      memoryLeft := ALLOCATED_MEMORY;
      mmap := [];
      offset := 0;
      numOfStoredRecords := 0;
      numOfReadRecord := 0;
      filters := [];
      header := map[];
      isAllOf := true;
      source := [];
      position := 0;
      parserOpen := false;
      currentRecord := None;
      stored := [];
      slack := [];
    }

    /** What a batch run by this reader works with. */
    function Setup(): ScanSetup
      reads this`isAllOf, this`filters, this`header, this`source, this`parserOpen
    {
      ScanSetup(isAllOf, filters, header, ser, source, parserOpen)
    }

    /** The part of this reader a batch changes. */
    ghost function Snapshot(): ScanState
      reads this`position, this`stored, this`mmap, this`memoryLeft, this`memoryThreshold
    {
      ScanState(position, stored, mmap, memoryLeft, memoryThreshold)
    }

    /** The file of the query exists, has a first line, and no blank header name. */
    predicate Opens(path: string)
    {
      && path in files && files[path].headerLine.Some?
      && !MissingName(HeaderRecord(files[path].headerLine.value))
    }

    /**
     * query: resets memory and threshold, takes the query's filters and
     * type, clears the header, closes the previous parser, opens the file
     * and runs one batch. When the file cannot be opened, the buffer and
     * its counters keep the previous batch.
     */
    method Query(q: Query) returns (r: Outcome<Error>)
      requires Valid() && AllWellTyped(q.filters) && position <= |source|
      modifies this`isAllOf, this`filters, this`header, this`parserOpen, this`source, this`position
      modifies this`mmap, this`stored, this`slack, this`numOfStoredRecords, this`numOfReadRecord
      modifies this`offset, this`memoryLeft, this`memoryThreshold
      ensures Valid() && position <= |source|
      ensures filters == q.filters && isAllOf == (q.queryType == ALL_OF)
      ensures q.filePath !in files ==> r == Fail(IOError(FILE_NOT_FOUND))
      ensures q.filePath in files && files[q.filePath].headerLine.None? ==> r == Fail(NullPointer)
      ensures q.filePath in files && files[q.filePath].headerLine.Some? ==>
        var names := HeaderRecord(files[q.filePath].headerLine.value);
        MissingName(names) ==> r == Fail(IllegalArgument(MissingNameMessage(names)))
      ensures !Opens(q.filePath) ==>
        && !parserOpen && header == map[] && memoryLeft == ALLOCATED_MEMORY && memoryThreshold == -1
        && source == old(source) && position == old(position)
        && mmap == old(mmap) && stored == old(stored) && numOfStoredRecords == old(numOfStoredRecords)
        && numOfReadRecord == old(numOfReadRecord) && offset == old(offset)
      ensures Opens(q.filePath) ==>
        && source == files[q.filePath].records && parserOpen
        && header == HeaderOf(files[q.filePath].headerLine.value)
        && numOfReadRecord == 0 && offset == 0
        && Batched(Setup(), ALLOCATED_MEMORY, -1, 0, Snapshot(), r)
    {
      r := OpenParser(q);
      if r.Pass? {
        r := FetchNextRecords();
      }
    }

    /** The first part of query: the reset, and the new parser over the file's records. */
    method OpenParser(q: Query) returns (r: Outcome<Error>)
      requires Valid() && AllWellTyped(q.filters) && position <= |source|
      modifies this`isAllOf, this`memoryLeft, this`memoryThreshold, this`filters, this`header
      modifies this`parserOpen, this`source, this`position
      ensures position <= |source|
      ensures filters == q.filters && isAllOf == (q.queryType == ALL_OF)
      ensures memoryLeft == ALLOCATED_MEMORY && memoryThreshold == -1
      ensures q.filePath !in files ==> r == Fail(IOError(FILE_NOT_FOUND))
      ensures q.filePath in files && files[q.filePath].headerLine.None? ==> r == Fail(NullPointer)
      ensures q.filePath in files && files[q.filePath].headerLine.Some? ==>
        var names := HeaderRecord(files[q.filePath].headerLine.value);
        MissingName(names) ==> r == Fail(IllegalArgument(MissingNameMessage(names)))
      ensures !Opens(q.filePath) ==>
        && r.Fail? && !parserOpen && header == map[] && source == old(source) && position == old(position)
      ensures Opens(q.filePath) ==>
        && r == Pass && source == files[q.filePath].records && position == 0 && parserOpen
        && header == HeaderOf(files[q.filePath].headerLine.value)
    {
      isAllOf := q.queryType == ALL_OF;
      memoryLeft := ALLOCATED_MEMORY;
      memoryThreshold := -1;
      filters := q.filters;
      header := map[];
      Close();
      if q.filePath !in files {
        return Fail(IOError(FILE_NOT_FOUND));
      }
      var file := files[q.filePath];
      if file.headerLine.None? {
        return Fail(NullPointer);
      }
      var names := HeaderRecord(file.headerLine.value);
      if MissingName(names) {
        return Fail(IllegalArgument(MissingNameMessage(names)));
      }
      source, position, parserOpen := file.records, 0, true;
      header := HeaderOf(file.headerLine.value);
      return Pass;
    }

    /** fetchNextRecords: clears the buffer and runs a batch from where the parser stands. */
    method FetchNextRecords() returns (r: Outcome<Error>)
      requires position <= |source|
      modifies this`mmap, this`stored, this`slack, this`numOfStoredRecords, this`numOfReadRecord
      modifies this`offset, this`position, this`memoryLeft, this`memoryThreshold
      ensures Valid() && numOfReadRecord == 0 && offset == 0
      ensures (Snapshot(), r) == Scan(Setup(), ScanState(old(position), [], [], old(memoryLeft), old(memoryThreshold)))
      ensures Batched(Setup(), old(memoryLeft), old(memoryThreshold), old(position), Snapshot(), r)
    {
      ghost var m0, t0, p0 := memoryLeft, memoryThreshold, position;
      ClearBuffer();
      r := RunBatch();
      BatchRun(Setup(), m0, t0, p0, Snapshot(), r);
    }

    /** The buffer cleared, and its counters and read offset reset. */
    method ClearBuffer()
      modifies this`mmap, this`stored, this`slack, this`numOfStoredRecords, this`numOfReadRecord, this`offset
      ensures Valid() && numOfReadRecord == 0 && offset == 0 && mmap == [] && stored == []
    {
      mmap := [];
      numOfStoredRecords, numOfReadRecord, offset := 0, 0, 0;
      stored, slack := [], [];
    }

    /**
     * allOfQuery and atLeastOne: the parser's records in turn until one
     * stored record leaves less memory than the threshold.
     */
    method RunBatch() returns (r: Outcome<Error>)
      requires Valid() && numOfReadRecord == 0 && offset == 0 && mmap == Frames(ser, stored) && position <= |source|
      modifies this`position, this`mmap, this`stored, this`slack, this`numOfStoredRecords
      modifies this`memoryThreshold, this`memoryLeft
      ensures Valid() && numOfReadRecord == 0 && offset == 0
      ensures (Snapshot(), r) == Scan(Setup(), old(Snapshot()))
    {
      ghost var c, start := Setup(), Snapshot();
      while parserOpen && position < |source|
        invariant Valid() && numOfReadRecord == 0 && offset == 0 && mmap == Frames(ser, stored)
        invariant position <= |source| && Setup() == c
        invariant Scan(c, Snapshot()) == Scan(c, start)
        decreases |source| - position
      {
        var stop := Turn();
        if stop.Failure? {
          return Fail(stop.error);
        }
        if stop.value {
          return Pass;
        }
      }
      return Pass;
    }

    /** One turn of the loop, as one unfolding of the batch. */
    method Turn() returns (r: Result<bool, Error>)
      requires Valid() && numOfReadRecord == 0 && offset == 0 && mmap == Frames(ser, stored)
      requires parserOpen && position < |source|
      modifies this`position, this`mmap, this`stored, this`slack, this`numOfStoredRecords
      modifies this`memoryThreshold, this`memoryLeft
      ensures Valid() && numOfReadRecord == 0 && offset == 0 && position == old(position) + 1
      ensures r == Success(false) ==> mmap == Frames(ser, stored) && Scan(Setup(), Snapshot()) == Scan(Setup(), old(Snapshot()))
      ensures r.Failure? ==> (Snapshot(), Fail(r.error)) == Scan(Setup(), old(Snapshot()))
      ensures r == Success(true) ==> (Snapshot(), Pass) == Scan(Setup(), old(Snapshot()))
    {
      r := PullRecord();
    }

    /**
     * One turn of fetchNextRecords' loop: the parser's next record is
     * evaluated and, when it satisfies the query, put into the buffer and
     * charged to the memory left. The result says whether the batch stops.
     */
    method PullRecord() returns (r: Result<bool, Error>)
      requires Buffered() && mmap == Frames(ser, stored) && position < |source|
      modifies this`position, this`mmap, this`stored, this`slack, this`numOfStoredRecords
      modifies this`memoryThreshold, this`memoryLeft
      ensures Buffered()
      ensures r.Success? ==> mmap == Frames(ser, stored)
      ensures position == old(position) + 1
      ensures var (next, stop) := Step(Setup(), old(Snapshot()));
        && stored == next.stored && mmap == next.buffer
        && memoryLeft == next.memoryLeft && memoryThreshold == next.threshold && r == stop
    {
      var record := source[position];
      var m := Evaluate(record);
      position := position + 1;
      if m.Failure? {
        return Failure(m.error);
      }
      if !m.value {
        return Success(false);
      }
      r := Store(record);
    }

    /** The store of a record that satisfies the query: putRecord, and the charge of its frame. */
    method Store(record: Record) returns (r: Result<bool, Error>)
      requires Buffered() && mmap == Frames(ser, stored)
      modifies this`mmap, this`stored, this`slack, this`numOfStoredRecords, this`memoryThreshold, this`memoryLeft
      ensures Buffered()
      ensures r.Success? ==> mmap == Frames(ser, stored)
      ensures var (next, stop) := Keep(ser, old(Snapshot()), record);
        && stored == next.stored && mmap == next.buffer
        && memoryLeft == next.memoryLeft && memoryThreshold == next.threshold && r == stop
    {
      var size := PutRecord(record);
      if size.Failure? {
        return Failure(size.error);
      }
      memoryLeft := memoryLeft - size.value;
      return Success(memoryLeft < memoryThreshold);
    }

    /** The evaluation the query's type selects: evalAll for ALL_OF, evalAny for AT_LEAST_ONE. */
    method Evaluate(record: Record) returns (r: Result<bool, Error>)
      ensures r == Matches(isAllOf, filters, header, record)
    {
      if isAllOf {
        r := EvalAll(record);
      } else {
        r := EvalAny(record);
      }
    }

    /** evalAll: every filter matches the record's field. */
    method EvalAll(record: Record) returns (r: Result<bool, Error>)
      ensures r == AllMatch(filters, header, record)
    {
      var i := 0;
      while i < |filters|
        invariant 0 <= i <= |filters|
        invariant AllMatch(filters, header, record) == AllMatch(filters[i..], header, record)
      {
        var m := EvalOn(header, record, filters[i]);
        assert filters[i..][1..] == filters[i + 1..];
        if m.Failure? {
          return Failure(m.error);
        }
        if !m.value {
          return Success(false);
        }
        i := i + 1;
      }
      return Success(true);
    }

    /** evalAny: some filter matches the record's field. */
    method EvalAny(record: Record) returns (r: Result<bool, Error>)
      ensures r == AnyMatch(filters, header, record)
    {
      var i := 0;
      while i < |filters|
        invariant 0 <= i <= |filters|
        invariant AnyMatch(filters, header, record) == AnyMatch(filters[i..], header, record)
      {
        var m := EvalOn(header, record, filters[i]);
        assert filters[i..][1..] == filters[i + 1..];
        if m.Failure? {
          return Failure(m.error);
        }
        if m.value {
          return Success(true);
        }
        i := i + 1;
      }
      return Success(false);
    }

    /**
     * putRecord: writes the record's length and serialized bytes at the end
     * of the buffer; a put that does not fit fails and transfers nothing.
     * Sets the threshold on the first store after a query.
     */
    method PutRecord(record: Record) returns (r: Result<int, Error>)
      requires Buffered() && mmap == Frames(ser, stored)
      modifies this`mmap, this`slack, this`stored, this`numOfStoredRecords, this`memoryThreshold
      ensures Buffered()
      ensures |old(mmap)| + 4 > ALLOCATED_MEMORY ==>
        r == Failure(BufferOverflow) && mmap == old(mmap)
      ensures |old(mmap)| + 4 <= ALLOCATED_MEMORY < |old(mmap)| + 4 + |ser(record)| ==>
        r == Failure(BufferOverflow) && mmap == old(mmap) + IntBytes(|ser(record)|)
      ensures r.Failure? ==> stored == old(stored) && memoryThreshold == old(memoryThreshold)
      ensures |old(mmap)| + 4 + |ser(record)| <= ALLOCATED_MEMORY ==>
        && r.Success? && r.value == 4 + |ser(record)|
        && stored == old(stored) + [record] && mmap == old(mmap) + (IntBytes(|ser(record)|) + ser(record))
        && memoryThreshold == (if old(memoryThreshold) == -1 then 2 * (4 + |ser(record)|) else old(memoryThreshold))
    {
      var recordBytes := ser(record);
      var recordSize := IntBytes(|recordBytes|);
      if |mmap| + 4 > ALLOCATED_MEMORY {
        return Failure(BufferOverflow);
      }
      if |mmap| + 4 + |recordBytes| > ALLOCATED_MEMORY {
        // the length went in; the bytes do not fit
        mmap, slack := mmap + recordSize, recordSize;
        return Failure(BufferOverflow);
      }
      FramesSnoc(ser, stored, record);
      mmap, stored, numOfStoredRecords := mmap + (recordSize + recordBytes), stored + [record], numOfStoredRecords + 1;
      memoryThreshold := if memoryThreshold == -1 then (4 + |recordBytes|) * 2 else memoryThreshold;
      return Success(4 + |recordBytes|);
    }

    /** getNextRecord: the next stored record becomes the current one. */
    method GetNextRecord()
      requires Valid() && Sound(ser, deser) && numOfReadRecord < numOfStoredRecords
      modifies this`offset, this`currentRecord, this`numOfReadRecord
      ensures Valid()
      ensures currentRecord == Some(stored[old(numOfReadRecord)])
      ensures numOfReadRecord == old(numOfReadRecord) + 1
    {
      ghost var k := numOfReadRecord;
      PrefixOfAppend(Frames(ser, stored), slack);
      ReadFrame(ser, deser, stored, k, mmap, offset);
      var recordSize := GetInt(mmap[offset..offset + 4]);
      assert recordSize == |ser(stored[k])|;
      var recordBytes := mmap[offset + 4..offset + 4 + recordSize];
      assert deser(recordBytes) == stored[k];
      offset, currentRecord, numOfReadRecord := offset + 4 + recordSize, Some(deser(recordBytes)), numOfReadRecord + 1;
    }

    /** hasNext: a stored record is unread, or the parser has more records. */
    function HasNext(): bool
      reads this
    {
      numOfReadRecord < numOfStoredRecords || (parserOpen && position < |source|)
    }

    /**
     * next: reads the next stored record; when all are read and the parser
     * has more, fetches a batch without changing the current record.
     */
    method Next() returns (r: Outcome<Error>)
      requires Valid() && Sound(ser, deser) && position <= |source|
      modifies this`mmap, this`stored, this`slack, this`numOfStoredRecords, this`numOfReadRecord
      modifies this`offset, this`position, this`memoryLeft, this`memoryThreshold, this`currentRecord
      ensures Valid() && position <= |source|
      ensures old(numOfReadRecord < numOfStoredRecords) ==>
        && r == Pass && currentRecord == Some(old(stored)[old(numOfReadRecord)])
        && numOfReadRecord == old(numOfReadRecord) + 1 && stored == old(stored)
        && mmap == old(mmap) && numOfStoredRecords == old(numOfStoredRecords) && position == old(position)
        && memoryLeft == old(memoryLeft) && memoryThreshold == old(memoryThreshold)
      ensures old(numOfReadRecord >= numOfStoredRecords && HasNext()) ==>
        && currentRecord == old(currentRecord) && numOfReadRecord == 0 && offset == 0
        && Batched(Setup(), old(memoryLeft), old(memoryThreshold), old(position), Snapshot(), r)
      ensures old(!HasNext()) ==> r == Fail(NoSuchElement(NO_NEXT)) && unchanged(this)
    {
      if numOfReadRecord < numOfStoredRecords {
        GetNextRecord();
        return Pass;
      } else if HasNext() {
        r := FetchNextRecords();
      } else {
        return Fail(NoSuchElement(NO_NEXT));
      }
    }

    /** close: closes the parser; the records it has not handed out are never read. */
    method Close()
      modifies this`parserOpen
      ensures !parserOpen
    {
      parserOpen := false;
    }

    /**
     * isPresent of a column reader: the column must be in the header; the
     * value is present iff there is a current record and its field is
     * not empty.
     */
    function IsPresent(column: Column): (r: Result<bool, Error>)
      reads this
      ensures r == Failure(NoSuchColumn(column)) <==> column.name !in header
      ensures r == Success(true) <==>
        && column.name in header && currentRecord.Some?
        && header[column.name] < |currentRecord.value| && currentRecord.value[header[column.name]] != ""
    {
      if column.name !in header then Failure(NoSuchColumn(column))
      else if currentRecord.None? then Success(false)
      else
        var i := header[column.name];
        if i >= |currentRecord.value| then Failure(IndexOutOfBounds)
        else Success(currentRecord.value[i] != "")
    }

    /** getColumnValue: the current record's field, which must be present. */
    function ColumnValue(column: Column): (r: Result<string, Error>)
      reads this
      ensures r.Success? <==> IsPresent(column) == Success(true)
      ensures IsPresent(column) == Success(false) ==> r == Failure(NoSuchElement(NULL_VALUE))
      ensures r.Success? ==> r.value != "" && r.value == currentRecord.value[header[column.name]]
    {
      var present :- IsPresent(column);
      if !present then Failure(NoSuchElement(NULL_VALUE))
      else Success(currentRecord.value[header[column.name]])
    }

    // The get of each typed column reader: the field's text, parsed.

    function GetBoolean(column: Column): Result<bool, Error>
      reads this
    {
      var text :- ColumnValue(column);
      Success(ParseBoolean(text))
    }

    function GetDouble(column: Column): Result<real, Error>
      reads this
    {
      var text :- ColumnValue(column);
      match ParseDouble(text)
      case None => Failure(NumberFormat(text))
      case Some(v) => Success(v)
    }

    /** The id is the Base64 decoding of the field's text. */
    function GetId(column: Column): Result<seq<int8>, Error>
      reads this
    {
      var text :- ColumnValue(column);
      match Base64.Decode(text)
      case Failure(msg) => Failure(IllegalArgument(msg))
      case Success(id) => Success(id)
    }

    function GetLong(column: Column): Result<int64, Error>
      reads this
    {
      var text :- ColumnValue(column);
      match ParseLong(text)
      case None => Failure(NumberFormat(text))
      case Some(v) => if MIN_LONG <= v <= MAX_LONG then Success(v) else Failure(NumberFormat(text))
    }

    function GetString(column: Column): Result<string, Error>
      reads this
    {
      ColumnValue(column)
    }
  }
}
