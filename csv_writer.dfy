/**
 * The CSV writer: the first line of the file fixes a map from lower-cased
 * column name to position; the typed column writers overwrite the slots of
 * the record being assembled, next queues that record and starts a blank
 * one, and flush appends the queued records to the file as comma- and
 * newline-joined text. The file is its text, which flush extends.
 */
module CsvWrite {
  import opened Wrappers
  import opened Bytes
  import opened Text
  import opened Columns
  import opened Errors
  import opened Filters
  import opened EvalFilter
  import opened CsvText
  import CsvRead
  import Utf8
  import Base64

  /** A value handed to a typed column writer; a double is a real number. */
  datatype Cell =
    | BoolCell(b: bool)
    | DoubleCell(d: real)
    | IdCell(id: seq<int8>)
    | LongCell(v: int64)
    | StringCell(s: string)

  /** The typed writer of a column of type `t` takes the value. */
  predicate OfType(t: Type, c: Cell)
  {
    match c
    case BoolCell(_) => t == BOOLEAN
    case DoubleCell(_) => t == DOUBLE
    case IdCell(_) => t == ID
    case LongCell(_) => t == LONG
    case StringCell(_) => t == STRING
  }

  /**
   * new String(id, UTF_8): the text the id writer puts in its slot. It has
   * no more characters than the id has bytes.
   */
  function IdTextUtf8(id: seq<int8>): (s: string)
    ensures |s| <= |id|
  {
    Utf8.Decode(id)
  }

  /**
   * The text an id slot needs for the reader and the id filters, which both
   * work on Base64: its decoding gives the id back.
   */
  function IdText(id: seq<int8>): (s: string)
    ensures Base64.Decode(s) == Success(id)
    ensures s == "" <==> id == []
  {
    Base64.DecodeEncode(id);
    Base64.EncodeLength(id);
    Base64.Encode(id)
  }

  /**
   * The text a write puts in its slot: String.valueOf for booleans, doubles
   * and longs, the string itself, and the UTF-8 decoding of an id.
   */
  function CellText(formatDouble: real -> string, c: Cell): string
  {
    match c
    case BoolCell(b) => BoolText(b)
    case DoubleCell(d) => formatDouble(d)
    case IdCell(id) => IdTextUtf8(id)
    case LongCell(v) => LongToString(v)
    case StringCell(s) => s
  }

  /**
   * The id "1234".getBytes() of the writer's round trip: as written, its
   * slot holds "1234", which an id filter for the same bytes does not match,
   * since the filter compares with the eight characters of the Base64 text.
   */
  lemma IdTextUtf8NotFound(column: Column)
    requires column.ctype == ID
    ensures IdTextUtf8([49, 50, 51, 52]) == "1234"
    ensures !Eval(IdTextUtf8([49, 50, 51, 52]), IdIs(column, [49, 50, 51, 52]))
  {
    var id: seq<int8> := [49, 50, 51, 52];
    Utf8.EncodeAscii("1234");
    assert Utf8.Encode("1234") == id;
    Utf8.DecodeEncode("1234");
    Base64.EncodeLength(id);
  }

  /**
   * No written id is ever found: the slot text has at most as many
   * characters as the id has bytes, while the Base64 text an id filter
   * compares with has more.
   */
  lemma IdTextUtf8NeverFound(column: Column, id: seq<int8>)
    requires column.ctype == ID && id != []
    ensures !Eval(IdTextUtf8(id), IdIs(column, id))
  {
    var n := |id|;
    Base64.EncodeLength(id);
    assert (n + 2) / 3 * 3 >= n;
    assert (n + 2) / 3 * 4 > n;
  }

  /**
   * Reading a slot back with the Base64 text in it: the reader's getId
   * gives the id, and the id filters match exactly that id.
   */
  lemma IdTextReadBack(reader: CsvRead.CsvReader, column: Column, id: seq<int8>)
    requires column.ctype == ID && column.name in reader.header && reader.currentRecord.Some?
    requires reader.header[column.name] < |reader.currentRecord.value|
    requires reader.currentRecord.value[reader.header[column.name]] == IdText(id)
    ensures id != [] ==> reader.GetId(column) == Success(id)
    ensures id == [] ==> reader.IsPresent(column) == Success(false)
    ensures forall other :: Eval(IdText(id), IdIs(column, other)) <==> other == id
  {
    forall other
      ensures Eval(IdText(id), IdIs(column, other)) <==> other == id
    {
      EvalId(column, other, id);
    }
  }

  /**
   * What the CSV reader's typed get gives for a field holding a written
   * value: the value itself; an empty string or id reads as null, and a
   * double comes back when its text parses to it. A non-empty id never
   * comes back: getId Base64-decodes the UTF-8 text, which gives fewer
   * bytes than the id has, or fails.
   */
  lemma WrittenCellReadBack(reader: CsvRead.CsvReader, column: Column, formatDouble: real -> string, c: Cell)
    requires column.name in reader.header && reader.currentRecord.Some?
    requires reader.header[column.name] < |reader.currentRecord.value|
    requires reader.currentRecord.value[reader.header[column.name]] == CellText(formatDouble, c)
    ensures c.BoolCell? ==> reader.GetBoolean(column) == Success(c.b)
    ensures c.LongCell? ==> reader.GetLong(column) == Success(c.v)
    ensures c.IdCell? && c.id != [] ==> reader.GetId(column) != Success(c.id)
    ensures c.StringCell? && c.s != "" ==> reader.GetString(column) == Success(c.s)
    ensures (c.StringCell? && c.s == "") || (c.IdCell? && c.id == []) ==> reader.IsPresent(column) == Success(false)
    ensures c.DoubleCell? && ParseDouble(formatDouble(c.d)) == Some(c.d) ==> reader.GetDouble(column) == Success(c.d)
  {
    match c
    case BoolCell(b) =>
      assert BoolText(b) != "";
      assert ParseBoolean(BoolText(b)) == b;
    case LongCell(v) =>
      ParseLongToString(v);
    case DoubleCell(d) =>
      if ParseDouble(formatDouble(d)) == Some(d) {
        assert formatDouble(d) != "";
      }
    case IdCell(id) =>
      var text := IdTextUtf8(id);
      if Base64.Decode(text).Success? {
        Base64.DecodeLength(text);
      }
    case StringCell(s) =>
  }

  /** Every string of `xs`, lower-cased. */
  function LowerAll(xs: seq<string>): (r: seq<string>)
    ensures |r| == |xs| && forall i :: 0 <= i < |xs| ==> r[i] == Lower(xs[i])
  {
    seq(|xs|, i requires 0 <= i < |xs| => Lower(xs[i]))
  }

  /** Cutting the lower-cased text at commas gives the lower-cased pieces. */
  lemma {:induction false} SplitOnLower(s: string)
    ensures SplitOn(Lower(s), ',') == LowerAll(SplitOn(s, ','))
    decreases |s|
  {
    if s != [] {
      var ls, rest := Lower(s), SplitOn(s[1..], ',');
      assert ls[1..] == Lower(s[1..]);
      SplitOnLower(s[1..]);
      if s[0] == ',' {
        LowerAllCons("", rest);
      } else {
        assert ls[0] == LowerChar(s[0]) && ls[0] != ',';
        LowerCons(s[0], rest[0]);
        LowerAllCons([s[0]] + rest[0], rest[1..]);
      }
    }
  }

  /** Lower-casing works character by character. */
  lemma LowerCons(c: char, t: string)
    ensures Lower([c] + t) == [LowerChar(c)] + Lower(t)
  {
  }

  /** LowerAll works piece by piece. */
  lemma LowerAllCons(x: string, xs: seq<string>)
    ensures LowerAll([x] + xs) == [Lower(x)] + LowerAll(xs)
  {
  }

  /** Lower-casing keeps a piece empty exactly when it was, so the same trailing pieces go. */
  lemma {:induction false} DropTrailingEmptyLower(xs: seq<string>)
    ensures DropTrailingEmpty(LowerAll(xs)) == LowerAll(DropTrailingEmpty(xs))
  {
    if xs != [] && xs[|xs| - 1] == "" {
      DropTrailingEmptyLower(xs[..|xs| - 1]);
      assert LowerAll(xs)[..|xs| - 1] == LowerAll(xs[..|xs| - 1]);
    }
  }

  /** Splitting the lower-cased line gives the lower-cased names. */
  lemma JavaSplitLower(line: string)
    ensures JavaSplit(Lower(line), ',') == LowerAll(JavaSplit(line, ','))
  {
    if ',' in line {
      var i :| 0 <= i < |line| && line[i] == ',';
      assert Lower(line)[i] == ',';
      SplitOnLower(line);
      DropTrailingEmptyLower(SplitOn(line, ','));
    } else {
      assert ',' !in Lower(line);
      assert LowerAll([line]) == [Lower(line)];
    }
  }

  /** HeaderMap lower-cases every name itself, so lower-casing them first changes nothing. */
  lemma {:induction false} HeaderMapLower(names: seq<string>)
    ensures HeaderMap(LowerAll(names)) == HeaderMap(names)
  {
    if names != [] {
      HeaderMapLower(names[..|names| - 1]);
      assert LowerAll(names)[..|names| - 1] == LowerAll(names[..|names| - 1]);
      LowerIsLowerCase(names[|names| - 1]);
    }
  }

  /**
   * The writer lower-cases each name of the split line, the reader the whole
   * line before splitting it: both give the same header map, so a column is
   * written at the position it is read from.
   */
  lemma WriterHeaderIsReaderHeader(line: string)
    ensures HeaderMap(JavaSplit(line, ',')) == CsvRead.HeaderOf(line)
  {
    JavaSplitLower(line);
    HeaderMapLower(JavaSplit(line, ','));
  }

  class CsvWriter {
    /** Double.toString, which this model does not spell out. */
    const formatDouble: real -> string
    /** Each lower-cased name of the header line, at its position. */
    const headers: map<string, nat>
    /** The text of the CSV file; flush appends to it. */
    var content: string
    /** The record being assembled. */
    var currentRecord: array<string>
    /** The records queued by next since the last flush. */
    var recordsToWrite: seq<Record>

    /** initNewRecord gives the record one slot per header key. */
    ghost predicate Valid()
      reads this
    {
      currentRecord.Length == |headers|
    }

    /** setUpWriter: the header map from the file's first line, then a blank record. */
    constructor (content: string, formatDouble: real -> string)
      requires FirstLine(content).Some?
      ensures Valid() && fresh(currentRecord)
      ensures this.content == content && this.formatDouble == formatDouble && recordsToWrite == []
      ensures headers == HeaderMap(JavaSplit(FirstLine(content).value, ','))
      ensures forall i :: 0 <= i < currentRecord.Length ==> currentRecord[i] == ""
    {
      var names := JavaSplit(FirstLine(content).value, ',');
      var hs: map<string, nat> := map[];
      for i := 0 to |names|
        invariant hs == HeaderMap(names[..i])
      {
        assert names[..i + 1][..i] == names[..i];
        hs := hs[Lower(names[i]) := i];
      }
      assert names[..|names|] == names;
      this.formatDouble := formatDouble;
      this.content := content;
      headers := hs;
      recordsToWrite := [];
      currentRecord := new string[|hs|](_ => "");
    }

    /** initNewRecord: a fresh record of empty slots. */
    method InitNewRecord()
      modifies this`currentRecord
      ensures Valid() && fresh(currentRecord)
      ensures forall i :: 0 <= i < currentRecord.Length ==> currentRecord[i] == ""
    {
      currentRecord := new string[|headers|](_ => "");
    }

    /** The assignment every write makes: the slot at the name's header position gets the text. */
    method SetSlot(name: string, text: string) returns (r: Outcome<Error>)
      modifies currentRecord
      ensures name !in headers ==> r == Fail(NullPointer)
      ensures name in headers && headers[name] >= currentRecord.Length ==> r == Fail(IndexOutOfBounds)
      ensures r.Pass? <==> name in headers && headers[name] < currentRecord.Length
      ensures r.Fail? ==> currentRecord[..] == old(currentRecord[..])
      ensures r.Pass? ==> currentRecord[..] == old(currentRecord[..])[headers[name] := text]
    {
      if name !in headers {
        return Fail(NullPointer);
      }
      var i := headers[name];
      if i >= currentRecord.Length {
        return Fail(IndexOutOfBounds);
      }
      currentRecord[i] := text;
      return Pass;
    }

    /** writeNull(name): the name's slot becomes empty. */
    method WriteNull(name: string) returns (r: Outcome<Error>)
      modifies currentRecord
      ensures name !in headers ==> r == Fail(NullPointer)
      ensures name in headers && headers[name] >= currentRecord.Length ==> r == Fail(IndexOutOfBounds)
      ensures r.Pass? <==> name in headers && headers[name] < currentRecord.Length
      ensures r.Fail? ==> currentRecord[..] == old(currentRecord[..])
      ensures r.Pass? ==> currentRecord[..] == old(currentRecord[..])[headers[name] := ""]
    {
      r := SetSlot(name, "");
    }

    /** of(column): ensureColumnExists, then the column's typed writer. */
    method Of(column: Column) returns (r: Result<ColumnWriter, Error>)
      ensures r.Failure? <==> column.name !in headers
      ensures r.Failure? ==> r.error == NoSuchColumn(column)
      ensures r.Success? ==> fresh(r.value) && r.value.column == column && r.value.owner == this
    {
      if column.name !in headers {
        return Failure(NoSuchColumn(column));
      }
      var w := new ColumnWriter(column, this);
      return Success(w);
    }

    /** next: the record joins the queue, and a blank one replaces it. */
    method Next()
      modifies this`recordsToWrite, this`currentRecord
      ensures Valid() && fresh(currentRecord)
      ensures recordsToWrite == old(recordsToWrite) + [old(currentRecord[..])]
      ensures forall i :: 0 <= i < currentRecord.Length ==> currentRecord[i] == ""
    {
      recordsToWrite := recordsToWrite + [currentRecord[..]];
      InitNewRecord();
    }

    /**
     * flush: a line break and the queued records, joined by line breaks,
     * go to the end of the file; the queue empties and a blank record
     * replaces the current one.
     */
    method Flush()
      modifies this`content, this`recordsToWrite, this`currentRecord
      ensures content == old(content) + Rendering(old(recordsToWrite))
      ensures recordsToWrite == []
      ensures Valid() && fresh(currentRecord)
      ensures forall i :: 0 <= i < currentRecord.Length ==> currentRecord[i] == ""
    {
      content := content + Rendering(recordsToWrite);
      recordsToWrite := [];
      InitNewRecord();
    }

    /** close: nothing; queued records that were not flushed are never written. */
    method Close()
      requires Valid()
      ensures Valid()
    {
    }
  }

  /** The writer `of` hands out: it writes into its owner's current record. */
  class ColumnWriter {
    const column: Column
    const owner: CsvWriter

    constructor (column: Column, owner: CsvWriter)
      requires column.name in owner.headers
      ensures this.column == column && this.owner == owner
    {
      this.column := column;
      this.owner := owner;
    }

    /** The column passed ensureColumnExists, and the header map never changes. */
    predicate Valid()
    {
      column.name in owner.headers
    }

    /** write(value): the column's slot gets the value's text. */
    method Write(c: Cell) returns (r: Outcome<Error>)
      requires Valid() && owner.Valid() && OfType(column.ctype, c)
      modifies owner.currentRecord
      ensures r.Fail? <==> owner.headers[column.name] >= |owner.headers|
      ensures r.Fail? ==> r.error == IndexOutOfBounds && owner.currentRecord[..] == old(owner.currentRecord[..])
      ensures r.Pass? ==>
        owner.currentRecord[..] == old(owner.currentRecord[..])[owner.headers[column.name] := CellText(owner.formatDouble, c)]
    {
      r := owner.SetSlot(column.name, CellText(owner.formatDouble, c));
    }

    /** writeNull(): the column's slot becomes empty. */
    method WriteNull() returns (r: Outcome<Error>)
      requires Valid() && owner.Valid()
      modifies owner.currentRecord
      ensures r.Fail? <==> owner.headers[column.name] >= |owner.headers|
      ensures r.Fail? ==> r.error == IndexOutOfBounds && owner.currentRecord[..] == old(owner.currentRecord[..])
      ensures r.Pass? ==> owner.currentRecord[..] == old(owner.currentRecord[..])[owner.headers[column.name] := ""]
    {
      r := owner.WriteNull(column.name);
    }
  }

  /** new CSVWriter(path): the file must exist and have a first line. */
  method Open(disk: map<string, string>, path: string, formatDouble: real -> string) returns (r: Result<CsvWriter, Error>)
    ensures path !in disk ==> r == Failure(IOError(CsvRead.FILE_NOT_FOUND))
    ensures path in disk && FirstLine(disk[path]).None? ==> r == Failure(NullPointer)
    ensures r.Success? <==> path in disk && FirstLine(disk[path]).Some?
    ensures r.Success? ==>
      && fresh(r.value) && fresh(r.value.currentRecord) && r.value.Valid()
      && r.value.content == disk[path] && r.value.formatDouble == formatDouble && r.value.recordsToWrite == []
      && r.value.headers == HeaderMap(JavaSplit(FirstLine(disk[path]).value, ','))
      && forall i :: 0 <= i < r.value.currentRecord.Length ==> r.value.currentRecord[i] == ""
  {
    if path !in disk {
      return Failure(IOError(CsvRead.FILE_NOT_FOUND));
    }
    if FirstLine(disk[path]).None? {
      return Failure(NullPointer);
    }
    var w := new CsvWriter(disk[path], formatDouble);
    return Success(w);
  }
}
