/**
 * The in-memory store's reader: each requested column's file is read whole
 * into a cursor over its bytes, and a row iterator moves every cursor to its
 * next entry at once. The files are a map from root path to the column files
 * under it; the benchmark copy of the reader has the same cursor and row
 * logic without the cursor's column, which the model keeps for its type.
 */
module InMemoryRead {
  import opened Wrappers
  import opened Bytes
  import opened Columns
  import opened Errors
  import opened ColumnCodec
  import opened Queries

  const NO_NEXT := "No next value"
  const FILTERS_UNSUPPORTED := "For performance reasons, this reader does not support filters"
  /** The IOException of Files.readAllBytes for a path that does not exist. */
  const NO_SUCH_FILE := "NoSuchFileException"

  /** A column's cursor: the column's bytes and the index of the current entry's header byte. */
  class ByteReader {
    const column: Column
    const bytes: seq<int8>
    var index: int

    /** A new cursor stands before the first entry. */
    constructor (column: Column, bytes: seq<int8>)
      ensures this.column == column && this.bytes == bytes && index == -1
    {
      this.column := column;
      this.bytes := bytes;
      index := -1;
    }

    method Reset()
      modifies this
      ensures index == -1
    {
      index := -1;
    }

    function IsPresent(): Result<bool, Error>
      reads this
    {
      PresentAt(bytes, index)
    }

    function IsNull(): Result<bool, Error>
      reads this
    {
      NullAt(bytes, index)
    }

    function HasNext(): Result<bool, Error>
      reads this
    {
      HasNextAt(column.ctype, bytes, index)
    }

    /** The typed get of the entry at the cursor. */
    function Get(): Result<Value, Error>
      reads this
    {
      GetAt(column.ctype, bytes, index)
    }

    /** Moves to the following entry: to 0 from the start, else past the header and any payload. */
    method Next() returns (r: Outcome<Error>)
      modifies this
      ensures r.Pass? <==> NextAt(column.ctype, bytes, old(index)).Success?
      ensures r.Pass? ==> index == NextAt(column.ctype, bytes, old(index)).value
      ensures r.Fail? ==> r.error == NextAt(column.ctype, bytes, old(index)).error
    {
      if index == -1 {
        index := 0;
        return Pass;
      }
      var present := IsPresent();
      if present.Failure? {
        return Fail(present.error);
      }
      if present.value {
        var size := SizeAt(column.ctype, bytes, index);
        if size.Failure? {
          return Fail(size.error);
        }
        index := index + size.value;
      }
      index := index + 1;
      return Pass;
    }
  }

  /** Every cursor in `bs` made one row step from where it was. */
  twostate predicate AllStepped(bs: set<ByteReader>)
    reads bs
  {
    forall b :: b in bs ==> b.index == Advanced(b.column.ctype, b.bytes, old(b.index))
  }

  /** Some cursor in `bs` had a next entry. */
  twostate predicate SomeAdvanced(bs: set<ByteReader>)
    reads bs
  {
    exists b :: b in bs && Advances(b.column.ctype, b.bytes, old(b.index))
  }

  /** Every cursor in `bs` could tell whether it has a next entry. */
  twostate predicate AllReadable(bs: set<ByteReader>)
    reads bs
  {
    forall b :: b in bs ==> HasNextAt(b.column.ctype, b.bytes, old(b.index)).Success?
  }

  /** Every cursor in `bs` either stayed or made one row step. */
  twostate predicate StayedOrStepped(bs: set<ByteReader>)
    reads bs
  {
    forall b :: b in bs ==> b.index == old(b.index) || b.index == Advanced(b.column.ctype, b.bytes, old(b.index))
  }

  class InMemoryReader {
    /** The column files under each root path. */
    const disk: map<string, map<Column, seq<int8>>>
    /** The path of the last query; null before the first. */
    var root: Option<string>
    /** The memoized cursors, by column. */
    var readers: map<Column, ByteReader>
    /** The current row has been handed out by next (or there is none yet). */
    var consumed: bool
    /** The answer of the last row step. */
    var hasNext: bool

    /** Each cursor belongs to the column it is stored under. */
    ghost predicate Valid()
      reads this
    {
      forall c :: c in readers ==> readers[c].column == c
    }

    constructor (disk: map<string, map<Column, seq<int8>>>)
      ensures Valid()
      ensures this.disk == disk && root == None && readers == map[] && consumed && !hasNext
    {
      this.disk := disk;
      root := None;
      readers := map[];
      consumed := true;
      hasNext := false;
    }

    /** query: a query with filters is refused; otherwise the cursors are dropped and the root is set. */
    method Query(q: Query) returns (r: Outcome<Error>)
      requires Valid()
      modifies this
      ensures Valid()
      ensures consumed == old(consumed) && hasNext == old(hasNext)
      ensures r.Fail? <==> q.filters != []
      ensures r.Fail? ==> r.error == Unsupported(FILTERS_UNSUPPORTED) && unchanged(this)
      ensures r.Pass? ==> readers == map[] && root == Some(q.filePath)
    {
      if q.filters != [] {
        return Fail(Unsupported(FILTERS_UNSUPPORTED));
      }
      readers := map[];
      root := Some(q.filePath);
      return Pass;
    }

    /** readAllBytesOf: the column's file under the root. */
    function ReadAllBytesOf(column: Column): (r: Result<seq<int8>, Error>)
      reads this
      ensures root.None? ==> r == Failure(NullPointer)
      ensures r.Success? <==> root.Some? && root.value in disk && column in disk[root.value]
      ensures r.Success? ==> r.value == disk[root.value][column]
    {
      if root.None? then Failure(NullPointer)
      else if root.value !in disk || column !in disk[root.value] then Failure(IOError(NO_SUCH_FILE))
      else Success(disk[root.value][column])
    }

    /** of: the cursor made on the first call for the column, over its whole file; later calls return it. */
    method Of(column: Column) returns (r: Result<ByteReader, Error>)
      requires Valid()
      modifies this
      ensures Valid()
      ensures root == old(root) && consumed == old(consumed) && hasNext == old(hasNext)
      ensures column in old(readers) ==> r == Success(old(readers)[column]) && readers == old(readers)
      ensures column !in old(readers) && old(ReadAllBytesOf(column)).Failure? ==>
        r == Failure(old(ReadAllBytesOf(column)).error) && readers == old(readers)
      ensures column !in old(readers) && old(ReadAllBytesOf(column)).Success? ==>
        && r.Success? && fresh(r.value)
        && r.value.column == column && r.value.bytes == old(ReadAllBytesOf(column)).value && r.value.index == -1
        && readers == old(readers)[column := r.value]
    {
      if column in readers {
        return Success(readers[column]);
      }
      var bytes := ReadAllBytesOf(column);
      if bytes.Failure? {
        return Failure(bytes.error);
      }
      var b := new ByteReader(column, bytes.value);
      readers := readers[column := b];
      return Success(b);
    }

    /**
     * Row hasNext: while the current row is not consumed, the cached answer;
     * otherwise every cursor with a next entry moves to it, and the answer is
     * whether any did.
     */
    method HasNext() returns (r: Result<bool, Error>)
      requires Valid()
      modifies this, readers.Values
      ensures Valid()
      ensures readers == old(readers) && root == old(root)
      ensures !old(consumed) ==> r == Success(old(hasNext)) && unchanged(this) && unchanged(readers.Values)
      ensures old(consumed) ==> !consumed && StayedOrStepped(readers.Values)
      ensures old(consumed) ==> (r.Success? <==> AllReadable(readers.Values))
      ensures old(consumed) && r.Success? ==>
        && AllStepped(readers.Values)
        && r.value == SomeAdvanced(readers.Values)
        && hasNext == r.value
    {
      if !consumed {
        return Success(hasNext);
      }
      consumed := false;
      hasNext := false;
      var todo := readers.Values;
      ghost var all := readers.Values;
      while todo != {}
        invariant todo <= all && all == readers.Values && readers == old(readers) && root == old(root)
        invariant !consumed
        invariant forall b :: b in todo ==> b.index == old(b.index)
        invariant forall b :: b in all - todo ==> HasNextAt(b.column.ctype, b.bytes, old(b.index)).Success?
        invariant forall b :: b in all - todo ==> b.index == Advanced(b.column.ctype, b.bytes, old(b.index))
        invariant hasNext <==> exists b :: b in all - todo && Advances(b.column.ctype, b.bytes, old(b.index))
        decreases todo
      {
        var b :| b in todo;
        var h := b.HasNext();
        if h.Failure? {
          return Failure(h.error);
        }
        if h.value {
          var n := b.Next();
          hasNext := true;
        }
        todo := todo - {b};
      }
      return Success(hasNext);
    }

    /** Row next: hands out the pending row, stepping first when the last one was consumed. */
    method Next() returns (r: Outcome<Error>)
      requires Valid()
      modifies this, readers.Values
      ensures Valid()
      ensures readers == old(readers) && root == old(root)
      ensures !old(consumed) ==> unchanged(readers.Values)
      ensures !old(consumed) && !old(hasNext) ==> r == Fail(NoSuchElement(NO_NEXT)) && unchanged(this)
      ensures !old(consumed) && old(hasNext) ==> r == Pass && consumed
      ensures old(consumed) ==> StayedOrStepped(readers.Values)
      ensures old(consumed) && !AllReadable(readers.Values) ==> r.Fail? && !consumed
      ensures old(consumed) && AllReadable(readers.Values) ==>
        && AllStepped(readers.Values)
        && (r.Pass? <==> SomeAdvanced(readers.Values))
        && (r.Pass? ==> consumed && hasNext)
        && (r.Fail? ==> r.error == NoSuchElement(NO_NEXT) && !consumed && !hasNext)
    {
      if !consumed && !hasNext {
        return Fail(NoSuchElement(NO_NEXT));
      }
      if consumed {
        var h := HasNext();
        if h.Failure? {
          return Fail(h.error);
        }
        if !h.value {
          return Fail(NoSuchElement(NO_NEXT));
        }
      }
      consumed := true;
      return Pass;
    }

    /** close: drops every cursor. */
    method Close()
      modifies this
      ensures readers == map[] && root == old(root) && consumed == old(consumed) && hasNext == old(hasNext)
    {
      readers := map[];
    }

    /** reset: every cursor back before its first entry; no row pending. */
    method Reset()
      requires Valid()
      modifies this, readers.Values
      ensures Valid()
      ensures readers == old(readers) && root == old(root)
      ensures forall b :: b in readers.Values ==> b.index == -1
      ensures consumed && !hasNext
    {
      var todo := readers.Values;
      while todo != {}
        invariant todo <= readers.Values && readers == old(readers) && root == old(root)
        invariant forall b :: b in readers.Values - todo ==> b.index == -1
        decreases todo
      {
        var b :| b in todo;
        b.Reset();
        todo := todo - {b};
      }
      consumed := true;
      hasNext := false;
    }
  }
}
