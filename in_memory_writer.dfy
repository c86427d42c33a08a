/**
 * The in-memory store's writer: one file per column, created on the first
 * request for a writer of that column and only ever appended to. The files
 * under the writer's root are a map from column to bytes; a column's path
 * is determined by its type and name, which is what a Column value holds.
 */
module InMemoryWrite {
  import opened Wrappers
  import opened Bytes
  import opened Columns
  import opened Errors
  import opened ColumnCodec

  const CHANNEL_OPEN := "Channel has already been opened"
  /** The IOException of Files.createFile for a path that exists. */
  const FILE_EXISTS := "FileAlreadyExistsException"
  /** The IOException of a write or force on a closed FileChannel. */
  const CHANNEL_CLOSED := "ClosedChannelException"

  /** Appending one entry to a column file extends its entries by that entry. */
  lemma EncodeColumnSnoc(es: seq<Entry>, e: Entry)
    ensures EncodeColumn(es + [e]) == EncodeColumn(es) + EncodeEntry(e)
  {
    assert (es + [e])[..|es|] == es;
  }

  lemma AllFitSnoc(t: Type, es: seq<Entry>, e: Entry)
    requires AllFit(t, es) && Fits(t, e)
    ensures AllFit(t, es + [e])
  {
    forall i | 0 <= i < |es| + 1
      ensures Fits(t, (es + [e])[i])
    {
      if i < |es| {
        assert (es + [e])[i] == es[i];
      }
    }
  }

  /** The writer of one column: the handle `of` returns, writing through its owner's channel. */
  class ColumnWriter {
    const column: Column
    const owner: InMemoryWriter

    constructor (column: Column, owner: InMemoryWriter)
      ensures this.column == column && this.owner == owner
    {
      this.column := column;
      this.owner := owner;
    }

    /** write(value): appends 127 and the value's payload to the column file. */
    method Write(v: Stored) returns (r: Outcome<Error>)
      requires owner.Valid() && column in owner.writers && owner.writers[column] == this
      requires OfType(column.ctype, v)
      modifies owner
      ensures owner.Valid()
      ensures owner.writers == old(owner.writers) && owner.channels == old(owner.channels)
      ensures owner.closed == old(owner.closed)
      ensures r.Fail? <==> column in owner.closed
      ensures r.Fail? ==> r.error == IOError(CHANNEL_CLOSED)
      ensures r.Pass? ==> owner.files == old(owner.files)[column := old(owner.files)[column] + EncodeEntry(Some(v))]
      ensures r.Pass? ==> owner.entries == old(owner.entries)[column := old(owner.entries)[column] + [Some(v)]]
      ensures r.Fail? ==> owner.files == old(owner.files) && owner.entries == old(owner.entries)
    {
      r := owner.WriteEntry(column, Some(v));
    }

    /** writeNull(): appends the single byte -128 to the column file. */
    method WriteNull() returns (r: Outcome<Error>)
      requires owner.Valid() && column in owner.writers && owner.writers[column] == this
      modifies owner
      ensures owner.Valid()
      ensures owner.writers == old(owner.writers) && owner.channels == old(owner.channels)
      ensures owner.closed == old(owner.closed)
      ensures r.Fail? <==> column in owner.closed
      ensures r.Fail? ==> r.error == IOError(CHANNEL_CLOSED)
      ensures r.Pass? ==> owner.files == old(owner.files)[column := old(owner.files)[column] + [NULL]]
      ensures r.Pass? ==> owner.entries == old(owner.entries)[column := old(owner.entries)[column] + [None]]
      ensures r.Fail? ==> owner.files == old(owner.files) && owner.entries == old(owner.entries)
    {
      r := owner.WriteEntry(column, None);
    }
  }

  class InMemoryWriter {
    /** The files under the root, by the column they belong to. */
    var files: map<Column, seq<int8>>
    /** The memoized writers, by column. */
    var writers: map<Column, ColumnWriter>
    /** The columns whose file channel was opened. */
    var channels: set<Column>
    /** The columns whose channel has been closed. */
    var closed: set<Column>
    /** What was written to each opened column, in order. */
    ghost var entries: map<Column, seq<Entry>>

    /**
     * A writer exists exactly for the opened channels; each opened file was
     * created by this writer and holds the encoding of what was written to it.
     */
    ghost predicate Valid()
      reads this
    {
      && writers.Keys == channels
      && channels <= files.Keys
      && closed <= channels
      && entries.Keys == channels
      && (forall c :: c in writers ==> writers[c].column == c && writers[c].owner == this)
      && (forall c :: c in channels ==> files[c] == EncodeColumn(entries[c]) && AllFit(c.ctype, entries[c]))
    }

    /** A writer over the files already under the root. */
    constructor (files: map<Column, seq<int8>>)
      ensures Valid()
      ensures this.files == files && writers == map[] && channels == {} && closed == {}
    {
      this.files := files;
      writers := map[];
      channels := {};
      closed := {};
      entries := map[];
    }

    /**
     * openChannelFor: creates the column's file, which must not exist yet,
     * and registers its channel; a column whose channel is already
     * registered gets the new channel and the call fails.
     */
    method OpenChannelFor(column: Column) returns (r: Outcome<Error>)
      modifies this
      ensures writers == old(writers) && entries == old(entries)
      ensures column in old(files) ==> r == Fail(IOError(FILE_EXISTS)) && files == old(files)
      ensures column in old(files) ==> channels == old(channels) && closed == old(closed)
      ensures column !in old(files) ==>
        && files == old(files)[column := []]
        && channels == old(channels) + {column}
        && closed == old(closed) - {column}
        && (r.Fail? <==> column in old(channels))
        && (r.Fail? ==> r.error == IllegalState(CHANNEL_OPEN))
    {
      if column in files {
        return Fail(IOError(FILE_EXISTS));
      }
      files := files[column := []];
      var previous := column in channels;
      channels := channels + {column};
      closed := closed - {column};
      if previous {
        return Fail(IllegalState(CHANNEL_OPEN));
      }
      return Pass;
    }

    /**
     * of(column): the writer made on the first call for the column, whose
     * file it creates empty; later calls return the same writer.
     */
    method Of(column: Column) returns (r: Result<ColumnWriter, Error>)
      requires Valid()
      modifies this
      ensures Valid()
      ensures column in old(writers) ==> r == Success(old(writers)[column]) && unchanged(this)
      ensures column !in old(writers) && column in old(files) ==> r == Failure(IOError(FILE_EXISTS)) && unchanged(this)
      ensures column !in old(writers) && column !in old(files) ==>
        && r.Success? && fresh(r.value)
        && writers == old(writers)[column := r.value]
        && files == old(files)[column := []]
        && channels == old(channels) + {column}
        && closed == old(closed)
        && entries == old(entries)[column := []]
    {
      if column in writers {
        return Success(writers[column]);
      }
      if column in files {
        return Failure(IOError(FILE_EXISTS));
      }
      var w := Create(column);
      return Success(w);
    }

    /** The first of(column) for a column without a file: the file, its channel and a new writer. */
    method Create(column: Column) returns (w: ColumnWriter)
      requires Valid() && column !in writers && column !in files
      modifies this
      ensures Valid() && fresh(w)
      ensures writers == old(writers)[column := w]
      ensures files == old(files)[column := []]
      ensures channels == old(channels) + {column}
      ensures closed == old(closed)
      ensures entries == old(entries)[column := []]
    {
      var opening := OpenChannelFor(column);
      assert opening.Pass?;
      w := new ColumnWriter(column, this);
      assert EncodeColumn([]) == [] && AllFit(column.ctype, []);
      writers := writers[column := w];
      entries := entries[column := []];
    }

    /** The static write: the encoded entry goes to the end of the column's file. */
    method WriteEntry(column: Column, e: Entry) returns (r: Outcome<Error>)
      requires Valid() && column in channels && Fits(column.ctype, e)
      modifies this
      ensures Valid()
      ensures writers == old(writers) && channels == old(channels) && closed == old(closed)
      ensures r.Fail? <==> column in closed
      ensures r.Fail? ==> r.error == IOError(CHANNEL_CLOSED)
      ensures r.Pass? ==> files == old(files)[column := old(files)[column] + EncodeEntry(e)]
      ensures r.Pass? ==> entries == old(entries)[column := old(entries)[column] + [e]]
      ensures r.Fail? ==> files == old(files) && entries == old(entries)
    {
      if column in closed {
        return Fail(IOError(CHANNEL_CLOSED));
      }
      ghost var es := entries[column];
      EncodeColumnSnoc(es, e);
      AllFitSnoc(column.ctype, es, e);
      files := files[column := files[column] + EncodeEntry(e)];
      entries := entries[column := es + [e]];
      return Pass;
    }

    /** next(): a record needs no terminator in a column store, so nothing changes. */
    method Next()
      requires Valid()
      ensures Valid()
    {
    }

    /** flush(): forcing a closed channel fails; forcing open ones changes nothing in this model. */
    method Flush() returns (r: Outcome<Error>)
      requires Valid()
      ensures r.Fail? <==> closed != {}
      ensures r.Fail? ==> r.error == IOError(CHANNEL_CLOSED)
    {
      if closed != {} {
        return Fail(IOError(CHANNEL_CLOSED));
      }
      return Pass;
    }

    /** close(): flushes, then closes every channel. */
    method Close() returns (r: Outcome<Error>)
      requires Valid()
      modifies this
      ensures Valid()
      ensures files == old(files) && writers == old(writers) && channels == old(channels)
      ensures entries == old(entries)
      ensures r.Fail? <==> old(closed) != {}
      ensures r.Fail? ==> r.error == IOError(CHANNEL_CLOSED) && closed == old(closed)
      ensures r.Pass? ==> closed == channels
    {
      r := Flush();
      if r.Fail? {
        return;
      }
      closed := channels;
    }
  }
}
