/**
 * The specification of the CSV reader's filtered, bounded-memory scan:
 * which records a batch keeps, how they are framed in the memory-mapped
 * buffer, and when a batch stops.
 *
 * A batch pulls records from the parser one at a time. A record is kept
 * when it satisfies the query (every filter under ALL_OF, some filter under
 * AT_LEAST_ONE); a kept record is framed as a four-byte big-endian length
 * and its serialized bytes. The memory left drops by the frame's size; the
 * threshold is fixed by the first record kept after a query, at twice its
 * frame size, and the batch stops right after a kept record that leaves
 * less memory than the threshold.
 */
module CsvScan {
  import opened Wrappers
  import opened Bytes
  import opened Text
  import opened Columns
  import opened Errors
  import opened Filters
  import opened EvalFilter
  import opened CsvText

  /** The size of the memory-mapped buffer, and the memory a query starts with. */
  const ALLOCATED_MEMORY: int := 268_435_456

  /** A Java byte array: shorter than 2^31. */
  type Serialized = bs: seq<int8> | |bs| < 0x8000_0000

  /** Java serialization undoes itself: the record read back is the record written. */
  ghost predicate Sound(ser: Record -> Serialized, deser: seq<int8> -> Record)
  {
    forall r :: deser(ser(r)) == r
  }

  /** The filters a query can carry: each was built for a column of its own type. */
  predicate AllWellTyped(fs: seq<Filter>)
  {
    forall i :: 0 <= i < |fs| ==> WellTyped(fs[i])
  }

  type TypedFilters = fs: seq<Filter> | AllWellTyped(fs) witness []

  /** CSVRecord.get(name): the field at the header position of the name. */
  function Field(header: map<string, nat>, r: Record, name: string): Result<string, Error>
  {
    if name !in header then Failure(IllegalArgument("Mapping for " + name + " not found"))
    else if header[name] >= |r| then
      Failure(IllegalArgument("Index for header '" + name + "' is " + LongToString(header[name])
        + " but CSVRecord only has " + LongToString(|r|) + " values!"))
    else Success(r[header[name]])
  }

  /** One filter on one record: its column's field, evaluated by EvalFilterUtil.eval. */
  function EvalOn(header: map<string, nat>, r: Record, f: Filter): Result<bool, Error>
    requires WellTyped(f)
  {
    var v :- Field(header, r, f.column.name);
    Success(Eval(v, f))
  }

  /** evalAll: the filters in order, stopping at the first that does not match. */
  function AllMatch(fs: TypedFilters, header: map<string, nat>, r: Record): Result<bool, Error>
  {
    if fs == [] then Success(true)
    else
      var m :- EvalOn(header, r, fs[0]);
      if !m then Success(false) else AllMatch(fs[1..], header, r)
  }

  /** evalAny: the filters in order, stopping at the first that matches. */
  function AnyMatch(fs: TypedFilters, header: map<string, nat>, r: Record): Result<bool, Error>
  {
    if fs == [] then Success(false)
    else
      var m :- EvalOn(header, r, fs[0]);
      if m then Success(true) else AnyMatch(fs[1..], header, r)
  }

  /** The record satisfies the query: all filters under ALL_OF, some filter under AT_LEAST_ONE. */
  function Matches(allOf: bool, fs: TypedFilters, header: map<string, nat>, r: Record): Result<bool, Error>
  {
    if allOf then AllMatch(fs, header, r) else AnyMatch(fs, header, r)
  }

  /**
   * A record satisfies an ALL_OF query iff every filter's field can be
   * read and matches; the first filter that does not match decides.
   */
  lemma {:induction false} AllMatchMeaning(fs: TypedFilters, header: map<string, nat>, r: Record)
    ensures AllMatch(fs, header, r) == Success(true) <==>
      forall i :: 0 <= i < |fs| ==> EvalOn(header, r, fs[i]) == Success(true)
    ensures AllMatch(fs, header, r) == Success(false) ==>
      exists i :: 0 <= i < |fs| && EvalOn(header, r, fs[i]) == Success(false)
  {
    if fs != [] {
      var rest: TypedFilters := fs[1..];
      AllMatchMeaning(rest, header, r);
      if EvalOn(header, r, fs[0]) == Success(true) {
        assert forall i :: 0 <= i < |rest| ==> rest[i] == fs[i + 1];
        if AllMatch(fs, header, r) == Success(false) {
          var i :| 0 <= i < |rest| && EvalOn(header, r, rest[i]) == Success(false);
          assert fs[i + 1] == rest[i];
        }
      }
    }
  }

  /**
   * A record satisfies an AT_LEAST_ONE query iff some filter's field can
   * be read and matches, all filters before it being readable.
   */
  lemma {:induction false} AnyMatchMeaning(fs: TypedFilters, header: map<string, nat>, r: Record)
    ensures AnyMatch(fs, header, r) == Success(false) <==>
      forall i :: 0 <= i < |fs| ==> EvalOn(header, r, fs[i]) == Success(false)
    ensures AnyMatch(fs, header, r) == Success(true) ==>
      exists i :: 0 <= i < |fs| && EvalOn(header, r, fs[i]) == Success(true)
  {
    if fs != [] {
      var rest: TypedFilters := fs[1..];
      AnyMatchMeaning(rest, header, r);
      if EvalOn(header, r, fs[0]) == Success(false) {
        assert forall i :: 0 <= i < |rest| ==> rest[i] == fs[i + 1];
        if AnyMatch(fs, header, r) == Success(true) {
          var i :| 0 <= i < |rest| && EvalOn(header, r, rest[i]) == Success(true);
          assert fs[i + 1] == rest[i];
        }
      }
    }
  }

  /**
   * The records of `rs` that satisfy the query, in order, or the error of
   * the first evaluation that fails.
   */
  function Selected(allOf: bool, fs: TypedFilters, header: map<string, nat>, rs: seq<Record>): Result<seq<Record>, Error>
  {
    if rs == [] then Success([])
    else
      var kept :- Selected(allOf, fs, header, rs[..|rs| - 1]);
      var m :- Matches(allOf, fs, header, rs[|rs| - 1]);
      Success(if m then kept + [rs[|rs| - 1]] else kept)
  }

  /**
   * The comparison is case-sensitive: a record whose field is "ABC" is not
   * kept by a query for is("abc") on that column, although a string filter
   * is meant to ignore case.
   */
  lemma CaseSensitiveRecordDropped(column: Column)
    requires column.ctype == STRING
    ensures Selected(true, [StringIs(column, "abc")], map[column.name := 0], [["ABC"]]) == Success([])
  {
    var f := StringIs(column, "abc");
    var fs: TypedFilters := [f];
    var header := map[column.name := 0];
    assert IsUpper("ABC"[0]);
    EvalStringIsCaseSensitive(column, "ABC", "abc");
    assert EvalOn(header, ["ABC"], f) == Success(false);
    assert AllMatch(fs, header, ["ABC"]) == Success(false);
    assert [["ABC"]][..0] == [];
  }

  /** Under ALL_OF without filters every record is kept. */
  lemma {:induction false} AllOfWithoutFiltersKeepsAll(header: map<string, nat>, rs: seq<Record>)
    ensures Selected(true, [], header, rs) == Success(rs)
  {
    if rs != [] {
      var front, last := rs[..|rs| - 1], rs[|rs| - 1];
      assert front + [last] == rs;
      AllOfWithoutFiltersKeepsAll(header, front);
      KeepsLast(header, front, last);
    }
  }

  /** One more record under ALL_OF without filters is kept. */
  lemma KeepsLast(header: map<string, nat>, front: seq<Record>, last: Record)
    requires Selected(true, [], header, front) == Success(front)
    ensures Selected(true, [], header, front + [last]) == Success(front + [last])
  {
    SelectedSnoc(true, [], header, front, last);
  }

  /** Under AT_LEAST_ONE without filters no record is kept. */
  lemma {:induction false} AtLeastOneWithoutFiltersKeepsNone(header: map<string, nat>, rs: seq<Record>)
    ensures Selected(false, [], header, rs) == Success([])
  {
    if rs != [] {
      AtLeastOneWithoutFiltersKeepsNone(header, rs[..|rs| - 1]);
    }
  }

  /** Selecting one more record: the selection of the prefix, then that record if it matches. */
  lemma SelectedSnoc(allOf: bool, fs: TypedFilters, header: map<string, nat>, rs: seq<Record>, r: Record)
    ensures Selected(allOf, fs, header, rs + [r]) ==
      match Selected(allOf, fs, header, rs)
      case Failure(e) => Failure(e)
      case Success(kept) =>
        match Matches(allOf, fs, header, r)
        case Failure(e) => Failure(e)
        case Success(m) => Success(if m then kept + [r] else kept)
  {
    assert (rs + [r])[..|rs|] == rs;
  }

  /** The frames of the kept records, back to back: a big-endian length, then the bytes. */
  function Frames(ser: Record -> Serialized, rs: seq<Record>): seq<int8>
  {
    if rs == [] then []
    else
      var bs := ser(rs[|rs| - 1]);
      Frames(ser, rs[..|rs| - 1]) + (IntBytes(|bs|) + bs)
  }

  /** The memory the kept records take: the size of their frames. */
  function Used(ser: Record -> Serialized, rs: seq<Record>): int
  {
    |Frames(ser, rs)|
  }

  /** Keeping one more record appends its frame. */
  lemma FramesSnoc(ser: Record -> Serialized, rs: seq<Record>, r: Record)
    ensures Frames(ser, rs + [r]) == Frames(ser, rs) + (IntBytes(|ser(r)|) + ser(r))
  {
    assert (rs + [r])[..|rs|] == rs;
  }

  /** Each kept record takes four bytes more than its serialized form. */
  lemma UsedSnoc(ser: Record -> Serialized, rs: seq<Record>, r: Record)
    ensures Used(ser, rs + [r]) == Used(ser, rs) + 4 + |ser(r)|
  {
    FramesSnoc(ser, rs, r);
  }

  /** The threshold after keeping `rs`: set by the first record kept when still unset (-1). */
  function ThresholdAfter(ser: Record -> Serialized, threshold: int, rs: seq<Record>): int
  {
    if threshold == -1 && rs != [] then 2 * (4 + |ser(rs[0])|) else threshold
  }

  /**
   * Keeping one more record: its frame is charged, the threshold is set by
   * it when still unset, and the earlier prefixes stay as they were.
   */
  lemma KeepStep(ser: Record -> Serialized, threshold: int, rs: seq<Record>, r: Record)
    ensures Used(ser, rs + [r]) == Used(ser, rs) + 4 + |ser(r)|
    ensures ThresholdAfter(ser, threshold, rs + [r]) ==
      if ThresholdAfter(ser, threshold, rs) == -1 then 2 * (4 + |ser(r)|) else ThresholdAfter(ser, threshold, rs)
    ensures forall k :: 0 <= k <= |rs| ==> (rs + [r])[..k] == rs[..k]
  {
    UsedSnoc(ser, rs, r);
  }

  /** Keeping `rs` from `memory` leaves less than the threshold: the batch ends. */
  predicate Stops(ser: Record -> Serialized, memory: int, threshold: int, rs: seq<Record>)
  {
    memory - Used(ser, rs) < ThresholdAfter(ser, threshold, rs)
  }

  /**
   * What a batch works with and does not change: the query's type, filters
   * and header, the serializer, the parser's records, and whether the parser
   * is open.
   */
  datatype ScanSetup = ScanSetup(
    allOf: bool, filters: TypedFilters, header: map<string, nat>,
    ser: Record -> Serialized, records: seq<Record>, open: bool)

  /**
   * What a batch changes: the parser position, the records stored so far,
   * the bytes put into the buffer, the memory left and the threshold.
   */
  datatype ScanState = ScanState(
    position: nat, stored: seq<Record>, buffer: seq<int8>, memoryLeft: int, threshold: int)

  /**
   * One turn of the batch loop: the parser hands out its next record, which
   * is stored when it satisfies the query. The result says whether the batch
   * stops here.
   */
  function Step(c: ScanSetup, s: ScanState): (r: (ScanState, Result<bool, Error>))
    requires s.position < |c.records|
    ensures r.0.position == s.position + 1
    ensures r.1 == Success(true) ==> r.0.stored != []
  {
    var record := c.records[s.position];
    var pulled := s.(position := s.position + 1);
    match Matches(c.allOf, c.filters, c.header, record)
    case Failure(e) => (pulled, Failure(e))
    case Success(false) => (pulled, Success(false))
    case Success(true) => Keep(c.ser, pulled, record)
  }

  /**
   * Storing a record: its length and then its bytes are put into the
   * buffer, each put failing with a buffer overflow when it does not fit;
   * the frame is charged to the memory left, and the first store sets an
   * unset threshold. The result says whether less memory than the
   * threshold is left.
   */
  function Keep(ser: Record -> Serialized, s: ScanState, record: Record): (r: (ScanState, Result<bool, Error>))
    ensures r.0.position == s.position
    ensures r.1 == Success(true) ==> r.0.stored != []
  {
    var bs := ser(record);
    if |s.buffer| + 4 > ALLOCATED_MEMORY then (s, Failure(BufferOverflow))
    else if |s.buffer| + 4 + |bs| > ALLOCATED_MEMORY then
      (s.(buffer := s.buffer + IntBytes(|bs|)), Failure(BufferOverflow))
    else
      var kept := s.(
        stored := s.stored + [record],
        buffer := s.buffer + (IntBytes(|bs|) + bs),
        memoryLeft := s.memoryLeft - (4 + |bs|),
        threshold := if s.threshold == -1 then 2 * (4 + |bs|) else s.threshold);
      (kept, Success(kept.memoryLeft < kept.threshold))
  }

  /**
   * A whole batch: turns until the parser is closed or has no more records,
   * a turn says stop, or a turn fails.
   */
  function Scan(c: ScanSetup, s: ScanState): (ScanState, Outcome<Error>)
    decreases |c.records| - s.position
  {
    if !c.open || s.position >= |c.records| then (s, Pass)
    else
      var (next, stop) := Step(c, s);
      match stop
      case Failure(e) => (next, Fail(e))
      case Success(true) => (next, Pass)
      case Success(false) => Scan(c, next)
  }

  /**
   * The state of a batch started at position `p0` with memory `m0` and
   * threshold `t0`, between two turns: the stored records are the selected
   * pulled ones, framed back to back, their frames are charged, the
   * threshold is set by the first, and no store so far left less memory
   * than the threshold.
   */
  ghost predicate Scanning(c: ScanSetup, m0: int, t0: int, p0: nat, s: ScanState)
  {
    && p0 <= s.position <= |c.records|
    && Selected(c.allOf, c.filters, c.header, c.records[p0..s.position]) == Success(s.stored)
    && s.buffer == Frames(c.ser, s.stored)
    && s.memoryLeft == m0 - Used(c.ser, s.stored)
    && s.threshold == ThresholdAfter(c.ser, t0, s.stored)
    && (forall k :: 0 < k <= |s.stored| ==> !Stops(c.ser, m0, t0, s.stored[..k]))
  }

  /**
   * What a batch leaves behind: memory and threshold account for the
   * stored records and no store before the last left less memory than the
   * threshold. On success the stored records are the pulled ones that
   * satisfy the query, the buffer holds exactly their frames, and the batch
   * ended at the end of the records (or with the parser closed) or right
   * after a store that left less memory than the threshold. On failure the
   * pulled records ran into an evaluation error, or the last one to keep did
   * not fit into the buffer.
   */
  ghost predicate Batched(c: ScanSetup, m0: int, t0: int, p0: nat, s: ScanState, r: Outcome<Error>)
  {
    && p0 <= s.position <= |c.records|
    && s.memoryLeft == m0 - Used(c.ser, s.stored)
    && s.threshold == ThresholdAfter(c.ser, t0, s.stored)
    && (forall k :: 0 < k < |s.stored| ==> !Stops(c.ser, m0, t0, s.stored[..k]))
    && Frames(c.ser, s.stored) <= s.buffer
    && var pulled := c.records[p0..s.position];
    && (r.Pass? ==>
      && Selected(c.allOf, c.filters, c.header, pulled) == Success(s.stored)
      && s.buffer == Frames(c.ser, s.stored)
      && ((!c.open || s.position == |c.records|)
          || (s.stored != [] && Stops(c.ser, m0, t0, s.stored) && pulled[|pulled| - 1] == s.stored[|s.stored| - 1])))
    && (r.Fail? ==>
      || (Selected(c.allOf, c.filters, c.header, pulled) == Failure(r.error) && s.buffer == Frames(c.ser, s.stored))
      || (&& r.error == BufferOverflow && pulled != []
          && Selected(c.allOf, c.filters, c.header, pulled) == Success(s.stored + [pulled[|pulled| - 1]])
          && Used(c.ser, s.stored) + 4 + |c.ser(pulled[|pulled| - 1])| > ALLOCATED_MEMORY))
  }

  /** A batch run from any state between two turns ends as Batched says. */
  lemma {:induction false} ScanBatches(c: ScanSetup, m0: int, t0: int, p0: nat, s: ScanState)
    requires Scanning(c, m0, t0, p0, s)
    ensures Batched(c, m0, t0, p0, Scan(c, s).0, Scan(c, s).1)
    decreases |c.records| - s.position
  {
    if !c.open || s.position >= |c.records| {
      assert Scan(c, s) == (s, Pass);
    } else {
      var (next, stop) := Step(c, s);
      if stop == Success(false) {
        StepContinues(c, m0, t0, p0, s);
        ScanBatches(c, m0, t0, p0, next);
      } else {
        StepEnds(c, m0, t0, p0, s);
      }
    }
  }

  /** A turn that does not stop the batch leaves it between two turns. */
  lemma StepContinues(c: ScanSetup, m0: int, t0: int, p0: nat, s: ScanState)
    requires Scanning(c, m0, t0, p0, s) && s.position < |c.records|
    requires Step(c, s).1 == Success(false)
    ensures Scanning(c, m0, t0, p0, Step(c, s).0)
  {
    var next := Step(c, s).0;
    var record, before := c.records[s.position], c.records[p0..s.position];
    assert c.records[p0..next.position] == before + [record];
    SelectedSnoc(c.allOf, c.filters, c.header, before, record);
    if Matches(c.allOf, c.filters, c.header, record) == Success(true) {
      KeepContinues(c, m0, t0, p0, s, next);
    }
  }

  /** The stored-record half of StepContinues: a store that leaves enough memory. */
  lemma KeepContinues(c: ScanSetup, m0: int, t0: int, p0: nat, s: ScanState, next: ScanState)
    requires Scanning(c, m0, t0, p0, s) && s.position < |c.records|
    requires next.stored == s.stored + [c.records[s.position]]
    requires next.buffer == s.buffer + (IntBytes(|c.ser(c.records[s.position])|) + c.ser(c.records[s.position]))
    requires next.memoryLeft == s.memoryLeft - (4 + |c.ser(c.records[s.position])|)
    requires next.threshold == if s.threshold == -1 then 2 * (4 + |c.ser(c.records[s.position])|) else s.threshold
    requires !(next.memoryLeft < next.threshold)
    ensures next.buffer == Frames(c.ser, next.stored)
    ensures next.memoryLeft == m0 - Used(c.ser, next.stored)
    ensures next.threshold == ThresholdAfter(c.ser, t0, next.stored)
    ensures forall k :: 0 < k <= |next.stored| ==> !Stops(c.ser, m0, t0, next.stored[..k])
  {
    var record := c.records[s.position];
    KeepStep(c.ser, t0, s.stored, record);
    FramesSnoc(c.ser, s.stored, record);
    assert next.stored[..|next.stored|] == next.stored;
  }

  /** A turn that stops the batch or fails ends it as Batched says. */
  lemma StepEnds(c: ScanSetup, m0: int, t0: int, p0: nat, s: ScanState)
    requires Scanning(c, m0, t0, p0, s) && s.position < |c.records|
    requires Step(c, s).1 != Success(false)
    ensures var (next, stop) := Step(c, s);
      Batched(c, m0, t0, p0, next, if stop.Failure? then Fail(stop.error) else Pass)
  {
    var record := c.records[s.position];
    match Matches(c.allOf, c.filters, c.header, record)
    case Failure(e) =>
      MatchFails(c, m0, t0, p0, s, e);
    case Success(m) =>
      if Keep(c.ser, s.(position := s.position + 1), record).1.Failure? {
        KeepOverflows(c, m0, t0, p0, s);
      } else {
        KeepEnds(c, m0, t0, p0, s);
      }
  }

  /** The records pulled up to and including the next one, filtered. */
  lemma PulledSnoc(c: ScanSetup, m0: int, t0: int, p0: nat, s: ScanState)
    requires Scanning(c, m0, t0, p0, s) && s.position < |c.records|
    ensures Selected(c.allOf, c.filters, c.header, c.records[p0..s.position + 1]) ==
      match Matches(c.allOf, c.filters, c.header, c.records[s.position])
      case Failure(e) => Failure(e)
      case Success(m) => Success(if m then s.stored + [c.records[s.position]] else s.stored)
  {
    var before := c.records[p0..s.position];
    assert c.records[p0..s.position + 1] == before + [c.records[s.position]];
    SelectedSnoc(c.allOf, c.filters, c.header, before, c.records[s.position]);
  }

  /** A record the filters fail on ends the batch with their error. */
  lemma MatchFails(c: ScanSetup, m0: int, t0: int, p0: nat, s: ScanState, e: Error)
    requires Scanning(c, m0, t0, p0, s) && s.position < |c.records|
    requires Matches(c.allOf, c.filters, c.header, c.records[s.position]) == Failure(e)
    ensures Batched(c, m0, t0, p0, s.(position := s.position + 1), Fail(e))
  {
    PulledSnoc(c, m0, t0, p0, s);
  }

  /** A matching record whose frame does not fit ends the batch with a buffer overflow. */
  lemma KeepOverflows(c: ScanSetup, m0: int, t0: int, p0: nat, s: ScanState)
    requires Scanning(c, m0, t0, p0, s) && s.position < |c.records|
    requires Matches(c.allOf, c.filters, c.header, c.records[s.position]) == Success(true)
    requires Keep(c.ser, s.(position := s.position + 1), c.records[s.position]).1.Failure?
    ensures Batched(c, m0, t0, p0, Keep(c.ser, s.(position := s.position + 1), c.records[s.position]).0, Fail(BufferOverflow))
  {
    PulledSnoc(c, m0, t0, p0, s);
    var pulled := c.records[p0..s.position + 1];
    assert pulled[|pulled| - 1] == c.records[s.position];
  }

  /** A matching record whose store leaves less memory than the threshold ends the batch. */
  lemma KeepEnds(c: ScanSetup, m0: int, t0: int, p0: nat, s: ScanState)
    requires Scanning(c, m0, t0, p0, s) && s.position < |c.records|
    requires Matches(c.allOf, c.filters, c.header, c.records[s.position]) == Success(true)
    requires Keep(c.ser, s.(position := s.position + 1), c.records[s.position]).1 == Success(true)
    ensures Batched(c, m0, t0, p0, Keep(c.ser, s.(position := s.position + 1), c.records[s.position]).0, Pass)
  {
    PulledSnoc(c, m0, t0, p0, s);
    var pulled := c.records[p0..s.position + 1];
    assert pulled[|pulled| - 1] == c.records[s.position];
    KeepStops(c, m0, t0, p0, s, Keep(c.ser, s.(position := s.position + 1), c.records[s.position]).0);
  }

  /** The stored-record half of StepEnds: a store that leaves less memory than the threshold. */
  lemma KeepStops(c: ScanSetup, m0: int, t0: int, p0: nat, s: ScanState, next: ScanState)
    requires Scanning(c, m0, t0, p0, s) && s.position < |c.records|
    requires next.stored == s.stored + [c.records[s.position]]
    requires next.buffer == s.buffer + (IntBytes(|c.ser(c.records[s.position])|) + c.ser(c.records[s.position]))
    requires next.memoryLeft == s.memoryLeft - (4 + |c.ser(c.records[s.position])|)
    requires next.threshold == if s.threshold == -1 then 2 * (4 + |c.ser(c.records[s.position])|) else s.threshold
    requires next.memoryLeft < next.threshold
    ensures next.buffer == Frames(c.ser, next.stored)
    ensures next.memoryLeft == m0 - Used(c.ser, next.stored)
    ensures next.threshold == ThresholdAfter(c.ser, t0, next.stored)
    ensures Stops(c.ser, m0, t0, next.stored)
    ensures forall k :: 0 < k < |next.stored| ==> !Stops(c.ser, m0, t0, next.stored[..k])
  {
    var record := c.records[s.position];
    KeepStep(c.ser, t0, s.stored, record);
    FramesSnoc(c.ser, s.stored, record);
  }

  /** A batch started on an empty buffer ends as Batched says. */
  lemma BatchRun(c: ScanSetup, m0: int, t0: int, p0: nat, end: ScanState, r: Outcome<Error>)
    requires p0 <= |c.records|
    requires Scan(c, ScanState(p0, [], [], m0, t0)) == (end, r)
    ensures Batched(c, m0, t0, p0, end, r)
  {
    assert c.records[p0..p0] == [];
    ScanBatches(c, m0, t0, p0, ScanState(p0, [], [], m0, t0));
  }

  /** The first k frames are a prefix of all of them, and the (k+1)-th follows them. */
  lemma {:induction false} FramePrefix(ser: Record -> Serialized, rs: seq<Record>, k: nat)
    requires k < |rs|
    ensures Frames(ser, rs[..k]) + (IntBytes(|ser(rs[k])|) + ser(rs[k])) <= Frames(ser, rs)
    decreases |rs|
  {
    var front := rs[..|rs| - 1];
    if k == |rs| - 1 {
      assert front == rs[..k];
    } else {
      FramePrefix(ser, front, k);
      assert front[..k] == rs[..k] && front[k] == rs[k];
    }
  }

  /** The offset after reading k frames is the offset after k - 1 plus the k-th frame. */
  lemma FramesStep(ser: Record -> Serialized, rs: seq<Record>, k: nat)
    requires k < |rs|
    ensures Frames(ser, rs[..k + 1]) == Frames(ser, rs[..k]) + (IntBytes(|ser(rs[k])|) + ser(rs[k]))
  {
    assert rs[..k + 1][..k] == rs[..k];
  }

  /**
   * Reading the k-th frame back: the four bytes at its offset give its
   * length, and the bytes after them deserialize to the k-th record.
   */
  lemma ReadFrame(ser: Record -> Serialized, deser: seq<int8> -> Record, rs: seq<Record>, k: nat, buffer: seq<int8>, at: int)
    requires Sound(ser, deser) && k < |rs| && Frames(ser, rs) <= buffer && at == Used(ser, rs[..k])
    ensures at + 4 + |ser(rs[k])| <= |buffer|
    ensures GetInt(buffer[at..at + 4]) == |ser(rs[k])|
    ensures deser(buffer[at + 4..at + 4 + |ser(rs[k])|]) == rs[k]
    ensures Used(ser, rs[..k + 1]) == at + 4 + |ser(rs[k])|
  {
    FrameLayout(ser, rs, k, buffer, at);
    IntRoundTrip(|ser(rs[k])|);
  }

  /** Where the k-th frame sits in the buffer: its length's four bytes at `at`, then its bytes. */
  lemma FrameLayout(ser: Record -> Serialized, rs: seq<Record>, k: nat, buffer: seq<int8>, at: int)
    requires k < |rs| && Frames(ser, rs) <= buffer && at == Used(ser, rs[..k])
    ensures at + 4 + |ser(rs[k])| <= |buffer|
    ensures buffer[at..at + 4] == IntBytes(|ser(rs[k])|)
    ensures buffer[at + 4..at + 4 + |ser(rs[k])|] == ser(rs[k])
    ensures Used(ser, rs[..k + 1]) == at + 4 + |ser(rs[k])|
  {
    var bs := ser(rs[k]);
    FramePrefix(ser, rs, k);
    FrameAt(Frames(ser, rs[..k]), IntBytes(|bs|), bs, buffer);
    FramesStep(ser, rs, k);
  }

  lemma PrefixOfAppend(a: seq<int8>, b: seq<int8>)
    ensures a <= a + b
  {
  }

  /** A frame that follows `front` in the buffer sits right after it: its length, then its bytes. */
  lemma FrameAt(front: seq<int8>, size: seq<int8>, bs: seq<int8>, buffer: seq<int8>)
    requires |size| == 4 && front + (size + bs) <= buffer
    ensures buffer[|front|..|front| + 4] == size
    ensures buffer[|front| + 4..|front| + 4 + |bs|] == bs
  {
    var f := front + (size + bs);
    assert buffer[|front|..|front| + 4] == f[|front|..|front| + 4];
    assert buffer[|front| + 4..|front| + 4 + |bs|] == f[|front| + 4..];
  }
}
