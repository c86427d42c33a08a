/**
 * The binary column format: a column file is the concatenation of its
 * entries; a null entry is the single byte -128 (Byte.MIN_VALUE), a present
 * entry is 127 (Byte.MAX_VALUE) followed by its payload: one byte for a
 * boolean, eight big-endian bytes for a long or a double, a four-byte
 * big-endian length and then the bytes for an id or the UTF-8 of a string.
 *
 * The reader's cursor is an index into the file: -1 before the first entry,
 * then the position of the current entry's header byte.
 */
module ColumnCodec {
  import opened Wrappers
  import opened Bytes
  import opened Text
  import opened Columns
  import opened Errors
  import Utf8

  /** A non-null value; a double is kept as the eight bytes putDouble writes. */
  datatype Value =
    | BoolV(b: bool)
    | DoubleV(bits: seq<int8>)
    | IdV(id: seq<int8>)
    | LongV(v: int64)
    | StringV(s: string)


  const PRESENT: int8 := BYTE_MAX
  const NULL: int8 := BYTE_MIN

  /** Java arrays are shorter than 2^31, so every length fits an int. */
  const ARRAY_LIMIT: int := 0x8000_0000

  /** The value can be written: its length prefix, if any, fits an int. */
  predicate Writable(v: Value)
  {
    match v
    case DoubleV(bits) => |bits| == 8
    case IdV(id) => |id| < ARRAY_LIMIT
    case StringV(s) => |Utf8.Encode(s)| < ARRAY_LIMIT
    case _ => true
  }

  /** The value belongs in a column of type `t`. */
  predicate OfType(t: Type, v: Value)
  {
    match v
    case BoolV(_) => t == BOOLEAN
    case DoubleV(_) => t == DOUBLE
    case IdV(_) => t == ID
    case LongV(_) => t == LONG
    case StringV(_) => t == STRING
  }

  /** A value a writer can be handed. */
  type Stored = v: Value | Writable(v) witness BoolV(false)

  /** A column entry: None is a null. */
  type Entry = Option<Stored>

  predicate Fits(t: Type, e: Entry)
  {
    e.Some? ==> OfType(t, e.value)
  }

  predicate AllFit(t: Type, es: seq<Entry>)
  {
    forall i :: 0 <= i < |es| ==> Fits(t, es[i])
  }

  /** The bytes that follow the 127 header of a present entry. */
  function Payload(v: Stored): seq<int8>
  {
    match v
    case BoolV(b) => [if b then BYTE_MAX else BYTE_MIN]
    case DoubleV(bits) => bits
    case IdV(id) => IntBytes(|id|) + id
    case LongV(x) => LongBytes(x)
    case StringV(s) => var u := Utf8.Encode(s); IntBytes(|u|) + u
  }

  function EncodeEntry(e: Entry): (bs: seq<int8>)
    ensures bs != []
  {
    match e
    case None => [NULL]
    case Some(v) => [PRESENT] + Payload(v)
  }

  /** A column file: its entries, in the order they were written. */
  function EncodeColumn(es: seq<Entry>): seq<int8>
  {
    if es == [] then [] else EncodeColumn(es[..|es| - 1]) + EncodeEntry(es[|es| - 1])
  }

  // The cursor of a column reader, as functions of the file and the index.

  /** isPresent: the header byte at the cursor is 127. */
  function PresentAt(bytes: seq<int8>, index: int): Result<bool, Error>
  {
    if 0 <= index < |bytes| then Success(bytes[index] == BYTE_MAX) else Failure(IndexOutOfBounds)
  }

  /** The big-endian int stored at `at`, as ByteBuffer.put(bytes, at, 4).getInt() reads it. */
  function IntAt(bytes: seq<int8>, at: int): Result<int, Error>
  {
    if 0 <= at && at + 4 <= |bytes| then Success(GetInt(bytes[at..at + 4])) else Failure(IndexOutOfBounds)
  }

  /** currentSize: the payload size of the present entry at the cursor. */
  function SizeAt(t: Type, bytes: seq<int8>, index: int): Result<int, Error>
  {
    match t
    case BOOLEAN => Success(1)
    case DOUBLE => Success(8)
    case LONG => Success(8)
    case ID => var n :- IntAt(bytes, index + 1); Success(4 + n)
    case STRING => var n :- IntAt(bytes, index + 1); Success(4 + n)
  }

  /** The cursor's hasNext. */
  function HasNextAt(t: Type, bytes: seq<int8>, index: int): Result<bool, Error>
  {
    if index == -1 then Success(|bytes| > 0)
    else
      var present :- PresentAt(bytes, index);
      if present then
        var size :- SizeAt(t, bytes, index);
        Success(index + 1 + size < |bytes|)
      else Success(index + 1 < |bytes|)
  }

  /** The index the cursor's next moves to. */
  function NextAt(t: Type, bytes: seq<int8>, index: int): Result<int, Error>
  {
    if index == -1 then Success(0)
    else
      var present :- PresentAt(bytes, index);
      if present then
        var size :- SizeAt(t, bytes, index);
        Success(index + size + 1)
      else Success(index + 1)
  }

  function Zeros(n: nat): seq<int8>
  {
    seq(n, _ => 0)
  }

  /** Arrays.copyOfRange: zero-padded past the end of `a`. */
  function CopyOfRange(a: seq<int8>, from: int, to: int): (r: Result<seq<int8>, Error>)
    ensures r.Success? ==> |r.value| == to - from
  {
    if from > to then Failure(IllegalArgument(LongToString(from) + " > " + LongToString(to)))
    else if from < 0 || from > |a| then Failure(IndexOutOfBounds)
    else
      var end := if to <= |a| then to else |a|;
      Success(a[from..end] + Zeros(to - end))
  }

  // The typed gets of the entry at the cursor, one per reader type.

  function GetBoolean(bytes: seq<int8>, index: int): Result<Value, Error>
  {
    var start := index + 1;
    if 0 <= start < |bytes| then Success(BoolV(bytes[start] == BYTE_MAX)) else Failure(IndexOutOfBounds)
  }

  function GetDouble(bytes: seq<int8>, index: int): Result<Value, Error>
  {
    var start := index + 1;
    if 0 <= start && start + 8 <= |bytes| then Success(DoubleV(bytes[start..start + 8])) else Failure(IndexOutOfBounds)
  }

  function GetLongAt(bytes: seq<int8>, index: int): Result<Value, Error>
  {
    var start := index + 1;
    if 0 <= start && start + 8 <= |bytes| then Success(LongV(GetLong(bytes[start..start + 8]))) else Failure(IndexOutOfBounds)
  }

  function GetId(bytes: seq<int8>, index: int): Result<Value, Error>
  {
    var start := index + 1;
    var n :- IntAt(bytes, start);
    var id :- CopyOfRange(bytes, start + 4, start + 4 + n);
    Success(IdV(id))
  }

  function GetString(bytes: seq<int8>, index: int): Result<Value, Error>
  {
    var start := index + 1;
    var n :- IntAt(bytes, start);
    var from := start + 4;
    if n < 0 || from + n > |bytes| then Failure(IndexOutOfBounds)
    else Success(StringV(Utf8.Decode(bytes[from..from + n])))
  }

  /** The get of the reader for a column of type `t`. */
  function GetAt(t: Type, bytes: seq<int8>, index: int): Result<Value, Error>
  {
    match t
    case BOOLEAN => GetBoolean(bytes, index)
    case DOUBLE => GetDouble(bytes, index)
    case LONG => GetLongAt(bytes, index)
    case ID => GetId(bytes, index)
    case STRING => GetString(bytes, index)
  }

  /** ColumnReader.isNull. */
  function NullAt(bytes: seq<int8>, index: int): (r: Result<bool, Error>)
    ensures r.Success? <==> PresentAt(bytes, index).Success?
    ensures r.Success? ==> r.value == !PresentAt(bytes, index).value
  {
    var present :- PresentAt(bytes, index);
    Success(!present)
  }

  // Reading back what was written.

  /** The length prefix of an id or a string entry is read back, and the body follows it. */
  lemma ReadPrefixed(bytes: seq<int8>, p: seq<int8>, body: seq<int8>, r: seq<int8>)
    requires |body| < ARRAY_LIMIT && bytes == p + ([PRESENT] + (IntBytes(|body|) + body)) + r
    ensures IntAt(bytes, |p| + 1).Success? && IntAt(bytes, |p| + 1).value == |body|
    ensures |p| + 5 + |body| <= |bytes|
    ensures bytes[|p| + 5..|p| + 5 + |body|] == body
  {
    assert bytes[|p| + 1..|p| + 5] == IntBytes(|body|);
    IntRoundTrip(|body|);
  }

  lemma ReadSize(t: Type, bytes: seq<int8>, p: seq<int8>, v: Stored, r: seq<int8>)
    requires OfType(t, v) && bytes == p + EncodeEntry(Some(v)) + r
    ensures SizeAt(t, bytes, |p|).Success? && SizeAt(t, bytes, |p|).value == |Payload(v)|
  {
    match v
    case IdV(id) => ReadPrefixed(bytes, p, id, r);
    case StringV(s) => ReadPrefixed(bytes, p, Utf8.Encode(s), r);
    case _ =>
  }

  /** The header byte, next and hasNext at the offset of any entry. */
  lemma ReadHeader(t: Type, bytes: seq<int8>, p: seq<int8>, e: Entry, r: seq<int8>)
    requires Fits(t, e) && bytes == p + EncodeEntry(e) + r
    ensures PresentAt(bytes, |p|) == Success(e.Some?)
    ensures NextAt(t, bytes, |p|).Success? && NextAt(t, bytes, |p|).value == |p| + |EncodeEntry(e)|
    ensures HasNextAt(t, bytes, |p|) == Success(r != [])
  {
    assert bytes[|p|] == EncodeEntry(e)[0];
    if e.Some? {
      ReadSize(t, bytes, p, e.value, r);
    }
  }

  lemma ReadId(bytes: seq<int8>, p: seq<int8>, id: seq<int8>, r: seq<int8>)
    requires |id| < ARRAY_LIMIT && bytes == p + EncodeEntry(Some(IdV(id))) + r
    ensures GetId(bytes, |p|) == Success(IdV(id))
  {
    ReadPrefixed(bytes, p, id, r);
    var from := |p| + 5;
    assert Zeros(0) == [];
    assert CopyOfRange(bytes, from, from + |id|) == Success(bytes[from..from + |id|] + Zeros(0));
    assert bytes[from..from + |id|] + Zeros(0) == id;
  }

  lemma ReadString(bytes: seq<int8>, p: seq<int8>, s: string, r: seq<int8>)
    requires |Utf8.Encode(s)| < ARRAY_LIMIT && bytes == p + EncodeEntry(Some(StringV(s))) + r
    ensures GetString(bytes, |p|) == Success(StringV(s))
  {
    ReadPrefixed(bytes, p, Utf8.Encode(s), r);
    Utf8.DecodeEncode(s);
  }

  lemma ReadFixed(t: Type, bytes: seq<int8>, p: seq<int8>, v: Stored, r: seq<int8>)
    requires OfType(t, v) && (v.BoolV? || v.DoubleV? || v.LongV?)
    requires bytes == p + EncodeEntry(Some(v)) + r
    ensures GetAt(t, bytes, |p|) == Success(v)
  {
    var i := |p|;
    match v
    case BoolV(b) =>
      assert bytes[i + 1] == EncodeEntry(Some(v))[1];
    case DoubleV(bits) =>
      assert bytes[i + 1..i + 9] == bits;
    case LongV(x) =>
      assert bytes[i + 1..i + 9] == LongBytes(x);
      LongRoundTrip(x);
  }

  /** The get of the reader for the column's type gives back the written value. */
  lemma ReadValue(t: Type, bytes: seq<int8>, p: seq<int8>, v: Stored, r: seq<int8>)
    requires OfType(t, v) && bytes == p + EncodeEntry(Some(v)) + r
    ensures GetAt(t, bytes, |p|) == Success(v)
  {
    match v
    case IdV(id) => ReadId(bytes, p, id, r);
    case StringV(s) => ReadString(bytes, p, s, r);
    case _ => ReadFixed(t, bytes, p, v, r);
  }

  lemma {:induction false} EncodeColumnAppend(a: seq<Entry>, b: seq<Entry>)
    ensures EncodeColumn(a + b) == EncodeColumn(a) + EncodeColumn(b)
    decreases |b|
  {
    if b == [] {
      assert a + b == a;
    } else {
      var b', last := b[..|b| - 1], b[|b| - 1];
      assert (a + b)[..|a + b| - 1] == a + b';
      assert (a + b)[|a + b| - 1] == last;
      EncodeColumnAppend(a, b');
      Associative(EncodeColumn(a), EncodeColumn(b'), EncodeEntry(last));
    }
  }

  lemma Associative(x: seq<int8>, y: seq<int8>, z: seq<int8>)
    ensures x + y + z == x + (y + z)
  {
  }

  /** Where the k-th entry starts: the length of the entries before it. */
  function Offset(es: seq<Entry>, k: nat): int
    requires k <= |es|
  {
    |EncodeColumn(es[..k])|
  }

  lemma ColumnPrefix(es: seq<Entry>, k: nat)
    requires k < |es|
    ensures EncodeColumn(es[..k + 1]) == EncodeColumn(es[..k]) + EncodeEntry(es[k])
  {
    assert es[..k + 1][..k] == es[..k];
    assert es[..k + 1][k] == es[k];
  }

  lemma EmptyColumn(es: seq<Entry>)
    ensures EncodeColumn(es) == [] <==> es == []
  {
  }

  /** The file splits around its k-th entry. */
  lemma SplitAt(es: seq<Entry>, k: nat)
    requires k < |es|
    ensures EncodeColumn(es) == EncodeColumn(es[..k]) + EncodeEntry(es[k]) + EncodeColumn(es[k + 1..])
    ensures EncodeColumn(es[k + 1..]) == [] <==> k + 1 == |es|
  {
    var front, back := es[..k + 1], es[k + 1..];
    JoinColumns(es, front, back);
    ColumnPrefix(es, k);
    EmptyColumn(back);
  }

  lemma JoinColumns(es: seq<Entry>, front: seq<Entry>, back: seq<Entry>)
    requires es == front + back
    ensures EncodeColumn(es) == EncodeColumn(front) + EncodeColumn(back)
  {
    EncodeColumnAppend(front, back);
  }

  /**
   * The cursor position after `j` calls of next on the file of `es`:
   * -1 before the first call, then the offset of entry j - 1.
   */
  function CursorAfter(es: seq<Entry>, j: nat): int
    requires j <= |es|
  {
    if j == 0 then -1 else Offset(es, j - 1)
  }

  /**
   * Reading a written column: after j calls of next, hasNext holds iff an
   * entry is left; the next call moves to the following entry, whose
   * isPresent and get give back the entry that was written there.
   */
  lemma ReadColumn(t: Type, es: seq<Entry>, j: nat)
    requires AllFit(t, es) && j <= |es|
    ensures var bytes := EncodeColumn(es);
      HasNextAt(t, bytes, CursorAfter(es, j)) == Success(j < |es|)
    ensures j < |es| ==>
      var bytes := EncodeColumn(es);
      var at := CursorAfter(es, j + 1);
      && NextAt(t, bytes, CursorAfter(es, j)).Success?
      && NextAt(t, bytes, CursorAfter(es, j)).value == at
      && PresentAt(bytes, at) == Success(es[j].Some?)
      && (es[j].Some? ==> GetAt(t, bytes, at) == Success(es[j].value))
  {
    if j == 0 {
      EmptyColumn(es);
    } else {
      CursorAt(t, es, j - 1);
    }
    if j < |es| {
      CursorAt(t, es, j);
      if es[j].Some? {
        ValueAt(t, es, j);
      }
      if j == 0 {
        assert es[..0] == [];
      }
    }
  }

  /** The header of entry k and the cursor moves, at the end of the entries before it. */
  lemma EntryCursor(t: Type, es: seq<Entry>, k: nat)
    requires AllFit(t, es) && k < |es|
    ensures PresentAt(EncodeColumn(es), Offset(es, k)) == Success(es[k].Some?)
    ensures NextAt(t, EncodeColumn(es), Offset(es, k)).Success?
    ensures NextAt(t, EncodeColumn(es), Offset(es, k)).value == Offset(es, k) + |EncodeEntry(es[k])|
    ensures HasNextAt(t, EncodeColumn(es), Offset(es, k)) == Success(k + 1 < |es|)
  {
    var p, r := EncodeColumn(es[..k]), EncodeColumn(es[k + 1..]);
    assert Fits(t, es[k]);
    SplitAt(es, k);
    ReadHeader(t, EncodeColumn(es), p, es[k], r);
  }

  lemma OffsetStep(es: seq<Entry>, k: nat)
    requires k < |es|
    ensures Offset(es, k + 1) == Offset(es, k) + |EncodeEntry(es[k])|
  {
    ColumnPrefix(es, k);
  }

  /** The cursor at the offset of entry k: its header, isNull, and where next moves it. */
  lemma CursorAt(t: Type, es: seq<Entry>, k: nat)
    requires AllFit(t, es) && k < |es|
    ensures PresentAt(EncodeColumn(es), Offset(es, k)) == Success(es[k].Some?)
    ensures NullAt(EncodeColumn(es), Offset(es, k)) == Success(es[k].None?)
    ensures NextAt(t, EncodeColumn(es), Offset(es, k)).Success?
    ensures NextAt(t, EncodeColumn(es), Offset(es, k)).value == Offset(es, k + 1)
    ensures HasNextAt(t, EncodeColumn(es), Offset(es, k)) == Success(k + 1 < |es|)
  {
    EntryCursor(t, es, k);
    OffsetStep(es, k);
  }

  /** The value of entry k, read at its offset. */
  lemma ValueAt(t: Type, es: seq<Entry>, k: nat)
    requires AllFit(t, es) && k < |es| && es[k].Some?
    ensures GetAt(t, EncodeColumn(es), Offset(es, k)) == Success(es[k].value)
  {
    var p, r := EncodeColumn(es[..k]), EncodeColumn(es[k + 1..]);
    assert Fits(t, es[k]);
    SplitAt(es, k);
    ReadValue(t, EncodeColumn(es), p, es[k].value, r);
  }

  // One step of a row iteration on one cursor.

  /** The cursor has a next entry. */
  predicate Advances(t: Type, bytes: seq<int8>, index: int)
  {
    HasNextAt(t, bytes, index) == Success(true)
  }

  /** Where one row step leaves a cursor: moved on if it has a next entry, else where it was. */
  function Advanced(t: Type, bytes: seq<int8>, index: int): (i: int)
    ensures Advances(t, bytes, index) ==> NextAt(t, bytes, index) == Success(i)
    ensures !Advances(t, bytes, index) ==> i == index
  {
    if Advances(t, bytes, index) then NextAt(t, bytes, index).value else index
  }

  /**
   * Row steps over a written column: after j steps the cursor is at the
   * j-th entry; a step moves on exactly while entries are left, and a
   * cursor past the last entry stays there.
   */
  lemma CursorStep(t: Type, es: seq<Entry>, j: nat)
    requires AllFit(t, es) && j <= |es|
    ensures HasNextAt(t, EncodeColumn(es), CursorAfter(es, j)).Success?
    ensures Advances(t, EncodeColumn(es), CursorAfter(es, j)) <==> j < |es|
    ensures Advanced(t, EncodeColumn(es), CursorAfter(es, j)) == CursorAfter(es, if j < |es| then j + 1 else j)
  {
    ReadColumn(t, es, j);
  }
}
