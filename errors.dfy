/** The exceptions the core throws, one variant per category. */
module Errors {
  import opened Columns

  datatype Error =
    | IllegalArgument(msg: string)     // IllegalArgumentException (construction errors)
    | IllegalState(msg: string)        // IllegalStateException (resource-state errors)
    | Unsupported(msg: string)         // UnsupportedOperationException
    | NoSuchElement(msg: string)       // NoSuchElementException (iteration and null-value errors)
    | NoSuchColumn(column: Column)     // NoSuchColumnException
    | IndexOutOfBounds                 // array or buffer index outside its bounds
    | BufferOverflow                   // a put past the limit of a ByteBuffer
    | NumberFormat(input: string)      // NumberFormatException of a parse
    | NullPointer                      // dereference or unboxing of null
    | IOError(msg: string)             // IOException and UncheckedIOException

  /** The message of a NoSuchColumnException. */
  function NoSuchColumnMessage(column: Column): string
  {
    "Column " + column.name + " of type " + TypeName(column.ctype) + " not found"
  }

  /** The message names the column: different columns have different messages. */
  lemma NoSuchColumnMessageInjective(a: Column, b: Column)
    requires NoSuchColumnMessage(a) == NoSuchColumnMessage(b)
    ensures a == b
  {
    var ma, mb := NoSuchColumnMessage(a), NoSuchColumnMessage(b);
    var ta, tb := TypeName(a.ctype), TypeName(b.ctype);
    assert ma[..|ma| - 10] == "Column " + a.name + " of type " + ta;
    assert mb[..|mb| - 10] == "Column " + b.name + " of type " + tb;
    var pa, pb := "Column " + a.name + " of type " + ta, "Column " + b.name + " of type " + tb;
    assert pa == pb;
    assert pa[|pa| - 1] == ta[|ta| - 1] && pb[|pb| - 1] == tb[|tb| - 1];
    assert |ta| >= 4 ==> pa[|pa| - 4] == ta[|ta| - 4];
    assert |tb| >= 4 ==> pb[|pb| - 4] == tb[|tb| - 4];
    assert |ta| == 2 ==> pa[|pa| - 3] == ' ';
    assert |tb| == 2 ==> pb[|pb| - 3] == ' ';
    assert ta == tb;
    assert a.ctype == b.ctype;
    assert pa[7..|pa| - 9 - |ta|] == a.name;
    assert pb[7..|pb| - 9 - |tb|] == b.name;
  }
}
