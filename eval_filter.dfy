/**
 * Evaluation of one filter against the text of one field: the branch is
 * chosen by the filter's column type, and text that does not parse as the
 * column's type is a non-match rather than an error.
 */
module EvalFilter {
  import opened Wrappers
  import opened Bytes
  import opened Text
  import opened Columns
  import opened Filters
  import Base64

  /** The comparison shared by long and double filters. */
  function InLongRange(v: int, r: Range<int64>): bool
  {
    match r.matchType
    case LESS_THAN => v < r.upper
    case GREATER_THAN => v > r.lower
    case BETWEEN => r.lower <= v < r.upper
  }

  function InDoubleRange(v: real, r: Range<real>): bool
  {
    match r.matchType
    case LESS_THAN => v < r.upper
    case GREATER_THAN => v > r.lower
    case BETWEEN => r.lower <= v < r.upper
  }

  /** The string comparison, on the raw field text, as written: case-sensitive. */
  function MatchString(text: string, m: StringMatch, value: string): bool
  {
    match m
    case IS => text == value
    case STARTS_WITH => StartsWith(text, value)
    case ENDS_WITH => EndsWith(text, value)
    case CONTAINS => Contains(text, value)
  }

  /** EvalFilterUtil.eval: does the field text `columnValue` match `filter`? */
  function Eval(columnValue: string, filter: Filter): bool
    requires WellTyped(filter)
  {
    match filter.column.ctype
    case BOOLEAN =>
      if EqualsIgnoreCase(columnValue, "true") || EqualsIgnoreCase(columnValue, "false")
      then filter.value == ParseBoolean(columnValue)
      else false
    case DOUBLE =>
      (match ParseDouble(columnValue)
       case Some(v) => InDoubleRange(v, filter.dRange)
       case None => false)
    case ID => Base64.Encode(filter.id) == columnValue
    case LONG =>
      (match ParseLong(columnValue)
       case Some(v) => InLongRange(v, filter.lRange)
       case None => false)
    case STRING => MatchString(columnValue, filter.sMatch, filter.text)
  }

  /** The text Boolean.toString gives for `b`. */
  function BoolText(b: bool): string
  {
    if b then "true" else "false"
  }

  /** A boolean filter matches exactly the spellings of its value, in any case. */
  lemma EvalBoolean(text: string, column: Column, value: bool)
    requires column.ctype == BOOLEAN
    ensures Eval(text, BooleanIs(column, value)) <==> EqualsIgnoreCase(text, BoolText(value))
  {
    if EqualsIgnoreCase(text, "false") {
      assert LowerChar(text[0]) == 'f';
      assert !ParseBoolean(text);
    }
  }

  /** A long filter matches the texts that parse to a long inside its range. */
  lemma EvalLongParsed(text: string, f: Filter)
    requires WellTyped(f) && f.LongFilter?
    ensures Eval(text, f) <==> ParseLong(text).Some? && InLongRange(ParseLong(text).value, f.lRange)
  {
  }

  /** isLessThan(m) matches a written long v iff v < m. */
  lemma EvalLongLessThan(column: Column, m: int64, v: int64)
    requires column.ctype == LONG
    ensures Eval(LongToString(v), LongLessThan(column, m)) <==> v < m
  {
    ParseLongToString(v);
  }

  /** isGreaterThan(m) matches a written long v iff v > m. */
  lemma EvalLongGreaterThan(column: Column, m: int64, v: int64)
    requires column.ctype == LONG
    ensures Eval(LongToString(v), LongGreaterThan(column, m)) <==> v > m
  {
    ParseLongToString(v);
  }

  /** isBetween(a, b) matches a written long v iff a <= v < b. */
  lemma EvalLongBetween(column: Column, a: int64, b: int64, v: int64)
    requires column.ctype == LONG && a < b
    ensures Eval(LongToString(v), LongBetween(column, a, b).value) <==> a <= v < b
  {
    ParseLongToString(v);
  }

  /** Text that is not a long never matches a long filter. */
  lemma EvalLongUnparsable(text: string, f: Filter)
    requires WellTyped(f) && f.LongFilter? && ParseLong(text).None?
    ensures !Eval(text, f)
  {
  }

  /** A double filter matches the texts that parse inside its range. */
  lemma EvalDoubleParsed(text: string, f: Filter)
    requires WellTyped(f) && f.DoubleFilter?
    ensures Eval(text, f) <==> ParseDouble(text).Some? && InDoubleRange(ParseDouble(text).value, f.dRange)
  {
  }

  /** isBetween(a, b) on doubles matches a parsed value v iff a <= v < b. */
  lemma EvalDoubleBetween(column: Column, a: real, b: real, text: string)
    requires column.ctype == DOUBLE && a < b && ParseDouble(text).Some?
    ensures Eval(text, DoubleBetween(column, a, b).value) <==> a <= ParseDouble(text).value < b
  {
  }

  /** An id filter matches exactly the Base64 text of its id. */
  lemma EvalId(column: Column, id: seq<int8>, other: seq<int8>)
    requires column.ctype == ID
    ensures Eval(Base64.Encode(other), IdIs(column, id)) <==> other == id
  {
    if Base64.Encode(other) == Base64.Encode(id) {
      Base64.EncodeInjective(other, id);
    }
  }

  /** What each string builder matches, against the lower-cased argument. */
  lemma EvalStringBuilders(column: Column, text: string, value: string)
    requires column.ctype == STRING
    ensures Eval(text, StringIs(column, value)) <==> text == Lower(value)
    ensures Eval(text, StringStartsWith(column, value)) <==> StartsWith(text, Lower(value))
    ensures Eval(text, StringEndsWith(column, value)) <==> EndsWith(text, Lower(value))
    ensures Eval(text, StringContains(column, value)) <==> Contains(text, Lower(value))
  {
  }

  /** Field text with an upper-case letter never equals an is() filter's value. */
  lemma EvalStringIsCaseSensitive(column: Column, text: string, value: string)
    requires column.ctype == STRING && !IsLowerCase(text)
    ensures !Eval(text, StringIs(column, value))
  {
    LowerIsLowerCase(value);
  }

  /** The case-sensitive comparison rejects "ABC" for is("ABC"). */
  lemma StringIsCaseSensitiveWitness(column: Column)
    requires column.ctype == STRING
    ensures !Eval("ABC", StringIs(column, "ABC"))
  {
    assert IsUpper("ABC"[0]);
    EvalStringIsCaseSensitive(column, "ABC", "ABC");
  }

  /**
   * The comparison a case-insensitive string filter calls for: the field
   * text is lower-cased like the filter value before it is compared.
   */
  function MatchStringIgnoringCase(text: string, m: StringMatch, value: string): bool
  {
    MatchString(Lower(text), m, value)
  }

  /** Eval with the case-insensitive string comparison. */
  function EvalIgnoringCase(columnValue: string, filter: Filter): bool
    requires WellTyped(filter)
  {
    if filter.StringFilter? then MatchStringIgnoringCase(columnValue, filter.sMatch, filter.text)
    else Eval(columnValue, filter)
  }

  /** With the text lower-cased too, is() matches exactly the texts equal to its argument ignoring case. */
  lemma EvalIgnoringCaseIs(column: Column, text: string, value: string)
    requires column.ctype == STRING
    ensures EvalIgnoringCase(text, StringIs(column, value)) <==> EqualsIgnoreCase(text, value)
  {
    if EqualsIgnoreCase(text, value) {
      assert Lower(text) == Lower(value);
    }
  }

  /** With the text lower-cased too, every string builder ignores the case of both sides. */
  lemma EvalIgnoringCaseInvariant(column: Column, m: StringMatch, a: string, b: string, value: string)
    requires column.ctype == STRING && EqualsIgnoreCase(a, b)
    ensures EvalIgnoringCase(a, StringWith(column, m, value)) == EvalIgnoringCase(b, StringWith(column, m, value))
  {
    assert Lower(a) == Lower(b);
  }

  /** The case-insensitive evaluation accepts "ABC" for is("ABC"). */
  lemma EvalIgnoringCaseWitness(column: Column)
    requires column.ctype == STRING
    ensures EvalIgnoringCase("ABC", StringIs(column, "ABC"))
  {
    EvalIgnoringCaseIs(column, "ABC", "ABC");
  }
}
