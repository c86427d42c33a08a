/**
 * Typed single-column predicates and their builders. Long and double
 * filters share one range shape whose bound accessors are gated by the
 * match type; string filters store their argument lower-cased.
 */
module Filters {
  import opened Wrappers
  import opened Bytes
  import opened Text
  import opened Columns
  import opened Errors

  datatype RangeMatch = LESS_THAN | GREATER_THAN | BETWEEN
  datatype StringMatch = IS | STARTS_WITH | ENDS_WITH | CONTAINS

  /** The match type and both bounds of a long or double filter. */
  datatype Range<T> = Range(matchType: RangeMatch, lower: T, upper: T)

  datatype Filter =
    | BooleanFilter(column: Column, value: bool)
    | DoubleFilter(column: Column, dRange: Range<real>)
    | IdFilter(column: Column, id: seq<int8>)
    | LongFilter(column: Column, lRange: Range<int64>)
    | StringFilter(column: Column, sMatch: StringMatch, text: string)

  /** The column type each kind of filter acts on. */
  function KindType(f: Filter): Type
  {
    match f
    case BooleanFilter(_, _) => BOOLEAN
    case DoubleFilter(_, _) => DOUBLE
    case IdFilter(_, _) => ID
    case LongFilter(_, _) => LONG
    case StringFilter(_, _, _) => STRING
  }

  /** The builders only ever pair a filter with a column of its own type. */
  predicate WellTyped(f: Filter)
  {
    f.column.ctype == KindType(f)
  }

  const LOWER_BOUND_UNSUPPORTED := "lessThan does not support lowerBound"
  const UPPER_BOUND_UNSUPPORTED := "greaterThan does not support upperBound"
  const BETWEEN_ORDER := "minInclusive has to be less than maxExclusive"

  /** Long.MIN_VALUE and Long.MAX_VALUE. */
  const LONG_MIN_VALUE: int64 := -0x8000_0000_0000_0000
  const LONG_MAX_VALUE: int64 := 0x7FFF_FFFF_FFFF_FFFF

  /** Double.MIN_VALUE (2^-1074) and Double.MAX_VALUE ((2^53 - 1) * 2^971). */
  const DOUBLE_MIN_VALUE: real := 1.0 / Pow2(1074) as real
  const DOUBLE_MAX_VALUE: real := ((Pow2(53) - 1) * Pow2(971)) as real

  function Pow2(n: nat): (p: nat)
    ensures p >= 1
  {
    if n == 0 then 1 else 2 * Pow2(n - 1)
  }

  /** lowerBound(): refused on a LESS_THAN filter. */
  function LowerBound<T>(r: Range<T>): Result<T, Error>
  {
    if r.matchType == LESS_THAN then Failure(Unsupported(LOWER_BOUND_UNSUPPORTED)) else Success(r.lower)
  }

  /** upperBound(): refused on a GREATER_THAN filter. */
  function UpperBound<T>(r: Range<T>): Result<T, Error>
  {
    if r.matchType == GREATER_THAN then Failure(Unsupported(UPPER_BOUND_UNSUPPORTED)) else Success(r.upper)
  }

  /** Whatever the match type, at least one bound is readable. */
  lemma SomeBoundReadable<T>(r: Range<T>)
    ensures LowerBound(r).Success? || UpperBound(r).Success?
    ensures LowerBound(r).Failure? ==> LowerBound(r).error == Unsupported(LOWER_BOUND_UNSUPPORTED)
    ensures UpperBound(r).Failure? ==> UpperBound(r).error == Unsupported(UPPER_BOUND_UNSUPPORTED)
  {
  }

  // BooleanFilter.Builder and IdFilter.Builder

  function BooleanIs(column: Column, value: bool): (f: Filter)
    requires column.ctype == BOOLEAN
    ensures WellTyped(f) && f.BooleanFilter? && f.column == column && f.value == value
  {
    BooleanFilter(column, value)
  }

  function IdIs(column: Column, id: seq<int8>): (f: Filter)
    requires column.ctype == ID
    ensures WellTyped(f) && f.IdFilter? && f.column == column && f.id == id
  {
    IdFilter(column, id)
  }

  // LongFilter.Builder

  function LongLessThan(column: Column, maxExclusive: int64): (f: Filter)
    requires column.ctype == LONG
    ensures WellTyped(f) && f.LongFilter? && f.column == column && f.lRange.matchType == LESS_THAN
    ensures UpperBound(f.lRange) == Success(maxExclusive)
    ensures LowerBound(f.lRange) == Failure(Unsupported(LOWER_BOUND_UNSUPPORTED))
    ensures f.lRange.lower == LONG_MIN_VALUE
  {
    LongFilter(column, Range(LESS_THAN, LONG_MIN_VALUE, maxExclusive))
  }

  function LongGreaterThan(column: Column, minExclusive: int64): (f: Filter)
    requires column.ctype == LONG
    ensures WellTyped(f) && f.LongFilter? && f.column == column && f.lRange.matchType == GREATER_THAN
    ensures LowerBound(f.lRange) == Success(minExclusive)
    ensures UpperBound(f.lRange) == Failure(Unsupported(UPPER_BOUND_UNSUPPORTED))
    ensures f.lRange.upper == LONG_MAX_VALUE
  {
    LongFilter(column, Range(GREATER_THAN, minExclusive, LONG_MAX_VALUE))
  }

  function LongBetween(column: Column, minInclusive: int64, maxExclusive: int64): (r: Result<Filter, Error>)
    requires column.ctype == LONG
    ensures r.Success? <==> minInclusive < maxExclusive
    ensures r.Failure? ==> r.error == IllegalArgument(BETWEEN_ORDER)
    ensures r.Success? ==> WellTyped(r.value) && r.value.LongFilter? && r.value.column == column
    ensures r.Success? ==>
      && r.value.lRange.matchType == BETWEEN
      && LowerBound(r.value.lRange) == Success(minInclusive)
      && UpperBound(r.value.lRange) == Success(maxExclusive)
  {
    if minInclusive < maxExclusive then Success(LongFilter(column, Range(BETWEEN, minInclusive, maxExclusive)))
    else Failure(IllegalArgument(BETWEEN_ORDER))
  }

  // DoubleFilter.Builder

  function DoubleLessThan(column: Column, maxExclusive: real): (f: Filter)
    requires column.ctype == DOUBLE
    ensures WellTyped(f) && f.DoubleFilter? && f.column == column && f.dRange.matchType == LESS_THAN
    ensures UpperBound(f.dRange) == Success(maxExclusive)
    ensures LowerBound(f.dRange) == Failure(Unsupported(LOWER_BOUND_UNSUPPORTED))
    ensures f.dRange.lower == DOUBLE_MIN_VALUE
  {
    DoubleFilter(column, Range(LESS_THAN, DOUBLE_MIN_VALUE, maxExclusive))
  }

  function DoubleGreaterThan(column: Column, minExclusive: real): (f: Filter)
    requires column.ctype == DOUBLE
    ensures WellTyped(f) && f.DoubleFilter? && f.column == column && f.dRange.matchType == GREATER_THAN
    ensures LowerBound(f.dRange) == Success(minExclusive)
    ensures UpperBound(f.dRange) == Failure(Unsupported(UPPER_BOUND_UNSUPPORTED))
    ensures f.dRange.upper == DOUBLE_MAX_VALUE
  {
    DoubleFilter(column, Range(GREATER_THAN, minExclusive, DOUBLE_MAX_VALUE))
  }

  function DoubleBetween(column: Column, minInclusive: real, maxExclusive: real): (r: Result<Filter, Error>)
    requires column.ctype == DOUBLE
    ensures r.Success? <==> minInclusive < maxExclusive
    ensures r.Failure? ==> r.error == IllegalArgument(BETWEEN_ORDER)
    ensures r.Success? ==> WellTyped(r.value) && r.value.DoubleFilter? && r.value.column == column
    ensures r.Success? ==>
      && r.value.dRange.matchType == BETWEEN
      && LowerBound(r.value.dRange) == Success(minInclusive)
      && UpperBound(r.value.dRange) == Success(maxExclusive)
  {
    if minInclusive < maxExclusive then Success(DoubleFilter(column, Range(BETWEEN, minInclusive, maxExclusive)))
    else Failure(IllegalArgument(BETWEEN_ORDER))
  }

  // StringFilter.Builder

  /** The shared body of is, startsWith, endsWith and contains. */
  function StringWith(column: Column, m: StringMatch, value: string): (f: Filter)
    requires column.ctype == STRING
    ensures WellTyped(f) && f.StringFilter? && f.column == column && f.sMatch == m
    ensures f.text == Lower(value) && IsLowerCase(f.text) && EqualsIgnoreCase(f.text, value)
  {
    LowerIsLowerCase(value);
    StringFilter(column, m, Lower(value))
  }

  function StringIs(column: Column, value: string): (f: Filter)
    requires column.ctype == STRING
    ensures WellTyped(f) && f.column == column && f == StringFilter(column, IS, Lower(value))
  {
    StringWith(column, IS, value)
  }

  function StringStartsWith(column: Column, value: string): (f: Filter)
    requires column.ctype == STRING
    ensures WellTyped(f) && f.column == column && f == StringFilter(column, STARTS_WITH, Lower(value))
  {
    StringWith(column, STARTS_WITH, value)
  }

  function StringEndsWith(column: Column, value: string): (f: Filter)
    requires column.ctype == STRING
    ensures WellTyped(f) && f.column == column && f == StringFilter(column, ENDS_WITH, Lower(value))
  {
    StringWith(column, ENDS_WITH, value)
  }

  function StringContains(column: Column, value: string): (f: Filter)
    requires column.ctype == STRING
    ensures WellTyped(f) && f.column == column && f == StringFilter(column, CONTAINS, Lower(value))
  {
    StringWith(column, CONTAINS, value)
  }

  /** An argument that is already lower-case is stored as given. */
  lemma LowerCaseArgumentKept(column: Column, m: StringMatch, value: string)
    requires column.ctype == STRING && IsLowerCase(value)
    ensures StringWith(column, m, value).text == value
  {
    LowerOfLowerCase(value);
  }

  /** Arguments differing only in case build the same filter. */
  lemma StringFilterIgnoresArgumentCase(column: Column, m: StringMatch, a: string, b: string)
    requires column.ctype == STRING && EqualsIgnoreCase(a, b)
    ensures StringWith(column, m, a) == StringWith(column, m, b)
  {
    assert Lower(a) == Lower(b);
  }
}
