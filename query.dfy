/**
 * Queries: a source path, the selected columns and the filters, combined
 * either with ALL_OF (every filter must match) or AT_LEAST_ONE (some filter
 * must match). A query is assembled by a builder that collects columns in a
 * set and filters in a list.
 */
module Queries {
  import opened Wrappers
  import opened Columns
  import opened Errors
  import opened Filters

  datatype QueryType = ALL_OF | AT_LEAST_ONE

  datatype Query = Query(filePath: string, filters: seq<Filter>, columns: set<Column>, queryType: QueryType)

  const NO_COLUMN := "At least one column has to be selected"

  /** Every filter's column is among the selected columns. */
  predicate FiltersSelected(filters: seq<Filter>, columns: set<Column>)
  {
    forall i :: 0 <= i < |filters| ==> filters[i].column in columns
  }

  class Builder {
    const filePath: string
    var columns: set<Column>
    var filters: seq<Filter>

    /** The invariant select and filter keep: a filtered column is a selected one. */
    predicate Valid()
      reads this
    {
      FiltersSelected(filters, columns)
    }

    /** Query.from: nothing selected, no filter. */
    constructor From(filePath: string)
      ensures Valid()
      ensures this.filePath == filePath && columns == {} && filters == []
    {
      this.filePath := filePath;
      columns := {};
      filters := [];
    }

    /** Adds the columns to the set: a column selected twice is kept once. */
    method Select(cs: seq<Column>)
      requires Valid()
      modifies this
      ensures Valid()
      ensures columns == old(columns) + set i | 0 <= i < |cs| :: cs[i]
      ensures filters == old(filters)
    {
      columns := columns + set i | 0 <= i < |cs| :: cs[i];
    }

    /** Appends the filter and selects its column. */
    method Filter(f: Filter)
      requires Valid()
      modifies this
      ensures Valid()
      ensures filters == old(filters) + [f]
      ensures columns == old(columns) + {f.column}
    {
      columns := columns + {f.column};
      filters := filters + [f];
    }

    /** ensureAtLeastOneColumn. */
    function EnsureAtLeastOneColumn(): (r: Outcome<Error>)
      reads this
      ensures r.Fail? <==> columns == {}
      ensures r.Fail? ==> r.error == IllegalArgument(NO_COLUMN)
    {
      if columns == {} then Fail(IllegalArgument(NO_COLUMN)) else Pass
    }

    method Build(t: QueryType) returns (r: Result<Query, Error>)
      requires Valid()
      ensures r.Failure? <==> columns == {}
      ensures r.Failure? ==> r.error == IllegalArgument(NO_COLUMN)
      ensures r.Success? ==> r.value == Query(filePath, filters, columns, t)
      ensures filters != [] ==> r.Success?
    {
      if filters != [] {
        assert filters[0].column in columns;
      }
      var ok := EnsureAtLeastOneColumn();
      if ok.Fail? {
        return Failure(ok.error);
      }
      return Success(Query(filePath, filters, columns, t));
    }

    /** allOf: a query that matches when every filter does. */
    method AllOf() returns (r: Result<Query, Error>)
      requires Valid()
      ensures r.Failure? <==> columns == {}
      ensures r.Failure? ==> r.error == IllegalArgument(NO_COLUMN)
      ensures r.Success? ==> r.value == Query(filePath, filters, columns, ALL_OF)
      ensures filters != [] ==> r.Success?
    {
      r := Build(ALL_OF);
    }

    /** atLeastOne: a query that matches when some filter does. */
    method AtLeastOne() returns (r: Result<Query, Error>)
      requires Valid()
      ensures r.Failure? <==> columns == {}
      ensures r.Failure? ==> r.error == IllegalArgument(NO_COLUMN)
      ensures r.Success? ==> r.value == Query(filePath, filters, columns, AT_LEAST_ONE)
      ensures filters != [] ==> r.Success?
    {
      r := Build(AT_LEAST_ONE);
    }
  }
}
