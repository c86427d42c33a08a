/**
 * Column descriptors: a typed, named attribute whose name is lower-cased
 * when it is built and must not be blank. Two columns are the same when
 * their names and types are.
 */
module Columns {
  import opened Wrappers
  import opened Text

  datatype Type = BOOLEAN | DOUBLE | ID | LONG | STRING

  function TypeName(t: Type): string
  {
    match t
    case BOOLEAN => "BOOLEAN"
    case DOUBLE => "DOUBLE"
    case ID => "ID"
    case LONG => "LONG"
    case STRING => "STRING"
  }

  datatype Column = Column(name: string, ctype: Type)

  /** The shape every built column has. */
  predicate WellFormed(c: Column)
  {
    !IsBlank(c.name) && IsLowerCase(c.name)
  }

  /** The BaseColumn constructor: rejects a blank name, keeps it as given. */
  function NewBaseColumn(name: string, t: Type): (r: Result<Column, string>)
    ensures r.Success? <==> !IsBlank(name)
    ensures r.Success? ==> r.value.name == name && r.value.ctype == t
    ensures r.Failure? ==> r.error == "Name must not be blank"
  {
    if IsBlank(name) then Failure("Name must not be blank") else Success(Column(name, t))
  }

  /** The shared body of the five factories: lowercase, then build. */
  function ForType(name: string, t: Type): (r: Result<Column, string>)
    ensures r.Success? <==> !IsBlank(name)
    ensures r.Success? ==> WellFormed(r.value) && r.value.ctype == t
    ensures r.Success? ==> r.value.name == Lower(name) && EqualsIgnoreCase(r.value.name, name)
    ensures r.Failure? ==> r.error == "Name must not be blank"
  {
    LowerPreservesBlank(name);
    LowerIsLowerCase(name);
    NewBaseColumn(Lower(name), t)
  }

  function ForBoolean(name: string): (r: Result<Column, string>)
    ensures r.Success? <==> !IsBlank(name)
    ensures r.Success? ==> WellFormed(r.value) && r.value == Column(Lower(name), BOOLEAN)
  {
    ForType(name, BOOLEAN)
  }

  function ForDouble(name: string): (r: Result<Column, string>)
    ensures r.Success? <==> !IsBlank(name)
    ensures r.Success? ==> WellFormed(r.value) && r.value == Column(Lower(name), DOUBLE)
  {
    ForType(name, DOUBLE)
  }

  function ForId(name: string): (r: Result<Column, string>)
    ensures r.Success? <==> !IsBlank(name)
    ensures r.Success? ==> WellFormed(r.value) && r.value == Column(Lower(name), ID)
  {
    ForType(name, ID)
  }

  function ForLong(name: string): (r: Result<Column, string>)
    ensures r.Success? <==> !IsBlank(name)
    ensures r.Success? ==> WellFormed(r.value) && r.value == Column(Lower(name), LONG)
  {
    ForType(name, LONG)
  }

  function ForString(name: string): (r: Result<Column, string>)
    ensures r.Success? <==> !IsBlank(name)
    ensures r.Success? ==> WellFormed(r.value) && r.value == Column(Lower(name), STRING)
  {
    ForType(name, STRING)
  }

  /** Names differing only in case give the same column. */
  lemma FactoryIgnoresCase(a: string, b: string, t: Type)
    requires EqualsIgnoreCase(a, b)
    ensures ForType(a, t) == ForType(b, t)
  {
    assert Lower(a) == Lower(b);
    LowerPreservesBlank(a);
    LowerPreservesBlank(b);
  }

  /** Building from a built column's name gives that column back. */
  lemma FactoryIdempotent(c: Column)
    requires WellFormed(c)
    ensures ForType(c.name, c.ctype) == Success(c)
  {
    LowerOfLowerCase(c.name);
  }
}
