/**
 * The Parquet message schema of a list of columns: every column becomes
 * one optional field of the Parquet type its column type maps to, in order.
 */
module ParquetSchema {
  import opened Wrappers
  import opened Text
  import opened Columns

  /** parquetTypeFrom: the Parquet primitive type that stores a column type. */
  function ParquetTypeFrom(t: Type): (p: string)
    ensures p in {"boolean", "double", "binary", "int64"}
    ensures ' ' !in p && ';' !in p && p != []
    ensures p == "binary" <==> t == ID || t == STRING
  {
    match t
    case BOOLEAN => "boolean"
    case DOUBLE => "double"
    case ID => "binary"
    case STRING => "binary"
    case LONG => "int64"
  }

  const HEAD := "message record {"
  const OPTIONAL := "optional "

  /** The declaration of one column, without its terminating ';'. */
  function Declaration(c: Column): string
  {
    OPTIONAL + ParquetTypeFrom(c.ctype) + " " + c.name
  }

  /** The fields of the schema: each declaration followed by ';'. */
  function Fields(cs: seq<Column>): string
  {
    if cs == [] then "" else Declaration(cs[0]) + ";" + Fields(cs[1..])
  }

  function Schema(cs: seq<Column>): string
  {
    HEAD + Fields(cs) + "}"
  }

  lemma {:induction false} FieldsAppend(a: seq<Column>, b: seq<Column>)
    ensures Fields(a + b) == Fields(a) + Fields(b)
  {
    if a == [] {
      assert a + b == b;
    } else {
      assert (a + b)[0] == a[0] && (a + b)[1..] == a[1..] + b;
      FieldsAppend(a[1..], b);
    }
  }

  lemma FieldsStep(cs: seq<Column>, i: nat)
    requires i < |cs|
    ensures Fields(cs[..i + 1]) == Fields(cs[..i]) + Declaration(cs[i]) + ";"
  {
    var c := cs[i];
    assert Fields([c]) == Declaration(c) + ";";
    FieldsAppend(cs[..i], [c]);
    assert cs[..i + 1] == cs[..i] + [c];
  }

  lemma BuilderStep(cs: seq<Column>, i: nat)
    requires i < |cs|
    ensures HEAD + Fields(cs[..i + 1]) == HEAD + Fields(cs[..i]) + Declaration(cs[i]) + ";"
  {
    FieldsStep(cs, i);
  }

  /** schemaFrom, appending one field per column to a builder. */
  method SchemaFrom(columns: seq<Column>) returns (schema: string)
    ensures schema == Schema(columns)
  {
    var sb := HEAD;
    for i := 0 to |columns|
      invariant sb == HEAD + Fields(columns[..i])
    {
      var c := columns[i];
      BuilderStep(columns, i);
      sb := sb + Declaration(c) + ";";
    }
    assert columns[..|columns|] == columns;
    schema := sb + "}";
  }

  /** An empty column list gives an empty message. */
  lemma EmptySchema()
    ensures Schema([]) == "message record {}"
  {
  }

  /** The (type, name) pairs a schema declares, in order. */
  function Declared(cs: seq<Column>): (d: seq<(string, string)>)
    ensures |d| == |cs|
    ensures forall i :: 0 <= i < |cs| ==> d[i] == (ParquetTypeFrom(cs[i].ctype), cs[i].name)
  {
    if cs == [] then [] else [(ParquetTypeFrom(cs[0].ctype), cs[0].name)] + Declared(cs[1..])
  }

  /** The declarations of the columns, in order, without their ';'. */
  function Declarations(cs: seq<Column>): (ds: seq<string>)
    ensures |ds| == |cs|
    ensures forall i :: 0 <= i < |cs| ==> ds[i] == Declaration(cs[i])
  {
    if cs == [] then [] else [Declaration(cs[0])] + Declarations(cs[1..])
  }

  /** The text up to the first space. */
  function UpToSpace(s: string): (t: string)
    ensures |t| <= |s| && t == s[..|t|] && ' ' !in t
    ensures |t| < |s| ==> s[|t|] == ' '
  {
    if s == [] || s[0] == ' ' then "" else [s[0]] + UpToSpace(s[1..])
  }

  /** Reads "optional <type> <name>" back as (type, name). */
  function ReadDeclaration(d: string): Option<(string, string)>
  {
    if !StartsWith(d, OPTIONAL) then None
    else
      var rest := d[|OPTIONAL|..];
      var t := UpToSpace(rest);
      if |t| == |rest| then None else Some((t, rest[|t| + 1..]))
  }

  function ReadDeclarations(ds: seq<string>): Option<seq<(string, string)>>
  {
    if ds == [] then Some([])
    else match (ReadDeclaration(ds[0]), ReadDeclarations(ds[1..]))
      case (Some(d), Some(rest)) => Some([d] + rest)
      case _ => None
  }

  /** Reads a schema back into its declared (type, name) pairs. */
  function ReadSchema(s: string): Option<seq<(string, string)>>
  {
    if !(StartsWith(s, HEAD) && |s| > |HEAD| && s[|s| - 1] == '}') then None
    else
      var parts := SplitOn(s[|HEAD|..|s| - 1], ';');
      if parts[|parts| - 1] != "" then None else ReadDeclarations(parts[..|parts| - 1])
  }

  lemma UpToSpaceOf(t: string, rest: string)
    requires ' ' !in t
    ensures UpToSpace(t + " " + rest) == t
  {
    if t != [] {
      assert (t + " " + rest)[1..] == t[1..] + " " + rest;
      assert ' ' !in t[1..];
      UpToSpaceOf(t[1..], rest);
      assert [t[0]] + t[1..] == t;
    }
  }

  lemma ReadDeclarationOf(c: Column)
    ensures ReadDeclaration(Declaration(c)) == Some((ParquetTypeFrom(c.ctype), c.name))
  {
    var d := Declaration(c);
    var p := ParquetTypeFrom(c.ctype);
    assert d[..|OPTIONAL|] == OPTIONAL;
    assert d[|OPTIONAL|..] == p + " " + c.name;
    UpToSpaceOf(p, c.name);
    assert (p + " " + c.name)[|p| + 1..] == c.name;
  }

  /** Cutting the fields at ';' gives the declarations, then an empty tail. */
  lemma {:induction false} SplitFields(cs: seq<Column>)
    requires forall i :: 0 <= i < |cs| ==> ';' !in cs[i].name
    ensures SplitOn(Fields(cs), ';') == Declarations(cs) + [""]
  {
    if cs != [] {
      var d := Declaration(cs[0]);
      assert ';' !in d;
      SplitOnAppend(d, ';', Fields(cs[1..]));
      SplitFields(cs[1..]);
    }
  }

  lemma {:induction false} ReadDeclarationsOf(cs: seq<Column>)
    ensures ReadDeclarations(Declarations(cs)) == Some(Declared(cs))
  {
    if cs != [] {
      var ds := Declarations(cs);
      ReadDeclarationOf(cs[0]);
      ReadDeclarationsOf(cs[1..]);
      assert ds[1..] == Declarations(cs[1..]);
    }
  }

  /**
   * The schema declares every column, in order, with its Parquet type and
   * its name as given, as long as no name holds the ';' that ends a field.
   */
  lemma ReadSchemaFrom(cs: seq<Column>)
    requires forall i :: 0 <= i < |cs| ==> ';' !in cs[i].name
    ensures ReadSchema(Schema(cs)) == Some(Declared(cs))
  {
    var s := Schema(cs);
    assert s[|HEAD|..|s| - 1] == Fields(cs);
    SplitFields(cs);
    ReadDeclarationsOf(cs);
  }
}
