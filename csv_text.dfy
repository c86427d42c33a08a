/**
 * The text side of the CSV store: the header line's name-to-position map and
 * the rendering of records as comma- and newline-separated text, without
 * quoting.
 */
module CsvText {
  import opened Wrappers
  import opened Text

  /** A CSV record: its fields in column order. */
  type Record = seq<string>

  /**
   * The map from lower-cased header name to position that putting every
   * name at its index, in order, builds: a repeated name keeps its last
   * position.
   */
  function HeaderMap(names: seq<string>): map<string, nat>
  {
    if names == [] then map[]
    else HeaderMap(names[..|names| - 1])[Lower(names[|names| - 1]) := |names| - 1]
  }

  /**
   * A name is a key iff some header entry lower-cases to it, and its
   * position is the last such entry.
   */
  lemma {:induction false} HeaderMapLast(names: seq<string>, key: string)
    ensures key in HeaderMap(names) <==> exists i :: 0 <= i < |names| && Lower(names[i]) == key
    ensures key in HeaderMap(names) ==>
      var i := HeaderMap(names)[key];
      && i < |names| && Lower(names[i]) == key
      && forall j :: i < j < |names| ==> Lower(names[j]) != key
  {
    if names != [] {
      var front := names[..|names| - 1];
      HeaderMapLast(front, key);
      if Lower(names[|names| - 1]) != key && key in HeaderMap(names) {
        var i := HeaderMap(front)[key];
        assert names[i] == front[i];
      }
      if exists i :: 0 <= i < |names| && Lower(names[i]) == key {
        var i :| 0 <= i < |names| && Lower(names[i]) == key;
        if i < |front| {
          assert front[i] == names[i];
        }
      }
    }
  }

  /** BufferedReader.readLine on a whole file: the text up to the first line break, or null if empty. */
  function FirstLine(content: string): (r: Option<string>)
    ensures r.Some? <==> content != ""
    ensures r.Some? ==> '\n' !in r.value && '\r' !in r.value && r.value <= content
  {
    if content == [] then None
    else if content[0] == '\n' || content[0] == '\r' then Some("")
    else
      var rest := FirstLine(content[1..]);
      Some([content[0]] + (if rest.Some? then rest.value else ""))
  }

  /** One record as written: its fields joined by commas. */
  function RenderRecord(r: Record): string
  {
    Join(',', r)
  }

  function RenderRecords(rs: seq<Record>): (lines: seq<string>)
    ensures |lines| == |rs|
    ensures forall i :: 0 <= i < |rs| ==> lines[i] == RenderRecord(rs[i])
  {
    if rs == [] then [] else RenderRecords(rs[..|rs| - 1]) + [RenderRecord(rs[|rs| - 1])]
  }

  /** What a flush appends: a line break, then the records joined by line breaks. */
  function Rendering(rs: seq<Record>): string
  {
    "\n" + Join('\n', RenderRecords(rs))
  }

  /** A field that needs no quoting: it holds neither separator. */
  predicate Plain(field: string)
  {
    ',' !in field && '\n' !in field
  }

  /**
   * Reading the appended text back: after the leading line break, cutting
   * at line breaks and then at commas gives the records again, when no
   * field holds a separator and every record has a field.
   */
  lemma RenderingSplits(rs: seq<Record>)
    requires rs != []
    requires forall i, j :: 0 <= i < |rs| && 0 <= j < |rs[i]| ==> Plain(rs[i][j])
    requires forall i :: 0 <= i < |rs| ==> rs[i] != []
    ensures Rendering(rs)[0] == '\n'
    ensures var lines := SplitOn(Rendering(rs)[1..], '\n');
      && |lines| == |rs|
      && forall i :: 0 <= i < |rs| ==> SplitOn(lines[i], ',') == rs[i]
  {
    var lines := RenderRecords(rs);
    forall i | 0 <= i < |rs|
      ensures '\n' !in lines[i] && SplitOn(lines[i], ',') == rs[i]
    {
      forall j | 0 <= j < |rs[i]|
        ensures ',' !in rs[i][j]
      {
        assert Plain(rs[i][j]);
      }
      SplitJoin(rs[i], ',');
      JoinKeepsOut(rs[i], ',', '\n');
    }
    assert Rendering(rs)[1..] == Join('\n', lines);
    SplitJoin(lines, '\n');
  }

  /** Joining adds only the separator, so a character in no piece and unequal to it is not in the join. */
  lemma {:induction false} JoinKeepsOut(xs: seq<string>, sep: char, c: char)
    requires c != sep
    requires forall i :: 0 <= i < |xs| ==> c !in xs[i]
    ensures c !in Join(sep, xs)
  {
    if |xs| > 1 {
      JoinKeepsOut(xs[1..], sep, c);
    }
  }
}
