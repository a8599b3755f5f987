/** The streaming exporter: a formatter that appends rows to its text as they arrive. */
module Export {
  import opened Text
  import opened Lexer
  import opened Json
  import opened SqlText
  import opened Csv

  datatype Format = CsvFormat | JsonFormat | SqlFormat

  // ------------------------------ JSON ----------------------------------

  /** `Map::insert`: a repeated key keeps its place and takes the new value. */
  function Put(fields: seq<Member>, key: string, v: Json): seq<Member> {
    if fields == [] then [Member(key, v)]
    else if fields[0].key == key then [Member(key, v)] + fields[1..]
    else [fields[0]] + Put(fields[1..], key, v)
  }

  function PutAll(fields: seq<Member>, columns: seq<string>, row: seq<Json>): seq<Member>
    decreases |columns|
  {
    if columns == [] || row == [] then fields
    else PutAll(Put(fields, columns[0], row[0]), columns[1..], row[1..])
  }

  function JsonRow(columns: seq<string>, row: seq<Json>): string { JsonText(Obj(PutAll([], columns, row))) }

  function JsonRows(columns: seq<string>, rows: seq<seq<Json>>): string {
    if rows == [] then []
    else
      var n := |rows| - 1;
      JsonRows(columns, rows[..n]) + (if n == 0 then "[\n  " else ",\n  ") + JsonRow(columns, rows[n])
  }

  // ------------------------------ the formatter -------------------------

  /** The text after the rows so far. */
  function Body(format: Format, kind: Kind, table: string, columns: seq<string>, rows: seq<seq<Json>>): string {
    match format
    case CsvFormat => CsvExport(columns, rows)
    case JsonFormat => JsonRows(columns, rows)
    case SqlFormat => SqlExport(kind, table, columns, rows)
  }

  /** The finished text. */
  function Finished(format: Format, kind: Kind, table: string, columns: seq<string>, rows: seq<seq<Json>>): string {
    Body(format, kind, table, columns, rows)
    + (if format == JsonFormat then (if rows == [] then "[]" else "\n]") else "")
  }

  lemma {:induction false} CsvLinesAppend(rows: seq<seq<Json>>, row: seq<Json>)
    ensures CsvLines(rows + [row]) == CsvLines(rows) + CsvLine(Rendered(row))
  {
    if rows == [] {
      assert rows + [row] == [row];
      assert CsvLines([row]) == CsvLine(Rendered(row)) + CsvLines([row][1..]);
    } else {
      SliceConcat(rows, [row], 1);
      CsvLinesAppend(rows[1..], row);
    }
  }

  lemma {:induction false} SqlExportAppend(
      kind: Kind, table: string, columns: seq<string>, rows: seq<seq<Json>>, row: seq<Json>)
    ensures SqlExport(kind, table, columns, rows + [row])
         == SqlExport(kind, table, columns, rows) + Insert(kind, table, columns, row) + ";\n"
  {
    hide Insert;
    if rows == [] {
      assert rows + [row] == [row];
      assert [row][1..] == [];
    } else {
      SliceConcat(rows, [row], 1);
      SqlExportAppend(kind, table, columns, rows[1..], row);
    }
  }

  /** What one more row adds. */
  function RowText(
      format: Format, kind: Kind, columns: seq<string>, insertHead: string, n: nat, row: seq<Json>): string
  {
    match format
    case CsvFormat => CsvLine(Rendered(row))
    case JsonFormat => (if n == 0 then "[\n  " else ",\n  ") + JsonRow(columns, row)
    case SqlFormat => insertHead + Join(Literals(kind, row), ", ") + ");\n"
  }

  /** The text when the header is out. */
  function Started(format: Format, kind: Kind, table: string, columns: seq<string>, rows: seq<seq<Json>>): string {
    if format == CsvFormat && rows == [] then CsvLine(columns) else Body(format, kind, table, columns, rows)
  }

  lemma StatementEnds(e: string, head: string, values: string)
    ensures e + (head + values + ")") + ";\n" == e + (head + values + ");\n")
  {
    assert ")" + ";\n" == ");\n";
    assert head + values + ")" + ";\n" == head + values + (")" + ";\n");
  }

  lemma BodyAppend(
      format: Format, kind: Kind, table: string, columns: seq<string>, rows: seq<seq<Json>>, row: seq<Json>)
    ensures Started(format, kind, table, columns, rows + [row])
         == Started(format, kind, table, columns, rows)
          + RowText(format, kind, columns, InsertHead(kind, table, columns), |rows|, row)
  {
    hide CsvLine, JsonRow, InsertHead, Join, SqlExport, CsvLines, Literals, Rendered;
    match format
    case CsvFormat =>
      CsvLinesAppend(rows, row);
      NoLines();
      assert CsvLine(columns) + [] == CsvLine(columns);
    case JsonFormat =>
      assert (rows + [row])[..|rows|] == rows;
    case SqlFormat =>
      SqlExportAppend(kind, table, columns, rows, row);
      StatementEnds(SqlExport(kind, table, columns, rows), InsertHead(kind, table, columns),
        Join(Literals(kind, row), ", "));
  }

  lemma NoLines()
    ensures CsvLines([]) == []
  {
  }

  class Formatter {
    const format: Format
    const kind: Kind
    const table: string
    var columns: seq<string>
    /** What every INSERT of the export begins with. */
    var insertHead: string
    var s: string
    var rows: nat

    constructor (format: Format, kind: Kind, table: string)
      ensures this.format == format && this.kind == kind && this.table == table
      ensures s == [] && rows == 0
    {
      this.format, this.kind, this.table := format, kind, table;
      columns, insertHead, s, rows := [], [], [], 0;
    }

    /** The text is that of a header for `names` and the rows `done`. */
    ghost predicate Holds(names: seq<string>, done: seq<seq<Json>>)
      reads this
    {
      && columns == names && rows == |done|
      && (format == SqlFormat ==> insertHead == InsertHead(kind, table, names))
      && s == Started(format, kind, table, names, done)
    }

    method Columns(names: seq<string>)
      requires s == [] && rows == 0
      modifies this
      ensures Holds(names, [])
    {
      match format {
        case CsvFormat => s := s + Join(Escaped(names), ",") + "\r\n";
        case JsonFormat =>
        case SqlFormat => insertHead := InsertHead(kind, table, names);
      }
      columns := names;
    }

    method Row(row: seq<Json>, ghost done: seq<seq<Json>>)
      requires Holds(columns, done)
      modifies this
      ensures columns == old(columns) && Holds(columns, done + [row])
    {
      hide Started, Insert, InsertHead, CsvLine, JsonRow, Join;
      BodyAppend(format, kind, table, columns, done, row);
      match format {
        case CsvFormat =>
          s := s + CsvLine(Rendered(row));
        case JsonFormat =>
          s := s + (if rows == 0 then "[\n  " else ",\n  ");
          s := s + JsonRow(columns, row);
        case SqlFormat =>
          s := s + insertHead + Join(Literals(kind, row), ", ") + ");\n";
      }
      rows := rows + 1;
    }

    method Finish(ghost done: seq<seq<Json>>) returns (text: string)
      requires (done == [] && s == [] && rows == 0) || (done != [] && Holds(columns, done))
      ensures text == Finished(format, kind, table, columns, done)
    {
      text := s;
      if format == JsonFormat {
        text := text + (if rows == 0 then "[]" else "\n]");
      }
    }
  }

  // ------------------------------ the run -------------------------------

  /** What the row stream yields: a decoded row or an error. */
  datatype Fetched = Row(cells: seq<Json>) | Failed

  /** The rows an export takes: at most `limit`; an error met on the way, even on the row after the
      last, fails the export. */
  function Taken(stream: seq<Fetched>, limit: nat): Option<seq<seq<Json>>> {
    if stream == [] then Some([])
    else if stream[0].Failed? then None
    else if limit == 0 then Some([])
    else After([stream[0].cells], Taken(stream[1..], limit - 1))
  }

  /** It fails exactly when one of the first rows, or the one after them, is an error; else those are all it takes. */
  lemma {:induction false} TakenIs(stream: seq<Fetched>, limit: nat)
    ensures Taken(stream, limit).Some? <==> forall k :: 0 <= k < |stream| && k <= limit ==> !stream[k].Failed?
    ensures Taken(stream, limit).Some? ==>
      var rows := Taken(stream, limit).value;
      && |rows| == (if limit < |stream| then limit else |stream|)
      && forall k :: 0 <= k < |rows| ==> stream[k] == Row(rows[k])
    decreases |stream|
  {
    if stream != [] && !stream[0].Failed? && limit > 0 {
      var rest := stream[1..];
      TakenIs(rest, limit - 1);
      assert forall k :: 1 <= k < |stream| ==> stream[k] == rest[k - 1];
      assert forall k :: 0 <= k < |rest| ==> rest[k] == stream[k + 1];
    }
  }

  function After(done: seq<seq<Json>>, rest: Option<seq<seq<Json>>>): Option<seq<seq<Json>>> {
    match rest case None => None case Some(rows) => Some(done + rows)
  }

  lemma AfterTwice(a: seq<seq<Json>>, b: seq<seq<Json>>, rest: Option<seq<seq<Json>>>)
    ensures After(a, After(b, rest)) == After(a + b, rest)
  {
    if rest.Some? { assert a + (b + rest.value) == a + b + rest.value; }
  }

  lemma AfterNone(rest: Option<seq<seq<Json>>>)
    ensures After([], rest) == rest
  {
    if rest.Some? { assert [] + rest.value == rest.value; }
  }

  method RunExport(format: Format, kind: Kind, table: string, names: seq<string>, stream: seq<Fetched>, limit: nat)
      returns (r: Option<(string, nat)>)
    ensures r.Some? <==> Taken(stream, limit).Some?
    ensures r.Some? ==> var rows := Taken(stream, limit).value;
      r.value == (Finished(format, kind, table, names, rows), |rows|)
  {
    hide Finished, Body;
    var out := new Formatter(format, kind, table);
    ghost var done: seq<seq<Json>> := [];
    var i := 0;
    assert stream[0..] == stream;
    AfterNone(Taken(stream, limit));
    while i < |stream|
      invariant 0 <= i <= |stream| && |done| == i <= limit && fresh(out)
      invariant out.format == format && out.kind == kind && out.table == table
      invariant if i == 0 then out.s == [] && out.rows == 0 else out.columns == names && out.Holds(names, done)
      invariant Taken(stream, limit) == After(done, Taken(stream[i..], limit - i))
    {
      if stream[i].Failed? {
        return None;
      }
      if out.rows >= limit {
        assert out.Holds(names, done) ==> out.rows == |done|;
        break;
      }
      if out.rows == 0 {
        out.Columns(names);
      }
      out.Row(stream[i].cells, done);
      assert stream[i..][1..] == stream[i + 1..];
      if i < limit {
        AfterTwice(done, [stream[i].cells], Taken(stream[i + 1..], limit - i - 1));
      }
      done := done + [stream[i].cells];
      i := i + 1;
    }
    assert Taken(stream[i..], limit - i) == Some([]);
    assert done + [] == done;
    ghost var columns := out.columns;
    NoColumns(format, kind, table, columns, names, done);
    var text := out.Finish(done);
    r := Some((text, out.rows));
  }

  /** Without rows the columns do not show. */
  lemma NoColumns(format: Format, kind: Kind, table: string, a: seq<string>, b: seq<string>, rows: seq<seq<Json>>)
    ensures rows == [] ==> Finished(format, kind, table, a, rows) == Finished(format, kind, table, b, rows)
  {
  }
}
