/** CSV text of exported rows, and a reader for section 2 of RFC 4180. */
module Csv {
  import opened Text
  import opened Quoting
  import opened Json
  import opened SqlText

  /** `render_cell`: a value decoded from binary is shown by its size. */
  function RenderCell(v: Json): string {
    match v
    case Null => ""
    case Bool(b) => if b then "true" else "false"
    case Number(text) => text
    case Str(s) => s
    case Arr(_) => JsonText(v)
    case Obj(fields) =>
      if Get(fields, "__type") == Some(Str("bytes")) then
        var size := match Get(fields, "size") case Some(n) => n case None => Null;
        "<binary " + JsonText(size) + " bytes>"
      else JsonText(v)
  }

  predicate IsBreaking(c: char) { c == ',' || c == '"' || c == '\n' || c == '\r' }

  function CsvEscape(s: string): string {
    if exists i :: 0 <= i < |s| && IsBreaking(s[i]) then Quoted('"', s) else s
  }

  function Escaped(cells: seq<string>): (r: seq<string>)
    ensures |r| == |cells|
  {
    seq(|cells|, i requires 0 <= i < |cells| => CsvEscape(cells[i]))
  }

  function CsvLine(cells: seq<string>): string { Join(Escaped(cells), ",") + "\r\n" }

  function Rendered(row: seq<Json>): (r: seq<string>)
    ensures |r| == |row|
  {
    seq(|row|, i requires 0 <= i < |row| => RenderCell(row[i]))
  }

  function CsvLines(rows: seq<seq<Json>>): string {
    if rows == [] then [] else CsvLine(Rendered(rows[0])) + CsvLines(rows[1..])
  }

  /** The header goes out with the first row. */
  function CsvExport(columns: seq<string>, rows: seq<seq<Json>>): string {
    if rows == [] then [] else CsvLine(columns) + CsvLines(rows)
  }

  // ------------------------------ the reader ----------------------------

  /** Of a field without quotes. */
  predicate InField(c: char) { c != ',' && c != '"' && c != '\n' && c != '\r' }

  function TextLen(s: string): (n: nat)
    ensures n <= |s|
  {
    if s == [] || !InField(s[0]) then 0 else 1 + TextLen(s[1..])
  }

  /** A field and its length: escaped when it opens with a quote. */
  function ReadField(s: string): (r: Option<(string, nat)>)
    ensures r.Some? ==> r.value.1 <= |s|
  {
    if s != [] && s[0] == '"' then
      match ReadQuoted('"', s[1..], false)
      case None => None
      case Some((text, n)) =>
        ReadWithin('"', s[1..]);
        Some((text, n + 1))
    else Some((s[..TextLen(s)], TextLen(s)))
  }

  lemma {:induction false} ReadWithin(q: char, s: string)
    ensures ReadQuoted(q, s, false).Some? ==> ReadQuoted(q, s, false).value.1 <= |s|
    decreases |s|
  {
    if s != [] {
      ReadWithin(q, s[1..]);
      if |s| > 1 {
        ReadWithin(q, s[2..]);
      }
    }
  }

  /** A record and its length, line break included. */
  function ReadRecord(s: string): (r: Option<(seq<string>, nat)>)
    ensures r.Some? ==> r.value.1 <= |s| && (s != [] ==> r.value.1 > 0)
    decreases |s|, 1
  {
    match ReadField(s)
    case None => None
    case Some((text, n)) => RecordAfter(s, text, n)
  }

  /** After the first field, of `n` characters. */
  function RecordAfter(s: string, text: string, n: nat): (r: Option<(seq<string>, nat)>)
    requires n <= |s|
    ensures r.Some? ==> r.value.1 <= |s| && (s != [] ==> r.value.1 > 0)
    decreases |s|, 0
  {
    if n == |s| then Some(([text], n))
    else if s[n] == ',' then
      match ReadRecord(s[n + 1..])
      case None => None
      case Some((more, k)) => Some(([text] + more, n + 1 + k))
    else if |s| > n + 1 && s[n] == '\r' && s[n + 1] == '\n' then Some(([text], n + 2))
    else None
  }

  function ReadCsv(s: string): Option<seq<seq<string>>>
    decreases |s|
  {
    if s == [] then Some([])
    else
      match ReadRecord(s)
      case None => None
      case Some((record, n)) =>
        match ReadCsv(s[n..])
        case None => None
        case Some(rest) => Some([record] + rest)
  }

  // ------------------------------ round trip ----------------------------

  predicate AtFieldEnd(post: string) { post != [] && (post[0] == ',' || post[0] == '\r') }

  lemma {:induction false} TextLenIs(s: string, post: string)
    requires AtFieldEnd(post) && forall i :: 0 <= i < |s| ==> !IsBreaking(s[i])
    ensures TextLen(s + post) == |s|
  {
    if s == [] {
      assert s + post == post;
    } else {
      SliceConcat(s, post, 1);
      TextLenIs(s[1..], post);
    }
  }

  lemma EscapedReadsBack(x: string, post: string)
    requires AtFieldEnd(post)
    ensures var t := Quoted('"', x); ReadField(t + post) == Some((x, |t|))
  {
    hide ReadQuoted, Doubled;
    var s := Quoted('"', x) + post;
    assert s[1..] == Doubled('"', x) + ['"'] + post;
    ReadsBack('"', x, post);
  }

  lemma BareReadsBack(x: string, post: string)
    requires AtFieldEnd(post) && forall i :: 0 <= i < |x| ==> !IsBreaking(x[i])
    ensures ReadField(x + post) == Some((x, |x|))
  {
    hide ReadQuoted, TextLen;
    TextLenIs(x, post);
    var s := x + post;
    assert s[0] == if x == [] then post[0] else x[0];
    assert s[..|x|] == x;
  }

  lemma FieldReadsBack(x: string, post: string)
    requires AtFieldEnd(post)
    ensures ReadField(CsvEscape(x) + post) == Some((x, |CsvEscape(x)|))
  {
    hide ReadField, Quoted, IsBreaking;
    if i :| 0 <= i < |x| && IsBreaking(x[i]) {
      EscapedReadsBack(x, post);
    } else {
      BareReadsBack(x, post);
    }
  }

  lemma LineUnfold(cells: seq<string>)
    requires cells != []
    ensures |cells| == 1 ==> CsvLine(cells) == CsvEscape(cells[0]) + "\r\n"
    ensures |cells| > 1 ==> CsvLine(cells) == CsvEscape(cells[0]) + ("," + CsvLine(cells[1..]))
  {
    hide CsvEscape;
    var all := Escaped(cells);
    if |cells| > 1 {
      assert all[1..] == Escaped(cells[1..]);
      assert Join(all, ",") == all[0] + "," + Join(all[1..], ",");
    }
  }

  lemma ReadsLast(s: string, cell: string, n: nat)
    requires ReadField(s) == Some((cell, n)) && n + 2 <= |s| && s[n] == '\r' && s[n + 1] == '\n'
    ensures ReadRecord(s) == Some(([cell], n + 2))
  {
    hide ReadField;
  }

  lemma ReadsNext(s: string, cell: string, n: nat, more: seq<string>, k: nat)
    requires ReadField(s) == Some((cell, n)) && n < |s| && s[n] == ',' && ReadRecord(s[n + 1..]) == Some((more, k))
    ensures ReadRecord(s) == Some(([cell] + more, n + 1 + k))
  {
    hide ReadField;
    assert ReadRecord(s) == RecordAfter(s, cell, n);
  }

  lemma {:induction false} RecordReadsBack(cells: seq<string>, post: string)
    requires cells != []
    ensures ReadRecord(CsvLine(cells) + post) == Some((cells, |CsvLine(cells)|))
    decreases |cells|
  {
    hide CsvEscape, ReadField, ReadRecord, CsvLine;
    var first := CsvEscape(cells[0]);
    LineUnfold(cells);
    if |cells| == 1 {
      FieldReadsBack(cells[0], "\r\n" + post);
      ReadsLast(first + ("\r\n" + post), cells[0], |first|);
      assert first + "\r\n" + post == first + ("\r\n" + post);
      assert cells == [cells[0]];
    } else {
      var line := CsvLine(cells[1..]);
      FieldReadsBack(cells[0], "," + (line + post));
      RecordReadsBack(cells[1..], post);
      var t := first + ("," + (line + post));
      assert t[|first| + 1..] == line + post;
      ReadsNext(t, cells[0], |first|, cells[1..], |line|);
      assert first + ("," + line) + post == t;
      assert cells == [cells[0]] + cells[1..];
    }
  }

  function RenderedRows(rows: seq<seq<Json>>): (r: seq<seq<string>>)
    ensures |r| == |rows|
  {
    seq(|rows|, i requires 0 <= i < |rows| => Rendered(rows[i]))
  }

  lemma LineThenRest(cells: seq<string>, post: string)
    requires cells != []
    ensures ReadCsv(CsvLine(cells) + post) ==
      match ReadCsv(post) case None => None case Some(rest) => Some([cells] + rest)
  {
    hide ReadRecord;
    RecordReadsBack(cells, post);
    var s := CsvLine(cells) + post;
    assert s[|CsvLine(cells)|..] == post;
  }

  lemma {:induction false} LinesReadBack(rows: seq<seq<Json>>)
    requires forall row | row in rows :: row != []
    ensures ReadCsv(CsvLines(rows)) == Some(RenderedRows(rows))
  {
    hide CsvLine, Rendered;
    if rows == [] {
      assert RenderedRows(rows) == [];
    } else {
      assert forall row | row in rows[1..] :: row in rows;
      LinesReadBack(rows[1..]);
      assert rows[0] in rows && Rendered(rows[0]) != [];
      LineThenRest(Rendered(rows[0]), CsvLines(rows[1..]));
      assert RenderedRows(rows) == [Rendered(rows[0])] + RenderedRows(rows[1..]);
    }
  }

  /** Reading an export gives back its header and the text of every cell, whatever they contain. */
  lemma ExportReadsBack(columns: seq<string>, rows: seq<seq<Json>>)
    requires columns != [] && rows != [] && forall row | row in rows :: |row| == |columns|
    ensures ReadCsv(CsvExport(columns, rows)) == Some([columns] + RenderedRows(rows))
  {
    LineThenRest(columns, CsvLines(rows));
    LinesReadBack(rows);
  }
}
