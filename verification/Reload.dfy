/** Which SQL exports split into their rows: those whose cells stay within their quotes. */
module Reload {
  import opened Text
  import opened Lexer
  import opened LexerLaws
  import opened Split
  import opened Quoting
  import opened Json
  import opened Segments
  import opened SqlText
  import opened Overrun

  /** No user's own document that passes for a binary cell, with a quote or a backslash in its base64 text. */
  predicate Printable(v: Json) {
    BytesMarker(v).Some? ==> '\'' !in BytesMarker(v).value && '\\' !in BytesMarker(v).value
  }

  predicate RowPrintable(row: seq<Json>) { forall v | v in row :: Printable(v) }

  /** But for such documents, only the text of a cell can break out of its quotes, and only on MySQL. */
  lemma BadIsText(kind: Kind, v: Json)
    requires Printable(v) && !CellOk(kind, v)
    ensures kind == Mysql && CellText(v).Some? && !EscapesPaired('\'', CellText(v).value)
  {
    hide JsonText, EscapesPaired, Contained, Base64Decode;
    if v.Obj? && BytesMarker(v).Some? {
      NoQuoteIsContained('\'', BytesMarker(v).value, kind == Mysql);
    } else if CellText(v).Some? {
      TextIsQuoted(kind, v);
    }
  }

  // ------------------------------ a row around its first bad cell -------

  function CellBits(v: Json): seq<Bit> {
    match v
    case Null => [Gap("NULL")]
    case Bool(b) => [Gap(if b then "TRUE" else "FALSE")]
    case Number(text) => [Gap(text)]
    case Str(s) => [Cell(s)]
    case _ =>
      match BytesMarker(v)
      case Some(b64) => [Gap("FROM_BASE64("), Cell(b64), Gap(")")]
      case None => [Cell(JsonText(v))]
  }

  /** What follows a cell in a row. */
  function RowBits(cells: seq<Json>): seq<Bit> {
    if cells == [] then [Gap(")")] else [Gap(", ")] + CellBits(cells[0]) + RowBits(cells[1..])
  }

  lemma {:induction false} BitsConcat(a: seq<Bit>, b: seq<Bit>)
    ensures BitsText(a + b) == BitsText(a) + BitsText(b)
    ensures GapsOk(a) && GapsOk(b) ==> GapsOk(a + b)
  {
    hide BitText, GapText;
    if a == [] {
      assert a + b == b;
    } else {
      SliceConcat(a, b, 1);
      assert forall x | x in a[1..] :: x in a;
      BitsConcat(a[1..], b);
      assert forall x | x in a + b :: x in a || x in b;
    }
  }

  lemma OneBit(b: Bit)
    ensures BitsText([b]) == BitText(b)
    ensures b.Gap? ==> (GapsOk([b]) <==> GapText(b.text))
    ensures b.Cell? ==> GapsOk([b])
  {
    hide BitText, GapText;
    assert BitsText([b]) == BitText(b) + BitsText([b][1..]);
    assert b in [b];
  }

  lemma {:induction false} UndoubledStays(s: string)
    requires '\'' !in s
    ensures Doubled('\'', s) == s
  {
    if s != [] {
      UndoubledStays(s[1..]);
      assert s[0] in s && s == [s[0]] + s[1..];
    }
  }

  lemma GapConstants()
    ensures GapText("NULL") && GapText("TRUE") && GapText("FALSE") && GapText("FROM_BASE64(") && GapText(")")
    ensures GapText(", ")
  {
  }

  lemma NumberIsGap(text: NumberText)
    ensures GapText(text)
  {
    forall i | 0 <= i < |text| ensures !Marks(text[i]) && text[i] != '\'' && text[i] != '\\' {
      assert NumberAt(text, i);
    }
  }

  lemma CellBitsText(v: Json)
    requires Printable(v)
    ensures BitsText(CellBits(v)) == SqlLiteral(Mysql, v) && GapsOk(CellBits(v))
  {
    hide GapText, GapsOk, BitsText, JsonText, BytesMarker, IsNumberText, Enclosed, Doubled;
    GapConstants();
    var bits := CellBits(v);
    if (v.Arr? || v.Obj?) && BytesMarker(v).Some? {
      var b64 := BytesMarker(v).value;
      if v.Arr? { MarkerIsObject(v); }
      var a, b, c := Gap("FROM_BASE64("), Cell(b64), Gap(")");
      UndoubledStays(b64);
      OneBit(a);
      OneBit(b);
      OneBit(c);
      BitsConcat([a], [b]);
      BitsConcat([a] + [b], [c]);
      assert bits == [a] + [b] + [c];
    } else {
      OneBit(bits[0]);
      if v.Number? { NumberIsGap(v.text); }
    }
  }

  function RestOfRow(kind: Kind, cells: seq<Json>): string {
    if cells == [] then ")" else ", " + Join(Literals(kind, cells), ", ") + ")"
  }

  lemma LiteralsJoin(kind: Kind, cells: seq<Json>)
    requires cells != []
    ensures Join(Literals(kind, cells), ", ") + ")" == SqlLiteral(kind, cells[0]) + RestOfRow(kind, cells[1..])
  {
    hide SqlLiteral;
    var all := Literals(kind, cells);
    assert all[1..] == Literals(kind, cells[1..]);
    if |cells| > 1 {
      var first, rest := all[0], Join(all[1..], ", ");
      assert first + ", " + rest + ")" == first + (", " + rest + ")");
    }
  }

  lemma {:induction false} RowBitsText(cells: seq<Json>)
    requires RowPrintable(cells)
    ensures BitsText(RowBits(cells)) == RestOfRow(Mysql, cells) && GapsOk(RowBits(cells))
  {
    hide Printable, CellBits, BitsText, GapsOk, GapText, SqlLiteral, Join, Literals, RestOfRow;
    GapConstants();
    if cells == [] {
      OneBit(Gap(")"));
      LastRest(Mysql);
    } else {
      var first, rest := CellBits(cells[0]), RowBits(cells[1..]);
      assert cells[0] in cells && forall v | v in cells[1..] :: v in cells;
      CellBitsText(cells[0]);
      RowBitsText(cells[1..]);
      OneBit(Gap(", "));
      BitsConcat([Gap(", ")], first);
      BitsConcat([Gap(", ")] + first, rest);
      LiteralsJoin(Mysql, cells);
      RestUnfolds(Mysql, cells);
      Assoc(", ", SqlLiteral(Mysql, cells[0]), RestOfRow(Mysql, cells[1..]));
    }
  }

  lemma LastRest(kind: Kind)
    ensures RestOfRow(kind, []) == ")"
  {
  }

  lemma RestUnfolds(kind: Kind, cells: seq<Json>)
    requires cells != []
    ensures RestOfRow(kind, cells) == ", " + (Join(Literals(kind, cells), ", ") + ")")
  {
    hide Join, Literals;
    assert ", " + Join(Literals(kind, cells), ", ") + ")" == ", " + (Join(Literals(kind, cells), ", ") + ")");
  }

  function HeadSegs(kind: Kind, table: string, columns: seq<string>): seq<Seg> {
    [Plain("INSERT INTO ")] + NameSegs(kind, table) + [Plain(" (")] + JoinSegs(NamesSegs(kind, columns))
    + [Plain(") VALUES (")]
  }

  function BeforeSegs(kind: Kind, cells: seq<Json>): seq<Seg> {
    if cells == [] then [] else CellSegs(kind, cells[0]) + [Plain(", ")] + BeforeSegs(kind, cells[1..])
  }

  lemma HeadIsOpen(kind: Kind, table: string, columns: seq<string>)
    ensures Open(HeadSegs(kind, table, columns), kind)
  {
    hide SegsOk, JoinSegs, PlainText, NameSegs, LastIsLit, EndEstr;
    var names := NamesSegs(kind, columns);
    forall i | 0 <= i < |columns| ensures names[i] != [] && SegsOk(false, names[i], kind) {
      NameOk(kind, columns[i]);
      NameSome(kind, columns[i]);
    }
    JoinOk(names, kind);
    NameOk(kind, table);
    PlainConstants();
    NoneOk(kind);
    var z := [Plain("INSERT INTO ")];
    assert [] + z == z;
    AddPlain([], "INSERT INTO ", kind);
    var a := z + NameSegs(kind, table);
    AddSegs(z, NameSegs(kind, table), kind);
    AddPlain(a, " (", kind);
    AddSegs(a + [Plain(" (")], JoinSegs(names), kind);
    AddPlain(a + [Plain(" (")] + JoinSegs(names), ") VALUES (", kind);
  }

  lemma {:induction false} BeforeIsOpen(kind: Kind, a: seq<Seg>, cells: seq<Json>)
    requires Open(a, kind) && RowOk(kind, cells)
    ensures Open(a + BeforeSegs(kind, cells), kind)
    decreases |cells|
  {
    hide Open, CellOk, CellSegs;
    if cells == [] {
      assert a + [] == a;
    } else {
      var first := CellSegs(kind, cells[0]);
      assert cells[0] in cells && forall v | v in cells[1..] :: v in cells;
      CellSegsOk(kind, cells[0]);
      OpenAddsCell(kind, a, first);
      BeforeIsOpen(kind, a + first + [Plain(", ")], cells[1..]);
      assert a + first + [Plain(", ")] + BeforeSegs(kind, cells[1..]) == a + BeforeSegs(kind, cells);
    }
  }

  lemma OpenAddsCell(kind: Kind, a: seq<Seg>, cell: seq<Seg>)
    requires Open(a, kind) && SegsOk(false, cell, kind)
    ensures Open(a + cell + [Plain(", ")], kind)
  {
    hide SegsOk, PlainText;
    PlainConstants();
    AddSegs(a, cell, kind);
    AddPlain(a + cell, ", ", kind);
  }

  lemma HeadRenders(kind: Kind, table: string, columns: seq<string>)
    ensures Render(HeadSegs(kind, table, columns)) == InsertHead(kind, table, columns)
  {
    hide Render, JoinSegs, Join, Quoted;
    var names := NamesSegs(kind, columns);
    forall i | 0 <= i < |columns| ensures Render(names[i]) == QuotedNames(kind, columns)[i] {
      NameRenders(kind, columns[i]);
    }
    JoinRenders(names, QuotedNames(kind, columns));
    NameRenders(kind, table);
    var a := [Plain("INSERT INTO ")] + NameSegs(kind, table);
    var b := a + [Plain(" (")];
    var c := b + JoinSegs(names);
    RenderConcat([Plain("INSERT INTO ")], NameSegs(kind, table));
    RenderConcat(a, [Plain(" (")]);
    RenderConcat(b, JoinSegs(names));
    RenderConcat(c, [Plain(") VALUES (")]);
    RenderOne(Plain("INSERT INTO "));
    RenderOne(Plain(" ("));
    RenderOne(Plain(") VALUES ("));
  }

  /** The literals of the first cells of a row, each with its comma. */
  function BeforeText(kind: Kind, cells: seq<Json>): string {
    if cells == [] then [] else SqlLiteral(kind, cells[0]) + ", " + BeforeText(kind, cells[1..])
  }

  lemma {:induction false} BeforeRenders(kind: Kind, cells: seq<Json>)
    ensures Render(BeforeSegs(kind, cells)) == BeforeText(kind, cells)
  {
    hide SqlLiteral, Render, CellSegs;
    if cells == [] {
      RenderNothing();
    } else {
      var cell, more := CellSegs(kind, cells[0]), BeforeSegs(kind, cells[1..]);
      BeforeRenders(kind, cells[1..]);
      RenderConcat(cell + [Plain(", ")], more);
      RenderConcat(cell, [Plain(", ")]);
      RenderOne(Plain(", "));
      CellRenders(kind, cells[0]);
    }
  }

  lemma RenderNothing()
    ensures Render([]) == []
  {
  }

  /** The literals of a row around the `j`th. */
  lemma {:induction false} RowAround(kind: Kind, row: seq<Json>, j: nat)
    requires j < |row|
    ensures Join(Literals(kind, row), ", ") + ")"
      == BeforeText(kind, row[..j]) + (SqlLiteral(kind, row[j]) + RestOfRow(kind, row[j + 1..]))
  {
    hide Join, Literals, SqlLiteral, RestOfRow;
    LiteralsJoin(kind, row);
    if j == 0 {
      assert row[..0] == [] && BeforeText(kind, []) == [];
    } else {
      var rest := row[1..];
      RowAround(kind, rest, j - 1);
      assert row[..j][1..] == rest[..j - 1] && row[..j][0] == row[0] && rest[j..] == row[j + 1..];
      var first, more := SqlLiteral(kind, row[0]), BeforeText(kind, rest[..j - 1]);
      RestUnfolds(kind, rest);
      var z := SqlLiteral(kind, row[j]) + RestOfRow(kind, row[j + 1..]);
      Assoc(first + ", ", more, z);
      Assoc(first, ", ", more + z);
    }
  }

  /** On MySQL, the `;` of a row with a text that breaks out of its quotes is masked, whatever follows. */
  lemma BadRowMasksItsEnd(table: string, columns: seq<string>, row: seq<Json>, j: nat, rest: string)
    requires RowPrintable(row) && j < |row| && !CellOk(Mysql, row[j]) && RowOk(Mysql, row[..j])
    ensures var t := Insert(Mysql, table, columns, row); !Mask(t + (";" + rest), Mysql)[|t|]
  {
    hide Printable, CellOk, Open, HeadSegs, BeforeSegs, BeforeText, Render, MaskFrom, RowBits, SqlLiteral, CellText,
      Join, Literals, RestOfRow, InsertHead, Inside, Overrun.Tail, ToEnd, BitsText, GapsOk, EscapesPaired, AfterAll,
      Reaches, SegMask;
    var t := Insert(Mysql, table, columns, row);
    assert row[j] in row;
    BadIsText(Mysql, row[j]);
    var s, bits := CellText(row[j]).value, RowBits(row[j + 1..]);
    TextIsQuoted(Mysql, row[j]);
    assert forall v | v in row[j + 1..] :: v in row;
    RowBitsText(row[j + 1..]);
    BeforeIsRendered(Mysql, table, columns, row[..j]);
    RowAround(Mysql, row, j);
    var segs := HeadSegs(Mysql, table, columns) + BeforeSegs(Mysql, row[..j]);
    var pre, u := Render(segs), "'" + Inside(s, bits, rest);
    CellInRow(s, bits, rest);
    RowJoins(InsertHead(Mysql, table, columns), Join(Literals(Mysql, row), ", "), BeforeText(Mysql, row[..j]),
      SqlLiteral(Mysql, row[j]), RestOfRow(Mysql, row[j + 1..]), rest);
    OpenMasks(Mysql, segs, u);
    UnpairedMasksEnd(AfterAll(START, pre), s, bits, rest);
  }

  lemma CellInRow(s: string, bits: seq<Bit>, rest: string)
    ensures Quoted('\'', s) + BitsText(bits) + (";" + rest) == "'" + Inside(s, bits, rest)
    ensures |Quoted('\'', s) + BitsText(bits)| == 1 + ToEnd(s, bits)
  {
    hide BitsText, Doubled;
    var d, b, e := Doubled('\'', s), BitsText(bits), ";" + rest;
    assert "'" + d + "'" + b + e == "'" + (d + ("'" + (b + e)));
  }

  lemma RowJoins(head: string, values: string, before: string, lit: string, after: string, rest: string)
    requires values + ")" == before + (lit + after)
    ensures head + values + ")" + (";" + rest) == head + before + (lit + after + (";" + rest))
    ensures |head + values + ")"| == |head + before| + |lit + after|
  {
    assert head + values + ")" == head + (values + ")");
    assert head + (before + (lit + after)) == head + before + (lit + after);
    assert head + before + (lit + after) + (";" + rest) == head + before + (lit + after + (";" + rest));
  }

  lemma OpenMasks(kind: Kind, segs: seq<Seg>, u: string)
    requires Open(segs, kind)
    ensures MasksTo(START, Render(segs), SegMask(segs), u, kind)
  {
    hide SegsOk, Render, SegMask, MasksTo;
    SegsMask(START, segs, u, kind);
  }

  lemma BeforeIsRendered(kind: Kind, table: string, columns: seq<string>, cells: seq<Json>)
    requires RowOk(kind, cells)
    ensures var segs := HeadSegs(kind, table, columns) + BeforeSegs(kind, cells);
      Open(segs, kind) && Render(segs) == InsertHead(kind, table, columns) + BeforeText(kind, cells)
  {
    hide CellOk, Open, HeadSegs, BeforeSegs, BeforeText, Render, InsertHead;
    HeadIsOpen(kind, table, columns);
    BeforeIsOpen(kind, HeadSegs(kind, table, columns), cells);
    HeadRenders(kind, table, columns);
    BeforeRenders(kind, cells);
    RenderConcat(HeadSegs(kind, table, columns), BeforeSegs(kind, cells));
  }

  // ------------------------------ the export ----------------------------

  /** A script cannot begin with a statement whose `;` is masked. */
  lemma MaskedIsNotFirst(t: string, rest: string, kind: Kind)
    requires t != [] && !IsBlank(t[0]) && t[0] != ';' && !Mask(t + (";" + rest), kind)[|t|]
    ensures var split := SplitStatements(t + (";" + rest), kind); split == [] || split[0] != t
  {
    hide Mask, SplitStatements, FirstSep, Trim;
    var p := t + (";" + rest);
    var k := FirstSep(p, Mask(p, kind));
    SplitUnfold(p, kind);
    assert p[0] == t[0] && p[|t|] == ';';
    assert k > 0 && k != |t|;
    assert k > |t| ==> p[..k][|t|] == ';';
    TrimmedStarts(p[..k]);
    assert Trim(p[..k]) != [];
    SemicolonIsNoBlank();
  }

  /** A text that begins with no blank is trimmed at its end only. */
  lemma TrimmedStarts(c: string)
    requires c != [] && !IsBlank(c[0])
    ensures var t := Trim(c); t <= c && forall i :: |t| <= i < |c| ==> IsBlank(c[i])
  {
    hide IsBlank;
    assert TrimStart(c) == c;
    var n := TrimEndSplits(c);
    assert forall i :: n <= i < |c| ==> c[i] == c[n..][i - n];
  }

  lemma SemicolonIsNoBlank()
    ensures !IsBlank(';')
  {
  }

  lemma BadRowIsNotFirst(table: string, columns: seq<string>, row: seq<Json>, rest: string)
    requires RowPrintable(row) && !RowOk(Mysql, row)
    ensures var t := Insert(Mysql, table, columns, row);
      var split := SplitStatements(t + (";" + rest), Mysql); split == [] || split[0] != t
  {
    hide CellOk, Insert, Printable, SplitStatements, Mask;
    var j := FirstBad(row);
    BadRowMasksItsEnd(table, columns, row, j, rest);
    InsertStarts(Mysql, table, columns, row);
    MaskedIsNotFirst(Insert(Mysql, table, columns, row), rest, Mysql);
  }

  lemma InsertStarts(kind: Kind, table: string, columns: seq<string>, row: seq<Json>)
    ensures var t := Insert(kind, table, columns, row); t != [] && !IsBlank(t[0]) && t[0] != ';'
  {
    hide Join, Literals, QuotedNames, QuoteIdent;
    assert Insert(kind, table, columns, row)[0] == 'I';
  }

  lemma {:induction false} FirstBad(row: seq<Json>) returns (j: nat)
    requires !RowOk(Mysql, row)
    ensures j < |row| && !CellOk(Mysql, row[j]) && RowOk(Mysql, row[..j])
  {
    hide CellOk;
    if !CellOk(Mysql, row[0]) {
      j := 0;
    } else {
      assert forall v | v in row :: v == row[0] || v in row[1..];
      var k := FirstBad(row[1..]);
      j := k + 1;
      assert row[..j] == [row[0]] + row[1..][..k];
      assert forall v | v in row[..j] :: v == row[0] || v in row[1..][..k];
    }
  }

  /** An export splits into exactly its rows when every row stays within its quotes, and only then, unless it holds a
      document that passes for a binary cell. */
  lemma {:induction false} SplitsIffRowsOk(kind: Kind, table: string, columns: seq<string>, rows: seq<seq<Json>>)
    ensures var splits :=
        SplitStatements(SqlExport(kind, table, columns, rows), kind) == Inserts(kind, table, columns, rows);
      && ((forall row | row in rows :: RowOk(kind, row)) ==> splits)
      && (splits ==> (forall row | row in rows :: RowOk(kind, row)) || exists row | row in rows :: !RowPrintable(row))
  {
    hide SplitStatements, Insert, RowOk, RowPrintable, SqlExport, Inserts;
    if rows == [] {
      ExportSplitsIntoRows(kind, table, columns, rows);
    } else {
      var row, more := rows[0], rows[1..];
      var p, rest := SqlExport(kind, table, columns, rows), SqlExport(kind, table, columns, more);
      assert row in rows && (forall r | r in more :: r in rows) && (forall r | r in rows :: r == row || r in more);
      ExportUnfolds(kind, table, columns, rows);
      if RowOk(kind, row) {
        FirstRowSplits(kind, table, columns, rows);
        SplitsIffRowsOk(kind, table, columns, more);
        SameTail(Insert(kind, table, columns, row), SplitStatements(rest, kind), Inserts(kind, table, columns, more));
      } else if RowPrintable(row) {
        BadRow(kind, row);
        BadRowIsNotFirst(table, columns, row, "\n" + rest);
      }
    }
  }

  lemma SameTail(first: string, a: seq<string>, b: seq<string>)
    ensures [first] + a == [first] + b <==> a == b
  {
    assert ([first] + a)[1..] == a && ([first] + b)[1..] == b;
  }

  lemma ExportUnfolds(kind: Kind, table: string, columns: seq<string>, rows: seq<seq<Json>>)
    requires rows != []
    ensures var t := Insert(kind, table, columns, rows[0]);
      && SqlExport(kind, table, columns, rows) == t + (";" + ("\n" + SqlExport(kind, table, columns, rows[1..])))
      && Inserts(kind, table, columns, rows) == [t] + Inserts(kind, table, columns, rows[1..])
  {
    InsertsUnfold(kind, table, columns, rows);
    hide Insert, Inserts;
    EndsRow(Insert(kind, table, columns, rows[0]), SqlExport(kind, table, columns, rows[1..]));
  }

  lemma InsertsUnfold(kind: Kind, table: string, columns: seq<string>, rows: seq<seq<Json>>)
    requires rows != []
    ensures Inserts(kind, table, columns, rows)
      == [Insert(kind, table, columns, rows[0])] + Inserts(kind, table, columns, rows[1..])
  {
    hide Insert;
  }

  lemma EndsRow(t: string, rest: string)
    ensures t + ";\n" + rest == t + (";" + ("\n" + rest))
  {
    assert ";\n" == ";" + "\n";
  }

  lemma BadRow(kind: Kind, row: seq<Json>)
    requires RowPrintable(row) && !RowOk(kind, row)
    ensures kind == Mysql
  {
    hide Printable, CellOk;
    var v :| v in row && !CellOk(kind, v);
    BadIsText(kind, v);
  }

  /** The export that fails: one row with one cell, a lone backslash. On MySQL it does not split into its row; on
      PostgreSQL and SQLite it does. */
  lemma LoneBackslashExport(kind: Kind)
    ensures var rows := [[Str("\\")]];
      SplitStatements(SqlExport(kind, "t", ["c"], rows), kind) == Inserts(kind, "t", ["c"], rows) <==> kind != Mysql
  {
    hide SplitStatements, SqlExport, Inserts;
    var row := [Str("\\")];
    var rows := [row];
    assert row in rows && row[0] in row && forall v | v in row :: v == Str("\\");
    assert BytesMarker(Str("\\")) == None;
    assert CellOk(kind, Str("\\")) <==> kind != Mysql;
    SplitsIffRowsOk(kind, "t", ["c"], rows);
  }
}
