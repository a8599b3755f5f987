/** Which SQL exports read back cell by cell: exactly those whose cells stay within their quotes. */
module ReadBack {
  import opened Text
  import opened Lexer
  import opened LexerLaws
  import opened Split
  import opened Quoting
  import opened Json
  import opened Segments
  import opened SqlText
  import Overrun
  import opened RunEnds
  import opened Reload

  /** What is printed for a cell around its quoted text, when it has one: before the opening quote, and between the
      quotes. */
  datatype Part = Part(prefix: string, body: string)

  function QuotedPart(kind: Kind, v: Json): Option<Part> {
    match CellText(v)
    case Some(s) => Some(Part("", Doubled('\'', s)))
    case None =>
      match BytesMarker(v)
      case None => None
      case Some(b64) => Some(Part(BinaryPrefix(kind, b64), BinaryBody(kind, b64)))
  }

  function BinaryPrefix(kind: Kind, b64: string): string {
    match kind
    case Mysql => "FROM_BASE64("
    case Postgres => "decode("
    case Sqlite => if Base64Decode(b64).Some? then "X" else ""
  }

  function BinaryBody(kind: Kind, b64: string): string {
    if kind == Sqlite && Base64Decode(b64).Some? then HexOf(Base64Decode(b64).value) else b64
  }

  function BinaryEnd(kind: Kind): string {
    match kind
    case Mysql => ")"
    case Postgres => ", 'base64')"
    case Sqlite => ""
  }

  /** A row up to the opening quote of its `j`th cell. */
  function BeforeQuote(kind: Kind, table: string, columns: seq<string>, row: seq<Json>, j: nat): string
    requires j < |row| && QuotedPart(kind, row[j]).Some?
  {
    InsertHead(kind, table, columns) + BeforeText(kind, row[..j]) + QuotedPart(kind, row[j]).value.prefix
  }

  /** `lit` stands in `p` at `k`, and the lexer takes it for one masked run. */
  predicate OneRunAt(p: string, k: nat, lit: string, kind: Kind) {
    && k < |p| && lit <= p[k..]
    && Reaches(START, p, k, kind)
    && TokenAt(AfterAll(START, p[..k]), p[k..], kind) == Token(|lit|, true)
  }

  /** The quoted text of the `j`th cell of the `i`th row, if it has one, is one masked run where it is printed. */
  predicate CellInPlace(
    kind: Kind, table: string, columns: seq<string>, rows: seq<seq<Json>>, i: nat, j: nat)
    requires i < |rows| && j < |rows[i]|
  {
    match QuotedPart(kind, rows[i][j])
    case None => true
    case Some(part) =>
      var place := |SqlExport(kind, table, columns, rows[..i])| + |BeforeQuote(kind, table, columns, rows[i], j)|;
      OneRunAt(SqlExport(kind, table, columns, rows), place, Enclosed('\'', part.body), kind)
  }

  predicate CellsInPlace(kind: Kind, table: string, columns: seq<string>, rows: seq<seq<Json>>) {
    forall i, j :: 0 <= i < |rows| && 0 <= j < |rows[i]| ==> CellInPlace(kind, table, columns, rows, i, j)
  }

  // ------------------------------ one cell ------------------------------

  /** What follows the closing quote of a cell. */
  predicate Ends(s: string) { s == [] || s[0] == ',' || s[0] == ')' }

  lemma QuotedInCell(kind: Kind, v: Json) returns (after: string)
    requires QuotedPart(kind, v).Some?
    ensures var part := QuotedPart(kind, v).value;
      && SqlLiteral(kind, v) == part.prefix + (Enclosed('\'', part.body) + after) && Ends(after)
      && (CellOk(kind, v) <==> Contained('\'', part.body, kind == Mysql))
      && !EndsInE(part.prefix)
  {
    hide JsonText, Enclosed, Doubled, Contained, EscapesPaired, Base64Decode, HexOf, BytesMarker;
    if CellText(v).Some? {
      after := "";
      var s := CellText(v).value;
      TextIsQuoted(kind, v);
      DoubledIsContained('\'', s, kind == Mysql);
      var lit := Quoted('\'', s);
      assert "" + (lit + "") == lit;
    } else {
      var b64 := BytesMarker(v).value;
      MarkerIsObject(v);
      after := BinaryEnd(kind);
      BinaryAround(kind, b64);
    }
  }

  lemma BinaryAround(kind: Kind, b64: string)
    ensures BinaryLiteral(kind, b64)
      == BinaryPrefix(kind, b64) + (Enclosed('\'', BinaryBody(kind, b64)) + BinaryEnd(kind))
    ensures ((kind == Sqlite && Base64Decode(b64).Some?) || Contained('\'', b64, kind == Mysql))
      <==> Contained('\'', BinaryBody(kind, b64), kind == Mysql)
  {
    hide Enclosed, Contained, Base64Decode, HexOf;
    var lit := Enclosed('\'', BinaryBody(kind, b64));
    Overrun.Assoc(BinaryPrefix(kind, b64), lit, BinaryEnd(kind));
    if kind == Sqlite && Base64Decode(b64).Some? {
      var bytes := Base64Decode(b64).value;
      HexHasNoQuote(bytes);
      NoQuoteIsContained('\'', HexOf(bytes), false);
      assert "X" + lit + "" == "X" + lit;
    } else if kind == Sqlite {
      assert "" + lit + "" == lit;
    }
  }

  lemma UnquotedIsOk(kind: Kind, v: Json)
    requires QuotedPart(kind, v).None?
    ensures CellOk(kind, v)
  {
    hide JsonText, EscapesPaired, Contained, Base64Decode, BytesMarker;
  }

  // ------------------------------ around a cell -------------------------

  lemma BeforeEnds(kind: Kind, cells: seq<Json>)
    ensures var b := BeforeText(kind, cells); b != [] ==> b[|b| - 1] == ' '
  {
    hide SqlLiteral;
    if cells != [] {
      BeforeEnds(kind, cells[1..]);
      var a := SqlLiteral(kind, cells[0]) + ", ";
      assert a[|a| - 1] == ' ';
    }
  }

  lemma HeadEnds(kind: Kind, table: string, columns: seq<string>)
    ensures var h := InsertHead(kind, table, columns); h != [] && h[|h| - 1] == '('
  {
    hide Join, QuotedNames, QuoteIdent;
  }

  lemma JoinedEnds(a: string, b: string, c: string)
    requires a != [] && !EndsInE(a) && !EndsInE(b) && !EndsInE(c)
    ensures a + b + c != [] && !EndsInE(a + b + c)
  {
    var s := a + b + c;
    assert s[|s| - 1] == if c != [] then c[|c| - 1] else if b != [] then b[|b| - 1] else a[|a| - 1];
  }

  lemma BeforeQuoteEnds(kind: Kind, table: string, columns: seq<string>, row: seq<Json>, j: nat)
    requires j < |row| && QuotedPart(kind, row[j]).Some?
    ensures var pre := BeforeQuote(kind, table, columns, row, j); pre != [] && !EndsInE(pre)
  {
    hide InsertHead, BeforeText, QuotedPart;
    HeadEnds(kind, table, columns);
    BeforeEnds(kind, row[..j]);
    var after := QuotedInCell(kind, row[j]);
    JoinedEnds(InsertHead(kind, table, columns), BeforeText(kind, row[..j]), QuotedPart(kind, row[j]).value.prefix);
  }

  lemma RestStarts(kind: Kind, cells: seq<Json>)
    ensures var t := RestOfRow(kind, cells); t != [] && Ends(t)
  {
    hide Join, Literals;
  }

  lemma EndsConcat(a: string, b: string)
    requires Ends(a) && Ends(b) && b != []
    ensures Ends(a + b) && a + b != []
  {
  }

  lemma PartsJoin(
    head: string, values: string, before: string, prefix: string, lit: string, after: string, more: string)
    requires values + ")" == before + (prefix + (lit + after) + more)
    ensures head + values + ")" == head + before + prefix + (lit + (after + more))
  {
    var rest := lit + (after + more);
    assert prefix + (lit + after) + more == prefix + rest;
    assert head + values + ")" == head + (values + ")");
    assert head + (before + (prefix + rest)) == head + before + prefix + rest;
  }

  /** A row around the quoted text of one of its cells. */
  lemma InsertAround(kind: Kind, table: string, columns: seq<string>, row: seq<Json>, j: nat) returns (post: string)
    requires j < |row| && QuotedPart(kind, row[j]).Some?
    ensures Insert(kind, table, columns, row)
      == BeforeQuote(kind, table, columns, row, j) + (Enclosed('\'', QuotedPart(kind, row[j]).value.body) + post)
    ensures post != [] && Ends(post)
  {
    hide InsertHead, BeforeText, QuotedPart, Join, Literals, SqlLiteral, RestOfRow, Enclosed, CellOk, Contained, Ends;
    var part := QuotedPart(kind, row[j]).value;
    var after := QuotedInCell(kind, row[j]);
    RowAround(kind, row, j);
    RestStarts(kind, row[j + 1..]);
    post := after + RestOfRow(kind, row[j + 1..]);
    EndsConcat(after, RestOfRow(kind, row[j + 1..]));
    PartsJoin(InsertHead(kind, table, columns), Join(Literals(kind, row), ", "), BeforeText(kind, row[..j]),
      part.prefix, Enclosed('\'', part.body), after, RestOfRow(kind, row[j + 1..]));
  }

  /** An export around one of its rows. */
  lemma {:induction false} ExportAround(
    kind: Kind, table: string, columns: seq<string>, rows: seq<seq<Json>>, i: nat)
    requires i < |rows|
    ensures SqlExport(kind, table, columns, rows)
      == SqlExport(kind, table, columns, rows[..i])
      + (Insert(kind, table, columns, rows[i]) + (";\n" + SqlExport(kind, table, columns, rows[i + 1..])))
  {
    hide Insert;
    if i == 0 {
      assert rows[..0] == [] && SqlExport(kind, table, columns, []) == [];
      Overrun.Assoc(Insert(kind, table, columns, rows[0]), ";\n", SqlExport(kind, table, columns, rows[1..]));
    } else {
      var more := rows[1..];
      ExportAround(kind, table, columns, more, i - 1);
      assert rows[..i][1..] == more[..i - 1] && rows[..i][0] == rows[0] && more[i..] == rows[i + 1..];
      Overrun.Assoc(Insert(kind, table, columns, rows[0]) + ";\n", SqlExport(kind, table, columns, more[..i - 1]),
        Insert(kind, table, columns, rows[i]) + (";\n" + SqlExport(kind, table, columns, rows[i + 1..])));
    }
  }

  lemma PlaceJoin(e: string, pre: string, lit: string, post: string, rest: string)
    ensures e + (pre + (lit + post) + rest) == e + pre + (lit + (post + rest))
  {
    var t := lit + (post + rest);
    assert pre + (lit + post) + rest == pre + t;
    assert e + (pre + t) == e + pre + t;
  }

  lemma SuffixEnds(e: string, pre: string)
    requires pre != [] && !EndsInE(pre)
    ensures e + pre != [] && !EndsInE(e + pre)
  {
    assert (e + pre)[|e + pre| - 1] == pre[|pre| - 1];
  }

  /** An export around the quoted text of one of its cells. */
  lemma CellAround(kind: Kind, table: string, columns: seq<string>, rows: seq<seq<Json>>, i: nat, j: nat)
      returns (pre: string, post: string)
    requires i < |rows| && j < |rows[i]| && QuotedPart(kind, rows[i][j]).Some?
    ensures SqlExport(kind, table, columns, rows)
      == pre + (Enclosed('\'', QuotedPart(kind, rows[i][j]).value.body) + post)
    ensures pre == SqlExport(kind, table, columns, rows[..i]) + BeforeQuote(kind, table, columns, rows[i], j)
    ensures pre != [] && !EndsInE(pre) && post != [] && Ends(post)
  {
    hide SqlExport, Insert, BeforeQuote, QuotedPart, Enclosed, EndsInE;
    var row := rows[i];
    var tail := InsertAround(kind, table, columns, row, j);
    ExportAround(kind, table, columns, rows, i);
    BeforeQuoteEnds(kind, table, columns, row, j);
    var e, head := SqlExport(kind, table, columns, rows[..i]), BeforeQuote(kind, table, columns, row, j);
    var rest := ";\n" + SqlExport(kind, table, columns, rows[i + 1..]);
    pre, post := e + head, tail + rest;
    SuffixEnds(e, head);
    PlaceJoin(e, head, Enclosed('\'', QuotedPart(kind, row[j]).value.body), tail, rest);
  }

  /** The lexer finds a quoted text whole, after no E and before no quote, exactly when it is contained. */
  lemma TokenIffContained(pre: string, body: string, post: string, kind: Kind)
    requires pre != [] && !EndsInE(pre) && post != [] && Ends(post)
    ensures TokenAt(AfterAll(START, pre), Enclosed('\'', body) + post, kind) == Token(|Enclosed('\'', body)|, true)
      <==> Contained('\'', body, kind == Mysql)
  {
    hide AfterAll, QuotedLen, Contained;
    EndsLook(START, pre);
    var look, t := AfterAll(START, pre), Enclosed('\'', body) + post;
    assert t[1..] == body + ['\''] + post;
    EnclosedIsOneRun('\'', body, post, kind == Mysql);
    assert OpeningAt(look, t, kind) == Quote(kind == Mysql);
  }

  /** A cell that is one run in its place stays within its quotes. */
  lemma InPlaceIsOk(kind: Kind, table: string, columns: seq<string>, rows: seq<seq<Json>>, i: nat, j: nat)
    requires i < |rows| && j < |rows[i]| && CellInPlace(kind, table, columns, rows, i, j)
    ensures CellOk(kind, rows[i][j])
  {
    hide SqlExport, BeforeQuote, QuotedPart, Enclosed, EndsInE, Ends, TokenAt, AfterAll, Reaches, Contained, CellOk;
    var v := rows[i][j];
    if QuotedPart(kind, v).None? {
      UnquotedIsOk(kind, v);
    } else {
      var pre, post := CellAround(kind, table, columns, rows, i, j);
      var body := QuotedPart(kind, v).value.body;
      SliceConcat(pre, Enclosed('\'', body) + post, |pre|);
      assert pre[..|pre|] == pre && pre[|pre|..] + (Enclosed('\'', body) + post) == Enclosed('\'', body) + post;
      TokenIffContained(pre, body, post, kind);
      var after := QuotedInCell(kind, v);
    }
  }

  // ------------------------------ rows that stay within their quotes ----

  lemma RowEndMasks(look: Look, u: string, kind: Kind)
    ensures MasksTo(look, ";\n", [true, true], u, kind) && AfterAll(look, ";\n") == START
  {
    hide TokenAt, MasksTo;
    Bare(look, ';', "\n" + u, kind);
    Bare(START, '\n', u, kind);
    OneCharMasks(look, ';', "\n" + u, kind);
    OneCharMasks(START, '\n', u, kind);
    MasksJoin(look, ";", [true], "\n", [true], u, kind);
    AfterAllConcat(look, ";", "\n");
    assert ";" + "\n" == ";\n" && [true] + [true] == [true, true];
  }

  lemma Bare(look: Look, c: char, u: string, kind: Kind)
    requires c == ';' || c == '\n'
    ensures TokenAt(look, [c] + u, kind) == Token(1, false) && Lexer.After(look, c) == START
  {
  }

  lemma RowMasks(kind: Kind, table: string, columns: seq<string>, row: seq<Json>, u: string) returns (m: seq<bool>)
    requires RowOk(kind, row)
    ensures var t := Insert(kind, table, columns, row) + ";\n";
      MasksTo(START, t, m, u, kind) && AfterAll(START, t) == START
  {
    hide RowOk, MasksTo, AfterAll, Insert, InsertSegs, SegsOk, SegMask, Render;
    var segs := InsertSegs(kind, table, columns, row);
    InsertSegsOk(kind, table, columns, row);
    InsertRenders(kind, table, columns, row);
    SegsMask(START, segs, ";\n" + u, kind);
    var look := AfterAll(START, Render(segs));
    RowEndMasks(look, u, kind);
    MasksJoin(START, Render(segs), SegMask(segs), ";\n", [true, true], u, kind);
    AfterAllConcat(START, Render(segs), ";\n");
    m := SegMask(segs) + [true, true];
  }

  lemma {:induction false} RowsMask(kind: Kind, table: string, columns: seq<string>, rows: seq<seq<Json>>, u: string)
      returns (m: seq<bool>)
    requires forall row | row in rows :: RowOk(kind, row)
    ensures var e := SqlExport(kind, table, columns, rows); MasksTo(START, e, m, u, kind) && AfterAll(START, e) == START
  {
    hide RowOk, MasksTo, AfterAll, Insert;
    if rows == [] {
      m := [];
      MasksNothing(START, u, kind);
      AfterNothing(START);
    } else {
      assert rows[0] in rows && forall row | row in rows[1..] :: row in rows;
      var first, more := Insert(kind, table, columns, rows[0]) + ";\n", SqlExport(kind, table, columns, rows[1..]);
      var a := RowMasks(kind, table, columns, rows[0], more + u);
      var b := RowsMask(kind, table, columns, rows[1..], u);
      MasksJoin(START, first, a, more, b, u, kind);
      AfterAllConcat(START, first, more);
      m := a + b;
    }
  }

  /** The lexer comes to the opening quote of a cell after cells that stay within theirs. */
  lemma BeforeMasks(kind: Kind, table: string, columns: seq<string>, row: seq<Json>, j: nat, u: string)
      returns (m: seq<bool>)
    requires j < |row| && QuotedPart(kind, row[j]).Some? && RowOk(kind, row[..j])
    ensures MasksTo(START, BeforeQuote(kind, table, columns, row, j), m, u, kind)
  {
    hide CellOk, MasksTo, Open, Render, SegMask, InsertHead, BeforeText, PlainText, SegsOk, HeadSegs, BeforeSegs,
      QuotedPart;
    var segs := HeadSegs(kind, table, columns) + BeforeSegs(kind, row[..j]);
    var prefix := QuotedPart(kind, row[j]).value.prefix;
    BeforeIsRendered(kind, table, columns, row[..j]);
    if prefix == [] {
      OpenMasks(kind, segs, u);
      m := SegMask(segs);
      assert Render(segs) + prefix == Render(segs);
    } else {
      PrefixIsPlain(kind, row[j]);
      OpenAdds(segs, prefix, kind);
      OpenMasks(kind, segs + [Plain(prefix)], u);
      m := SegMask(segs + [Plain(prefix)]);
      RenderConcat(segs, [Plain(prefix)]);
      RenderOne(Plain(prefix));
    }
  }

  lemma OpenAdds(segs: seq<Seg>, text: string, kind: Kind)
    requires Open(segs, kind) && text != [] && PlainText(text) && !EndsInE(text)
    ensures Open(segs + [Plain(text)], kind)
  {
    hide SegsOk, EndEstr, PlainText;
    AddPlain(segs, text, kind);
  }

  lemma PrefixIsPlain(kind: Kind, v: Json)
    requires QuotedPart(kind, v).Some?
    ensures PlainText(QuotedPart(kind, v).value.prefix) && !EndsInE(QuotedPart(kind, v).value.prefix)
  {
    hide JsonText, Doubled, Base64Decode, HexOf, BytesMarker, PlainText;
    PlainConstants();
    AllPlain("");
  }

  /** In an export whose rows stay within their quotes, every quoted cell is one run in its place. */
  lemma OkIsInPlace(kind: Kind, table: string, columns: seq<string>, rows: seq<seq<Json>>, i: nat, j: nat)
    requires (forall row | row in rows :: RowOk(kind, row)) && i < |rows| && j < |rows[i]|
    ensures CellInPlace(kind, table, columns, rows, i, j)
  {
    hide SqlExport, BeforeQuote, QuotedPart, Enclosed, EndsInE, Ends, TokenAt, AfterAll, Reaches, Contained, CellOk,
      MaskFrom;
    var row := rows[i];
    if QuotedPart(kind, row[j]).Some? {
      assert row in rows && row[j] in row && (forall v | v in row[..j] :: v in row);
      var pre, post := CellAround(kind, table, columns, rows, i, j);
      var body := QuotedPart(kind, row[j]).value.body;
      var t := Enclosed('\'', body) + post;
      assert forall r | r in rows[..i] :: r in rows;
      var head := BeforeQuote(kind, table, columns, row, j);
      var a := RowsMask(kind, table, columns, rows[..i], head + t);
      var b := BeforeMasks(kind, table, columns, row, j, t);
      MasksJoin(START, SqlExport(kind, table, columns, rows[..i]), a, head, b, t, kind);
      TokenIffContained(pre, body, post, kind);
      var after := QuotedInCell(kind, row[j]);
      SliceConcat(pre, t, |pre|);
      assert pre[..|pre|] == pre && pre[|pre|..] + t == t;
    }
  }

  /** An export splits into exactly its rows, each quoted cell one masked run where it is printed, if and only if
      every row stays within its quotes: on every engine, and for any cell values. */
  lemma ReadsBackIffRowsOk(kind: Kind, table: string, columns: seq<string>, rows: seq<seq<Json>>)
    ensures
      && SplitStatements(SqlExport(kind, table, columns, rows), kind) == Inserts(kind, table, columns, rows)
      && CellsInPlace(kind, table, columns, rows)
      <==> forall row | row in rows :: RowOk(kind, row)
  {
    hide SplitStatements, SqlExport, Inserts, CellInPlace, CellOk;
    if forall row | row in rows :: RowOk(kind, row) {
      ExportSplitsIntoRows(kind, table, columns, rows);
      forall i, j | 0 <= i < |rows| && 0 <= j < |rows[i]| ensures CellInPlace(kind, table, columns, rows, i, j) {
        OkIsInPlace(kind, table, columns, rows, i, j);
      }
    } else {
      var row :| row in rows && !RowOk(kind, row);
      var v :| v in row && !CellOk(kind, v);
      var i :| 0 <= i < |rows| && rows[i] == row;
      var j :| 0 <= j < |row| && row[j] == v;
      if CellInPlace(kind, table, columns, rows, i, j) {
        InPlaceIsOk(kind, table, columns, rows, i, j);
      }
    }
  }

  // ------------------------------ a document that poses as binary -------

  /** A JSON document with the shape of a binary cell and a quote for its base64 text. */
  const POSING := Obj([Member("__type", Str("bytes")), Member("b64", Str("'"))])

  lemma PosingPart(kind: Kind)
    ensures CellText(POSING) == None && BytesMarker(POSING) == Some("'") && !CellOk(kind, POSING)
    ensures QuotedPart(kind, POSING) == Some(Part(BinaryPrefix(kind, "'"), "'"))
    ensures SqlLiteral(kind, POSING) == BinaryPrefix(kind, "'") + (Enclosed('\'', "'") + BinaryEnd(kind))
  {
    var fields := POSING.fields;
    assert Get(fields, "__type") == Some(Str("bytes"));
    assert fields[1..][0].key == "b64" && Get(fields, "b64") == Get(fields[1..], "b64") == Some(Str("'"));
    assert Base64Decode("'") == None;
    BinaryAround(kind, "'");
  }

  lemma {:induction false} RunsOn(t: string, backslash: bool)
    requires '\'' !in t && '\\' !in t
    ensures QuotedLen(t, '\'', backslash) == |t|
  {
    if t != [] { RunsOn(t[1..], backslash); }
  }

  /** A run to the end of the text, after any doubled quote. */
  lemma RunIsMasked(look: Look, pair: string, t: string, kind: Kind)
    requires '\'' !in t && '\\' !in t && !look.estr && (pair == "" || pair == "''")
    ensures var u := "'" + (pair + t); MaskFrom(look, u, kind) == Flags(|u|, false)
  {
    hide AfterAll, MaskFrom;
    var u, bs := "'" + (pair + t), kind == Mysql;
    RunsOn(t, bs);
    assert u[1..] == pair + t;
    if pair == "" { assert pair + t == t; } else { PassTwo(pair + t, '\'', bs); assert (pair + t)[2..] == t; }
    assert OpeningAt(look, u, kind) == Quote(bs);
    assert TokenAt(look, u, kind) == Token(|u|, true);
    MaskUnfold(look, u, kind);
    NoMask(AfterAll(look, u), kind);
    assert u[..|u|] == u && u[|u|..] == [];
  }

  /** The rest of the export, after the quotes of the document. */
  function PosingTail(kind: Kind): string { BinaryEnd(kind) + (")" + ";\n") }

  /** From the opening quote of the document on: the `;` of its row is masked. */
  lemma PosingMasked(look: Look, kind: Kind)
    requires !look.estr
    ensures var u := "'''" + PosingTail(kind); !MaskFrom(look, u, kind)[|u| - 2]
  {
    hide MaskFrom;
    if kind == Postgres {
      var rest := "base64" + ("'" + "));\n");
      Base64Rest(rest);
      hide PosingTail;
      var next := FirstRunMasks(look, rest);
      SecondRun(next);
    } else {
      var t := PosingTail(kind);
      assert '\'' !in t && '\\' !in t;
      hide PosingTail;
      assert "'''" + t == "'" + ("''" + t);
      RunIsMasked(look, "''", t, kind);
    }
  }

  lemma FirstRunMasks(look: Look, rest: string) returns (next: Look)
    requires !look.estr && rest != [] && rest[0] != '\''
    ensures MaskFrom(look, "''', '" + rest, Postgres) == Flags(6, false) + MaskFrom(next, rest, Postgres)
  {
    hide MaskFrom, TokenAt, AfterAll;
    var head := "''', '";
    next := AfterAll(look, head);
    FirstRun(look, rest);
    SliceConcat(head, rest, 6);
    assert head[..6] == head && head[6..] + rest == rest;
    MaskUnfold(look, head + rest, Postgres);
  }

  lemma Base64Rest(rest: string)
    requires rest == "base64" + ("'" + "));\n")
    ensures "'''" + PosingTail(Postgres) == "''', '" + rest && |rest| == 11
  {
  }

  lemma SecondRun(look: Look)
    ensures var s := "base64" + ("'" + "));\n"); |s| == 11 && !MaskFrom(look, s, Postgres)[9]
  {
    hide MaskFrom, TokenAt, AfterAll;
    var plain, end := "base64", "));\n";
    AllPlain(plain);
    PlainMask(look, plain, "'" + end, Postgres);
    EndsLook(look, plain);
    RunIsMasked(AfterAll(look, plain), "", end, Postgres);
    assert "" + end == end;
  }

  /** A doubled quote opens a run that closes at the quote before `base64`. */
  lemma FirstRun(look: Look, rest: string)
    requires !look.estr && rest != [] && rest[0] != '\''
    ensures TokenAt(look, "''', '" + rest, Postgres) == Token(6, true)
  {
    var u := "''', '" + rest;
    var v := ", '" + rest;
    var w := "''" + v;
    assert u[1..] == w && w[2..] == v && v[1..] == " '" + rest && v[1..][1..] == "'" + rest;
    PassTwo(w, '\'', false);
    PassOne(v, '\'', false);
    PassOne(v[1..], '\'', false);
    PassOne("'" + rest, '\'', false);
    assert OpeningAt(look, u, Postgres) == Quote(false);
  }

  /** An export that splits into its row on no engine: one row with one cell, that document. */
  lemma PosingDocumentExport(kind: Kind)
    ensures var rows := [[POSING]];
      SplitStatements(SqlExport(kind, "t", ["c"], rows), kind) != Inserts(kind, "t", ["c"], rows)
  {
    hide SplitStatements, SqlExport, Inserts, Insert, BeforeQuote, MaskFrom, AfterAll, Reaches, EndsInE;
    var row := [POSING];
    var rows := [row];
    var t, pre := Insert(kind, "t", ["c"], row), BeforeQuote(kind, "t", ["c"], row, 0);
    var u := "'''" + PosingTail(kind);
    ExportUnfolds(kind, "t", ["c"], rows);
    assert rows[1..] == [];
    NoRows(kind, "t", ["c"]);
    PosingRow(kind);
    PosingPart(kind);
    assert row[..0] == [];
    var m := BeforeMasks(kind, "t", ["c"], row, 0, u);
    BeforeQuoteEnds(kind, "t", ["c"], row, 0);
    EndsLook(START, pre);
    PosingMasked(AfterAll(START, pre), kind);
    assert "\n" + [] == "\n" && ";" + "\n" == ";\n";
    assert |m| == |pre|;
    assert MaskFrom(START, pre + u, kind)[|pre| + |u| - 2] == MaskFrom(AfterAll(START, pre), u, kind)[|u| - 2];
    InsertStarts(kind, "t", ["c"], row);
    MaskedIsNotFirst(t, "\n", kind);
  }

  lemma NoRows(kind: Kind, table: string, columns: seq<string>)
    ensures SqlExport(kind, table, columns, []) == []
  {
  }

  lemma PosingRow(kind: Kind)
    ensures var pre, t := BeforeQuote(kind, "t", ["c"], [POSING], 0), Insert(kind, "t", ["c"], [POSING]);
      var u := "'''" + PosingTail(kind);
      t + ";\n" == pre + u && |t| + 2 == |pre| + |u|
  {
    hide InsertHead, Join, Literals, SqlLiteral, BeforeText, BinaryEnd, BinaryPrefix, QuotedPart, RestOfRow;
    var row := [POSING];
    PosingPart(kind);
    RowAround(kind, row, 0);
    LastRest(kind);
    assert row[..0] == [] && row[1..] == [];
    var pre, lit := BeforeQuote(kind, "t", ["c"], row, 0), Enclosed('\'', "'");
    assert lit == "'''";
    PartsJoin(InsertHead(kind, "t", ["c"]), Join(Literals(kind, row), ", "), BeforeText(kind, []),
      BinaryPrefix(kind, "'"), lit, BinaryEnd(kind), ")");
    EndJoin(pre, lit, BinaryEnd(kind));
  }

  lemma EndJoin(pre: string, lit: string, end: string)
    ensures pre + (lit + (end + ")")) + ";\n" == pre + (lit + (end + (")" + ";\n")))
  {
    assert end + ")" + ";\n" == end + (")" + ";\n");
    var e := end + ")";
    assert pre + (lit + e) + ";\n" == pre + (lit + (e + ";\n"));
  }
}
