/** SQL text of exported rows (`export.rs`), and what the lexer finds in it. */
module SqlText {
  import opened Text
  import opened Lexer
  import opened LexerLaws
  import opened Split
  import opened Quoting
  import opened Json
  import opened Segments
  import Ident

  function Join(parts: seq<string>, sep: string): string {
    if parts == [] then [] else if |parts| == 1 then parts[0] else parts[0] + sep + Join(parts[1..], sep)
  }

  // ------------------------------ as printed ----------------------------

  function QuoteIdent(kind: Kind, s: string): string { Quoted(Ident.IdentQuote(kind), s) }

  function BinaryLiteral(kind: Kind, b64: string): string {
    match kind
    case Mysql => "FROM_BASE64(" + Enclosed('\'', b64) + ")"
    case Postgres => "decode(" + Enclosed('\'', b64) + ", 'base64')"
    case Sqlite =>
      match Base64Decode(b64)
      case Some(bytes) => "X" + Enclosed('\'', HexOf(bytes))
      case None => Enclosed('\'', b64)
  }

  function SqlLiteral(kind: Kind, v: Json): string {
    match v
    case Null => "NULL"
    case Bool(b) => if b then "TRUE" else "FALSE"
    case Number(text) => text
    case Str(s) => Quoted('\'', s)
    case _ =>
      match BytesMarker(v)
      case Some(b64) => BinaryLiteral(kind, b64)
      case None => Quoted('\'', JsonText(v))
  }

  function Literals(kind: Kind, row: seq<Json>): (r: seq<string>)
    ensures |r| == |row|
  {
    seq(|row|, i requires 0 <= i < |row| => SqlLiteral(kind, row[i]))
  }

  function QuotedNames(kind: Kind, columns: seq<string>): (r: seq<string>)
    ensures |r| == |columns|
  {
    seq(|columns|, i requires 0 <= i < |columns| => QuoteIdent(kind, columns[i]))
  }

  function InsertHead(kind: Kind, table: string, columns: seq<string>): string {
    "INSERT INTO " + QuoteIdent(kind, table) + " (" + Join(QuotedNames(kind, columns), ", ") + ") VALUES ("
  }

  /** One exported row, without its `;`. */
  function Insert(kind: Kind, table: string, columns: seq<string>, row: seq<Json>): string {
    InsertHead(kind, table, columns) + Join(Literals(kind, row), ", ") + ")"
  }

  function Inserts(kind: Kind, table: string, columns: seq<string>, rows: seq<seq<Json>>): (r: seq<string>)
    ensures |r| == |rows|
  {
    seq(|rows|, i requires 0 <= i < |rows| => Insert(kind, table, columns, rows[i]))
  }

  function SqlExport(kind: Kind, table: string, columns: seq<string>, rows: seq<seq<Json>>): string {
    if rows == [] then []
    else Insert(kind, table, columns, rows[0]) + ";\n" + SqlExport(kind, table, columns, rows[1..])
  }

  // ------------------------------ as segments ---------------------------

  function NameSegs(kind: Kind, s: string): seq<Seg> {
    [Lit(Ident.IdentQuote(kind), Doubled(Ident.IdentQuote(kind), s))]
  }

  function TextSegs(s: string): seq<Seg> { [Lit('\'', Doubled('\'', s))] }

  function CellSegs(kind: Kind, v: Json): seq<Seg> {
    match v
    case Null => [Plain("NULL")]
    case Bool(b) => [Plain(if b then "TRUE" else "FALSE")]
    case Number(text) => [Plain(text)]
    case Str(s) => TextSegs(s)
    case _ =>
      match BytesMarker(v)
      case None => TextSegs(JsonText(v))
      case Some(b64) =>
        match kind
        case Mysql => [Plain("FROM_BASE64("), Lit('\'', b64), Plain(")")]
        case Postgres => [Plain("decode("), Lit('\'', b64), Plain(", "), Lit('\'', "base64"), Plain(")")]
        case Sqlite =>
          match Base64Decode(b64)
          case Some(bytes) => [Plain("X"), Lit('\'', HexOf(bytes))]
          case None => [Lit('\'', b64)]
  }

  function JoinSegs(parts: seq<seq<Seg>>): seq<Seg> {
    if parts == [] then [] else if |parts| == 1 then parts[0] else parts[0] + [Plain(", ")] + JoinSegs(parts[1..])
  }

  function NamesSegs(kind: Kind, columns: seq<string>): seq<seq<Seg>> {
    seq(|columns|, i requires 0 <= i < |columns| => NameSegs(kind, columns[i]))
  }

  function CellsSegs(kind: Kind, row: seq<Json>): seq<seq<Seg>> {
    seq(|row|, i requires 0 <= i < |row| => CellSegs(kind, row[i]))
  }

  function InsertSegs(kind: Kind, table: string, columns: seq<string>, row: seq<Json>): seq<Seg> {
    [Plain("INSERT INTO ")] + NameSegs(kind, table) + [Plain(" (")] + JoinSegs(NamesSegs(kind, columns))
    + [Plain(") VALUES (")] + JoinSegs(CellsSegs(kind, row)) + [Plain(")")]
  }

  lemma RenderOne(s: Seg)
    ensures Render([s]) == RenderSeg(s)
  {
    assert Render([s]) == RenderSeg(s) + Render([s][1..]);
  }

  lemma RenderFirst(s: Seg, rest: seq<Seg>)
    ensures Render([s] + rest) == RenderSeg(s) + Render(rest)
  {
    assert ([s] + rest)[1..] == rest;
  }

  lemma RenderThree(a: Seg, b: Seg, c: Seg)
    ensures Render([a, b, c]) == RenderSeg(a) + RenderSeg(b) + RenderSeg(c)
  {
    hide Render;
    assert [a, b, c] == [a] + [b, c] && [b, c] == [b] + [c];
    RenderFirst(a, [b, c]);
    RenderFirst(b, [c]);
    RenderOne(c);
  }

  lemma BinaryRenders(kind: Kind, v: Json)
    requires BytesMarker(v).Some? && (v.Arr? || v.Obj?)
    ensures Render(CellSegs(kind, v)) == SqlLiteral(kind, v)
  {
    hide Render, BytesMarker, Base64Decode, HexOf, Enclosed;
    var segs, b64 := CellSegs(kind, v), BytesMarker(v).value;
    match kind
    case Mysql => RenderThree(segs[0], segs[1], segs[2]);
    case Postgres =>
      var tail := [Plain(", "), Lit('\'', "base64"), Plain(")")];
      assert segs == [Plain("decode(")] + ([Lit('\'', b64)] + tail);
      RenderFirst(segs[0], [Lit('\'', b64)] + tail);
      RenderFirst(Lit('\'', b64), tail);
      RenderThree(tail[0], tail[1], tail[2]);
      Base64Tail();
    case Sqlite =>
      match Base64Decode(b64)
      case Some(bytes) =>
        assert segs == [segs[0]] + [segs[1]];
        RenderFirst(segs[0], [segs[1]]);
        RenderOne(segs[1]);
      case None => RenderOne(segs[0]);
  }

  lemma Base64Tail()
    ensures ", " + Enclosed('\'', "base64") + ")" == ", 'base64')"
  {
  }

  lemma CellRenders(kind: Kind, v: Json)
    ensures Render(CellSegs(kind, v)) == SqlLiteral(kind, v)
  {
    hide Render, BytesMarker, BinaryLiteral, JsonText, Enclosed;
    if (v.Arr? || v.Obj?) && BytesMarker(v).Some? {
      BinaryRenders(kind, v);
    } else {
      RenderOne(CellSegs(kind, v)[0]);
    }
  }

  lemma {:induction false} JoinRenders(parts: seq<seq<Seg>>, texts: seq<string>)
    requires |parts| == |texts| && forall i :: 0 <= i < |parts| ==> Render(parts[i]) == texts[i]
    ensures Render(JoinSegs(parts)) == Join(texts, ", ")
  {
    if |parts| > 1 {
      JoinRenders(parts[1..], texts[1..]);
      RenderConcat(parts[0] + [Plain(", ")], JoinSegs(parts[1..]));
      RenderConcat(parts[0], [Plain(", ")]);
      RenderOne(Plain(", "));
    }
  }

  lemma InsertRenders(kind: Kind, table: string, columns: seq<string>, row: seq<Json>)
    ensures Render(InsertSegs(kind, table, columns, row)) == Insert(kind, table, columns, row)
  {
    hide Render, JoinSegs, Join, SqlLiteral, CellSegs, Quoted;
    var names, cells := NamesSegs(kind, columns), CellsSegs(kind, row);
    forall i | 0 <= i < |columns| ensures Render(names[i]) == QuotedNames(kind, columns)[i] {
      NameRenders(kind, columns[i]);
    }
    forall i | 0 <= i < |row| ensures Render(cells[i]) == Literals(kind, row)[i] { CellRenders(kind, row[i]); }
    JoinRenders(names, QuotedNames(kind, columns));
    JoinRenders(cells, Literals(kind, row));
    NameRenders(kind, table);
    var a := [Plain("INSERT INTO ")] + NameSegs(kind, table);
    var b := a + [Plain(" (")];
    var c := b + JoinSegs(names);
    var d := c + [Plain(") VALUES (")];
    var e := d + JoinSegs(cells);
    RenderConcat([Plain("INSERT INTO ")], NameSegs(kind, table));
    RenderConcat(a, [Plain(" (")]);
    RenderConcat(b, JoinSegs(names));
    RenderConcat(c, [Plain(") VALUES (")]);
    RenderConcat(d, JoinSegs(cells));
    RenderConcat(e, [Plain(")")]);
    RenderOne(Plain("INSERT INTO "));
    RenderOne(Plain(" ("));
    RenderOne(Plain(") VALUES ("));
    RenderOne(Plain(")"));
  }

  lemma NameRenders(kind: Kind, s: string)
    ensures Render(NameSegs(kind, s)) == QuoteIdent(kind, s)
  {
    RenderOne(NameSegs(kind, s)[0]);
  }

  // ------------------------------ as the lexer reads --------------------

  /** The literals printed for a cell stay within their quotes: where MySQL reads backslashes, the
      escapes of its text pair up, and the base64 of a binary cell, which is printed as it is, holds
      no quote that could end it. */
  predicate CellOk(kind: Kind, v: Json) {
    match v
    case Str(s) => kind == Mysql ==> EscapesPaired('\'', s)
    case Arr(_) => kind == Mysql ==> EscapesPaired('\'', JsonText(v))
    case Obj(_) => (
      match BytesMarker(v)
      case None => kind == Mysql ==> EscapesPaired('\'', JsonText(v))
      case Some(b64) =>
        (kind == Sqlite && Base64Decode(b64).Some?) || Contained('\'', b64, kind == Mysql))
    case _ => true
  }

  predicate RowOk(kind: Kind, row: seq<Json>) { forall v | v in row :: CellOk(kind, v) }

  lemma NumberIsPlain(s: NumberText)
    ensures PlainText(s)
  {
    forall i | 0 <= i < |s| ensures PlainAt(s, i) { assert NumberAt(s, i); }
  }

  lemma {:induction false} HexHasNoQuote(bytes: seq<Byte>)
    ensures '\'' !in HexOf(bytes) && '\\' !in HexOf(bytes)
  {
    if bytes != [] {
      HexHasNoQuote(bytes[1..]);
      assert forall n: nat | n < 16 :: LowerHex(n) != '\'' && LowerHex(n) != '\\';
    }
  }

  lemma LitOk(q: char, body: string, kind: Kind)
    requires IsQuote(q, kind) && Contained(q, body, Escaping(q, kind))
    ensures SegsOk(false, [Lit(q, body)], kind) && !EndEstr(false, [Lit(q, body)])
  {
    var segs := [Lit(q, body)];
    assert segs[1..] == [];
  }

  lemma PlainOk(text: string, estr: bool, kind: Kind)
    requires text != [] && PlainText(text)
    ensures SegsOk(estr, [Plain(text)], kind) && EndEstr(estr, [Plain(text)]) == EndsInE(text)
  {
    var segs := [Plain(text)];
    assert segs[1..] == [];
    assert EndEstr(estr, segs) == EndEstr(EndsInE(text), segs[1..]);
  }

  /** Ready for whatever segments come next. */
  predicate Open(segs: seq<Seg>, kind: Kind) {
    SegsOk(false, segs, kind) && !EndEstr(false, segs) && !LastIsLit(segs)
  }

  lemma AddPlain(segs: seq<Seg>, text: string, kind: Kind)
    requires SegsOk(false, segs, kind) && text != [] && PlainText(text) && !EndsInE(text)
    ensures Open(segs + [Plain(text)], kind)
  {
    PlainOk(text, EndEstr(false, segs), kind);
    SegsOkConcat(false, segs, [Plain(text)], kind);
  }

  lemma AddSegs(a: seq<Seg>, b: seq<Seg>, kind: Kind)
    requires Open(a, kind) && SegsOk(false, b, kind)
    ensures SegsOk(false, a + b, kind)
  {
    SegsOkConcat(false, a, b, kind);
  }

  lemma TextOk(s: string, kind: Kind)
    requires kind == Mysql ==> EscapesPaired('\'', s)
    ensures SegsOk(false, TextSegs(s), kind)
  {
    DoubledIsContained('\'', s, kind == Mysql);
    LitOk('\'', Doubled('\'', s), kind);
  }

  lemma NameOk(kind: Kind, s: string)
    ensures SegsOk(false, NameSegs(kind, s), kind)
  {
    DoubledIsContained(Ident.IdentQuote(kind), s, false);
    LitOk(Ident.IdentQuote(kind), Doubled(Ident.IdentQuote(kind), s), kind);
  }

  lemma PlainConstants()
    ensures PlainText("NULL") && PlainText("TRUE") && PlainText("FALSE") && PlainText("FROM_BASE64(")
    ensures PlainText("decode(") && PlainText(", ") && PlainText(")") && PlainText("X")
    ensures PlainText("INSERT INTO ") && PlainText(" (") && PlainText(") VALUES (")
  {
    AllPlain("NULL");
    AllPlain("TRUE");
    AllPlain("FALSE");
    AllPlain("FROM_BASE64(");
    AllPlain("decode(");
    AllPlain(", ");
    AllPlain(")");
    AllPlain("X");
    AllPlain("INSERT INTO ");
    AllPlain(" (");
    AllPlain(") VALUES (");
  }

  lemma AllPlain(s: string)
    requires forall c | c in s :: PlainChar(c)
    ensures PlainText(s)
  {
  }

  lemma BinaryOk(kind: Kind, b64: string)
    requires (kind == Sqlite && Base64Decode(b64).Some?) || Contained('\'', b64, kind == Mysql)
    ensures kind == Mysql ==> SegsOk(false, [Plain("FROM_BASE64("), Lit('\'', b64), Plain(")")], kind)
    ensures kind == Postgres ==>
      SegsOk(false, [Plain("decode("), Lit('\'', b64), Plain(", "), Lit('\'', "base64"), Plain(")")], kind)
    ensures kind == Sqlite && Base64Decode(b64).Some? ==>
      SegsOk(false, [Plain("X"), Lit('\'', HexOf(Base64Decode(b64).value))], kind)
    ensures kind == Sqlite && Base64Decode(b64).None? ==> SegsOk(false, [Lit('\'', b64)], kind)
  {
    hide Base64Decode, HexOf, PlainText, Contained, SegsOk, EndEstr;
    PlainConstants();
    assert !EndsInE("FROM_BASE64(") && !EndsInE("decode(") && !EndsInE(", ") && !EndsInE(")") && !EndsInE("X");
    NoneOk(kind);
    if kind == Mysql {
      var a := [Plain("FROM_BASE64(")];
      assert [] + a == a;
      AddPlain([], "FROM_BASE64(", kind);
      LitOk('\'', b64, kind);
      AddSegs(a, [Lit('\'', b64)], kind);
      AddPlain(a + [Lit('\'', b64)], ")", kind);
      assert a + [Lit('\'', b64)] + [Plain(")")] == [Plain("FROM_BASE64("), Lit('\'', b64), Plain(")")];
    } else if kind == Postgres {
      var a := [Plain("decode(")];
      assert [] + a == a;
      AddPlain([], "decode(", kind);
      LitOk('\'', b64, kind);
      AddSegs(a, [Lit('\'', b64)], kind);
      var b := a + [Lit('\'', b64)] + [Plain(", ")];
      AddPlain(a + [Lit('\'', b64)], ", ", kind);
      NoQuoteIsContained('\'', "base64", false);
      LitOk('\'', "base64", kind);
      AddSegs(b, [Lit('\'', "base64")], kind);
      AddPlain(b + [Lit('\'', "base64")], ")", kind);
      assert b + [Lit('\'', "base64")] + [Plain(")")]
        == [Plain("decode("), Lit('\'', b64), Plain(", "), Lit('\'', "base64"), Plain(")")];
    } else if Base64Decode(b64).Some? {
      var hex := HexOf(Base64Decode(b64).value);
      HexHasNoQuote(Base64Decode(b64).value);
      NoQuoteIsContained('\'', hex, false);
      LitOk('\'', hex, kind);
      assert [] + [Plain("X")] == [Plain("X")];
      AddPlain([], "X", kind);
      AddSegs([Plain("X")], [Lit('\'', hex)], kind);
      assert [Plain("X")] + [Lit('\'', hex)] == [Plain("X"), Lit('\'', hex)];
    } else {
      LitOk('\'', b64, kind);
    }
  }

  lemma NoneOk(kind: Kind)
    ensures SegsOk(false, [], kind) && !EndEstr(false, [])
  {
  }

  lemma CellSegsOk(kind: Kind, v: Json)
    requires CellOk(kind, v)
    ensures SegsOk(false, CellSegs(kind, v), kind) && CellSegs(kind, v) != []
  {
    hide SegsOk, EndEstr, Base64Decode, HexOf, EscapesPaired, Contained, JsonText, BytesMarker, PlainText, TextSegs;
    PlainConstants();
    match v
    case Null => PlainOk("NULL", false, kind);
    case Bool(b) => PlainOk(if b then "TRUE" else "FALSE", false, kind);
    case Number(text) =>
      NumberIsPlain(text);
      PlainOk(text, false, kind);
    case Str(s) => TextOk(s, kind); TextSome(s);
    case Arr(_) =>
      MarkerIsObject(v);
      TextOk(JsonText(v), kind);
      TextSome(JsonText(v));
    case Obj(_) =>
      if BytesMarker(v).Some? {
        BinaryOk(kind, BytesMarker(v).value);
      } else {
        TextOk(JsonText(v), kind);
        TextSome(JsonText(v));
      }
  }

  lemma TextSome(s: string)
    ensures TextSegs(s) != []
  {
  }

  lemma MarkerIsObject(v: Json)
    ensures BytesMarker(v).Some? ==> v.Obj?
  {
  }

  lemma {:induction false} JoinOk(parts: seq<seq<Seg>>, kind: Kind)
    requires forall i :: 0 <= i < |parts| ==> parts[i] != [] && SegsOk(false, parts[i], kind)
    ensures SegsOk(false, JoinSegs(parts), kind)
  {
    hide SegsOk;
    NoneOk(kind);
    if |parts| > 1 {
      PlainConstants();
      AddPlain(parts[0], ", ", kind);
      JoinOk(parts[1..], kind);
      AddSegs(parts[0] + [Plain(", ")], JoinSegs(parts[1..]), kind);
    }
  }

  lemma InsertSegsOk(kind: Kind, table: string, columns: seq<string>, row: seq<Json>)
    requires RowOk(kind, row)
    ensures SegsOk(false, InsertSegs(kind, table, columns, row), kind)
  {
    hide SegsOk, JoinSegs, CellOk, CellSegs, PlainText, NameSegs, LastIsLit, EndEstr;
    var names, cells := NamesSegs(kind, columns), CellsSegs(kind, row);
    forall i | 0 <= i < |columns| ensures names[i] != [] && SegsOk(false, names[i], kind) {
      NameOk(kind, columns[i]);
      NameSome(kind, columns[i]);
    }
    forall i | 0 <= i < |row| ensures cells[i] != [] && SegsOk(false, cells[i], kind) {
      assert row[i] in row;
      CellSegsOk(kind, row[i]);
    }
    JoinOk(names, kind);
    JoinOk(cells, kind);
    NameOk(kind, table);
    PlainConstants();
    NoneOk(kind);
    var z := [Plain("INSERT INTO ")];
    assert [] + z == z;
    AddPlain([], "INSERT INTO ", kind);
    var a := z + NameSegs(kind, table);
    AddSegs(z, NameSegs(kind, table), kind);
    AddPlain(a, " (", kind);
    AddSegs(a + [Plain(" (")], JoinSegs(names), kind);
    var c := a + [Plain(" (")] + JoinSegs(names);
    AddPlain(c, ") VALUES (", kind);
    AddSegs(c + [Plain(") VALUES (")], JoinSegs(cells), kind);
    AddPlain(c + [Plain(") VALUES (")] + JoinSegs(cells), ")", kind);
  }

  lemma NameSome(kind: Kind, s: string)
    ensures NameSegs(kind, s) != []
  {
  }

  // ------------------------------ the whole export ----------------------

  lemma {:induction false} BlankBeforeSplit(c: char, s: string, kind: Kind)
    requires IsBlank(c)
    ensures SplitStatements([c] + s, kind) == SplitStatements(s, kind)
  {
    hide Mask, IsBlank, Trim, FirstSep;
    var t := [c] + s;
    var m, n := Mask(t, kind), Mask(s, kind);
    BlankMask(c, s, kind);
    var k := FirstSep(s, n);
    assert FirstSep(t, m) == k + 1 by { FirstSepAfter(c, s, n); }
    UnfoldMasked(t, m);
    UnfoldMasked(s, n);
    assert t[..k + 1] == [c] + s[..k];
    TrimBlankPrefix([c], s[..k]);
    assert k < |s| ==> t[k + 1 + 1..] == s[k + 1..] && m[k + 1 + 1..] == n[k + 1..];
  }

  lemma FirstSepAfter(c: char, s: string, n: seq<bool>)
    requires |s| == |n| && c != ';'
    ensures FirstSep([c] + s, [true] + n) == 1 + FirstSep(s, n)
  {
    assert ([c] + s)[1..] == s && ([true] + n)[1..] == n;
  }

  lemma BlankMask(c: char, s: string, kind: Kind)
    requires IsBlank(c)
    ensures Mask([c] + s, kind) == [true] + Mask(s, kind) && c != ';'
  {
    hide TokenAt, IsBlank, MaskFrom;
    BlankToken(c, s, kind);
    var t := [c] + s;
    MaskUnfold(START, t, kind);
    assert t[..1] == [c] && t[1..] == s && Flags(1, true) == [true];
    AfterOne(START, c);
  }

  lemma BlankToken(c: char, s: string, kind: Kind)
    requires IsBlank(c)
    ensures TokenAt(START, [c] + s, kind) == Token(1, false) && After(START, c) == START && c != ';'
  {
  }

  lemma InsertTrimmed(kind: Kind, table: string, columns: seq<string>, row: seq<Json>)
    ensures var t := Insert(kind, table, columns, row); t != [] && Trim(t) == t
  {
    hide Join, SqlLiteral, QuoteIdent, Trim;
    var t := Insert(kind, table, columns, row);
    assert t[0] == 'I' && t[|t| - 1] == ')';
    TrimIs(t, 0, |t|);
  }

  /** The first row of an export, when it stays within its quotes, is its first statement. */
  lemma FirstRowSplits(kind: Kind, table: string, columns: seq<string>, rows: seq<seq<Json>>)
    requires rows != [] && RowOk(kind, rows[0])
    ensures SplitStatements(SqlExport(kind, table, columns, rows), kind)
      == [Insert(kind, table, columns, rows[0])] + SplitStatements(SqlExport(kind, table, columns, rows[1..]), kind)
  {
    hide SplitStatements, Insert, InsertSegs, RowOk;
    var first, rest := Insert(kind, table, columns, rows[0]), SqlExport(kind, table, columns, rows[1..]);
    assert first + ";\n" + rest == first + ";" + ("\n" + rest);
    InsertSegsOk(kind, table, columns, rows[0]);
    InsertRenders(kind, table, columns, rows[0]);
    InsertTrimmed(kind, table, columns, rows[0]);
    SegsAreOneStatement(InsertSegs(kind, table, columns, rows[0]), "\n" + rest, kind);
    BlankBeforeSplit('\n', rest, kind);
  }

  /** An export of R rows splits into exactly the R statements that insert them, whatever the table
      and column names and the cell values. */
  lemma {:induction false} ExportSplitsIntoRows(kind: Kind, table: string, columns: seq<string>, rows: seq<seq<Json>>)
    requires forall row | row in rows :: RowOk(kind, row)
    ensures SplitStatements(SqlExport(kind, table, columns, rows), kind) == Inserts(kind, table, columns, rows)
  {
    hide SplitStatements, Insert, InsertSegs, RowOk;
    if rows == [] {
      EmptySplit(kind);
    } else {
      assert rows[0] in rows && forall row | row in rows[1..] :: row in rows;
      FirstRowSplits(kind, table, columns, rows);
      ExportSplitsIntoRows(kind, table, columns, rows[1..]);
      assert Inserts(kind, table, columns, rows)
        == [Insert(kind, table, columns, rows[0])] + Inserts(kind, table, columns, rows[1..]);
    }
  }

  lemma EmptySplit(kind: Kind)
    ensures SplitStatements([], kind) == []
  {
  }

  lemma {:induction false} JoinSegsAt(parts: seq<seq<Seg>>, j: nat) returns (a: seq<Seg>, b: seq<Seg>)
    requires j < |parts|
    ensures JoinSegs(parts) == a + parts[j] + b
  {
    if |parts| == 1 {
      a, b := [], [];
      assert [] + parts[0] + [] == parts[0];
    } else if j == 0 {
      a, b := [], [Plain(", ")] + JoinSegs(parts[1..]);
      assert JoinSegs(parts) == [] + parts[0] + b;
    } else {
      var c, d := JoinSegsAt(parts[1..], j - 1);
      a, b := parts[0] + [Plain(", ")] + c, d;
      assert JoinSegs(parts) == a + parts[j] + b;
    }
  }

  /** The text of a cell that is printed as one quoted literal. */
  function CellText(v: Json): Option<string> {
    match v
    case Str(s) => Some(s)
    case Arr(_) => Some(JsonText(v))
    case Obj(_) => if BytesMarker(v).None? then Some(JsonText(v)) else None
    case _ => None
  }

  lemma TextIsQuoted(kind: Kind, v: Json)
    requires CellText(v).Some?
    ensures SqlLiteral(kind, v) == Quoted('\'', CellText(v).value) && CellSegs(kind, v) == TextSegs(CellText(v).value)
    ensures CellOk(kind, v) <==> (kind == Mysql ==> EscapesPaired('\'', CellText(v).value))
  {
    hide JsonText, Quoted, EscapesPaired, TextSegs;
    if v.Arr? { MarkerIsObject(v); }
  }

  /** A row's segments around one cell. */
  lemma CellSegAt(kind: Kind, table: string, columns: seq<string>, row: seq<Json>, j: nat) returns (i: nat)
    requires j < |row| && CellText(row[j]).Some?
    ensures var segs := InsertSegs(kind, table, columns, row);
      i < |segs| && segs[i] == Lit('\'', Doubled('\'', CellText(row[j]).value))
  {
    hide JoinSegs, NameSegs, Doubled, CellSegs, CellText;
    var cells := CellsSegs(kind, row);
    var a, b := JoinSegsAt(cells, j);
    var head := [Plain("INSERT INTO ")] + NameSegs(kind, table) + [Plain(" (")] + JoinSegs(NamesSegs(kind, columns))
      + [Plain(") VALUES (")];
    i := |head + a|;
    assert InsertSegs(kind, table, columns, row) == head + (a + cells[j] + b) + [Plain(")")];
    TextIsQuoted(kind, row[j]);
    assert cells[j] == TextSegs(CellText(row[j]).value);
  }

  /** What the engine takes a printed text for. */
  function TakenFor(kind: Kind, s: string): string { if kind == Mysql then Meant(s) else s }

  /** A text cell, a JSON document for one, is one masked run of its statement. Read as its engine reads literals it
      is the cell's text, on MySQL exactly when every backslash in it is kept. */
  lemma TextCellIsOneRun(kind: Kind, table: string, columns: seq<string>, row: seq<Json>, j: nat)
      returns (pre: string, post: string)
    requires RowOk(kind, row) && j < |row| && CellText(row[j]).Some?
    ensures var t, lit, s := Insert(kind, table, columns, row) + ";", SqlLiteral(kind, row[j]), CellText(row[j]).value;
      && t == pre + (lit + post)
      && Reaches(START, t, |pre|, kind)
      && TokenAt(AfterAll(START, pre), lit + post, kind) == Token(|lit|, true)
      && lit[0] == '\'' && ReadQuoted('\'', (lit + post)[1..], kind == Mysql) == Some((TakenFor(kind, s), |lit| - 1))
      && (TakenFor(kind, s) == s <==> (kind == Mysql ==> BackslashesKept(s)))
  {
    hide MaskFrom, TokenAt, Reaches, AfterAll, SegsOk, InsertSegs, Insert, CellOk, Render, ReadQuoted, Doubled,
      SqlLiteral, CellText, Meant, BackslashesKept, EscapesPaired, CellSegs;
    var segs := InsertSegs(kind, table, columns, row);
    InsertSegsOk(kind, table, columns, row);
    InsertRenders(kind, table, columns, row);
    assert row[j] in row;
    var lit, s := SqlLiteral(kind, row[j]), CellText(row[j]).value;
    TextIsQuoted(kind, row[j]);
    var i := CellSegAt(kind, table, columns, row, j);
    LitIsOneToken(segs, i, ";", kind);
    pre, post := Render(segs[..i]), Render(segs[i + 1..]) + ";";
    LitFollowed(segs, i, kind);
    assert (lit + post)[1..] == Doubled('\'', s) + ['\''] + post;
    if kind == Mysql {
      PairedReads('\'', s, post);
      MeantIffKept('\'', s);
    } else {
      ReadsBack('\'', s, post);
    }
  }

  /** Exactly when a text cell reads back as its text: always on PostgreSQL and SQLite; on MySQL, whose backslashes
      the printer leaves alone, when each stands before a `%` or a `_`. */
  lemma TextCellReadsBack(kind: Kind, v: Json, post: string)
    requires CellText(v).Some? && post != [] && post[0] != '\''
    ensures var lit, s := SqlLiteral(kind, v), CellText(v).value;
      lit != [] && (ReadQuoted('\'', (lit + post)[1..], kind == Mysql) == Some((s, |lit| - 1))
        <==> (kind == Mysql ==> BackslashesKept(s)))
  {
    hide ReadQuoted, BackslashesKept, Doubled, SqlLiteral, CellText;
    TextIsQuoted(kind, v);
    var s := CellText(v).value;
    assert (SqlLiteral(kind, v) + post)[1..] == Doubled('\'', s) + ['\''] + post;
    if kind == Mysql { ReadsBackIffKept('\'', s, post); } else { ReadsBack('\'', s, post); }
  }

  /** Two backslashes: one run on MySQL, but taken for one backslash. */
  lemma TwoBackslashes()
    ensures CellOk(Mysql, Str("\\\\")) && TakenFor(Mysql, "\\\\") == "\\"
  {
    assert "\\\\"[2..] == "";
  }

  lemma LitFollowed(segs: seq<Seg>, i: nat, kind: Kind)
    requires SegsOk(false, segs, kind) && i < |segs| && segs[i].Lit?
    ensures NotQuote(Render(segs[i + 1..]) + ";")
  {
    assert segs == segs[..i] + segs[i..];
    SegsOkParts(false, segs[..i], segs[i..], kind);
    assert segs[i..][1..] == segs[i + 1..];
    PlainStart(segs[i + 1..], ";", false, kind);
  }

  /** Whether an enclosed text is one run where it stands in a statement. */
  lemma OneRunIffContained(look: Look, q: char, body: string, post: string, kind: Kind)
    requires IsQuote(q, kind) && !look.estr && post != [] && post[0] != q
    ensures TokenAt(look, Enclosed(q, body) + post, kind) == Token(|Enclosed(q, body)|, true)
      <==> Contained(q, body, Escaping(q, kind))
  {
    hide QuotedLen;
    var t := Enclosed(q, body) + post;
    assert t[1..] == body + [q] + post;
    EnclosedIsOneRun(q, body, post, Escaping(q, kind));
    assert OpeningAt(look, t, kind) == Quote(Escaping(q, kind));
  }

  /** Exactly when a text cell stays one run: on MySQL, where the printer leaves backslashes alone,
      its escapes have to pair up. */
  lemma TextCellExact(look: Look, s: string, post: string, kind: Kind)
    requires !look.estr && post != [] && post[0] != '\''
    ensures var lit := SqlLiteral(kind, Str(s));
      TokenAt(look, lit + post, kind) == Token(|lit|, true) <==> CellOk(kind, Str(s))
  {
    hide TokenAt;
    OneRunIffContained(look, '\'', Doubled('\'', s), post, kind);
    DoubledIsContained('\'', s, kind == Mysql);
  }

  /** The literal in a binary cell: its base64 text as it is, or on SQLite the hexadecimal digits of what it encodes. */
  function BinaryBody(kind: Kind, b64: string): string {
    if kind == Sqlite && Base64Decode(b64).Some? then HexOf(Base64Decode(b64).value) else b64
  }

  /** The same for a binary cell, on every engine. */
  lemma BinaryCellExact(look: Look, b64: string, post: string, kind: Kind)
    requires !look.estr && post != [] && post[0] != '\''
    ensures var v := Obj([Member("__type", Str("bytes")), Member("b64", Str(b64))]);
      var lit := Enclosed('\'', BinaryBody(kind, b64));
      && (exists a, b :: SqlLiteral(kind, v) == a + lit + b)
      && (TokenAt(look, lit + post, kind) == Token(|lit|, true) <==> CellOk(kind, v))
  {
    hide TokenAt, Base64Decode, HexOf, Contained, Enclosed;
    var fields := [Member("__type", Str("bytes")), Member("b64", Str(b64))];
    assert fields[1..][0].key == "b64";
    assert Get(fields, "b64") == Get(fields[1..], "b64");
    var body := BinaryBody(kind, b64);
    OneRunIffContained(look, '\'', body, post, kind);
    if kind == Sqlite && Base64Decode(b64).Some? {
      HexHasNoQuote(Base64Decode(b64).value);
      NoQuoteIsContained('\'', body, false);
    }
    var lit := Enclosed('\'', body);
    BinaryAround(kind, b64);
  }

  lemma BinaryAround(kind: Kind, b64: string)
    ensures exists a, b :: BinaryLiteral(kind, b64) == a + Enclosed('\'', BinaryBody(kind, b64)) + b
  {
    hide Base64Decode, HexOf, Enclosed;
    var lit := Enclosed('\'', BinaryBody(kind, b64));
    assert lit == "" + lit + "" && "X" + lit == "X" + lit + "";
    match kind
    case Mysql => assert BinaryLiteral(kind, b64) == "FROM_BASE64(" + lit + ")";
    case Postgres => assert BinaryLiteral(kind, b64) == "decode(" + lit + ", 'base64')";
    case Sqlite =>
      assert BinaryLiteral(kind, b64) == (if Base64Decode(b64).Some? then "X" else "") + lit + "";
  }

  /** Two text cells are analysed alike in any script they stand in. */
  lemma TextIsOpaque(pre: string, x: string, y: string, post: string, kind: Kind)
    requires CellOk(kind, Str(x)) && CellOk(kind, Str(y)) && CodePosition(pre, '\'', kind)
    requires post == [] || post[0] != '\''
    ensures Verdicts(SplitStatements(pre + SqlLiteral(kind, Str(x)) + post, kind), kind)
         == Verdicts(SplitStatements(pre + SqlLiteral(kind, Str(y)) + post, kind), kind)
  {
    hide Verdicts, SplitStatements, CodePosition;
    DoubledIsContained('\'', x, kind == Mysql);
    DoubledIsContained('\'', y, kind == Mysql);
    LiteralIsOpaqueInScript(pre, '\'', Doubled('\'', x), Doubled('\'', y), post, kind);
  }
}
