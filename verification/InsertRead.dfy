/** What an exported INSERT says, read back from its text as its own engine reads it. */
module InsertRead {
  import opened Text
  import opened Lexer
  import opened Quoting
  import opened Json
  import opened SqlText
  import opened Reload
  import opened ContextText
  import opened PageRead
  import opened JsonRead
  import Split
  import Ident

  /** A value in a row: decoded bytes, when they are base64. */
  datatype Datum = NullDatum | BoolDatum(b: bool) | NumberDatum(text: string) | TextDatum(s: string)
                 | BytesDatum(bytes: Option<seq<Byte>>)

  // ------------------------------ the reader ----------------------------

  function ReadHexBytes(s: string): Option<seq<Byte>>
    decreases |s|
  {
    if s == [] then Some([])
    else if |s| == 1 then None
    else
      match (HexValue(s[0]), HexValue(s[1]), ReadHexBytes(s[2..]))
      case (Some(a), Some(b), Some(rest)) => Some([a * 16 + b] + rest)
      case _ => None
  }

  /** A literal, and what follows it up to `end`. */
  function ReadWithin(kind: Kind, s: string, end: string): (r: Option<(string, string)>)
    ensures r.Some? ==> |r.value.1| < |s|
  {
    match ReadLiteral(kind, s)
    case None => None
    case Some((text, t)) => match Behind(t, end) case None => None case Some(u) => Some((text, u))
  }

  /** A blob: `FROM_BASE64` in the MySQL Reference Manual, `decode` in the PostgreSQL documentation, and a blob literal
      of SQLite. */
  function ReadBytes(kind: Kind, s: string): (r: Option<(Datum, string)>)
    ensures r.Some? ==> |r.value.1| < |s|
  {
    match kind
    case Mysql => (
      match Behind(s, "FROM_BASE64(")
      case None => None
      case Some(t) =>
        match ReadWithin(kind, t, ")")
        case None => None
        case Some((text, u)) => Some((BytesDatum(Base64Decode(text)), u)))
    case Postgres => (
      match Behind(s, "decode(")
      case None => None
      case Some(t) =>
        match ReadWithin(kind, t, ", 'base64')")
        case None => None
        case Some((text, u)) => Some((BytesDatum(Base64Decode(text)), u)))
    case Sqlite =>
      match Behind(s, "X")
      case None => None
      case Some(t) =>
        match ReadLiteral(kind, t)
        case None => None
        case Some((text, u)) =>
          match ReadHexBytes(text) case None => None case Some(bytes) => Some((BytesDatum(Some(bytes)), u))
  }

  function ReadDatum(kind: Kind, s: string): (r: Option<(Datum, string)>)
    ensures r.Some? ==> |r.value.1| < |s|
  {
    if s == [] then None
    else
      match s[0]
      case 'N' => (match Behind(s, "NULL") case None => None case Some(t) => Some((NullDatum, t)))
      case 'T' => (match Behind(s, "TRUE") case None => None case Some(t) => Some((BoolDatum(true), t)))
      case '\'' => (match ReadLiteral(kind, s) case None => None case Some((x, t)) => Some((TextDatum(x), t)))
      case _ =>
        if Behind(s, "FALSE").Some? then Some((BoolDatum(false), Behind(s, "FALSE").value))
        else if InNumber(s[0]) then Some((NumberDatum(s[..NumberLen(s)]), s[NumberLen(s)..]))
        else ReadBytes(kind, s)
  }

  /** The values of a row up to its closing bracket. */
  function ReadData(kind: Kind, s: string): Option<(seq<Datum>, string)>
    decreases |s|
  {
    match ReadDatum(kind, s)
    case None => None
    case Some((d, t)) =>
      match Behind(t, ", ")
      case Some(u) => (
        match ReadData(kind, u) case None => None case Some((ds, v)) => Some(([d] + ds, v)))
      case None => match Behind(t, ")") case None => None case Some(u) => Some(([d], u))
  }

  function ReadNames(kind: Kind, s: string): Option<(seq<string>, string)>
    decreases |s|
  {
    match ReadName(s, Ident.IdentQuote(kind))
    case None => None
    case Some((c, t)) =>
      match Behind(t, ", ")
      case Some(u) => (
        match ReadNames(kind, u) case None => None case Some((cs, v)) => Some(([c] + cs, v)))
      case None => match Behind(t, ")") case None => None case Some(u) => Some(([c], u))
  }

  function ReadColumns(kind: Kind, s: string): Option<(seq<string>, string)> {
    match Behind(s, ")") case Some(t) => Some(([], t)) case None => ReadNames(kind, s)
  }

  function ReadRow(kind: Kind, s: string): Option<(seq<Datum>, string)> {
    match Behind(s, ")") case Some(t) => Some(([], t)) case None => ReadData(kind, s)
  }

  datatype InsertText = InsertText(table: string, columns: seq<string>, row: seq<Datum>)

  function ReadInsert(kind: Kind, s: string): Option<InsertText> {
    match Behind(s, "INSERT INTO ")
    case None => None
    case Some(t) =>
      match ReadName(t, Ident.IdentQuote(kind))
      case None => None
      case Some((table, u)) =>
        match Behind(u, " (")
        case None => None
        case Some(v) =>
          match ReadColumns(kind, v)
          case None => None
          case Some((columns, w)) =>
            match Behind(w, " VALUES (")
            case None => None
            case Some(x) =>
              match ReadRow(kind, x)
              case Some((row, y)) => if y == "" then Some(InsertText(table, columns, row)) else None
              case None => None
  }

  // ------------------------------ what a cell says ----------------------

  /** What the text between quotes denotes, when it is contained. */
  function Denoted(q: char, body: string, backslash: bool): string
    decreases |body|
  {
    if body == [] then []
    else if backslash && body[0] == '\\' && |body| > 1 then Unescaped(body[1]) + Denoted(q, body[2..], backslash)
    else if body[0] == q && |body| > 1 then [q] + Denoted(q, body[2..], backslash)
    else [body[0]] + Denoted(q, body[1..], backslash)
  }

  lemma DenotedStep(q: char, body: string, backslash: bool)
    requires Contained(q, body, backslash) && body != []
    ensures (backslash && body[0] == '\\') || body[0] == q ==>
      && |body| > 1 && Contained(q, body[2..], backslash)
      && (body[0] == q && !(backslash && q == '\\') ==> body[1] == q)
      && Denoted(q, body, backslash) == (if backslash && body[0] == '\\' then Unescaped(body[1]) else [q])
        + Denoted(q, body[2..], backslash)
    ensures !(backslash && body[0] == '\\') && body[0] != q ==>
      && Contained(q, body[1..], backslash)
      && Denoted(q, body, backslash) == [body[0]] + Denoted(q, body[1..], backslash)
  {
  }

  predicate ReadsTo(q: char, body: string, post: string, backslash: bool) {
    ReadQuoted(q, body + [q] + post, backslash) == Some((Denoted(q, body, backslash), |body| + 1))
  }

  lemma {:induction false} ContainedReads(q: char, body: string, post: string, backslash: bool)
    requires Contained(q, body, backslash) && q != '\\' && (post == [] || post[0] != q)
    ensures ReadsTo(q, body, post, backslash)
    decreases |body|
  {
    hide ReadsTo, Contained;
    if body == [] {
      NothingReads(q, post, backslash);
    } else {
      DenotedStep(q, body, backslash);
      if (backslash && body[0] == '\\') || body[0] == q {
        ContainedReads(q, body[2..], post, backslash);
        TwoRead(q, body, post, backslash);
      } else {
        ContainedReads(q, body[1..], post, backslash);
        OneReads(q, body, post, backslash);
      }
    }
  }

  lemma NothingReads(q: char, post: string, backslash: bool)
    requires q != '\\' && (post == [] || post[0] != q)
    ensures ReadsTo(q, [], post, backslash)
  {
    assert [] + [q] + post == [q] + post;
  }

  lemma TwoRead(q: char, body: string, post: string, backslash: bool)
    requires |body| > 1 && q != '\\' && ReadsTo(q, body[2..], post, backslash)
    requires (backslash && body[0] == '\\') || (body[0] == q && body[1] == q)
    requires Denoted(q, body, backslash)
      == (if backslash && body[0] == '\\' then Unescaped(body[1]) else [q]) + Denoted(q, body[2..], backslash)
    ensures ReadsTo(q, body, post, backslash)
  {
    hide ReadQuoted, Denoted;
    var rest := body[2..] + [q] + post;
    Front(body, 2, q, post);
    assert body[..2] == [body[0], body[1]];
    if backslash && body[0] == '\\' {
      Quoting.ReadEscape(q, body[1], rest);
    } else {
      ReadPair(q, rest, backslash);
    }
  }

  lemma OneReads(q: char, body: string, post: string, backslash: bool)
    requires body != [] && body[0] != q && !(backslash && body[0] == '\\')
    requires ReadsTo(q, body[1..], post, backslash)
    requires Denoted(q, body, backslash) == [body[0]] + Denoted(q, body[1..], backslash)
    ensures ReadsTo(q, body, post, backslash)
  {
    hide ReadQuoted, Denoted;
    Front(body, 1, q, post);
    assert body[..1] == [body[0]];
    ReadChar(q, body[0], body[1..] + [q] + post, backslash);
  }

  lemma Front(body: string, k: nat, q: char, post: string)
    requires k <= |body|
    ensures body + [q] + post == body[..k] + (body[k..] + [q] + post)
  {
    Regroup(body[..k], body[k..], [q], post);
    assert body == body[..k] + body[k..];
  }

  lemma LiteralReads(kind: Kind, body: string, post: string)
    requires Contained('\'', body, kind == Mysql) && (post == [] || post[0] != '\'')
    ensures ReadLiteral(kind, Enclosed('\'', body) + post) == Some((Denoted('\'', body, kind == Mysql), post))
  {
    hide ReadQuoted, Contained, Denoted;
    var s := Enclosed('\'', body) + post;
    ContainedReads('\'', body, post, kind == Mysql);
    assert s[1..] == body + ['\''] + post && s[|body| + 2..] == post;
  }

  /** What a cell that stays within its quotes says to the engine. */
  function Said(kind: Kind, v: Json): Datum {
    match (CellText(v), BytesMarker(v))
    case (Some(s), _) => TextDatum(TakenFor(kind, s))
    case (None, Some(b64)) =>
      var text := Denoted('\'', b64, kind == Mysql);
      if kind != Sqlite then BytesDatum(Base64Decode(text))
      else if Base64Decode(b64).Some? then BytesDatum(Base64Decode(b64))
      else TextDatum(text)
    case (None, None) =>
      match v
      case Bool(b) => BoolDatum(b)
      case Number(text) => NumberDatum(text)
      case _ => NullDatum
  }

  lemma MarkerBody(kind: Kind, v: Json)
    requires CellOk(kind, v) && !v.Null? && !v.Bool? && !v.Number? && CellText(v).None?
    ensures BytesMarker(v).Some? && v.Obj?
    ensures !(kind == Sqlite && Base64Decode(BytesMarker(v).value).Some?) ==>
      Contained('\'', BytesMarker(v).value, kind == Mysql)
  {
    hide BytesMarker, Base64Decode, Contained, JsonText;
  }

  // ------------------------------ reading back --------------------------

  predicate EndsCell(post: string) { post != [] && (post[0] == ',' || post[0] == ')') }

  lemma TextSaid(kind: Kind, s: string)
    requires kind == Mysql ==> EscapesPaired('\'', s)
    ensures Contained('\'', Doubled('\'', s), kind == Mysql)
    ensures Denoted('\'', Doubled('\'', s), kind == Mysql) == TakenFor(kind, s)
  {
    hide ReadQuoted, Denoted, Contained, Meant, EscapesPaired;
    DoubledIsContained('\'', s, kind == Mysql);
    ContainedReads('\'', Doubled('\'', s), [], kind == Mysql);
    if kind == Mysql { PairedReads('\'', s, []); } else { ReadsBack('\'', s, []); }
  }

  lemma TextCellReads(kind: Kind, v: Json, post: string)
    requires CellOk(kind, v) && CellText(v).Some? && EndsCell(post)
    ensures ReadDatum(kind, SqlLiteral(kind, v) + post) == Some((TextDatum(TakenFor(kind, CellText(v).value)), post))
  {
    hide ReadLiteral, Denoted, Contained, EscapesPaired, CellOk, CellText, SqlLiteral, Doubled;
    var s := CellText(v).value;
    TextIsQuoted(kind, v);
    TextSaid(kind, s);
    LiteralReads(kind, Doubled('\'', s), post);
  }

  lemma WordReads(kind: Kind, w: string, post: string)
    requires w == "NULL" || w == "TRUE" || w == "FALSE"
    ensures ReadDatum(kind, w + post) == Some((if w == "NULL" then NullDatum else BoolDatum(w == "TRUE"), post))
  {
    BehindIs(w, post);
    assert (w + post)[0] == w[0];
  }

  lemma NumberCellReads(kind: Kind, text: NumberText, post: string)
    requires EndsCell(post)
    ensures ReadDatum(kind, text + post) == Some((NumberDatum(text), post))
  {
    hide NumberLen;
    var s := text + post;
    forall c | c in text ensures InNumber(c) {
      var i :| 0 <= i < |text| && text[i] == c;
      assert NumberAt(text, i);
    }
    NumberReads(text, post);
    assert s[0] == text[0] && text[0] in text;
    NotBehind(s, "FALSE");
    assert s[..|text|] == text && s[|text|..] == post;
  }

  lemma {:induction false} HexReadsBack(bytes: seq<Byte>)
    ensures ReadHexBytes(HexOf(bytes)) == Some(bytes)
  {
    hide HexValue, LowerHex;
    if bytes != [] {
      HexReadsBack(bytes[1..]);
      HexReads(bytes[0] / 16);
      HexReads(bytes[0] % 16);
      assert HexOf(bytes)[2..] == HexOf(bytes[1..]);
      assert [bytes[0]] + bytes[1..] == bytes;
    }
  }

  lemma {:induction false} HexIsItself(bytes: seq<Byte>)
    ensures Contained('\'', HexOf(bytes), false) && Denoted('\'', HexOf(bytes), false) == HexOf(bytes)
  {
    HexHasNoQuote(bytes);
    NoQuoteIsContained('\'', HexOf(bytes), false);
    PlainIsItself('\'', HexOf(bytes), false);
  }

  lemma {:induction false} PlainIsItself(q: char, s: string, backslash: bool)
    requires q !in s && (backslash ==> '\\' !in s) && Contained(q, s, backslash)
    ensures Denoted(q, s, backslash) == s
  {
    if s != [] {
      assert s[0] in s && forall c | c in s[1..] :: c in s;
      PlainIsItself(q, s[1..], backslash);
      assert [s[0]] + s[1..] == s;
    }
  }

  lemma WithinReads(kind: Kind, body: string, end: string, post: string)
    requires Contained('\'', body, kind == Mysql) && end != [] && end[0] != '\''
    ensures ReadWithin(kind, Enclosed('\'', body) + (end + post), end)
      == Some((Denoted('\'', body, kind == Mysql), post))
  {
    hide ReadLiteral, Denoted, Contained;
    LiteralReads(kind, body, end + post);
    BehindIs(end, post);
  }

  lemma BytesRead(kind: Kind, b64: string, post: string)
    requires kind != Sqlite && Contained('\'', b64, kind == Mysql)
    ensures ReadBytes(kind, BinaryLiteral(kind, b64) + post)
      == Some((BytesDatum(Base64Decode(Denoted('\'', b64, kind == Mysql))), post))
  {
    hide ReadWithin, Denoted, Contained, Base64Decode, Behind, Enclosed;
    var lit := Enclosed('\'', b64);
    if kind == Mysql {
      WithinReads(kind, b64, ")", post);
      BehindIs("FROM_BASE64(", lit + (")" + post));
      assert BinaryLiteral(kind, b64) + post == "FROM_BASE64(" + (lit + (")" + post));
    } else {
      WithinReads(kind, b64, ", 'base64')", post);
      BehindIs("decode(", lit + (", 'base64')" + post));
      assert BinaryLiteral(kind, b64) + post == "decode(" + (lit + (", 'base64')" + post));
    }
  }

  lemma BlobReads(bytes: seq<Byte>, post: string)
    requires EndsCell(post)
    ensures ReadBytes(Sqlite, "X" + Enclosed('\'', HexOf(bytes)) + post) == Some((BytesDatum(Some(bytes)), post))
  {
    hide ReadLiteral, Denoted, Contained, Behind, Enclosed, HexOf;
    HexIsItself(bytes);
    HexReadsBack(bytes);
    LiteralReads(Sqlite, HexOf(bytes), post);
    BehindIs("X", Enclosed('\'', HexOf(bytes)) + post);
    assert "X" + Enclosed('\'', HexOf(bytes)) + post == "X" + (Enclosed('\'', HexOf(bytes)) + post);
  }

  /** A binary literal is taken for no other value. */
  lemma BytesAreRead(kind: Kind, s: string)
    requires s != [] && (s[0] == 'X' || s[0] == 'd' || (|s| > 1 && s[0] == 'F' && s[1] == 'R'))
    ensures ReadDatum(kind, s) == ReadBytes(kind, s)
  {
    hide ReadBytes, ReadLiteral, NumberLen;
    assert |s| >= 5 ==> s[..5][1] == s[1] && s[..5][0] == s[0];
  }

  lemma MarkerLiteral(kind: Kind, v: Json)
    requires BytesMarker(v).Some? && v.Obj?
    ensures SqlLiteral(kind, v) == BinaryLiteral(kind, BytesMarker(v).value)
  {
    hide BytesMarker, BinaryLiteral, JsonText;
  }

  lemma BinaryStarts(kind: Kind, b64: string, post: string)
    requires kind != Sqlite || Base64Decode(b64).Some?
    ensures var s := BinaryLiteral(kind, b64) + post;
      s != [] && (s[0] == 'X' || s[0] == 'd' || (|s| > 1 && s[0] == 'F' && s[1] == 'R'))
  {
    hide Base64Decode, HexOf, Enclosed;
  }

  lemma BinaryCellReads(kind: Kind, v: Json, post: string)
    requires CellOk(kind, v) && BytesMarker(v).Some? && v.Obj? && EndsCell(post)
    ensures ReadDatum(kind, SqlLiteral(kind, v) + post) == Some((Said(kind, v), post))
  {
    hide ReadLiteral, ReadBytes, Denoted, Contained, BytesMarker, Base64Decode, HexOf, Enclosed, SqlLiteral,
      EscapesPaired, JsonText;
    var b64 := BytesMarker(v).value;
    MarkerLiteral(kind, v);
    if kind == Sqlite && Base64Decode(b64).None? {
      LiteralReads(kind, b64, post);
    } else {
      BinaryStarts(kind, b64, post);
      BytesAreRead(kind, BinaryLiteral(kind, b64) + post);
      if kind == Sqlite { BlobReads(Base64Decode(b64).value, post); } else { BytesRead(kind, b64, post); }
    }
  }

  lemma CellReads(kind: Kind, v: Json, post: string)
    requires CellOk(kind, v) && EndsCell(post)
    ensures ReadDatum(kind, SqlLiteral(kind, v) + post) == Some((Said(kind, v), post))
  {
    hide ReadDatum, CellOk, BytesMarker, JsonText, BinaryLiteral, Denoted, Base64Decode, TakenFor, Quoted;
    MarkerIsObject(v);
    match v
    case Null => WordReads(kind, "NULL", post);
    case Bool(b) => WordReads(kind, if b then "TRUE" else "FALSE", post);
    case Number(text) => NumberCellReads(kind, text, post);
    case _ =>
      if CellText(v).Some? {
        TextCellReads(kind, v, post);
      } else {
        MarkerBody(kind, v);
        BinaryCellReads(kind, v, post);
      }
  }

  function SaidAll(kind: Kind, row: seq<Json>): (r: seq<Datum>)
    ensures |r| == |row|
  {
    seq(|row|, i requires 0 <= i < |row| => Said(kind, row[i]))
  }

  lemma {:induction false} RowReads(kind: Kind, row: seq<Json>)
    requires row != [] && RowOk(kind, row)
    ensures ReadData(kind, SqlLiteral(kind, row[0]) + RestOfRow(kind, row[1..])) == Some((SaidAll(kind, row), ""))
    decreases |row|
  {
    hide ReadDatum, SqlLiteral, Said, CellOk, Join, Literals, Behind, RestOfRow;
    var v, more := row[0], row[1..];
    assert v in row && forall w | w in more :: w in row;
    if more == [] {
      LastRest(kind);
      CellReads(kind, v, ")");
      BehindIs(")", "");
      assert ")" + "" == ")";
      NotBehind(")", ", ");
      assert SaidAll(kind, row) == [Said(kind, v)];
    } else {
      var next := SqlLiteral(kind, more[0]) + RestOfRow(kind, more[1..]);
      RestUnfolds(kind, more);
      LiteralsJoin(kind, more);
      CellReads(kind, v, ", " + next);
      BehindIs(", ", next);
      RowReads(kind, more);
      assert SaidAll(kind, row) == [Said(kind, v)] + SaidAll(kind, more);
    }
  }

  lemma NameReads(kind: Kind, name: string, post: string)
    requires post != [] && (post[0] == ',' || post[0] == ')' || post[0] == ' ')
    ensures ReadName(QuoteIdent(kind, name) + post, Ident.IdentQuote(kind)) == Some((name, post))
  {
    hide ReadName, Quoted;
    QuotedIsRead(Ident.IdentQuote(kind), name, post);
  }

  lemma NamesJoin(kind: Kind, columns: seq<string>, rest: string)
    requires columns != []
    ensures Join(QuotedNames(kind, columns), ", ") + (")" + rest) == QuoteIdent(kind, columns[0])
      + if |columns| == 1 then ")" + rest else ", " + (Join(QuotedNames(kind, columns[1..]), ", ") + (")" + rest))
  {
    hide QuoteIdent;
    var all := QuotedNames(kind, columns);
    assert all[1..] == QuotedNames(kind, columns[1..]);
    if |columns| > 1 {
      var more := Join(all[1..], ", ");
      assert all[0] + ", " + more + (")" + rest) == all[0] + (", " + (more + (")" + rest)));
    }
  }

  lemma {:induction false} NamesRead(kind: Kind, columns: seq<string>, rest: string)
    requires columns != []
    ensures ReadNames(kind, Join(QuotedNames(kind, columns), ", ") + (")" + rest)) == Some((columns, rest))
    decreases |columns|
  {
    hide QuoteIdent, Join, QuotedNames, ReadName, Behind;
    NamesJoin(kind, columns, rest);
    if |columns| == 1 {
      NameReads(kind, columns[0], ")" + rest);
      BehindIs(")", rest);
      NotBehind(")" + rest, ", ");
      assert columns == [columns[0]];
    } else {
      var more := Join(QuotedNames(kind, columns[1..]), ", ") + (")" + rest);
      NameReads(kind, columns[0], ", " + more);
      BehindIs(", ", more);
      NamesRead(kind, columns[1..], rest);
      assert columns == [columns[0]] + columns[1..];
    }
  }

  lemma InsertParts(table: string, names: string, values: string)
    ensures "INSERT INTO " + table + " (" + names + ") VALUES (" + values + ")"
      == "INSERT INTO " + (table + (" (" + (names + (")" + (" VALUES (" + (values + ")"))))))
  {
    var c := values + ")";
    assert ") VALUES (" == ")" + " VALUES (";
    var b := names + (")" + (" VALUES (" + c));
    assert names + ") VALUES (" + values + ")" == b;
    assert "INSERT INTO " + table + " (" + b == "INSERT INTO " + (table + (" (" + b));
  }

  lemma NamesStart(kind: Kind, columns: seq<string>, rest: string)
    ensures var s := Join(QuotedNames(kind, columns), ", ") + (")" + rest);
      if columns == [] then Behind(s, ")") == Some(rest) else Behind(s, ")") == None
  {
    hide Join, QuotedNames, QuoteIdent, Behind;
    if columns == [] {
      JoinNothing();
      assert QuotedNames(kind, columns) == [];
      assert [] + (")" + rest) == ")" + rest;
      BehindIs(")", rest);
    } else {
      NamesJoin(kind, columns, rest);
      QuoteStarts(kind, columns[0]);
      NotBehind(Join(QuotedNames(kind, columns), ", ") + (")" + rest), ")");
    }
  }

  lemma QuoteStarts(kind: Kind, name: string)
    ensures QuoteIdent(kind, name) != [] && QuoteIdent(kind, name)[0] != ')'
  {
  }

  lemma JoinNothing()
    ensures Join([], ", ") == []
  {
  }

  lemma ValuesStart(kind: Kind, row: seq<Json>)
    ensures var s := Join(Literals(kind, row), ", ") + ")";
      if row == [] then Behind(s, ")") == Some("") else Behind(s, ")") == None
  {
    hide Join, Literals, SqlLiteral, Behind, RestOfRow;
    if row == [] {
      JoinNothing();
      assert Literals(kind, row) == [];
      assert [] + ")" == ")" + "";
      BehindIs(")", "");
    } else {
      LiteralsJoin(kind, row);
      LiteralStarts(kind, row[0]);
      NotBehind(Join(Literals(kind, row), ", ") + ")", ")");
    }
  }

  lemma LiteralStarts(kind: Kind, v: Json)
    ensures SqlLiteral(kind, v) != [] && SqlLiteral(kind, v)[0] != ')'
  {
    hide JsonText, BytesMarker, Base64Decode, HexOf;
    if v.Number? { assert NumberAt(v.text, 0); }
  }

  /** Read by its own engine, an INSERT of cells that stay within their quotes names the table and the columns and
      gives each cell, in order, what it says. */
  lemma InsertReadsBack(kind: Kind, table: string, columns: seq<string>, row: seq<Json>)
    requires RowOk(kind, row)
    ensures ReadInsert(kind, Insert(kind, table, columns, row)) == Some(InsertText(table, columns, SaidAll(kind, row)))
  {
    hide Join, Literals, QuotedNames, QuoteIdent, ReadNames, ReadData, ReadName, SqlLiteral, RestOfRow, RowOk, Behind,
      SaidAll;
    var names, values := Join(QuotedNames(kind, columns), ", "), Join(Literals(kind, row), ", ");
    var name := QuoteIdent(kind, table);
    InsertParts(name, names, values);
    var x := values + ")";
    var w := " VALUES (" + x;
    var v := names + (")" + w);
    var u := " (" + v;
    BehindIs("INSERT INTO ", name + u);
    NameReads(kind, table, u);
    BehindIs(" (", v);
    NamesStart(kind, columns, w);
    if columns != [] { NamesRead(kind, columns, w); }
    BehindIs(" VALUES (", x);
    ValuesStart(kind, row);
    if row == [] {
      assert SaidAll(kind, row) == [] by { NothingSaid(kind); }
    } else {
      LiteralsJoin(kind, row);
      RowReads(kind, row);
    }
  }

  lemma NothingSaid(kind: Kind)
    ensures SaidAll(kind, []) == []
  {
  }

  // ------------------------------ what was exported ---------------------

  /** A cell that comes back as it was: a text whose backslashes are kept, or bytes in base64. */
  predicate Kept(kind: Kind, v: Json) {
    && (CellText(v).Some? && kind == Mysql ==> BackslashesKept(CellText(v).value))
    && (BytesMarker(v).Some? ==> Base64Decode(BytesMarker(v).value).Some?)
  }

  /** The value of a cell. */
  function Value(v: Json): Datum {
    match v
    case Null => NullDatum
    case Bool(b) => BoolDatum(b)
    case Number(text) => NumberDatum(text)
    case Str(s) => TextDatum(s)
    case _ =>
      match BytesMarker(v)
      case None => TextDatum(JsonText(v))
      case Some(b64) => BytesDatum(Base64Decode(b64))
  }

  lemma {:induction false} Base64IsPlain(s: string)
    requires Base64Decode(s).Some?
    ensures '\'' !in s && '\\' !in s
    decreases |s|
  {
    if s != [] {
      assert Sextet(s[0]).Some? && Sextet(s[1]).Some?;
      assert s[2] == '=' || Sextet(s[2]).Some?;
      assert s[3] == '=' || Sextet(s[3]).Some?;
      assert s == [s[0], s[1], s[2], s[3]] + s[4..];
      if |s| > 4 { Base64IsPlain(s[4..]); }
    }
  }

  lemma KeptIsOk(kind: Kind, v: Json)
    requires Kept(kind, v)
    ensures CellOk(kind, v) && Said(kind, v) == Value(v)
  {
    hide BytesMarker, JsonText, Base64Decode, Contained, EscapesPaired, BackslashesKept, Meant, Denoted;
    MarkerIsObject(v);
    if CellText(v).Some? {
      var s := CellText(v).value;
      TextIsQuoted(kind, v);
      if kind == Mysql {
        KeptIsPaired('\'', s);
        MeantIffKept('\'', s);
      }
    } else if !v.Null? && !v.Bool? && !v.Number? {
      MarkerOnly(v);
      var b64 := BytesMarker(v).value;
      Base64IsPlain(b64);
      NoQuoteIsContained('\'', b64, kind == Mysql);
      PlainIsItself('\'', b64, kind == Mysql);
    }
  }

  lemma MarkerOnly(v: Json)
    requires CellText(v).None? && !v.Null? && !v.Bool? && !v.Number?
    ensures v.Obj? && BytesMarker(v).Some?
  {
    hide BytesMarker, JsonText;
  }

  function Values(row: seq<Json>): (r: seq<Datum>)
    ensures |r| == |row|
  {
    seq(|row|, i requires 0 <= i < |row| => Value(row[i]))
  }

  /** An export of cells that come back splits into one INSERT a row, and each says its row: the table, the columns
      and the very values. */
  lemma ExportSaysRows(kind: Kind, table: string, columns: seq<string>, rows: seq<seq<Json>>)
    requires forall row, v | row in rows && v in row :: Kept(kind, v)
    ensures var statements := Split.SplitStatements(SqlExport(kind, table, columns, rows), kind);
      && |statements| == |rows|
      && forall i :: 0 <= i < |rows| ==>
        ReadInsert(kind, statements[i]) == Some(InsertText(table, columns, Values(rows[i])))
  {
    hide Kept, CellOk, Insert, ReadInsert, SqlExport, Split.SplitStatements, Said, Value;
    forall row | row in rows ensures RowOk(kind, row) {
      forall v | v in row ensures CellOk(kind, v) { KeptIsOk(kind, v); }
    }
    ExportSplitsIntoRows(kind, table, columns, rows);
    forall i | 0 <= i < |rows|
      ensures ReadInsert(kind, Inserts(kind, table, columns, rows)[i])
        == Some(InsertText(table, columns, Values(rows[i])))
    {
      var row := rows[i];
      assert row in rows;
      InsertReadsBack(kind, table, columns, row);
      forall j | 0 <= j < |row| ensures SaidAll(kind, row)[j] == Values(row)[j] {
        assert row[j] in row;
        KeptIsOk(kind, row[j]);
      }
      assert SaidAll(kind, row) == Values(row);
    }
  }
}
