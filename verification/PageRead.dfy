/** What a page read asks for, read back from its text. */
module PageRead {
  import opened Text
  import opened Lexer
  import opened Quoting
  import opened Ident
  import opened ContextText
  import opened Page
  import SqlText

  /** The parts of the table's name, the columns that are searched, the ordering and whether it descends, and the
      window. */
  datatype Query = Query(table: seq<string>, columns: seq<string>, order: Option<(string, bool)>, limit: nat,
                         offset: nat)

  // ------------------------------ the reader ----------------------------

  function ReadTable(kind: Kind, s: string): Option<(seq<string>, string)> {
    match ReadName(s, IdentQuote(kind))
    case None => None
    case Some((a, r)) =>
      if kind == Sqlite then Some(([a], r))
      else
        match Behind(r, ".")
        case None => None
        case Some(t) => match ReadName(t, IdentQuote(kind)) case None => None case Some((b, u)) => Some(([a, b], u))
  }

  /** A string literal, as the engine reads it. */
  function ReadLiteral(kind: Kind, s: string): (r: Option<(string, string)>)
    ensures r.Some? ==> |r.value.1| < |s|
  {
    if s == [] || s[0] != '\'' then None
    else
      match ReadQuoted('\'', s[1..], kind == Mysql)
      case None => None
      case Some((text, n)) => if 1 + n <= |s| then Some((text, s[1 + n..])) else None
  }

  function ReadNumber(s: string): (r: Option<(nat, string)>)
    ensures r.Some? ==> |r.value.1| < |s|
  {
    var n := DigitsLen(s);
    if n == 0 then None else Some((ValueOf(s[..n]), s[n..]))
  }

  function Opening(kind: Kind): string { if kind == Sqlite then "LOWER(CAST(" else "CAST(" }

  function Comparing(kind: Kind): string {
    match kind
    case Mysql => " AS CHAR) LIKE ? ESCAPE "
    case Postgres => " AS TEXT) ILIKE $"
    case Sqlite => " AS TEXT)) LIKE LOWER(?) ESCAPE "
  }

  /** The column a predicate compares with its placeholder, on PostgreSQL the `i`th, a backslash being the escape of
      its patterns. */
  function ReadPredicate(kind: Kind, s: string, i: nat): (r: Option<(string, string)>)
    ensures r.Some? ==> |r.value.1| < |s|
  {
    match Behind(s, Opening(kind))
    case None => None
    case Some(t) =>
      match ReadName(t, IdentQuote(kind))
      case None => None
      case Some((c, u)) =>
        match Behind(u, Comparing(kind))
        case None => None
        case Some(v) =>
          if kind == Postgres then
            match ReadNumber(v) case Some((n, w)) => if n == i then Some((c, w)) else None case None => None
          else
            match ReadLiteral(kind, v)
            case Some((e, w)) => if e == "\\" then Some((c, w)) else None
            case None => None
  }

  function ReadPredicates(kind: Kind, s: string, i: nat): Option<(seq<string>, string)>
    decreases |s|
  {
    match ReadPredicate(kind, s, i)
    case None => None
    case Some((c, t)) =>
      match Behind(t, " OR ")
      case Some(u) => (
        match ReadPredicates(kind, u, i + 1)
        case None => None
        case Some((cs, v)) => Some(([c] + cs, v)))
      case None => match Behind(t, ")") case None => None case Some(u) => Some(([c], u))
  }

  function ReadFilter(kind: Kind, s: string): Option<(seq<string>, string)> {
    match Behind(s, " WHERE (")
    case None => Some(([], s))
    case Some(t) => ReadPredicates(kind, t, 1)
  }

  function ReadOrder(kind: Kind, s: string): Option<(Option<(string, bool)>, string)> {
    match Behind(s, " ORDER BY ")
    case None => Some((None, s))
    case Some(t) =>
      match ReadName(t, IdentQuote(kind))
      case None => None
      case Some((c, u)) =>
        match (Behind(u, " ASC"), Behind(u, " DESC"))
        case (Some(v), _) => Some((Some((c, false)), v))
        case (None, Some(v)) => Some((Some((c, true)), v))
        case (None, None) => None
  }

  function ReadWindow(s: string): Option<(nat, nat)> {
    match Behind(s, " LIMIT ")
    case None => None
    case Some(t) =>
      match ReadNumber(t)
      case None => None
      case Some((limit, u)) =>
        match Behind(u, " OFFSET ")
        case None => None
        case Some(v) => match ReadNumber(v)
          case Some((offset, w)) => if w == "" then Some((limit, offset)) else None
          case None => None
  }

  function ReadPage(kind: Kind, s: string): Option<Query> {
    match Behind(s, "SELECT * FROM ")
    case None => None
    case Some(t) =>
      match ReadTable(kind, t)
      case None => None
      case Some((table, u)) =>
        match ReadFilter(kind, u)
        case None => None
        case Some((columns, v)) =>
          match ReadOrder(kind, v)
          case None => None
          case Some((order, w)) =>
            match ReadWindow(w)
            case None => None
            case Some((limit, offset)) => Some(Query(table, columns, order, limit, offset))
  }

  function ReadCount(kind: Kind, s: string): Option<(seq<string>, seq<string>)> {
    match Behind(s, "SELECT COUNT(*) AS n FROM ")
    case None => None
    case Some(t) =>
      match ReadTable(kind, t)
      case None => None
      case Some((table, u)) =>
        match ReadFilter(kind, u)
        case Some((columns, v)) => if v == "" then Some((table, columns)) else None
        case None => None
  }

  // ------------------------------ what is asked for ---------------------

  function TableParts(kind: Kind, req: Request): seq<string> {
    match kind
    case Mysql => [req.database, req.table]
    case Postgres => [req.schema, req.table]
    case Sqlite => [req.table]
  }

  function Named(columns: seq<string>): seq<string> {
    if columns == [] then [] else (if columns[0] == [] then [] else [columns[0]]) + Named(columns[1..])
  }

  lemma {:induction false} NamedHas(columns: seq<string>, c: string)
    ensures c in Named(columns) <==> c != [] && c in columns
  {
    if columns != [] {
      NamedHas(columns[1..], c);
      assert c in columns <==> c == columns[0] || c in columns[1..];
    }
  }

  lemma {:induction false} TrimmedHas(columns: seq<string>, c: string)
    ensures c in TrimAll(columns) <==> exists x | x in columns :: c == Trim(x)
  {
    hide Trim;
    if columns != [] {
      TrimmedHas(columns[1..], c);
      assert forall x :: x in columns <==> x == columns[0] || x in columns[1..];
    }
  }

  /** A column is searched when there is something to search for, and the column, trimmed and not empty, is the one
      asked for, or else one the client lists. */
  lemma SearchedIff(req: Request, c: string)
    ensures c in Named(Columns(req)) <==>
      && c != [] && req.search.Some? && Trim(req.search.value) != []
      && match req.searchColumn
        case Some(x) => c == Trim(x)
        case None => req.searchColumns.Some? && exists x | x in req.searchColumns.value :: c == Trim(x)
  {
    hide Trim, TrimAll, Named;
    NamedHas(Columns(req), c);
    if req.searchColumns.Some? { TrimmedHas(req.searchColumns.value, c); }
  }

  // ------------------------------ reading back --------------------------

  lemma NameIsRead(kind: Kind, name: string, rest: string)
    requires EscapeIdent(kind, name).Some? && (rest == [] || rest[0] != IdentQuote(kind))
    ensures ReadName(EscapeIdent(kind, name).value + rest, IdentQuote(kind)) == Some((name, rest))
  {
    hide ReadName, Quoted, IsValidQuotable;
    QuotedIsRead(IdentQuote(kind), name, rest);
  }

  /** What may follow a table, a predicate, an ordering or a number. */
  predicate Closed(rest: string) { rest == [] || rest[0] == ' ' || rest[0] == ')' }

  lemma TableIsRead(kind: Kind, req: Request, rest: string)
    requires Table(kind, req).Some? && Closed(rest)
    ensures ReadTable(kind, Table(kind, req).value + rest) == Some((TableParts(kind, req), rest))
  {
    hide EscapeIdent, ReadName;
    NameIsRead(kind, req.table, rest);
    if kind != Sqlite {
      var schema, t := if kind == Mysql then req.database else req.schema, EscapeIdent(kind, req.table).value;
      BehindIs(".", t + rest);
      NameIsRead(kind, schema, "." + (t + rest));
      assert Table(kind, req).value + rest == EscapeIdent(kind, schema).value + ("." + (t + rest));
    }
  }

  lemma NumberIsRead(n: nat, rest: string)
    requires rest == [] || !IsDigit(rest[0])
    ensures ReadNumber(Decimal(n) + rest) == Some((n, rest))
  {
    hide ValueOf, Decimal;
    var s := Decimal(n) + rest;
    DigitsEnd(Decimal(n), rest);
    DecimalReads(n);
    assert s[..|Decimal(n)|] == Decimal(n) && s[|Decimal(n)|..] == rest;
  }

  /** The literal behind ESCAPE denotes one backslash. */
  function EscapeText(kind: Kind): string { if kind == Mysql then "'\\\\'" else "'\\'" }

  lemma QuoteCloses(rest: string, backslash: bool)
    requires Closed(rest)
    ensures ReadQuoted('\'', "'" + rest, backslash) == Some(([], 1))
  {
  }

  lemma EscapeIsRead(kind: Kind, rest: string)
    requires Closed(rest)
    ensures ReadLiteral(kind, EscapeText(kind) + rest) == Some(("\\", rest))
  {
    hide ReadQuoted;
    var s, end := EscapeText(kind) + rest, "'" + rest;
    QuoteCloses(rest, kind == Mysql);
    assert ['\\'] + [] == "\\" && Unescaped('\\') == ['\\'];
    if kind == Mysql {
      ReadEscape('\'', '\\', end);
      assert s[1..] == ['\\', '\\'] + end && s[4..] == rest;
    } else {
      ReadChar('\'', '\\', end, false);
      assert s[1..] == ['\\'] + end && s[3..] == rest;
    }
  }

  lemma PredicateIs(kind: Kind, column: string, i: nat)
    ensures Predicate(kind, column, i) == Opening(kind) + (column + (Comparing(kind)
      + if kind == Postgres then Decimal(i) else EscapeText(kind)))
  {
    hide Decimal;
    match kind
    case Mysql =>
      assert "? ESCAPE '\\\\'" == "? ESCAPE " + "'\\\\'";
      assert " AS CHAR) LIKE " + "? ESCAPE " == " AS CHAR) LIKE ? ESCAPE ";
      Join4("CAST(", column, " AS CHAR) LIKE ", "? ESCAPE ", "'\\\\'");
    case Postgres => Join4("CAST(", column, " AS TEXT) ILIKE $", "", Decimal(i));
    case Sqlite =>
      assert "?) ESCAPE '\\'" == "?) ESCAPE " + "'\\'";
      assert " AS TEXT)) LIKE LOWER(" + "?) ESCAPE " == " AS TEXT)) LIKE LOWER(?) ESCAPE ";
      Join4("LOWER(CAST(", column, " AS TEXT)) LIKE LOWER(", "?) ESCAPE ", "'\\'");
  }

  lemma Join4(a: string, b: string, c: string, d: string, e: string)
    ensures a + b + c + (d + e) == a + (b + ((c + d) + e))
    ensures d == [] ==> a + b + c + e == a + (b + (c + e))
  {
  }

  lemma PredicateIsRead(kind: Kind, name: string, i: nat, rest: string)
    requires EscapeIdent(kind, name).Some? && Closed(rest)
    ensures ReadPredicate(kind, Predicate(kind, EscapeIdent(kind, name).value, i) + rest, i) == Some((name, rest))
  {
    hide EscapeIdent, ReadName, ReadNumber, ReadLiteral, Opening, Comparing, EscapeText, Behind, Decimal, Predicate;
    var c, end := EscapeIdent(kind, name).value, if kind == Postgres then Decimal(i) else EscapeText(kind);
    PredicateIs(kind, c, i);
    var w := end + rest;
    var u := Comparing(kind) + w;
    assert Predicate(kind, c, i) + rest == Opening(kind) + (c + u);
    BehindIs(Opening(kind), c + u);
    ComparingStarts(kind, w);
    NameIsRead(kind, name, u);
    BehindIs(Comparing(kind), w);
    if kind == Postgres { NumberIsRead(i, rest); } else { EscapeIsRead(kind, rest); }
  }

  lemma ComparingStarts(kind: Kind, w: string)
    ensures var u := Comparing(kind) + w; u != [] && u[0] == ' '
  {
  }

  lemma {:induction false} PredicatesAreRead(kind: Kind, columns: seq<string>, done: nat, rest: string)
    requires Predicates(kind, columns, done).Some? && Predicates(kind, columns, done).value != []
    ensures var ps := Predicates(kind, columns, done).value;
      ReadPredicates(kind, SqlText.Join(ps, " OR ") + (")" + rest), done + 1) == Some((Named(columns), rest))
  {
    hide EscapeIdent, Predicate, ReadPredicate, SqlText.Join, Behind;
    if columns[0] == [] {
      PredicatesAreRead(kind, columns[1..], done, rest);
      assert Named(columns) == Named(columns[1..]);
    } else {
      var p := Predicate(kind, EscapeIdent(kind, columns[0]).value, done + 1);
      var ps := Predicates(kind, columns[1..], done + 1).value;
      var tail := ")" + rest;
      JoinStep(p, ps, tail);
      if ps == [] {
        NoneNamed(kind, columns[1..], done + 1);
        PredicateIsRead(kind, columns[0], done + 1, tail);
        BehindIs(")", rest);
        assert Named(columns) == [columns[0]] + [] == [columns[0]];
        NotBehind(tail, " OR ");
      } else {
        var more := SqlText.Join(ps, " OR ") + tail;
        PredicatesAreRead(kind, columns[1..], done + 1, rest);
        PredicateIsRead(kind, columns[0], done + 1, " OR " + more);
        BehindIs(" OR ", more);
      }
    }
  }

  lemma NotBehind(s: string, w: string)
    requires w != [] && (s == [] || s[0] != w[0])
    ensures Behind(s, w) == None
  {
    assert |w| <= |s| ==> s[..|w|][0] == s[0];
  }

  lemma {:induction false} NoneNamed(kind: Kind, columns: seq<string>, done: nat)
    requires Predicates(kind, columns, done) == Some([])
    ensures Named(columns) == []
  {
    hide EscapeIdent, Predicate;
    if columns != [] { NoneNamed(kind, columns[1..], done); }
  }

  /** What may follow a filter. */
  predicate NoFilter(rest: string) { Behind(rest, " WHERE (").None? }

  lemma FilterIsRead(kind: Kind, columns: seq<string>, rest: string)
    requires Predicates(kind, columns, 0).Some? && NoFilter(rest)
    ensures ReadFilter(kind, Filter(Predicates(kind, columns, 0).value) + rest) == Some((Named(columns), rest))
  {
    hide Predicates, ReadPredicates, SqlText.Join, Behind;
    var ps := Predicates(kind, columns, 0).value;
    if ps == [] {
      NoneNamed(kind, columns, 0);
      assert Filter(ps) + rest == rest;
    } else {
      var t := SqlText.Join(ps, " OR ") + (")" + rest);
      assert Filter(ps) + rest == " WHERE (" + t;
      BehindIs(" WHERE (", t);
      PredicatesAreRead(kind, columns, 0, rest);
    }
  }

  /** The ordering asked for. */
  function Ordering(req: Request): Option<(string, bool)> {
    match req.orderBy case None => None case Some(c) => Some((c, Uppercase(req.orderDir) == "DESC"))
  }

  lemma OrderIsRead(kind: Kind, req: Request, rest: string)
    requires Order(kind, req).Some? && IsDirection(req.orderDir) && Behind(rest, " ORDER BY ").None?
    ensures ReadOrder(kind, Order(kind, req).value + rest) == Some((Ordering(req), rest))
  {
    hide EscapeIdent, ReadName, Uppercase, Behind;
    match req.orderBy
    case None => assert [] + rest == rest;
    case Some(col) =>
      var c, dir := EscapeIdent(kind, col).value, Uppercase(req.orderDir);
      var tail := " " + dir + rest;
      assert Order(kind, req).value + rest == " ORDER BY " + (c + tail);
      BehindIs(" ORDER BY ", c + tail);
      NameIsRead(kind, col, tail);
      DirectionIsRead(dir, rest);
  }

  lemma DirectionIsRead(dir: string, rest: string)
    requires dir == "ASC" || dir == "DESC"
    ensures var u := " " + dir + rest;
      && Behind(u, " ASC") == (if dir == "ASC" then Some(rest) else None)
      && Behind(u, " DESC") == (if dir == "ASC" then None else Some(rest))
  {
    var u := " " + dir + rest;
    assert u[1] == dir[0];
    assert " " + "ASC" == " ASC" && " " + "DESC" == " DESC";
    BehindIs(" " + dir, rest);
    assert |u| >= 4 ==> u[..4][1] == u[1];
    assert |u| >= 5 ==> u[..5][1] == u[1];
  }

  lemma WindowIsRead(size: nat, offset: nat)
    ensures ReadWindow(" LIMIT " + (Decimal(size) + (" OFFSET " + (Decimal(offset) + "")))) == Some((size, offset))
  {
    hide Decimal, Behind, ReadNumber;
    var v := Decimal(offset) + "";
    var t := Decimal(size) + (" OFFSET " + v);
    BehindIs(" LIMIT ", t);
    BehindIs(" OFFSET ", v);
    NumberIsRead(offset, "");
    NumberIsRead(size, " OFFSET " + v);
  }

  lemma WindowStarts(size: nat, offset: nat)
    ensures var w := " LIMIT " + (Decimal(size) + (" OFFSET " + (Decimal(offset) + "")));
      && Closed(w) && Behind(w, " ORDER BY ").None? && Behind(w, " WHERE (").None?
  {
    var w := " LIMIT " + (Decimal(size) + (" OFFSET " + (Decimal(offset) + "")));
    assert w[1] == 'L';
    assert |w| >= 10 ==> w[..10][1] == w[1];
    assert |w| >= 8 ==> w[..8][1] == w[1];
  }

  lemma OrderStarts(kind: Kind, req: Request, w: string)
    requires Order(kind, req).Some? && Closed(w) && NoFilter(w)
    ensures Closed(Order(kind, req).value + w) && NoFilter(Order(kind, req).value + w)
  {
    hide EscapeIdent, Uppercase;
    var o := Order(kind, req).value;
    var s := o + w;
    if o == [] {
      assert s == w;
    } else {
      assert s[1] == 'O' && s[0] == ' ';
      assert |s| >= 8 ==> s[..8][1] == s[1];
    }
  }

  lemma FilterStarts(ps: seq<string>, rest: string)
    requires Closed(rest)
    ensures Closed(Filter(ps) + rest)
  {
    hide SqlText.Join;
    assert [] + rest == rest;
  }

  lemma SelectParts(table: string, filter: string, order: string, size: string, offset: string)
    ensures "SELECT * FROM " + table + filter + order + " LIMIT " + size + " OFFSET " + offset
      == "SELECT * FROM " + (table + (filter + (order + (" LIMIT " + (size + (" OFFSET " + (offset + "")))))))
  {
    var d := offset + "";
    var c := size + (" OFFSET " + d);
    var b := order + (" LIMIT " + c);
    assert order + " LIMIT " + size + " OFFSET " + offset == b;
    assert table + filter + b == table + (filter + b);
  }

  /** Whatever the names hold: the page read asks for the rows of the table, filtered by the columns searched, in the
      order and direction asked for, and for the window of `size` rows behind the pages before it. */
  lemma PageIsRead(kind: Kind, req: Request, size: nat)
    requires Table(kind, req).Some? && Order(kind, req).Some? && IsDirection(req.orderDir)
    requires Predicates(kind, Columns(req), 0).Some?
    ensures var ps := Predicates(kind, Columns(req), 0).value;
      var offset := if req.page * size <= MAX_U64 then req.page * size else MAX_U64;
      && ReadPage(kind, Select(Table(kind, req).value, ps, Order(kind, req).value, size, Times(req.page, size)))
        == Some(Query(TableParts(kind, req), Named(Columns(req)), Ordering(req), size, offset))
      && ReadCount(kind, Count(Table(kind, req).value, ps)) == Some((TableParts(kind, req), Named(Columns(req))))
  {
    hide Table, Order, Predicates, Columns, Filter, Decimal, IsDirection, Behind, ReadTable, ReadFilter, ReadOrder,
      ReadWindow, Named, Closed;
    var offset := Times(req.page, size);
    var table, order := Table(kind, req).value, Order(kind, req).value;
    var ps := Predicates(kind, Columns(req), 0).value;
    var w := " LIMIT " + (Decimal(size) + (" OFFSET " + (Decimal(offset) + "")));
    WindowStarts(size, offset);
    WindowIsRead(size, offset);
    OrderIsRead(kind, req, w);
    OrderStarts(kind, req, w);
    FilterIsRead(kind, Columns(req), order + w);
    FilterStarts(ps, order + w);
    TableIsRead(kind, req, Filter(ps) + (order + w));
    BehindIs("SELECT * FROM ", table + (Filter(ps) + (order + w)));
    SelectParts(table, Filter(ps), order, Decimal(size), Decimal(offset));
    CountIsRead(kind, req);
  }

  lemma CountIsRead(kind: Kind, req: Request)
    requires Table(kind, req).Some? && Predicates(kind, Columns(req), 0).Some?
    ensures ReadCount(kind, Count(Table(kind, req).value, Predicates(kind, Columns(req), 0).value))
      == Some((TableParts(kind, req), Named(Columns(req))))
  {
    hide Table, Predicates, Columns, Filter, ReadTable, ReadFilter, Named;
    var table, ps := Table(kind, req).value, Predicates(kind, Columns(req), 0).value;
    FilterIsRead(kind, Columns(req), "");
    FilterStarts(ps, "");
    TableIsRead(kind, req, Filter(ps) + "");
    BehindIs("SELECT COUNT(*) AS n FROM ", table + (Filter(ps) + ""));
    assert Count(table, ps) == "SELECT COUNT(*) AS n FROM " + (table + (Filter(ps) + ""));
  }
}
