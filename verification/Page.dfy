/** The page read behind the browse grid (`rows.rs`): its search predicates and their placeholders. */
module Page {
  import opened Text
  import opened Lexer
  import opened Quoting
  import opened Ident
  import opened Like
  import SqlText

  datatype Request = Request(database: string, schema: string, table: string, orderBy: Option<string>,
    orderDir: string, page: nat, search: Option<string>, searchColumn: Option<string>,
    searchColumns: Option<seq<string>>)

  datatype PageSql = PageSql(select: string, count: string, binds: seq<string>)

  const MAX_U64: nat := 0xFFFF_FFFF_FFFF_FFFF

  /** `saturating_mul` */
  function Times(a: nat, b: nat): nat { if a * b > MAX_U64 then MAX_U64 else a * b }

  function Digit(n: nat): (c: char)
    requires n < 10
    ensures IsDigit(c)
  {
    ('0' as nat + n) as char
  }

  function Decimal(n: nat): (s: string)
    ensures s != [] && forall c | c in s :: IsDigit(c)
  {
    if n < 10 then [Digit(n)] else Decimal(n / 10) + [Digit(n % 10)]
  }

  // ------------------------------ as printed ----------------------------

  function Table(kind: Kind, req: Request): Option<string> {
    match kind
    case Mysql => Qualify(kind, req.database, req.table)
    case Postgres => Qualify(kind, req.schema, req.table)
    case Sqlite => EscapeIdent(kind, req.table)
  }

  function Term(req: Request): string { match req.search case None => [] case Some(s) => Trim(s) }

  function TrimAll(columns: seq<string>): seq<string> {
    if columns == [] then [] else [Trim(columns[0])] + TrimAll(columns[1..])
  }

  /** The columns to search: none without a term, the one asked for, or those the client lists. */
  function Columns(req: Request): seq<string> {
    if Term(req) == [] then []
    else match (req.searchColumn, req.searchColumns)
      case (Some(c), _) => [Trim(c)]
      case (None, Some(cs)) => TrimAll(cs)
      case (None, None) => []
  }

  /** The predicate on a quoted column, the `i`th of the filter. */
  function Predicate(kind: Kind, column: string, i: nat): string {
    match kind
    case Mysql => "CAST(" + column + " AS CHAR) LIKE " + "? ESCAPE '\\\\'"
    case Postgres => "CAST(" + column + " AS TEXT) ILIKE $" + Decimal(i)
    case Sqlite => "LOWER(CAST(" + column + " AS TEXT)) LIKE LOWER(" + "?) ESCAPE '\\'"
  }

  /** The predicates on the columns that have a name, after `done` others; `None` if one cannot be quoted. */
  function Predicates(kind: Kind, columns: seq<string>, done: nat): Option<seq<string>> {
    if columns == [] then Some([])
    else if columns[0] == [] then Predicates(kind, columns[1..], done)
    else match (EscapeIdent(kind, columns[0]), Predicates(kind, columns[1..], done + 1))
      case (Some(c), Some(rest)) => Some([Predicate(kind, c, done + 1)] + rest)
      case _ => None
  }

  function Filter(predicates: seq<string>): string {
    if predicates == [] then [] else " WHERE (" + SqlText.Join(predicates, " OR ") + ")"
  }

  function Order(kind: Kind, req: Request): Option<string> {
    match req.orderBy
    case None => Some([])
    case Some(col) =>
      match EscapeIdent(kind, col)
      case None => None
      case Some(c) => Some(" ORDER BY " + c + " " + Uppercase(req.orderDir))
  }

  predicate IsDirection(s: string) { Uppercase(s) == "ASC" || Uppercase(s) == "DESC" }

  function Select(table: string, predicates: seq<string>, order: string, size: nat, offset: nat): string {
    "SELECT * FROM " + table + Filter(predicates) + order + " LIMIT " + Decimal(size) + " OFFSET " + Decimal(offset)
  }

  function Count(table: string, predicates: seq<string>): string {
    "SELECT COUNT(*) AS n FROM " + table + Filter(predicates)
  }

  // ------------------------------ as the engine binds -------------------

  datatype Mark = Anonymous | Numbered(n: nat)

  function DigitsLen(s: string): (n: nat)
    ensures n <= |s|
    ensures forall k :: 0 <= k < n ==> IsDigit(s[k])
  {
    if s == [] || !IsDigit(s[0]) then 0 else 1 + DigitsLen(s[1..])
  }

  function ValueOf(s: string): nat
    requires forall c | c in s :: IsDigit(c)
  {
    if s == [] then 0
    else
      assert s[|s| - 1] in s && IsDigit(s[|s| - 1]);
      10 * ValueOf(s[..|s| - 1]) + (s[|s| - 1] as nat - '0' as nat)
  }

  /** The placeholders of a statement, in order: `?`, or `$1`, `$2`, … on PostgreSQL. Inside a quoted run there
      are none. */
  function Marks(s: string, kind: Kind): seq<Mark>
    decreases |s|
  {
    if s == [] then []
    else if IsQuote(s[0], kind) then Marks(s[1 + QuotedLen(s[1..], s[0], Escaping(s[0], kind))..], kind)
    else if s[0] == '?' && kind != Postgres then [Anonymous] + Marks(s[1..], kind)
    else if s[0] == '$' && kind == Postgres then
      var n := DigitsLen(s[1..]);
      [Numbered(ValueOf(s[1..1 + n]))] + Marks(s[1 + n..], kind)
    else Marks(s[1..], kind)
  }

  /** Placeholders `from + 1` to `from + n`. */
  function MarkList(kind: Kind, from: nat, n: nat): (r: seq<Mark>)
    ensures |r| == n
    ensures forall i :: 0 <= i < n ==> r[i] == if kind == Postgres then Numbered(from + i + 1) else Anonymous
  {
    seq(n, i requires 0 <= i => if kind == Postgres then Numbered(from + i + 1) else Anonymous)
  }

  predicate NoMark(s: string) { forall c | c in s :: c !in {'\'', '"', '`', '?', '$'} }

  lemma {:induction false} PlainHasNoMark(a: string, rest: string, kind: Kind)
    requires NoMark(a)
    ensures Marks(a + rest, kind) == Marks(rest, kind)
  {
    hide QuotedLen, DigitsLen, ValueOf;
    if a == [] {
      assert a + rest == rest;
    } else {
      SliceConcat(a, rest, 1);
      assert forall c | c in a[1..] :: c in a;
      PlainHasNoMark(a[1..], rest, kind);
      assert (a + rest)[0] in a;
    }
  }

  lemma RunHasNoMark(q: char, body: string, rest: string, kind: Kind)
    requires IsQuote(q, kind) && Contained(q, body, Escaping(q, kind)) && (rest == [] || rest[0] != q)
    ensures Marks(Enclosed(q, body) + rest, kind) == Marks(rest, kind)
  {
    hide QuotedLen, Contained;
    var s := Enclosed(q, body) + rest;
    assert s[1..] == body + [q] + rest;
    ContainedCloses(q, body, rest, Escaping(q, kind));
    assert s[|body| + 2..] == rest;
  }

  lemma NameHasNoMark(kind: Kind, name: string, rest: string)
    requires EscapeIdent(kind, name).Some? && (rest == [] || rest[0] != IdentQuote(kind))
    ensures Marks(EscapeIdent(kind, name).value + rest, kind) == Marks(rest, kind)
  {
    DoubledIsContained(IdentQuote(kind), name, false);
    RunHasNoMark(IdentQuote(kind), Doubled(IdentQuote(kind), name), rest, kind);
  }

  lemma {:induction false} DecimalReads(n: nat)
    ensures ValueOf(Decimal(n)) == n
  {
    var s := Decimal(n);
    if n < 10 {
      assert s[..|s| - 1] == [];
    } else {
      DecimalReads(n / 10);
      assert s[..|s| - 1] == Decimal(n / 10);
    }
  }

  lemma {:induction false} DigitsEnd(a: string, rest: string)
    requires (forall c | c in a :: IsDigit(c)) && (rest == [] || !IsDigit(rest[0]))
    ensures DigitsLen(a + rest) == |a|
  {
    if a == [] {
      assert a + rest == rest;
    } else {
      SliceConcat(a, rest, 1);
      DigitsEnd(a[1..], rest);
      assert (a + rest)[0] in a;
    }
  }

  lemma NumberIsMark(n: nat, rest: string)
    requires rest == [] || !IsDigit(rest[0])
    ensures Marks("$" + Decimal(n) + rest, Postgres) == [Numbered(n)] + Marks(rest, Postgres)
  {
    hide DigitsLen, ValueOf, Decimal;
    var s := "$" + Decimal(n) + rest;
    assert s[1..] == Decimal(n) + rest;
    DigitsEnd(Decimal(n), rest);
    DecimalReads(n);
    assert s[1..1 + |Decimal(n)|] == Decimal(n) && s[1 + |Decimal(n)|..] == rest;
  }

  /** What may follow a table, a predicate or an ordering: the end of the text, a blank or a bracket. */
  predicate Ends(rest: string) { rest == [] || rest[0] == ' ' || rest[0] == ')' }

  lemma MysqlEnd(rest: string)
    requires Ends(rest)
    ensures Marks("? ESCAPE '\\\\'" + rest, Mysql) == [Anonymous] + Marks(rest, Mysql)
  {
    hide Marks, Contained;
    var lit := Enclosed('\'', "\\\\");
    MysqlEscape();
    RunHasNoMark('\'', "\\\\", rest, Mysql);
    PlainHasNoMark(" ESCAPE ", lit + rest, Mysql);
    QuestionIsMark(" ESCAPE " + (lit + rest), Mysql);
    assert "? ESCAPE '\\\\'" + rest == "?" + (" ESCAPE " + (lit + rest));
  }

  lemma MysqlMark(name: string, i: nat, rest: string)
    requires EscapeIdent(Mysql, name).Some? && Ends(rest)
    ensures Marks(Predicate(Mysql, EscapeIdent(Mysql, name).value, i) + rest, Mysql) == [Anonymous] + Marks(rest, Mysql)
  {
    hide EscapeIdent, Marks;
    var c := EscapeIdent(Mysql, name).value;
    MysqlEnd(rest);
    var tail := "? ESCAPE '\\\\'" + rest;
    PlainHasNoMark(" AS CHAR) LIKE ", tail, Mysql);
    NameHasNoMark(Mysql, name, " AS CHAR) LIKE " + tail);
    PlainHasNoMark("CAST(", c + (" AS CHAR) LIKE " + tail), Mysql);
    assert Predicate(Mysql, c, i) + rest == "CAST(" + (c + (" AS CHAR) LIKE " + tail));
  }

  lemma PostgresMark(name: string, i: nat, rest: string)
    requires EscapeIdent(Postgres, name).Some? && Ends(rest)
    ensures Marks(Predicate(Postgres, EscapeIdent(Postgres, name).value, i) + rest, Postgres)
         == [Numbered(i)] + Marks(rest, Postgres)
  {
    hide EscapeIdent, Decimal, Marks;
    var c := EscapeIdent(Postgres, name).value;
    NumberIsMark(i, rest);
    var tail := "$" + Decimal(i) + rest;
    PlainHasNoMark(" AS TEXT) ILIKE ", tail, Postgres);
    NameHasNoMark(Postgres, name, " AS TEXT) ILIKE " + tail);
    PlainHasNoMark("CAST(", c + (" AS TEXT) ILIKE " + tail), Postgres);
    assert Predicate(Postgres, c, i) + rest == "CAST(" + (c + (" AS TEXT) ILIKE " + tail));
  }

  lemma SqliteEnd(rest: string)
    requires Ends(rest)
    ensures Marks("?) ESCAPE '\\'" + rest, Sqlite) == [Anonymous] + Marks(rest, Sqlite)
  {
    hide Marks, Contained;
    var lit := Enclosed('\'', "\\");
    SqliteEscape();
    RunHasNoMark('\'', "\\", rest, Sqlite);
    PlainHasNoMark(") ESCAPE ", lit + rest, Sqlite);
    QuestionIsMark(") ESCAPE " + (lit + rest), Sqlite);
    assert "?) ESCAPE '\\'" + rest == "?" + (") ESCAPE " + (lit + rest));
  }

  lemma SqliteMark(name: string, i: nat, rest: string)
    requires EscapeIdent(Sqlite, name).Some? && Ends(rest)
    ensures Marks(Predicate(Sqlite, EscapeIdent(Sqlite, name).value, i) + rest, Sqlite)
      == [Anonymous] + Marks(rest, Sqlite)
  {
    hide EscapeIdent, Marks;
    var c := EscapeIdent(Sqlite, name).value;
    SqliteEnd(rest);
    var tail := "?) ESCAPE '\\'" + rest;
    PlainHasNoMark(" AS TEXT)) LIKE LOWER(", tail, Sqlite);
    NameHasNoMark(Sqlite, name, " AS TEXT)) LIKE LOWER(" + tail);
    PlainHasNoMark("LOWER(CAST(", c + (" AS TEXT)) LIKE LOWER(" + tail), Sqlite);
    assert Predicate(Sqlite, c, i) + rest == "LOWER(CAST(" + (c + (" AS TEXT)) LIKE LOWER(" + tail));
  }

  lemma PredicateHasOneMark(kind: Kind, name: string, i: nat, rest: string)
    requires EscapeIdent(kind, name).Some? && Ends(rest)
    ensures Marks(Predicate(kind, EscapeIdent(kind, name).value, i) + rest, kind)
         == [if kind == Postgres then Numbered(i) else Anonymous] + Marks(rest, kind)
  {
    hide EscapeIdent, Marks, Predicate;
    match kind
    case Mysql => MysqlMark(name, i, rest);
    case Postgres => PostgresMark(name, i, rest);
    case Sqlite => SqliteMark(name, i, rest);
  }

  lemma QuestionIsMark(rest: string, kind: Kind)
    requires kind != Postgres
    ensures Marks("?" + rest, kind) == [Anonymous] + Marks(rest, kind)
  {
    assert ("?" + rest)[1..] == rest;
  }

  lemma MysqlEscape()
    ensures Contained('\'', "\\\\", true)
  {
    assert "\\\\"[2..] == "";
  }

  lemma SqliteEscape()
    ensures Contained('\'', "\\", false)
  {
    assert "\\"[1..] == "";
  }

  lemma JoinStep(p: string, ps: seq<string>, rest: string)
    ensures ps == [] ==> SqlText.Join([p] + ps, " OR ") + rest == p + rest
    ensures ps != [] ==> SqlText.Join([p] + ps, " OR ") + rest == p + (" OR " + (SqlText.Join(ps, " OR ") + rest))
  {
    assert ([p] + ps)[1..] == ps;
    if ps != [] {
      var joined := SqlText.Join(ps, " OR ");
      assert p + " OR " + joined + rest == p + (" OR " + (joined + rest));
    }
  }

  lemma MarkListStep(kind: Kind, done: nat, n: nat, rest: seq<Mark>)
    ensures [if kind == Postgres then Numbered(done + 1) else Anonymous] + (MarkList(kind, done + 1, n) + rest)
         == MarkList(kind, done, n + 1) + rest
  {
    assert MarkList(kind, done, n + 1) == MarkList(kind, done, 1) + MarkList(kind, done + 1, n);
  }

  lemma {:induction false} PredicatesMarks(kind: Kind, columns: seq<string>, done: nat, rest: string)
    requires Predicates(kind, columns, done).Some? && Ends(rest)
    ensures var ps := Predicates(kind, columns, done).value;
      Marks(SqlText.Join(ps, " OR ") + rest, kind) == MarkList(kind, done, |ps|) + Marks(rest, kind)
  {
    hide EscapeIdent, Predicate, Marks, SqlText.Join, MarkList;
    if columns == [] {
      assert SqlText.Join([], " OR ") + rest == rest by { JoinNothing(); }
      assert MarkList(kind, done, 0) == [];
    } else if columns[0] == [] {
      PredicatesMarks(kind, columns[1..], done, rest);
    } else {
      var p := Predicate(kind, EscapeIdent(kind, columns[0]).value, done + 1);
      var ps := Predicates(kind, columns[1..], done + 1).value;
      PredicatesMarks(kind, columns[1..], done + 1, rest);
      JoinStep(p, ps, rest);
      MarkListStep(kind, done, |ps|, Marks(rest, kind));
      if ps == [] {
        PredicateHasOneMark(kind, columns[0], done + 1, rest);
        assert MarkList(kind, done + 1, 0) == [];
      } else {
        var more := SqlText.Join(ps, " OR ") + rest;
        PlainHasNoMark(" OR ", more, kind);
        PredicateHasOneMark(kind, columns[0], done + 1, " OR " + more);
      }
    }
  }

  lemma JoinNothing()
    ensures SqlText.Join([], " OR ") == []
  {
  }

  lemma FilterMarks(kind: Kind, columns: seq<string>, rest: string)
    requires Predicates(kind, columns, 0).Some? && Ends(rest)
    ensures var ps := Predicates(kind, columns, 0).value;
      Marks(Filter(ps) + rest, kind) == MarkList(kind, 0, |ps|) + Marks(rest, kind)
  {
    hide Predicates, Marks, SqlText.Join;
    var ps := Predicates(kind, columns, 0).value;
    if ps == [] {
      assert Filter(ps) + rest == rest;
    } else {
      var joined := SqlText.Join(ps, " OR ");
      PlainHasNoMark(")", rest, kind);
      PredicatesMarks(kind, columns, 0, ")" + rest);
      PlainHasNoMark(" WHERE (", joined + (")" + rest), kind);
      assert Filter(ps) + rest == " WHERE (" + (joined + (")" + rest));
    }
  }

  lemma TableHasNoMark(kind: Kind, req: Request, rest: string)
    requires Table(kind, req).Some? && Ends(rest)
    ensures Marks(Table(kind, req).value + rest, kind) == Marks(rest, kind)
  {
    hide EscapeIdent, Marks;
    NameHasNoMark(kind, req.table, rest);
    if kind != Sqlite {
      var schema := if kind == Mysql then req.database else req.schema;
      var t := EscapeIdent(kind, req.table).value;
      PlainHasNoMark(".", t + rest, kind);
      NameHasNoMark(kind, schema, "." + (t + rest));
      assert Table(kind, req).value + rest == EscapeIdent(kind, schema).value + ("." + (t + rest));
    }
  }

  lemma OrderHasNoMark(kind: Kind, req: Request, rest: string)
    requires Order(kind, req).Some? && IsDirection(req.orderDir) && Ends(rest)
    ensures Marks(Order(kind, req).value + rest, kind) == Marks(rest, kind)
  {
    hide EscapeIdent, Marks, Uppercase;
    match req.orderBy
    case None =>
      assert [] + rest == rest;
    case Some(col) =>
      var c := EscapeIdent(kind, col).value;
      var tail := " " + Uppercase(req.orderDir);
      PlainHasNoMark(tail, rest, kind);
      NameHasNoMark(kind, col, tail + rest);
      PlainHasNoMark(" ORDER BY ", c + (tail + rest), kind);
      assert Order(kind, req).value + rest == " ORDER BY " + (c + (tail + rest));
  }

  /** Whatever the names of the table and the columns hold, the placeholders of the page read are those of its
      predicates, in order. */
  lemma SelectMarks(kind: Kind, req: Request, size: nat, offset: nat)
    requires Table(kind, req).Some? && Order(kind, req).Some? && IsDirection(req.orderDir)
    requires Predicates(kind, Columns(req), 0).Some?
    ensures var ps := Predicates(kind, Columns(req), 0).value;
      Marks(Select(Table(kind, req).value, ps, Order(kind, req).value, size, offset), kind) == MarkList(kind, 0, |ps|)
  {
    hide Table, Order, Predicates, Columns, Filter, Marks, Decimal, IsDirection;
    var table, order := Table(kind, req).value, Order(kind, req).value;
    var ps := Predicates(kind, Columns(req), 0).value;
    var tail := " LIMIT " + Decimal(size) + " OFFSET " + Decimal(offset);
    PlainHasNoMark(tail, [], kind);
    OrderHasNoMark(kind, req, tail);
    var rest := order + tail;
    OrderEnds(kind, req, tail);
    FilterMarks(kind, Columns(req), rest);
    FilterEnds(ps, rest);
    TableHasNoMark(kind, req, Filter(ps) + rest);
    PlainHasNoMark("SELECT * FROM ", table + (Filter(ps) + rest), kind);
    assert tail + [] == tail && Marks([], kind) == [] by { NothingHasNoMark(kind); }
    assert Select(table, ps, order, size, offset) == "SELECT * FROM " + (table + (Filter(ps) + rest));
  }

  lemma CountMarks(kind: Kind, req: Request)
    requires Table(kind, req).Some? && Predicates(kind, Columns(req), 0).Some?
    ensures var ps := Predicates(kind, Columns(req), 0).value;
      Marks(Count(Table(kind, req).value, ps), kind) == MarkList(kind, 0, |ps|)
  {
    hide Table, Predicates, Columns, Filter, Marks;
    var table := Table(kind, req).value;
    var ps := Predicates(kind, Columns(req), 0).value;
    FilterMarks(kind, Columns(req), []);
    FilterEnds(ps, []);
    TableHasNoMark(kind, req, Filter(ps) + []);
    NothingHasNoMark(kind);
    PlainHasNoMark("SELECT COUNT(*) AS n FROM ", table + (Filter(ps) + []), kind);
    assert Count(table, ps) == "SELECT COUNT(*) AS n FROM " + (table + (Filter(ps) + []));
  }

  lemma NothingHasNoMark(kind: Kind)
    ensures Marks([], kind) == []
  {
  }

  lemma FilterEnds(ps: seq<string>, rest: string)
    requires Ends(rest)
    ensures Ends(Filter(ps) + rest)
  {
    hide SqlText.Join;
  }

  lemma OrderEnds(kind: Kind, req: Request, rest: string)
    requires Order(kind, req).Some? && Ends(rest)
    ensures Ends(Order(kind, req).value + rest)
  {
    hide EscapeIdent, Uppercase;
  }

  // ------------------------------ the builder ---------------------------

  /** `build_page_sql`: refused for a bad direction or a name that cannot be quoted. One bound pattern for
      each placeholder, in the page and in the count alike. */
  method BuildPageSql(kind: Kind, req: Request, size: nat) returns (r: Option<PageSql>)
    ensures r.Some? <==>
      && IsDirection(req.orderDir) && Table(kind, req).Some? && Order(kind, req).Some?
      && Predicates(kind, Columns(req), 0).Some?
    ensures r.Some? ==>
      var ps, n := Predicates(kind, Columns(req), 0).value, |r.value.binds|;
      && n == |ps|
      && r.value.select == Select(Table(kind, req).value, ps, Order(kind, req).value, size, Times(req.page, size))
      && r.value.count == Count(Table(kind, req).value, ps)
      && Marks(r.value.select, kind) == Marks(r.value.count, kind) == MarkList(kind, 0, n)
      && forall b | b in r.value.binds :: b == Pattern(Term(req))
  {
    hide Table, Marks, Select, Count, EscapeIdent, Predicate;
    if !IsDirection(req.orderDir) {
      return None;
    }
    var table := Table(kind, req);
    if table.None? {
      return None;
    }
    var columns := Columns(req);
    var predicates: seq<string> := [];
    assert columns[0..] == columns;
    BeforeNothing(Predicates(kind, columns, 0));
    for k := 0 to |columns|
      invariant Predicates(kind, columns, 0) == Before(predicates, Predicates(kind, columns[k..], |predicates|))
    {
      var cols := columns[k..];
      assert cols[0] == columns[k] && cols[1..] == columns[k + 1..];
      if columns[k] != [] {
        var c := EscapeIdent(kind, columns[k]);
        if c.None? {
          return None;
        }
        BeforeStep(predicates, Predicate(kind, c.value, |predicates| + 1),
          Predicates(kind, cols[1..], |predicates| + 1));
        predicates := predicates + [Predicate(kind, c.value, |predicates| + 1)];
      }
    }
    assert columns[|columns|..] == [] && predicates + [] == predicates;
    var order := Order(kind, req);
    if order.None? {
      return None;
    }
    var pattern := LikePattern(Term(req));
    SelectMarks(kind, req, size, Times(req.page, size));
    CountMarks(kind, req);
    r := Some(PageSql(Select(table.value, predicates, order.value, size, Times(req.page, size)),
      Count(table.value, predicates), seq(|predicates|, _ => pattern)));
  }

  function Before(first: seq<string>, rest: Option<seq<string>>): Option<seq<string>> {
    match rest case None => None case Some(more) => Some(first + more)
  }

  lemma BeforeNothing(rest: Option<seq<string>>)
    ensures Before([], rest) == rest
  {
    if rest.Some? { assert [] + rest.value == rest.value; }
  }

  lemma BeforeStep(first: seq<string>, p: string, rest: Option<seq<string>>)
    ensures Before(first, Before([p], rest)) == Before(first + [p], rest)
  {
    if rest.Some? { assert first + ([p] + rest.value) == first + [p] + rest.value; }
  }
}
