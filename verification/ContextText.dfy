/** The statements that set a context, as the server reads them. */
module ContextText {
  import opened Text
  import opened Lexer
  import opened Quoting
  import Ident

  /** What unqualified names are to resolve against. */
  datatype Target = ToDefault | ToName(name: string)

  /** A quoted identifier at the beginning of a text, and what follows it. */
  function ReadName(s: string, q: char): (r: Option<(string, string)>)
    ensures r.Some? ==> |r.value.1| < |s|
  {
    if s == [] || s[0] != q then None
    else
      match ReadQuoted(q, s[1..], false)
      case None => None
      case Some((name, n)) => if 1 + n <= |s| then Some((name, s[1 + n..])) else None
  }

  function Behind(s: string, prefix: string): (r: Option<string>)
    ensures r.Some? ==> |r.value| == |s| - |prefix|
  {
    if |prefix| <= |s| && s[..|prefix|] == prefix then Some(s[|prefix|..]) else None
  }

  /** What a statement makes of the names: `USE` in the MySQL Reference Manual; `SET search_path` under "The Schema
      Search Path" in the PostgreSQL documentation, for a path of one schema followed by `public`. */
  function ReadTarget(kind: Kind, sql: string): Option<Target> {
    match kind
    case Mysql => (
      match Behind(sql, "USE ")
      case None => None
      case Some(s) =>
        match ReadName(s, '`')
        case Some((name, rest)) => if rest == "" then Some(ToName(name)) else None
        case None => None)
    case Postgres => (
      match Behind(sql, "SET search_path TO ")
      case None => None
      case Some(s) =>
        if s == "DEFAULT" then Some(ToDefault)
        else
          match ReadName(s, '"')
          case Some((name, rest)) => if rest == ", public" then Some(ToName(name)) else None
          case None => None)
    case Sqlite => None
  }

  lemma QuotedIsRead(q: char, name: string, rest: string)
    requires rest == [] || rest[0] != q
    ensures ReadName(Quoted(q, name) + rest, q) == Some((name, rest))
  {
    hide ReadQuoted, Doubled;
    var s := Quoted(q, name) + rest;
    ReadsBack(q, name, rest);
    assert s[1..] == Doubled(q, name) + [q] + rest;
    assert s[|Quoted(q, name)|..] == rest;
  }

  lemma BehindIs(prefix: string, s: string)
    ensures Behind(prefix + s, prefix) == Some(s)
  {
  }

  lemma UseIsRead(name: string)
    ensures ReadTarget(Mysql, "USE " + Quoted('`', name)) == Some(ToName(name))
  {
    hide Quoted, ReadName;
    QuotedIsRead('`', name, "");
    assert Quoted('`', name) + "" == Quoted('`', name);
    BehindIs("USE ", Quoted('`', name));
  }

  lemma PathIsRead(name: string)
    ensures ReadTarget(Postgres, "SET search_path TO " + Quoted('"', name) + ", public") == Some(ToName(name))
  {
    hide ReadName;
    var s := Quoted('"', name) + ", public";
    QuotedIsRead('"', name, ", public");
    BehindIs("SET search_path TO ", s);
    assert "SET search_path TO " + Quoted('"', name) + ", public" == "SET search_path TO " + s;
    assert s[0] == '"' && s != "DEFAULT";
  }

  lemma DefaultIsRead()
    ensures ReadTarget(Postgres, "SET search_path TO DEFAULT") == Some(ToDefault)
  {
    BehindIs("SET search_path TO ", "DEFAULT");
    assert "SET search_path TO " + "DEFAULT" == "SET search_path TO DEFAULT";
  }
}
