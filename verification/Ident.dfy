/** Quoted identifiers and qualified table names (`schema.rs`). */
module Ident {
  import opened Text
  import opened Lexer
  import opened Split
  import opened Quoting

  predicate IsValidQuotable(s: string) { s != [] && forall c | c in s :: c != '\0' && c != '\n' && c != '\r' }

  /** `escape_quoted_ident`: `None` stands for the refusal. */
  function EscapeQuotedIdent(name: string, q: char): Option<string> {
    if !IsValidQuotable(name) then None else Some(Quoted(q, name))
  }

  /** The quoter each engine's helpers use. */
  function IdentQuote(kind: Kind): char { if kind == Mysql then '`' else '"' }

  function EscapeIdent(kind: Kind, name: string): Option<string> { EscapeQuotedIdent(name, IdentQuote(kind)) }

  /** `qualify_mysql` and `qualify_pg`. */
  function Qualify(kind: Kind, schema: string, table: string): Option<string> {
    match (EscapeIdent(kind, schema), EscapeIdent(kind, table))
    case (Some(s), Some(t)) => Some(s + "." + t)
    case _ => None
  }

  /** An escaped name is accepted exactly when it may be quoted, and reads back as the name. */
  lemma IdentReadsBack(kind: Kind, name: string, post: string)
    requires post == [] || post[0] != IdentQuote(kind)
    ensures EscapeIdent(kind, name).Some? <==> name != [] && '\0' !in name && '\n' !in name && '\r' !in name
    ensures EscapeIdent(kind, name).Some? ==>
      var s := EscapeIdent(kind, name).value + post;
      && s[0] == IdentQuote(kind)
      && ReadQuoted(s[0], s[1..], false) == Some((name, |EscapeIdent(kind, name).value| - 1))
  {
    var q := IdentQuote(kind);
    ReadsBack(q, name, post);
    assert (Quoted(q, name) + post)[1..] == Doubled(q, name) + [q] + post;
  }

  /** A qualified name names one schema and one table. */
  lemma QualifyIsInjective(kind: Kind, s1: string, t1: string, s2: string, t2: string)
    requires Qualify(kind, s1, t1).Some? && Qualify(kind, s1, t1) == Qualify(kind, s2, t2)
    ensures s1 == s2 && t1 == t2
  {
    hide Quoted, IsValidQuotable;
    var q := IdentQuote(kind);
    var rest1, rest2 := "." + Quoted(q, t1), "." + Quoted(q, t2);
    assert Quoted(q, s1) + "." + Quoted(q, t1) == Quoted(q, s1) + rest1;
    assert Quoted(q, s2) + "." + Quoted(q, t2) == Quoted(q, s2) + rest2;
    IdentReadsBack(kind, s1, rest1);
    IdentReadsBack(kind, s2, rest2);
    assert |Quoted(q, s1)| == |Quoted(q, s2)|;
    assert (Quoted(q, s1) + rest1)[|Quoted(q, s1)|..] == rest1;
    assert (Quoted(q, s2) + rest2)[|Quoted(q, s2)|..] == rest2;
    assert rest1[1..] == Quoted(q, t1) && rest2[1..] == Quoted(q, t2);
    assert Quoted(q, t1) + "" == Quoted(q, t1) && Quoted(q, t2) + "" == Quoted(q, t2);
    IdentReadsBack(kind, t1, "");
    IdentReadsBack(kind, t2, "");
  }

  /** The name inside a quoted identifier never influences the analysis of the script around it. */
  lemma NameIsOpaque(pre: string, x: string, y: string, post: string, kind: Kind)
    requires EscapeIdent(kind, x).Some? && EscapeIdent(kind, y).Some?
    requires CodePosition(pre, IdentQuote(kind), kind)
    requires post == [] || post[0] != IdentQuote(kind)
    ensures Verdicts(SplitStatements(pre + EscapeIdent(kind, x).value + post, kind), kind)
         == Verdicts(SplitStatements(pre + EscapeIdent(kind, y).value + post, kind), kind)
  {
    hide Verdicts, SplitStatements, CodePosition, IsValidQuotable;
    var q := IdentQuote(kind);
    DoubledIsContained(q, x, false);
    DoubledIsContained(q, y, false);
    LiteralIsOpaqueInScript(pre, q, Doubled(q, x), Doubled(q, y), post, kind);
  }
}
