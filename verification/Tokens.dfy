/** What opens a run on each engine, and where the run ends. */
module Tokens {
  import opened Text
  import opened Lexer
  import opened Quoting
  import opened RunEnds
  import opened Words

  /** The lexer's memory, read off the text before it: an identifier character, or the `E` of an E-string, an E that
      ends no longer word. */
  lemma LookIs(p: string)
    ensures AfterAll(START, p).ident <==> p != [] && Identifying(p[|p| - 1])
    ensures AfterAll(START, p).estr <==>
      p != [] && (p[|p| - 1] == 'E' || p[|p| - 1] == 'e') && (|p| == 1 || !Identifying(p[|p| - 2]))
  {
    LookBack(p, 0, |p|);
    assert p[0..|p|] == p;
  }

  /** An ASCII letter or digit, an underscore, or a dollar sign. */
  predicate Identifying(c: char) {
    'a' <= c <= 'z' || 'A' <= c <= 'Z' || '0' <= c <= '9' || c == '_' || c == '$'
  }

  predicate Starts(s: string, w: string) { |w| <= |s| && s[..|w|] == w }

  // ------------------------------ line comments -------------------------

  /** Up to the newline, which is no part of it, or to the end of the text. */
  predicate ToNewline(s: string, n: nat) { n <= |s| && '\n' !in s[..n] && (n < |s| ==> s[n] == '\n') }

  lemma LineIsToNewline(s: string, mark: nat)
    requires mark <= |s| && '\n' !in s[..mark]
    ensures ToNewline(s, mark + LineLen(s[mark..]))
  {
    LineEndsAtNewline(s[mark..]);
    var n := LineLen(s[mark..]);
    assert s[..mark + n] == s[..mark] + s[mark..][..n];
  }

  /** `--` opens a comment everywhere, on MySQL only before whitespace or at the end of the text. */
  lemma DashComment(look: Look, s: string, kind: Kind)
    requires Starts(s, "--")
    ensures var t := TokenAt(look, s, kind);
      if kind == Mysql && |s| > 2 && s[2] !in {' ', '\t', '\n', '\r', '\U{000C}'} then t == Token(1, false)
      else t.run && ToNewline(s, t.len)
  {
    hide LineLen;
    assert s[0] == s[..2][0] && s[1] == s[..2][1];
    LineIsToNewline(s, 2);
  }

  /** `#` opens one on MySQL only. */
  lemma HashComment(look: Look, s: string, kind: Kind)
    requires Starts(s, "#")
    ensures var t := TokenAt(look, s, kind);
      if kind == Mysql then t.run && ToNewline(s, t.len) else t == Token(1, false)
  {
    hide LineLen;
    assert s[0] == s[..1][0];
    LineIsToNewline(s, 1);
  }

  // ------------------------------ block comments ------------------------

  lemma OpensBlock(look: Look, s: string, kind: Kind)
    requires Starts(s, "/*")
    ensures OpeningAt(look, s, kind) == Block
    ensures TokenAt(look, s, kind) == Token(2 + BlockLen(s[2..], 1, kind == Postgres), true)
  {
    hide BlockLen;
    assert s[0] == s[..2][0] && s[1] == s[..2][1];
  }

  /** On PostgreSQL comments nest: one whose body is balanced is one token, up to the mark that closes it. */
  lemma NestedComment(look: Look, ps: seq<Piece>, post: string)
    requires Balanced(ps, "*/" + post)
    ensures TokenAt(look, "/*" + Body(ps) + ("*/" + post), Postgres) == Token(|Body(ps)| + 4, true)
  {
    hide BlockLen, TokenAt;
    var s := "/*" + Body(ps) + ("*/" + post);
    assert s[2..] == Body(ps) + ("*/" + post) && s[..2] == "/*";
    BalancedIsOneRun(ps, post);
    OpensBlock(look, s, Postgres);
  }

  /** One that is never balanced takes the rest of the text. */
  lemma OpenComment(look: Look, s: string)
    requires Starts(s, "/*") && forall ps :: !IsBody(s[2..], ps)
    ensures TokenAt(look, s, Postgres) == Token(|s|, true)
  {
    hide BlockLen, TokenAt, IsBody;
    RunIsBalanced(s[2..]);
    OpensBlock(look, s, Postgres);
  }

  /** A run that ends with the first `w` from `from` on, or with the text. */
  predicate EndsWithFirst(s: string, from: nat, w: string, n: nat) {
    if n >= |w| && n - |w| >= from && StandsAt(s, w, n - |w|) then
      forall k: nat :: from <= k < n - |w| ==> !StandsAt(s, w, k)
    else n == |s| && forall k: nat :: from <= k <= |s| ==> !StandsAt(s, w, k)
  }

  lemma FindEnds(s: string, from: nat, w: string)
    requires from <= |s| && w != []
    ensures EndsWithFirst(s, from, w, match Find(s[from..], w) case None => |s| case Some(p) => from + p + |w|)
  {
    hide Find, StandsAt;
    var u := s[from..];
    FindFirst(u, w);
    forall k: nat | k >= from ensures StandsAt(s, w, k) == StandsAt(u, w, k - from) {
      StandsInRest(s, from, w, k - from);
    }
  }

  /** Elsewhere comments do not nest. */
  lemma FlatComment(look: Look, s: string, kind: Kind)
    requires Starts(s, "/*") && kind != Postgres
    ensures var t := TokenAt(look, s, kind); t.run && EndsWithFirst(s, 2, "*/", t.len)
  {
    hide BlockLen, Find, TokenAt, EndsWithFirst;
    OpensBlock(look, s, kind);
    FlatCommentEndsAtClose(s[2..]);
    FindEnds(s, 2, "*/");
  }

  // ------------------------------ quoted runs ---------------------------

  /** Where a backslash escapes: in MySQL's strings, whichever their quote, and in PostgreSQL's E-strings. */
  predicate Escapes(look: Look, q: char, kind: Kind) {
    (kind == Mysql && q != '`') || (kind == Postgres && q == '\'' && look.estr)
  }

  /** A quote opens a run that ends where it closes, or with the text; a backtick does not on PostgreSQL. */
  lemma QuoteToken(look: Look, s: string, kind: Kind)
    requires s != [] && (s[0] == '\'' || s[0] == '"' || s[0] == '`')
    ensures var t, rest, bs := TokenAt(look, s, kind), s[1..], Escapes(look, s[0], kind);
      if s[0] == '`' && kind == Postgres then t == Token(1, false)
      else
        && t.run
        && (forall n: nat :: ClosesAt(rest, s[0], bs, n) ==> t.len == n + 1)
        && ((forall n: nat :: !ClosesAt(rest, s[0], bs, n)) ==> t.len == |s|)
  {
    hide QuotedLen, ClosesAt;
    QuotedRunEnds(s[1..], s[0], Escapes(look, s[0], kind));
  }

  /** `[` opens a name on SQLite, which ends at the first `]`. */
  lemma BracketToken(look: Look, s: string, kind: Kind)
    requires Starts(s, "[")
    ensures var t := TokenAt(look, s, kind);
      if kind != Sqlite then t == Token(1, false)
      else t.run && if ']' in s then s[t.len - 1] == ']' && ']' !in s[..t.len - 1] else t.len == |s|
  {
    hide BracketLen;
    assert s[0] == s[..1][0];
    var n := BracketLen(s[1..]);
    BracketEndsAtBracket(s[1..]);
    if n > 0 { assert s[..n] == ['['] + s[1..][..n - 1]; }
    assert ']' in s ==> ']' in s[1..];
  }

  // ------------------------------ dollar quotes -------------------------

  /** The opening of a dollar-quoted string: a name between dollar signs, or nothing. */
  predicate IsTag(tag: string) {
    && |tag| >= 2 && tag[0] == '$' && tag[|tag| - 1] == '$'
    && forall k :: 0 < k < |tag| - 1 ==>
      'a' <= tag[k] <= 'z' || 'A' <= tag[k] <= 'Z' || tag[k] == '_' || ('0' <= tag[k] <= '9' && k > 1)
  }

  lemma {:induction false} TagLenIs(s: string, first: bool)
    ensures var n := TagLen(s, first);
      && (forall k :: 0 <= k < n ==> IsTagChar(s[k], first && k == 0))
      && (n < |s| ==> !IsTagChar(s[n], first && n == 0))
  {
    if s != [] && IsTagChar(s[0], first) {
      TagLenIs(s[1..], false);
    }
  }

  /** A tag is what stands there, and there is no other. */
  lemma TagIs(look: Look, s: string)
    requires Starts(s, "$") && !look.ident
    ensures match DollarTag(look, s)
      case Some(n) => IsTag(s[..n]) && forall tag | IsTag(tag) && Starts(s, tag) :: tag == s[..n]
      case None => forall tag | IsTag(tag) :: !Starts(s, tag)
  {
    hide TagLen;
    assert s[0] == s[..1][0];
    var u := s[1..];
    var n := TagLen(u, true);
    TagLenIs(u, true);
    forall tag | IsTag(tag) && Starts(s, tag) ensures |tag| == n + 2 && n + 1 < |s| && s[n + 1] == '$' {
      var m := |tag| - 2;
      assert forall k :: 0 <= k < |tag| ==> s[k] == tag[k];
      assert forall k :: 0 <= k < |u| ==> u[k] == s[k + 1];
      assert u[m] == tag[m + 1];
    }
    if n < |u| && u[n] == '$' {
      var tag := s[..n + 2];
      assert forall k :: 0 < k < |tag| - 1 ==> tag[k] == u[k - 1];
    }
  }

  /** On PostgreSQL `$` opens a string that ends with the first repetition of its tag, or with the text; one that
      opens nothing, within an identifier or before a parameter's number, is a run by itself. Elsewhere `$` is bare. */
  lemma DollarToken(look: Look, s: string, kind: Kind)
    requires Starts(s, "$")
    ensures var t := TokenAt(look, s, kind);
      && (kind != Postgres ==> t == Token(1, false))
      && (kind == Postgres ==> t.run)
      && (kind == Postgres && look.ident ==> t.len == 1)
      && (kind == Postgres && !look.ident && (forall tag | IsTag(tag) :: !Starts(s, tag)) ==> t.len == 1)
      && (kind == Postgres && !look.ident ==>
        forall tag | IsTag(tag) && Starts(s, tag) :: EndsWithFirst(s, |tag|, tag, t.len))
  {
    hide TagLen, Find, EndsWithFirst, IsTag;
    assert s[0] == s[..1][0];
    if kind == Postgres && !look.ident {
      TagIs(look, s);
      if DollarTag(look, s).Some? {
        var n := DollarTag(look, s).value;
        FindEnds(s, n, s[..n]);
      }
    }
  }

  // ------------------------------ everything else -----------------------

  /** Nothing else opens a run: a character of none of these kinds is bare, and so are a minus sign and a slash that
      begin no comment. */
  lemma BareToken(look: Look, s: string, kind: Kind)
    requires s != [] && s[0] !in {'#', '\'', '"', '`', '[', '$'} && !Starts(s, "--") && !Starts(s, "/*")
    ensures TokenAt(look, s, kind) == Token(1, false)
  {
    assert |s| > 1 ==> s[..2] == [s[0], s[1]];
  }
}
