/** Statements written out: without quotes and comments, a text is bare and read word by word. */
module Sentences {
  import opened Text
  import opened Lexer
  import opened LexerLaws
  import opened Words
  import opened Analysis
  import Segments
  import S = Session

  lemma PlainJoin(a: string, b: string)
    requires Segments.PlainText(a) && Segments.PlainText(b)
    ensures Segments.PlainText(a + b)
  {
    forall i | 0 <= i < |a + b| ensures Segments.PlainAt(a + b, i) {
      if i < |a| { assert Segments.PlainAt(a, i); } else { assert Segments.PlainAt(b, i - |a|); }
    }
  }

  lemma PlainIsBare(sql: string, kind: Kind)
    requires Segments.PlainText(sql)
    ensures BareSql(sql, kind) == sql
  {
    hide MaskFrom, Segments.PlainText;
    Segments.PlainMask(START, sql, [], kind);
    assert sql + [] == sql;
    NoMask(AfterAll(START, sql), kind);
    assert Mask(sql, kind) == Flags(|sql|, true);
  }

  /** A capital word followed by something that is no word. */
  predicate Heads(w: string, rest: string) {
    && AllWord(w) && Uppercase(w) == w && (forall k :: 0 <= k < |w| ==> IsWord(Unicode, w[k]))
    && (rest == [] || !IsWord(Unicode, rest[0]))
  }

  lemma HeadWord(w: string, rest: string)
    requires Heads(w, rest)
    ensures WordsOf(Unicode, w + rest) == [w] + WordsOf(Unicode, rest)
  {
    hide WordsOf, IsWord;
    var s := w + rest;
    assert forall k :: 0 <= k < |w| ==> s[k] == w[k];
    WordLenIs(Unicode, s, |w|);
    WordsTake(Unicode, s);
    assert s[..|w|] == w && s[|w|..] == rest;
  }

  /** The first word of a plain statement. */
  lemma StartsWith(w: string, rest: string, kind: Kind)
    requires Heads(w, rest) && Segments.PlainText(w + rest)
    ensures S.StatementWord(w + rest, kind, 0) == w
    ensures S.StatementWord(w + rest, kind, 1) == WordOr(LeadingWords(rest, 3), 0)
  {
    hide WordsOf, BareSql, Uppercase;
    PlainIsBare(w + rest, kind);
    HeadWord(w, rest);
    var ws := WordsOf(Unicode, rest);
    assert Take([w] + ws, 4) == [w] + Take(ws, 3);
    assert LeadingWords(w + rest, 4) == [Uppercase(w)] + LeadingWords(rest, 3);
  }
}
