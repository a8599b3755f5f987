/** Every keyword the helper knows, and what a statement that begins with it is taken for. */
module Keywords {
  import opened Text
  import opened Lexer
  import opened Words
  import opened Analysis
  import AnalysisLaws
  import S = Session

  /** The `i`th maximal word of a text, in capitals, or nothing. */
  function Word(bare: string, i: nat): string {
    var ws := WordsOf(Unicode, bare);
    if i < |ws| then Uppercase(ws[i]) else ""
  }

  lemma WordIsLeading(bare: string, i: nat, n: nat)
    requires i < n
    ensures WordOr(LeadingWords(bare, n), i) == Word(bare, i)
  {
    hide WordsOf;
  }

  /** ASCII letters are made capitals, and nothing else is. */
  lemma CapitalsAre(c: char)
    ensures 'a' <= c <= 'z' ==> Upper(c) == "ABCDEFGHIJKLMNOPQRSTUVWXYZ"[c as int - 'a' as int]
    ensures !('a' <= c <= 'z') ==> Upper(c) == c
  {
  }

  // ------------------------------ reads, writes, DDL --------------------

  predicate BeginsWith(bare: string, w: string) { HasPrefix(Uppercase(TrimStart(bare)), w) }

  /** What fetches rows. Only a text that begins with WITH or EXPLAIN is looked into by the gate. */
  lemma FetchKeyword(bare: string)
    requires Word(bare, 0) in
      {"SELECT", "WITH", "SHOW", "DESCRIBE", "DESC", "EXPLAIN", "PRAGMA", "VALUES", "TABLE"}
    ensures ClassifyBare(bare) == Read && ReturnsRowsBare(bare)
    ensures !BeginsWith(bare, "WITH") && !BeginsWith(bare, "EXPLAIN") ==> IsReadOnlySafeBare(bare)
  {
    hide WordsOf, Word, Head, HasWord, IsReadOnlySafeBare, LeadingWords;
    WordIsLeading(bare, 0, 1);
    GateIsExact(bare);
    HeadIs(bare);
  }

  lemma HeadIs(bare: string)
    ensures Head(bare) == Uppercase(TrimStart(bare))
  {
  }

  /** Behind a WITH the gate looks for these five words, behind an EXPLAIN for these two. */
  lemma FetchBehind(bare: string)
    ensures Word(bare, 0) == "WITH" && BeginsWith(bare, "WITH") ==>
      (IsReadOnlySafeBare(bare) <==>
        forall w | w in WordsOf(Ascii, Uppercase(TrimStart(bare))) ::
          w !in {"INSERT", "UPDATE", "DELETE", "MERGE", "REPLACE"})
    ensures Word(bare, 0) == "EXPLAIN" && BeginsWith(bare, "EXPLAIN") ==>
      (IsReadOnlySafeBare(bare) <==>
        forall w | w in WordsOf(Ascii, Uppercase(TrimStart(bare))) :: w !in {"ANALYZE", "ANALYSE"})
  {
    hide WordsOf, Word, Head, IsReadOnlySafeBare, WriteWords, AnalyzeWords, HasPrefix, HasWord;
    GateIsExact(bare);
    HeadIs(bare);
    OneBeginning(bare);
    if Word(bare, 0) == "WITH" || Word(bare, 0) == "EXPLAIN" { FetchKeyword(bare); }
    NeedlesAre(Head(bare));
  }

  lemma NeedlesAre(head: string)
    ensures HasWord(head, WriteWords()) <==>
      !forall w | w in WordsOf(Ascii, head) :: w !in {"INSERT", "UPDATE", "DELETE", "MERGE", "REPLACE"}
    ensures HasWord(head, AnalyzeWords()) <==>
      !forall w | w in WordsOf(Ascii, head) :: w !in {"ANALYZE", "ANALYSE"}
  {
    hide WordsOf;
    var ws, vs := WriteWords(), AnalyzeWords();
    assert ws[0] == "INSERT" && ws[1] == "UPDATE" && ws[2] == "DELETE" && ws[3] == "MERGE" && ws[4] == "REPLACE";
    assert vs[0] == "ANALYZE" && vs[1] == "ANALYSE";
  }

  lemma OneBeginning(bare: string)
    ensures !(BeginsWith(bare, "WITH") && BeginsWith(bare, "EXPLAIN"))
  {
    var h := Uppercase(TrimStart(bare));
    if |h| >= 7 { assert h[..4][0] == h[0] && h[..7][0] == h[0]; }
  }

  /** What writes: no rows, and refused on a read-only connection. */
  lemma WriteKeyword(bare: string)
    requires Word(bare, 0) in {"INSERT", "UPDATE", "DELETE", "REPLACE", "MERGE", "UPSERT", "CALL"}
    ensures ClassifyBare(bare) == Write && !ReturnsRowsBare(bare) && !IsReadOnlySafeBare(bare)
  {
    hide WordsOf, Word, Head, LeadingWords;
    WordIsLeading(bare, 0, 1);
  }

  lemma DdlKeyword(bare: string)
    requires Word(bare, 0) in {"CREATE", "DROP", "ALTER", "TRUNCATE", "RENAME", "GRANT", "REVOKE", "COMMENT",
                               "VACUUM", "REINDEX", "ANALYZE"}
    ensures ClassifyBare(bare) == Ddl && !ReturnsRowsBare(bare) && !IsReadOnlySafeBare(bare)
  {
    hide WordsOf, Word, Head, LeadingWords;
    WordIsLeading(bare, 0, 1);
  }

  /** Transaction control and settings: no rows, and allowed, unless a name is read in front of it. */
  lemma ControlKeyword(bare: string)
    requires Word(bare, 0) in
      {"BEGIN", "START", "COMMIT", "END", "ROLLBACK", "SAVEPOINT", "RELEASE", "SET", "USE"}
    ensures ClassifyBare(bare) == Read && !ReturnsRowsBare(bare) && IsReadOnlySafeBare(bare)
  {
    hide WordsOf, Word, Head, HasWord, IsReadOnlySafeBare, LeadingWords;
    WordIsLeading(bare, 0, 1);
    GateIsExact(bare);
    HeadWords(bare);
    WordOfHead(bare);
    if HasPrefix(Head(bare), "WITH") { ReadPrefix(bare, "WITH"); }
    if HasPrefix(Head(bare), "EXPLAIN") { ReadPrefix(bare, "EXPLAIN"); }
  }

  lemma WordOfHead(bare: string)
    requires Word(bare, 0) != ""
    ensures UppercaseAll(WordsOf(Unicode, bare)) != [] && UppercaseAll(WordsOf(Unicode, bare))[0] == Word(bare, 0)
  {
    hide WordsOf;
  }

  /** Whatever begins with no word of these is unknown: it is fetched, so that nothing is hidden, and refused. */
  lemma OtherKeyword(bare: string)
    requires Word(bare, 0) !in {"SELECT", "WITH", "SHOW", "DESCRIBE", "DESC", "EXPLAIN", "PRAGMA", "VALUES", "TABLE"}
    requires Word(bare, 0) !in {"INSERT", "UPDATE", "DELETE", "REPLACE", "MERGE", "UPSERT", "CALL"}
    requires Word(bare, 0) !in {"CREATE", "DROP", "ALTER", "TRUNCATE", "RENAME", "GRANT", "REVOKE", "COMMENT",
                                "VACUUM", "REINDEX", "ANALYZE"}
    requires Word(bare, 0) !in
      {"BEGIN", "START", "COMMIT", "END", "ROLLBACK", "SAVEPOINT", "RELEASE", "SET", "USE"}
    ensures ClassifyBare(bare) == Unknown && ReturnsRowsBare(bare) && !IsReadOnlySafeBare(bare)
  {
    hide WordsOf, Word, Head, LeadingWords;
    WordIsLeading(bare, 0, 1);
  }

  // ------------------------------ transactions --------------------------

  /** The value a text assigns, if `v` is what follows its last `=`. */
  lemma AssignedIs(u: string, v: string, w: string)
    requires '=' !in v
    ensures AssignsLast(u + "=" + v, w) <==> Uppercase(Trim(v)) == w
  {
    hide AfterLastEq;
    AnalysisLaws.AfterLastEqConcat(u + "=", v);
    AnalysisLaws.AfterLastEqAppend(u, '=');
    assert AfterLastEq(u + "=") == [];
    assert [] + v == v;
  }

  /** A MySQL `SET` of autocommit, by itself or in a named scope, to one of these values. */
  predicate Sets(sql: string, kind: Kind, values: set<string>) {
    var bare := BareSql(sql, kind);
    && kind == Mysql && Word(bare, 0) == "SET" && (Word(bare, 1) == "AUTOCOMMIT" || Word(bare, 2) == "AUTOCOMMIT")
    && exists v | v in values :: AssignsLast(bare, v)
  }

  predicate EndsImplicitly(sql: string, kind: Kind) {
    kind == Mysql && Word(BareSql(sql, kind), 0) in
      {"CREATE", "DROP", "ALTER", "TRUNCATE", "RENAME", "GRANT", "REVOKE", "COMMENT", "VACUUM", "REINDEX", "ANALYZE"}
  }

  /** Exactly which statements the session takes for the beginning of a transaction, and which for its end. */
  lemma EffectIs(sql: string, kind: Kind)
    ensures TxnEffectOf(sql, kind) == Some(Begin) <==>
      S.OpensTxn(sql, kind) || Sets(sql, kind, {"0", "OFF"})
    ensures TxnEffectOf(sql, kind) == Some(End) <==>
      S.EndsTxn(sql, kind) || Sets(sql, kind, {"1", "ON"}) || EndsImplicitly(sql, kind)
  {
    hide WordsOf, AssignsLast, BareSql, LeadingWords, Word;
    var bare := BareSql(sql, kind);
    WordIsLeading(bare, 0, 4);
    WordIsLeading(bare, 1, 4);
    WordIsLeading(bare, 2, 4);
    WordIsLeading(bare, 0, 1);
    OneValue(bare);
  }

  lemma OneValue(bare: string)
    ensures forall v, w :: AssignsLast(bare, v) && AssignsLast(bare, w) ==> v == w
  {
    hide AfterLastEq;
  }
}
