/** What the helper reads off one statement: its kind, its effect on the transaction, and whether a
    read-only connection may run it. Everything is read off the bare text. */
module Analysis {
  import opened Text
  import opened Lexer
  import opened Split
  import opened Words

  datatype StatementKind = Read | Write | Ddl | Unknown

  datatype TxnEffect = Begin | End

  /** `bare_sql`: literals, quoted identifiers and comments blanked. */
  function Blanked(s: string, m: seq<bool>): (r: string)
    requires |s| == |m|
    ensures |r| == |s|
  {
    seq(|s|, i requires 0 <= i < |s| => if m[i] then s[i] else ' ')
  }

  function BareSql(sql: string, kind: Kind): string { Blanked(sql, Mask(sql, kind)) }

  // ------------------------------ on the bare text ----------------------

  function Take<T>(s: seq<T>, n: nat): seq<T> { if n <= |s| then s[..n] else s }

  function LeadingWords(bare: string, n: nat): seq<string> {
    UppercaseAll(Take(WordsOf(Unicode, bare), n))
  }

  /** The word at `i`, or the empty text. */
  function WordOr(ws: seq<string>, i: nat): string { if i < |ws| then ws[i] else "" }

  function FetchWords(): set<string> {
    {"SELECT", "WITH", "SHOW", "DESCRIBE", "DESC", "EXPLAIN", "PRAGMA", "VALUES", "TABLE"}
  }

  function ControlWords(): set<string> {
    {"BEGIN", "START", "COMMIT", "END", "ROLLBACK", "SAVEPOINT", "RELEASE", "SET", "USE"}
  }

  function ClassifyBare(bare: string): StatementKind {
    var w := WordOr(LeadingWords(bare, 1), 0);
    if w in FetchWords() then Read
    else if w in {"INSERT", "UPDATE", "DELETE", "REPLACE", "MERGE", "UPSERT", "CALL"} then Write
    else if w in {"CREATE", "DROP", "ALTER", "TRUNCATE", "RENAME", "GRANT", "REVOKE", "COMMENT", "VACUUM",
                  "REINDEX", "ANALYZE"} then Ddl
    else if w in ControlWords() then Read
    else Unknown
  }

  function ReturnsRowsBare(bare: string): bool {
    WordOr(LeadingWords(bare, 1), 0) in FetchWords() || ClassifyBare(bare) == Unknown
  }

  /** What follows the last `=`, or the whole text. */
  function AfterLastEq(s: string): string
    decreases |s|
  {
    if s == [] || s[|s| - 1] == '=' then [] else AfterLastEq(s[..|s| - 1]) + [s[|s| - 1]]
  }

  /** The value a MySQL `SET` assigns last. */
  predicate AssignsLast(bare: string, v: string) { Uppercase(Trim(AfterLastEq(bare))) == v }

  function TxnEffectBare(bare: string, kind: Kind): Option<TxnEffect> {
    var ws := LeadingWords(bare, 4);
    var w0, w1, w2 := WordOr(ws, 0), WordOr(ws, 1), WordOr(ws, 2);
    if w0 == "BEGIN" then Some(Begin)
    else if w0 == "START" && w1 == "TRANSACTION" then Some(Begin)
    else if w0 == "COMMIT" || w0 == "END" then Some(End)
    else if w0 == "ROLLBACK" && w1 != "TO" then Some(End)
    else if w0 == "SET" && kind == Mysql && (w1 == "AUTOCOMMIT" || w2 == "AUTOCOMMIT") then
      if AssignsLast(bare, "0") || AssignsLast(bare, "OFF") then Some(Begin)
      else if AssignsLast(bare, "1") || AssignsLast(bare, "ON") then Some(End)
      else None
    else if kind == Mysql && ClassifyBare(bare) == Ddl then Some(End)
    else None
  }

  function ChangesContextBare(bare: string): bool {
    WordOr(LeadingWords(bare, 1), 0) in {"USE", "SET"}
  }

  predicate HasPrefix(s: string, p: string) { |p| <= |s| && s[..|p|] == p }

  function WriteWords(): seq<string> { ["INSERT", "UPDATE", "DELETE", "MERGE", "REPLACE"] }

  function AnalyzeWords(): seq<string> { ["ANALYZE", "ANALYSE"] }

  lemma KeywordsAreWords()
    ensures forall n | n in WriteWords() :: AllWord(n)
    ensures forall n | n in AnalyzeWords() :: AllWord(n)
  {
  }

  function Head(bare: string): string { Uppercase(TrimStart(bare)) }

  predicate IsReadOnlySafeBare(bare: string) {
    && ClassifyBare(bare) == Read
    && var head := Head(bare);
      KeywordsAreWords();
      if HasPrefix(head, "WITH") then !WordPresent(head[4..], WriteWords())
      else if HasPrefix(head, "EXPLAIN") then !WordPresent(head[7..], AnalyzeWords())
      else true
  }

  // ------------------------------ on a statement ------------------------

  function Classify(sql: string, kind: Kind): StatementKind { ClassifyBare(BareSql(sql, kind)) }

  function ReturnsRows(sql: string, kind: Kind): bool { ReturnsRowsBare(BareSql(sql, kind)) }

  function TxnEffectOf(sql: string, kind: Kind): Option<TxnEffect> { TxnEffectBare(BareSql(sql, kind), kind) }

  function ChangesContext(sql: string, kind: Kind): bool { ChangesContextBare(BareSql(sql, kind)) }

  predicate IsReadOnlySafe(sql: string, kind: Kind) { IsReadOnlySafeBare(BareSql(sql, kind)) }

  /** `all_statements_read_only`. */
  predicate AllReadOnly(sql: string, kind: Kind) {
    var statements := SplitStatements(sql, kind);
    statements != [] && forall s | s in statements :: IsReadOnlySafe(s, kind)
  }

  /** Everything the helper asks of a statement. */
  datatype Verdict = Verdict(kind: StatementKind, rows: bool, txn: Option<TxnEffect>, context: bool, safe: bool)

  function Judge(bare: string, kind: Kind): Verdict {
    Verdict(ClassifyBare(bare), ReturnsRowsBare(bare), TxnEffectBare(bare, kind), ChangesContextBare(bare),
            IsReadOnlySafeBare(bare))
  }

  // ------------------------------ the gate ------------------------------

  lemma {:induction false} TrimStartWords(a: Alphabet, s: string)
    ensures WordsOf(a, TrimStart(s)) == WordsOf(a, s)
  {
    if s != [] && IsBlank(s[0]) {
      assert !IsWord(a, s[0]);
      TrimStartWords(a, s[1..]);
    }
  }

  lemma HeadWords(bare: string)
    ensures WordsOf(Unicode, Head(bare)) == UppercaseAll(WordsOf(Unicode, bare))
  {
    TrimStartWords(Unicode, bare);
    WordsUppercase(Unicode, TrimStart(bare));
  }

  /** When the text begins with the letters of `w` and `w` is its first word, the word is whole. */
  lemma FirstWordIsWhole(head: string, w: string)
    requires HasPrefix(head, w) && AllWord(w)
    requires WordsOf(Unicode, head) != [] && WordsOf(Unicode, head)[0] == w
    ensures WordsOf(Ascii, head) == [w] + WordsOf(Ascii, head[|w|..])
  {
    hide WordsOf;
    assert head[0] == w[0];
    assert WordLen(Unicode, head) == |w| by { FirstWordLen(head); }
    assert head == w + head[|w|..];
    forall k | 0 <= k < |w| ensures IsWord(Ascii, head[k]) { assert head[k] == w[k]; }
    WordsConcat(Ascii, w, head[|w|..]);
    OneWord(w);
  }

  lemma FirstWordLen(s: string)
    requires s != [] && IsWord(Unicode, s[0])
    ensures WordsOf(Unicode, s) != [] && WordLen(Unicode, s) == |WordsOf(Unicode, s)[0]|
  {
  }

  lemma OneWord(w: string)
    requires AllWord(w)
    ensures WordsOf(Ascii, w) == [w]
  {
    WordLenIs(Ascii, w, |w|);
    assert w[..|w|] == w;
  }

  /** The only read keyword that begins with WITH is WITH itself; the same for EXPLAIN. */
  lemma ReadPrefix(bare: string, w: string)
    requires w == "WITH" || w == "EXPLAIN"
    requires ClassifyBare(bare) == Read && HasPrefix(Head(bare), w)
    ensures WordsOf(Unicode, Head(bare)) != [] && WordsOf(Unicode, Head(bare))[0] == w
  {
    hide WordsOf;
    var head := Head(bare);
    HeadWords(bare);
    assert head[0] == w[0];
    FirstWordLen(head);
    var first := WordsOf(Unicode, head)[0];
    assert first == WordOr(LeadingWords(bare, 1), 0);
    FirstWordIs(head);
    var n := WordLen(Unicode, head);
    assert forall k :: 0 <= k < |w| ==> head[k] == w[k] && IsWord(Unicode, w[k]);
    assert first[..|w|] == w;
    ReadWordsWith(first);
  }

  lemma FirstWordIs(s: string)
    requires s != [] && IsWord(Unicode, s[0])
    ensures WordsOf(Unicode, s) != [] && WordsOf(Unicode, s)[0] == s[..WordLen(Unicode, s)]
  {
  }

  lemma ReadWordsWith(w: string)
    requires w in FetchWords() || w in ControlWords()
    ensures HasPrefix(w, "WITH") ==> w == "WITH"
    ensures HasPrefix(w, "EXPLAIN") ==> w == "EXPLAIN"
  {
    if HasPrefix(w, "WITH") { assert w[0] == 'W'; }
    if HasPrefix(w, "EXPLAIN") { assert w[0] == 'E' && w[1] == 'X'; }
  }

  predicate HasWord(head: string, needles: seq<string>) { exists n | n in needles :: n in WordsOf(Ascii, head) }

  /** The gate, exactly: a read; and when the text, after blanks, begins with WITH, no write keyword is
      one of its words; and when it begins with EXPLAIN, neither ANALYZE nor ANALYSE is. */
  lemma GateIsExact(bare: string)
    ensures IsReadOnlySafeBare(bare) <==>
      && ClassifyBare(bare) == Read
      && (HasPrefix(Head(bare), "WITH") ==> !HasWord(Head(bare), WriteWords()))
      && (HasPrefix(Head(bare), "EXPLAIN") ==> !HasWord(Head(bare), AnalyzeWords()))
  {
    hide WordsOf, Head, ClassifyBare;
    var head := Head(bare);
    KeywordsAreWords();
    if ClassifyBare(bare) == Read {
      if HasPrefix(head, "WITH") {
        assert head[0] == 'W';
        ReadPrefix(bare, "WITH");
        FirstWordIsWhole(head, "WITH");
        ScanIsTokenisation(head[4..], WriteWords());
      } else if HasPrefix(head, "EXPLAIN") {
        ReadPrefix(bare, "EXPLAIN");
        FirstWordIsWhole(head, "EXPLAIN");
        ScanIsTokenisation(head[7..], AnalyzeWords());
      }
    }
  }
}
