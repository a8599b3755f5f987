/** Two laws of the judgements as the batch runner uses them: a statement judged alone is judged as it stands
    in its script, and what the read-only gate does with a write keyword. */
module Gate {
  import opened Text
  import opened Lexer
  import opened LexerLaws
  import opened Split
  import opened Words
  import opened Analysis
  import opened AnalysisLaws
  import Segments
  import opened Sentences
  import Session

  // ------------------------------ alone and in place --------------------

  predicate DashOrSpace(s: string) { s != [] && forall c | c in s :: c == '-' || c == ' ' }

  /** Dashes at the end of a text hide or show no word, and do not change how it begins. */
  lemma WordsBeforeTail(a: Alphabet, u: string, t: string)
    requires DashOrSpace(t)
    ensures WordsOf(a, u + t) == WordsOf(a, u)
  {
    hide WordsOf;
    assert forall k :: 0 <= k < |t| ==> t[k] in t;
    WordsConcat(a, u, t);
    NoWords(a, t);
    assert WordsOf(a, u) + [] == WordsOf(a, u);
  }

  lemma HeadBeforeTail(u: string, t: string, w: string)
    requires DashOrSpace(t) && AllWord(w)
    ensures HasPrefix(Head(u + t), w) == (!AllBlank(u) && HasPrefix(Uppercase(TrimStart(u)), w))
  {
    assert t[0] in t;
    TrimStartConcat(u, t);
    if AllBlank(u) {
      var n := TrimStartSplits(t);
      assert forall k :: n <= k < |t| ==> t[n..][k - n] == t[k] && t[k] in t;
      assert forall k :: 0 <= k < |Head(u + t)| ==> Head(u + t)[k] == Upper(t[n..][k]);
      if HasPrefix(Head(u + t), w) { PrefixChar(Head(u + t), w, 0); }
    } else {
      PrefixStopsAtGap(TrimStart(u), t, [], w);
      assert TrimStart(u) + t + [] == TrimStart(u) + t;
    }
  }

  /** The judgements that read words and the beginning of a text. */
  predicate JudgedAlike(x: string, y: string) {
    && ClassifyBare(x) == ClassifyBare(y) && ReturnsRowsBare(x) == ReturnsRowsBare(y)
    && ChangesContextBare(x) == ChangesContextBare(y) && IsReadOnlySafeBare(x) == IsReadOnlySafeBare(y)
  }

  lemma TailsAlike(u: string, s: string, t: string)
    requires DashOrSpace(s) && DashOrSpace(t)
    ensures JudgedAlike(u + s, u + t)
  {
    hide WordsOf, Head, IsReadOnlySafeBare;
    forall a: Alphabet ensures WordsOf(a, u + s) == WordsOf(a, u + t) {
      WordsBeforeTail(a, u, s);
      WordsBeforeTail(a, u, t);
    }
    forall w | w in {"WITH", "EXPLAIN"} ensures HasPrefix(Head(u + s), w) == HasPrefix(Head(u + t), w) {
      HeadBeforeTail(u, s, w);
      HeadBeforeTail(u, t, w);
    }
    GateAlike(u + s, u + t);
  }

  /** A MySQL `SET` that turns autocommit on or off. */
  predicate Switches(bare: string, kind: Kind) {
    var ws := LeadingWords(bare, 4);
    && kind == Mysql && WordOr(ws, 0) == "SET" && (WordOr(ws, 1) == "AUTOCOMMIT" || WordOr(ws, 2) == "AUTOCOMMIT")
    && (AssignsLast(bare, "0") || AssignsLast(bare, "OFF") || AssignsLast(bare, "1") || AssignsLast(bare, "ON"))
  }

  /** A value that ends in a dash is none of those. */
  lemma DashIsNoValue(u: string, t: string, v: string)
    requires DashOrSpace(t) && '-' in t && '-' !in v
    ensures !AssignsLast(u + t, v)
  {
    hide Trim;
    AfterLastEqConcat(u, t);
    assert '=' !in t;
    var x := AfterLastEq(u) + t;
    var i :| 0 <= i < |t| && t[i] == '-';
    var k := StaysTrimmed(x, |AfterLastEq(u)| + i);
    assert Uppercase(Trim(x))[k] == '-';
  }

  lemma StaysTrimmed(x: string, j: nat) returns (k: nat)
    requires j < |x| && x[j] == '-'
    ensures k < |Trim(x)| && Trim(x)[k] == '-'
  {
    hide Trim;
    var lo, hi := TrimSplits(x);
    forall i | 0 <= i < lo ensures IsBlank(x[i]) { assert x[..lo][i] in x[..lo]; }
    forall i | hi <= i < |x| ensures IsBlank(x[i]) { assert x[hi..][i - hi] in x[hi..]; }
    k := j - lo;
  }

  lemma DashSwitchesNothing(u: string, t: string, kind: Kind)
    requires DashOrSpace(t) && '-' in t
    ensures !Switches(u + t, kind)
  {
    hide AssignsLast, WordsOf;
    DashIsNoValue(u, t, "0");
    DashIsNoValue(u, t, "OFF");
    DashIsNoValue(u, t, "1");
    DashIsNoValue(u, t, "ON");
  }

  /** Two texts of the same words have the same effect, but for the value they assign. */
  lemma EffectBySwitch(x: string, y: string, kind: Kind)
    requires WordsOf(Unicode, x) == WordsOf(Unicode, y)
    ensures !Switches(x, kind) && !Switches(y, kind) ==> TxnEffectBare(x, kind) == TxnEffectBare(y, kind)
    ensures Switches(x, kind) && !Switches(y, kind) ==> TxnEffectBare(x, kind).Some? && TxnEffectBare(y, kind).None?
  {
    hide WordsOf, AssignsLast;
  }

  lemma EffectOfTails(u: string, s: string, t: string, kind: Kind)
    requires DashOrSpace(s) && DashOrSpace(t) && |s| == |t|
    ensures TxnEffectBare(u + s, kind) == TxnEffectBare(u + t, kind)
      <==> u + s == u + t || !(Switches(u + s, kind) || Switches(u + t, kind))
  {
    hide Switches, TxnEffectBare, WordsOf;
    WordsBeforeTail(Unicode, u, s);
    WordsBeforeTail(Unicode, u, t);
    EffectBySwitch(u + s, u + t, kind);
    EffectBySwitch(u + t, u + s, kind);
    if s != t {
      if '-' in s { DashSwitchesNothing(u, s, kind); }
      if '-' in t { DashSwitchesNothing(u, t, kind); }
      OneHasDash(s, t);
    }
  }

  lemma OneHasDash(s: string, t: string)
    requires DashOrSpace(s) && DashOrSpace(t) && |s| == |t| && s != t
    ensures '-' in s || '-' in t
  {
    var i :| 0 <= i < |s| && s[i] != t[i];
    assert s[i] in s && t[i] in t;
  }

  lemma BlankedAgree(t: string, m: seq<bool>, n: seq<bool>, kind: Kind)
    requires |m| == |t| == |n| && MaskAgrees(m, n, t, kind)
    ensures var x, y := Blanked(t, m), Blanked(t, n);
      && JudgedAlike(x, y)
      && (TxnEffectBare(x, kind) == TxnEffectBare(y, kind) <==> x == y || !(Switches(x, kind) || Switches(y, kind)))
  {
    hide ClassifyBare, ReturnsRowsBare, ChangesContextBare, IsReadOnlySafeBare, TxnEffectBare, Switches;
    var x, y := Blanked(t, m), Blanked(t, n);
    if DashTail(t, kind) {
      var k := |t| - 2;
      assert x == x[..k] + x[k..] && y == y[..k] + y[k..];
      assert x[..k] == y[..k];
      TailsAlike(x[..k], x[k..], y[k..]);
      EffectOfTails(x[..k], x[k..], y[k..], kind);
    } else {
      assert x == y;
    }
  }

  /** The batch runner lexes each statement again, alone. What it makes of the statement is what the bare text
      of the whole script says there; the effect on the transaction too, exactly unless the two differ (in a `--` left
      at the end of a MySQL statement) and one of them switches autocommit. */
  lemma JudgedInPlace(p: string, kind: Kind, i: nat) returns (o: nat)
    requires i < |SplitStatements(p, kind)|
    ensures var e := SplitStatements(p, kind)[i];
      && o + |e| <= |p| && p[o..o + |e|] == e
      && var alone, there := BareSql(e, kind), BareSql(p, kind)[o..o + |e|];
        && JudgedAlike(alone, there)
        && (TxnEffectBare(alone, kind) == TxnEffectBare(there, kind)
          <==> alone == there || !(Switches(alone, kind) || Switches(there, kind)))
        && (!DashTail(e, kind) ==> alone == there)
  {
    hide Mask, SplitStatements, JudgedAlike, TxnEffectBare, Switches;
    o := StatementInPlace(p, kind, i);
    var e := SplitStatements(p, kind)[i];
    var n := Mask(p, kind)[o..o + |e|];
    assert Mask(p, kind)[o..][..|e|] == n;
    assert BareSql(p, kind)[o..o + |e|] == Blanked(e, n);
    BlankedAgree(e, Mask(e, kind), n, kind);
  }

  /** The export gate lets a script through exactly when it lets through every statement of it by itself. */
  lemma ExportGate(sql: string, kind: Kind)
    ensures AllReadOnly(sql, kind) <==>
      var statements := SplitStatements(sql, kind);
      statements != [] && forall i :: 0 <= i < |statements| ==> AllReadOnly(statements[i], kind)
  {
    hide SplitStatements, IsReadOnlySafe;
    var statements := SplitStatements(sql, kind);
    forall i | 0 <= i < |statements| ensures AllReadOnly(statements[i], kind) == IsReadOnlySafe(statements[i], kind) {
      var o := StatementInPlace(sql, kind, i);
      assert SplitStatements(statements[i], kind) == [statements[i]];
      assert statements[i] in [statements[i]];
    }
  }

  // ------------------------------ the gate ------------------------------

  /** The first keyword. */
  function FirstWord(bare: string): string { WordOr(LeadingWords(bare, 1), 0) }

  /** Whatever moves the transaction or the names of a session without writing is allowed, reports no rows and is
      seen by the session; it is never taken for a write or for DDL. */
  lemma ControlIsAllowed(sql: string, kind: Kind)
    requires Session.OpensTxn(sql, kind) || Session.EndsTxn(sql, kind) || Session.RollsBackTo(sql, kind)
      || Session.SetsState(sql, kind)
    ensures Classify(sql, kind) == Read && !ReturnsRows(sql, kind) && IsReadOnlySafe(sql, kind)
  {
    hide WordsOf, Head, BareSql, HasWord, IsReadOnlySafeBare;
    var bare := BareSql(sql, kind);
    Session.FirstOfFour(bare);
    assert FirstWord(bare) in ControlWords();
    GateIsExact(bare);
    if HasPrefix(Head(bare), "WITH") { ReadPrefix(bare, "WITH"); HeadWords(bare); }
    if HasPrefix(Head(bare), "EXPLAIN") { ReadPrefix(bare, "EXPLAIN"); HeadWords(bare); }
  }

  /** The gate is documented to refuse a WITH that writes and an EXPLAIN ANALYZE. Such a statement is refused
      exactly when its text, after blanks, begins with that keyword: a bracket in front of it lets it through. */
  lemma RefusedIffInFront(bare: string, w: string, needles: seq<string>)
    requires (w == "WITH" && needles == WriteWords()) || (w == "EXPLAIN" && needles == AnalyzeWords())
    requires FirstWord(bare) == w && HasWord(Head(bare), needles)
    ensures IsReadOnlySafeBare(bare) <==> !HasPrefix(Head(bare), w)
  {
    hide WordsOf, Head, HasWord, IsReadOnlySafeBare;
    GateIsExact(bare);
    if HasPrefix(Head(bare), "WITH") && HasPrefix(Head(bare), "EXPLAIN") {
      PrefixChar(Head(bare), "WITH", 0);
      PrefixChar(Head(bare), "EXPLAIN", 0);
    }
    if w == "EXPLAIN" && HasPrefix(Head(bare), "WITH") {
      ReadPrefix(bare, "WITH");
      HeadWords(bare);
    }
    if w == "WITH" && HasPrefix(Head(bare), "EXPLAIN") {
      ReadPrefix(bare, "EXPLAIN");
      HeadWords(bare);
    }
  }

  /** So it goes for every statement of this form, whatever stands around the keyword. */
  lemma BracketLetsThrough(x: string, y: string, kind: Kind)
    requires Segments.PlainText(x) && Segments.PlainText(y)
    ensures var sql := "(WITH " + x + " DELETE " + y;
      IsReadOnlySafe(sql, kind) && FirstWord(BareSql(sql, kind)) == "WITH"
      && HasWord(Head(BareSql(sql, kind)), WriteWords())
  {
    hide WordsOf, Head, HasWord, IsReadOnlySafeBare, BareSql, FirstWord;
    var sql := "(WITH " + x + " DELETE " + y;
    PlainAround(x, y);
    PlainIsBare(sql, kind);
    BracketedFirst(x + " DELETE " + y);
    assert sql == "(WITH " + (x + " DELETE " + y);
    DeleteIsWord("(WITH " + x, y);
    RefusedIffInFront(sql, "WITH", WriteWords());
  }

  lemma PlainAround(x: string, y: string)
    requires Segments.PlainText(x) && Segments.PlainText(y)
    ensures Segments.PlainText("(WITH " + x + " DELETE " + y)
  {
    PlainJoin("(WITH ", x);
    PlainJoin(" DELETE ", y);
    PlainJoin("(WITH " + x, " DELETE " + y);
    assert "(WITH " + x + (" DELETE " + y) == "(WITH " + x + " DELETE " + y;
  }

  lemma OtherStart(h: string, w: string)
    requires h != [] && w != [] && h[0] != w[0]
    ensures !HasPrefix(h, w)
  {
    assert |w| <= |h| ==> h[..|w|][0] == h[0];
  }

  lemma BracketedFirst(tail: string)
    ensures FirstWord("(WITH " + tail) == "WITH" && !HasPrefix(Head("(WITH " + tail), "WITH")
  {
    hide WordsOf;
    var s, t := "(WITH " + tail, "WITH " + tail;
    assert s == "(" + t;
    WordsConcat(Unicode, "(", t);
    NoWords(Unicode, "(");
    WordLenIs(Unicode, t, 4);
    FirstWordIs(t);
    assert t[..4] == "WITH" && Uppercase("WITH") == "WITH";
    assert Head(s)[0] == '(';
    OtherStart(Head(s), "WITH");
  }

  lemma DeleteIsWord(a: string, y: string)
    requires a != [] && a[0] == '('
    ensures HasWord(Head(a + " DELETE " + y), WriteWords())
  {
    hide WordsOf;
    var s := a + " DELETE " + y;
    var h := Head(s);
    assert s[0] == '(' && h == Uppercase(s);
    assert s == a + (" DELETE " + y);
    var k := |a| + 1;
    assert s[k..k + 6] == "DELETE";
    forall i | 0 <= i < 6 ensures h[k + i] == "DELETE"[i] { assert s[k..k + 6][i] == s[k + i]; }
    assert h[k..k + 6] == "DELETE";
    WordAtIsWord(h, "DELETE", k);
    assert WriteWords()[2] == "DELETE";
  }

  /** One of them, that PostgreSQL runs: it deletes every row of a table. */
  lemma BracketedDelete()
    ensures IsReadOnlySafe("(WITH " + "D AS(" + " DELETE " + "FROM T RETURNING *)TABLE D)", Postgres)
  {
    BracketLetsThrough("D AS(", "FROM T RETURNING *)TABLE D)", Postgres);
  }
}
