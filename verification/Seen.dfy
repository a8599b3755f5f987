/** When the session knows of the transaction the server has open, and so what its notices are worth. */
module Seen {
  import opened Text
  import opened Lexer
  import opened Words
  import opened Analysis
  import opened AnalysisLaws
  import opened Session
  import opened Sentences
  import Segments
  import E = Editor

  /** The session knows of an open transaction, and none can open unseen. */
  predicate Seen(v: View, s: Server) { (s.inTxn ==> v.inTransaction) && s.autocommit }

  /** A statement that turns autocommit on, which the session takes for the end of a transaction. */
  predicate TakenForEnd(v: View, sql: string) { TurnsOn(sql, v.kind) && TxnEffectOf(sql, v.kind) == Some(End) }

  /** A statement that leaves it so, when the server has a transaction `open` or not: no MySQL `SET` that may turn
      autocommit off, none that the session takes for the end of an open transaction, and no abandoned statement that
      opens a transaction unknown to the session. */
  predicate ShowsAt(v: View, e: Event, open: bool) {
    e.Stmt? && e.fate != Failed ==>
      && (MovesAutocommit(e.sql, v.kind) ==> TurnsOn(e.sql, v.kind))
      && (e.fate == Done && TakenForEnd(v, e.sql) ==> !open)
      && (e.fate == Abandoned && OpensTxn(e.sql, v.kind) ==> v.inTransaction)
  }

  /** The same, as far as the session can tell. */
  predicate Shows(v: View, e: Event) { ShowsAt(v, e, v.inTransaction) }

  lemma StepStaysSeen(v: View, e: Event, s: Server, t: Server)
    requires Seen(v, s) && ServerMay(v, e, s, t) && ShowsAt(v, e, s.inTxn)
    ensures Seen(ViewAfter(v, e), t)
  {
    hide StatementWord, TxnEffectOf, ChangesContext, Classify, ContextSql, NamesRead, Asked, MovesAutocommit, TurnsOn;
    if e.Stmt? { WordsSee(v, e.sql); }
  }

  /** Exactly which statements leave it so, whatever the server does. */
  lemma ShowsExact(v: View, e: Event, s: Server)
    requires e.Stmt? && Seen(v, s) && Sound(v.kind, s)
    ensures (forall t :: ServerMay(v, e, s, t) ==> Seen(ViewAfter(v, e), t)) <==> ShowsAt(v, e, s.inTxn)
  {
    hide StatementWord, TxnEffectOf, ChangesContext, Classify, MovesAutocommit, TurnsOn;
    if ShowsAt(v, e, s.inTxn) {
      forall t | ServerMay(v, e, s, t) ensures Seen(ViewAfter(v, e), t) { StepStaysSeen(v, e, s, t); }
    } else if MovesAutocommit(e.sql, v.kind) {
      AutocommitIsMysql(e.sql, v.kind);
      SetsAlone(e.sql, v.kind);
      WordsSee(v, e.sql);
      var t := if TurnsOn(e.sql, v.kind) then s else s.(autocommit := false);
      assert ServerMay(v, e, s, t) && !Seen(ViewAfter(v, e), t);
    } else {
      WordsSee(v, e.sql);
      OpensAlone(e.sql, v.kind);
      var t := s.(inTxn := true, held := {s.names});
      assert ServerMay(v, e, s, t) && !Seen(ViewAfter(v, e), t);
    }
  }

  /** What the session can tell is enough, and no less will do. */
  lemma ShowsIffAtAll(v: View, e: Event)
    ensures Shows(v, e) <==> forall s :: Seen(v, s) && Sound(v.kind, s) ==> ShowsAt(v, e, s.inTxn)
  {
    hide TakenForEnd, MovesAutocommit, TurnsOn, OpensTxn;
    var s := Server(v.inTransaction, false, true, false, Default, if v.inTransaction then {Default} else {});
    assert Seen(v, s) && Sound(v.kind, s);
  }

  lemma AutocommitIsMysql(sql: string, kind: Kind)
    requires MovesAutocommit(sql, kind)
    ensures kind == Mysql && SetsState(sql, kind)
  {
    hide WordsOf, BareSql;
  }

  predicate ShowsAll(v: View, events: seq<Event>)
    decreases |events|
  {
    events != [] ==> Shows(v, events[0]) && ShowsAll(ViewAfter(v, events[0]), events[1..])
  }

  /** Over every such run the session knows of the transaction the server has open. */
  lemma {:induction false} TransactionIsSeen(v: View, events: seq<Event>, servers: seq<Server>)
    requires Plays(v, events, servers) && ShowsAll(v, events) && Seen(v, servers[0])
    ensures Seen(ViewsAfter(v, events), servers[|events|])
    decreases |events|
  {
    hide ServerMay, ViewAfter, TakenForEnd, MovesAutocommit, TurnsOn, OpensTxn;
    if events != [] {
      StepStaysSeen(v, events[0], servers[0], servers[1]);
      TransactionIsSeen(ViewAfter(v, events[0]), events[1..], servers[1..]);
    }
  }

  lemma {:induction false} KindStays(v: View, events: seq<Event>)
    ensures ViewsAfter(v, events).kind == v.kind
    decreases |events|
  {
    hide TxnEffectOf, ChangesContext, Classify, ContextSql, NamesRead;
    if events != [] { KindStays(ViewAfter(v, events[0]), events[1..]); }
  }

  /** No silent loss, of the server's own transaction: after every history of an editor session in which MySQL's
      autocommit was not turned off, nor on within a transaction, and no BEGIN was abandoned, a transaction open on
      the server before a run that returns is still in the slot, or a statement of the batch ended it, or the user is
      told. The idle timer, which goes by the session's own flag, sees it too. */
  lemma NoTransactionLostSilently(kind: Kind, events: seq<Event>, servers: seq<Server>, pool: Option<string>,
                                  req: E.Request, w: E.World)
    requires Plays(Opened(kind, true), events, servers) && ShowsAll(Opened(kind, true), events)
    requires Clean(servers[0]) && servers[|events|].inTxn
    ensures var s := E.Sess(ViewsAfter(Opened(kind, true), events), pool);
      s.view.inTransaction && E.NotSilent(E.WorkOf(kind, Some(s), req, w), kind)
  {
    hide Plays, ShowsAll, ViewsAfter, E.WorkOf, E.NotSilent;
    var v := Opened(kind, true);
    TransactionIsSeen(v, events, servers);
    KindStays(v, events);
    E.NoSilentLoss(kind, E.Sess(ViewsAfter(v, events), pool), req, w);
  }

  // ------------------------------ what goes wrong -----------------------

  const AUTOCOMMIT_OFF :=
    [Stmt(Switch('0'), Done), Stmt("COMMIT" + "", Done), Stmt("DELETE" + " FROM T", Done)]

  /** A MySQL `SET` of autocommit, written out. */
  function Switch(value: char): string { "SET" + (" AUTOCOMMIT=" + [value]) }

  predicate Digit(value: char) { value == '0' || value == '1' }

  lemma SwitchMoves(value: char)
    requires Digit(value)
    ensures MovesAutocommit(Switch(value), Mysql) && StatementWord(Switch(value), Mysql, 0) == "SET"
    ensures StatementWord(Switch(value), Mysql, 1) == "AUTOCOMMIT" && BareSql(Switch(value), Mysql) == Switch(value)
  {
    hide WordsOf, BareSql;
    var sql, rest := Switch(value), " AUTOCOMMIT=" + [value];
    SwitchHeads(value);
    StartsWith("SET", rest, Mysql);
    PlainIsBare(sql, Mysql);
    HeadWord("SET", rest);
    SwitchWords(value);
    var ws := WordsOf(Unicode, sql);
    assert ws[1] == "AUTOCOMMIT" && UppercaseAll(ws)[1] == "AUTOCOMMIT";
  }

  lemma SwitchHeads(value: char)
    requires Digit(value)
    ensures Heads("SET", " AUTOCOMMIT=" + [value]) && Heads("AUTOCOMMIT", "=" + [value])
    ensures Uppercase("AUTOCOMMIT") == "AUTOCOMMIT" && Segments.PlainText(Switch(value))
  {
  }

  lemma SwitchWords(value: char)
    requires Digit(value)
    ensures var ws := WordsOf(Unicode, " AUTOCOMMIT=" + [value]); ws != [] && ws[0] == "AUTOCOMMIT"
  {
    hide WordsOf, Uppercase;
    SwitchHeads(value);
    var rest := " AUTOCOMMIT=" + [value];
    WordsSkip(Unicode, rest);
    assert rest[1..] == "AUTOCOMMIT" + ("=" + [value]);
    HeadWord("AUTOCOMMIT", "=" + [value]);
  }

  lemma SwitchAssigns(value: char, w: string)
    requires Digit(value)
    ensures AssignsLast(Switch(value), w) <==> w == [value]
  {
    hide AfterLastEq;
    var u := "SET AUTOCOMMIT=";
    assert Switch(value) == u + [value];
    AfterLastEqConcat(u, [value]);
    AfterLastEqAppend("SET AUTOCOMMIT", '=');
    assert "SET AUTOCOMMIT" + ['='] == u;
    assert AfterLastEq(u + [value]) == [value];
    TrimIs([value], 0, 1);
    assert [value][0..1] == [value] && Uppercase([value]) == [value];
  }

  lemma SwitchTurns(value: char)
    requires Digit(value)
    ensures TurnsOn(Switch(value), Mysql) <==> value == '1'
    ensures TxnEffectOf(Switch(value), Mysql) == Some(if value == '1' then End else Begin)
  {
    hide AssignsLast, MovesAutocommit, BareSql, TxnEffectBare, Switch, OneAssignment;
    SwitchMoves(value);
    SwitchAssigns(value, "0");
    SwitchAssigns(value, "OFF");
    SwitchAssigns(value, "1");
    SwitchAssigns(value, "ON");
    SwitchAssigns(value, "TRUE");
    SwitchIsOne(value);
    EffectOfSet(Switch(value));
  }

  lemma EffectOfSet(bare: string)
    requires WordOr(LeadingWords(bare, 4), 0) == "SET" && WordOr(LeadingWords(bare, 4), 1) == "AUTOCOMMIT"
    ensures TxnEffectBare(bare, Mysql) ==
      if AssignsLast(bare, "0") || AssignsLast(bare, "OFF") then Some(Begin)
      else if AssignsLast(bare, "1") || AssignsLast(bare, "ON") then Some(End) else None
  {
    hide AssignsLast, LeadingWords;
  }

  lemma SwitchIsOne(value: char)
    requires Digit(value)
    ensures OneAssignment(Switch(value))
  {
    var u, sql := "SET AUTOCOMMIT", Switch(value);
    assert sql == u + ("=" + [value]);
    assert forall i :: 0 <= i < |sql| && sql[i] == '=' ==> i == |u|;
  }

  /** MySQL with autocommit off: after a COMMIT the next statement opens a transaction the session does not know
      of. */
  lemma TransactionUnseen() returns (servers: seq<Server>)
    ensures Plays(Opened(Mysql, true), AUTOCOMMIT_OFF, servers) && Clean(servers[0])
    ensures servers[3].inTxn && !ViewsAfter(Opened(Mysql, true), AUTOCOMMIT_OFF).inTransaction
  {
    hide ServerMay, ViewAfter;
    var v0 := Opened(Mysql, true);
    var s0 := Server(false, false, true, false, Default, {});
    var s1 := s0.(autocommit := false, userState := true);
    var s2 := s1;
    var s3 := s2.(inTxn := true, held := {Default});
    servers := [s0, s1, s2, s3];
    var es := AUTOCOMMIT_OFF;
    var v1 := SetStep(v0, s0, s1);
    var v2 := CommitStep(v1, s1, s2);
    var v3 := DeleteStep(v2, s2, s3);
    var e1, e2, t1, t2 := es[1..], es[2..], servers[1..], servers[2..];
    assert e1[1..] == e2 && e2[1..] == [] && t1[1..] == t2 && t2[1..] == [s3];
    assert Plays(v3, [], [s3]) && ViewsAfter(v3, []) == v3;
    assert Plays(v2, e2, t2) && ViewsAfter(v2, e2) == v3;
    assert Plays(v1, e1, t1) && ViewsAfter(v1, e1) == v3;
  }

  lemma SetStep(v: View, s: Server, t: Server) returns (v1: View)
    requires v.kind == Mysql && !s.inTxn && s.held == {} && !s.failed && t == s.(autocommit := false, userState := true)
    ensures ServerMay(v, AUTOCOMMIT_OFF[0], s, t) && v1 == ViewAfter(v, AUTOCOMMIT_OFF[0]) && v1.kind == Mysql
  {
    hide StatementWord, BareSql, WordsOf, TxnEffectOf, Classify, ChangesContext, MovesAutocommit, TurnsOn;
    SwitchMoves('0');
    SwitchTurns('0');
    SetsAlone(Switch('0'), Mysql);
    v1 := ViewAfter(v, AUTOCOMMIT_OFF[0]);
  }

  lemma CommitStep(v: View, s: Server, t: Server) returns (v2: View)
    requires v.kind == Mysql && !s.inTxn && s.held == {} && !s.failed && t == s
    ensures ServerMay(v, AUTOCOMMIT_OFF[1], s, t) && v2 == ViewAfter(v, AUTOCOMMIT_OFF[1])
    ensures v2.kind == Mysql && !v2.inTransaction
  {
    hide StatementWord, BareSql, WordsOf, TxnEffectOf, Classify, ChangesContext, MovesAutocommit, TurnsOn;
    StartsWith("COMMIT", "", Mysql);
    WordsSee(v, "COMMIT" + "");
    EndsIsNoOther("COMMIT" + "");
    v2 := ViewAfter(v, AUTOCOMMIT_OFF[1]);
  }

  lemma EndsIsNoOther(sql: string)
    requires EndsTxn(sql, Mysql)
    ensures !OpensTxn(sql, Mysql) && !SetsState(sql, Mysql) && !IsDdl(sql, Mysql)
  {
    hide WordsOf, BareSql;
    FirstOfFour(BareSql(sql, Mysql));
  }

  lemma DeleteStep(v: View, s: Server, t: Server) returns (v3: View)
    requires v.kind == Mysql && !v.inTransaction && !s.inTxn && !s.autocommit && !s.failed
    requires t == s.(inTxn := true, held := {s.names})
    ensures ServerMay(v, AUTOCOMMIT_OFF[2], s, t) && v3 == ViewAfter(v, AUTOCOMMIT_OFF[2]) && !v3.inTransaction
  {
    hide StatementWord, BareSql, WordsOf, TxnEffectOf, Classify, ChangesContext, MovesAutocommit, TurnsOn;
    StartsWith("DELETE", " FROM T", Mysql);
    DeleteIsPlain("DELETE" + " FROM T", v);
    v3 := ViewAfter(v, AUTOCOMMIT_OFF[2]);
  }

  lemma DeleteIsPlain(sql: string, v: View)
    requires v.kind == Mysql && StatementWord(sql, Mysql, 0) == "DELETE"
    ensures !OpensTxn(sql, Mysql) && !EndsTxn(sql, Mysql) && !RollsBackTo(sql, Mysql) && !SetsState(sql, Mysql)
    ensures !IsDdl(sql, Mysql) && !MovesAutocommit(sql, Mysql) && TxnEffectOf(sql, Mysql) == None
  {
    hide WordsOf, BareSql;
    FirstOfFour(BareSql(sql, Mysql));
  }

  const SWITCH_ON := [Stmt("BEGIN" + "", Done), Stmt(Switch('1'), Done)]

  /** Autocommit turned on, where it is on, within a transaction: the session takes it for the end, the server goes
      on. */
  lemma SwitchOnUnseen() returns (servers: seq<Server>)
    ensures Plays(Opened(Mysql, true), SWITCH_ON, servers) && Clean(servers[0])
    ensures servers[2].inTxn && !ViewsAfter(Opened(Mysql, true), SWITCH_ON).inTransaction
  {
    hide StatementWord, BareSql, WordsOf, TxnEffectOf, Classify, ChangesContext, MovesAutocommit, TurnsOn, AssignsLast;
    var v := Opened(Mysql, true);
    var s := Server(false, false, true, false, Default, {});
    var t := s.(inTxn := true, held := {Default});
    servers := [s, t, t];
    var begin, on := "BEGIN" + "", Switch('1');
    StartsWith("BEGIN", "", Mysql);
    OpensAlone(begin, Mysql);
    WordsSee(v, begin);
    SwitchMoves('1');
    SwitchTurns('1');
    SetsAlone(on, Mysql);
    var es := SWITCH_ON;
    var v1 := ViewAfter(v, es[0]);
    var v2 := ViewAfter(v1, es[1]);
    assert ServerMay(v, es[0], s, t) && ServerMay(v1, es[1], t, t) && !v2.inTransaction;
    assert es[1..][1..] == [] && servers[1..][1..] == [t];
    assert Plays(v2, [], [t]) && ViewsAfter(v2, []) == v2;
    assert Plays(v1, es[1..], servers[1..]) && ViewsAfter(v1, es[1..]) == v2;
  }

  /** A transaction unseen can be lost without a word, by a run that returns and by the idle timer. */
  lemma UnseenIsLostSilently(req: E.Request) returns (servers: seq<Server>, w: E.World)
    requires ContextSql(Mysql, E.ContextOf(req), true).Send? && E.Fresh(Mysql, req, true, Fine).Some?
    ensures var v := ViewsAfter(Opened(Mysql, true), AUTOCOMMIT_OFF);
      && Plays(Opened(Mysql, true), AUTOCOMMIT_OFF, servers) && Clean(servers[0]) && servers[3].inTxn
      && var s := E.Sess(v, None);
        && E.Dropped(Mysql, s, req, w) && E.WorkOf(Mysql, Some(s), req, w).Ok?
        && E.WorkOf(Mysql, Some(s), req, w).local.None? && !s.view.inTransaction
  {
    hide Plays, ViewsAfter, ContextSql, E.Fresh, E.Dropped, E.WorkOf;
    servers := TransactionUnseen();
    KindStays(Opened(Mysql, true), AUTOCOMMIT_OFF);
    var s := E.Sess(ViewsAfter(Opened(Mysql, true), AUTOCOMMIT_OFF), None);
    E.LossIsToldIffSeen(Mysql, s, req);
    w :| E.Dropped(Mysql, s, req, w) && E.WorkOf(Mysql, Some(s), req, w).Ok?
      && E.WorkOf(Mysql, Some(s), req, w).local.None?;
  }
}
