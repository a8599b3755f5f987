/** The cached context: when `applied` says what the server really resolves names against. */
module Coherence {
  import opened Text
  import opened Lexer
  import opened Words
  import opened Analysis
  import opened Session
  import opened Sentences

  /** What the session believes of the names is so. */
  predicate Coherent(v: View, s: Server) {
    v.applied.Some? && Asked(v.kind, v.applied.value).Some? ==> s.names == Asked(v.kind, v.applied.value).value
  }

  /** There is a belief to falsify. */
  predicate Believes(v: View) { v.applied.Some? && Asked(v.kind, v.applied.value).Some? }

  // ------------------------------ one step ------------------------------

  /** A step in which a PostgreSQL server may take back names: a rollback, the end of a failed transaction, or an
      end that fails. */
  predicate TakesBack(v: View, e: Event, s: Server) {
    && v.kind == Postgres && e.Stmt?
    && ((e.fate != Failed && Rewinds(e.sql, v.kind, s)) || (e.fate != Done && s.inTxn && EndsTxn(e.sql, v.kind)))
  }

  /** An abandoned statement that may move the names unseen. */
  predicate MovesUnseen(v: View, e: Event) {
    e.Stmt? && e.fate == Abandoned && (SetsState(e.sql, v.kind) || IsDdl(e.sql, v.kind))
  }

  /** Context sent, or nothing to send: what was asked for is in place. */
  lemma AskedIsSent(kind: Kind, ctx: Context, force: bool)
    ensures ContextSql(kind, ctx, force) == Nothing ==> Asked(kind, ctx).None?
    ensures ContextSql(kind, ctx, force).Send? ==>
      NamesRead(kind, ContextSql(kind, ctx, force).sql) == Asked(kind, ctx)
    ensures Asked(kind, ctx).Some? ==> kind != Sqlite
  {
    hide NamesRead;
    SentIsAsked(kind, ctx, force);
  }

  /** Every step keeps the belief true, unless names are taken back or moved unseen under it. */
  lemma StepStaysCoherent(v: View, e: Event, s: Server, t: Server)
    requires Coherent(v, s) && ServerMay(v, e, s, t)
    requires TakesBack(v, e, s) && Believes(v) ==> t.names == s.names
    requires MovesUnseen(v, e) && Believes(v) ==> t.names == s.names
    ensures Coherent(ViewAfter(v, e), t)
  {
    hide StatementWord, TxnEffectOf, ChangesContext, Classify, ContextSql, NamesRead, Asked, MovesAutocommit, TurnsOn;
    match e
    case Apply(ctx, force, _) => AskedIsSent(v.kind, ctx, force);
    case Stmt(sql, _) => WordsSee(v, sql);
  }

  lemma EndsAlone(sql: string, kind: Kind)
    requires EndsTxn(sql, kind) || RollsBackTo(sql, kind)
    ensures !SetsState(sql, kind) && !IsDdl(sql, kind) && !OpensTxn(sql, kind)
    ensures EndsTxn(sql, kind) ==> !RollsBackTo(sql, kind)
    ensures RollsBackTo(sql, kind) ==> !EndsTxn(sql, kind)
  {
    hide WordsOf, BareSql;
    FirstOfFour(BareSql(sql, kind));
  }

  lemma RewindsEnds(sql: string, kind: Kind, s: Server)
    requires Rewinds(sql, kind, s)
    ensures EndsTxn(sql, kind) || RollsBackTo(sql, kind)
  {
    hide StatementWord;
  }

  /** What of the belief a step can falsify, given what the transaction has seen of names. */
  predicate Safe(v: View, e: Event, s: Server) {
    && (TakesBack(v, e, s) && Believes(v) ==> s.held <= {s.names})
    && (MovesUnseen(v, e) && Believes(v) ==> s.failed)
  }

  /** Exactly when a statement keeps the belief true whatever the server does: no names but those in force are
      there to be taken back, and it does not move names unseen. */
  lemma StatementExact(v: View, e: Event, s: Server)
    requires e.Stmt? && Coherent(v, s) && Sound(v.kind, s)
    ensures (forall t :: ServerMay(v, e, s, t) ==> Coherent(ViewAfter(v, e), t)) <==> Safe(v, e, s)
  {
    hide ServerMay, ViewAfter, Safe;
    if Safe(v, e, s) {
      forall t | ServerMay(v, e, s, t) ensures Coherent(ViewAfter(v, e), t) { SafeStays(v, e, s, t); }
    } else {
      var t := UnsafeBreaks(v, e, s);
    }
  }

  lemma SafeStays(v: View, e: Event, s: Server, t: Server)
    requires e.Stmt? && Coherent(v, s) && Sound(v.kind, s) && Safe(v, e, s) && ServerMay(v, e, s, t)
    ensures Coherent(ViewAfter(v, e), t)
  {
    hide StatementWord, TxnEffectOf, ChangesContext, Classify, NamesRead, Asked, MovesAutocommit, TurnsOn, ViewAfter;
    if TakesBack(v, e, s) {
      if EndsTxn(e.sql, v.kind) || RollsBackTo(e.sql, v.kind) { EndsAlone(e.sql, v.kind); }
      if Rewinds(e.sql, v.kind, s) { RewindsEnds(e.sql, v.kind, s); EndsAlone(e.sql, v.kind); }
    }
    if MovesUnseen(v, e) { MovingAlone(e.sql, v.kind); }
    StepStaysCoherent(v, e, s, t);
  }

  lemma MovingAlone(sql: string, kind: Kind)
    requires SetsState(sql, kind) || IsDdl(sql, kind)
    ensures !EndsTxn(sql, kind) && !RollsBackTo(sql, kind) && !OpensTxn(sql, kind)
    ensures StatementWord(sql, kind, 0) != "ROLLBACK"
  {
    hide WordsOf, BareSql;
    FirstOfFour(BareSql(sql, kind));
  }

  lemma UnsafeBreaks(v: View, e: Event, s: Server) returns (t: Server)
    requires e.Stmt? && Coherent(v, s) && Sound(v.kind, s) && !Safe(v, e, s)
    ensures ServerMay(v, e, s, t) && !Coherent(ViewAfter(v, e), t)
  {
    hide StatementWord, TxnEffectOf, ChangesContext, Classify, NamesRead, Asked, MovesAutocommit, TurnsOn, ServerMay,
      ViewAfter;
    if MovesUnseen(v, e) && !s.failed {
      t := MovedUnseen(v, e, s);
    } else {
      var n :| n in s.held && n != s.names;
      t := TakenBack(v, e, s, n);
    }
  }

  lemma MovedUnseen(v: View, e: Event, s: Server) returns (t: Server)
    requires Coherent(v, s) && Sound(v.kind, s) && Believes(v) && MovesUnseen(v, e) && !s.failed
    ensures ServerMay(v, e, s, t) && !Coherent(ViewAfter(v, e), t)
  {
    hide StatementWord, TxnEffectOf, ChangesContext, Classify, MovesAutocommit, TurnsOn;
    MovingAlone(e.sql, v.kind);
    var n := Other("x");
    assert n != s.names;
    var inTxn := s.inTxn && !(v.kind == Mysql && IsDdl(e.sql, v.kind));
    t := Server(inTxn, false, s.autocommit, s.userState, n, if inTxn then s.held + {s.names, n} else {});
    assert Succeeds(v.kind, e.sql, s, t);
  }

  lemma TakenBack(v: View, e: Event, s: Server, n: Names) returns (t: Server)
    requires Coherent(v, s) && Sound(v.kind, s) && Believes(v) && TakesBack(v, e, s) && n in s.held && n != s.names
    ensures ServerMay(v, e, s, t) && !Coherent(ViewAfter(v, e), t)
  {
    hide StatementWord, TxnEffectOf, ChangesContext, Classify, NamesRead, Asked, MovesAutocommit, TurnsOn;
    if e.fate != Failed && Rewinds(e.sql, v.kind, s) {
      RewindsEnds(e.sql, v.kind, s);
      EndsAlone(e.sql, v.kind);
      WordsSee(v, e.sql);
      var inTxn := !EndsTxn(e.sql, v.kind);
      t := Server(inTxn, false, s.autocommit, s.userState, n, if inTxn then s.held + {s.names, n} else {});
      assert Succeeds(v.kind, e.sql, s, t);
    } else {
      t := Server(false, false, s.autocommit, s.userState, n, {});
      assert Fails(v.kind, e.sql, s, t);
    }
  }

  // ------------------------------ whole runs ----------------------------

  /** Along a run no names are taken back, and none moved unseen, under a belief. */
  predicate NoneTakenBack(v: View, events: seq<Event>, servers: seq<Server>)
    requires |servers| == |events| + 1
    decreases |events|
  {
    events != [] ==>
      && (TakesBack(v, events[0], servers[0]) && Believes(v) ==> servers[1].names == servers[0].names)
      && (MovesUnseen(v, events[0]) && Believes(v) ==> servers[1].names == servers[0].names)
      && NoneTakenBack(ViewAfter(v, events[0]), events[1..], servers[1..])
  }

  /** The cached context is coherent over every run in which no context switch is rolled back. */
  lemma {:induction false} CacheIsCoherent(v: View, events: seq<Event>, servers: seq<Server>)
    requires Plays(v, events, servers) && Coherent(v, servers[0]) && NoneTakenBack(v, events, servers)
    ensures Coherent(ViewsAfter(v, events), servers[|events|])
    decreases |events|
  {
    hide ServerMay, ViewAfter, Coherent, TakesBack, MovesUnseen;
    if events != [] {
      StepStaysCoherent(v, events[0], servers[0], servers[1]);
      CacheIsCoherent(ViewAfter(v, events[0]), events[1..], servers[1..]);
    }
  }

  // ------------------------------ from the helper's side ----------------
  // What is rolled back can be told from what the helper sends and hears.

  /** What a PostgreSQL transaction has come to: whether names may have moved in it, and whether a statement in it
      may have failed. */
  datatype Trail = Trail(moved: bool, failed: bool)

  const CALM := Trail(false, false)

  function TrailAfter(v: View, tr: Trail, e: Event): Trail {
    if !ViewAfter(v, e).inTransaction then CALM
    else
      match e
      case Apply(ctx, force, server) => (
        if !Sends(v, ctx, force) then tr
        else match server case Fine => tr.(moved := true) case Fault => tr.(failed := true) case Gone => tr)
      case Stmt(sql, fate) =>
        var moves := fate != Failed && (SetsState(sql, v.kind) || IsDdl(sql, v.kind));
        if fate == Done && RollsBackTo(sql, v.kind) then tr.(failed := false)
        else Trail(tr.moved || moves, tr.failed || fate != Done)
  }

  /** A PostgreSQL transaction in which names may have moved is not rolled back, not ended after a failure, and
      its end neither fails nor is abandoned; and no abandoned statement moves names, or opens a transaction the
      session does not know of. */
  predicate Keeps(v: View, tr: Trail, e: Event) {
    e.Stmt? ==>
      && (v.kind == Postgres && Believes(v) && v.inTransaction && tr.moved ==>
        && (e.fate != Failed ==>
          StatementWord(e.sql, v.kind, 0) != "ROLLBACK" && !(tr.failed && EndsTxn(e.sql, v.kind)))
        && (e.fate != Done ==> !EndsTxn(e.sql, v.kind)))
      && (Believes(v) ==> !MovesUnseen(v, e))
      && (v.kind == Postgres && e.fate == Abandoned && OpensTxn(e.sql, v.kind) ==> v.inTransaction)
  }

  predicate KeepsAll(v: View, tr: Trail, events: seq<Event>)
    decreases |events|
  {
    events != [] ==>
      Keeps(v, tr, events[0]) && KeepsAll(ViewAfter(v, events[0]), TrailAfter(v, tr, events[0]), events[1..])
  }

  /** The trail is on the safe side of what the server went through. */
  predicate Traced(v: View, tr: Trail, s: Server) {
    && Sound(v.kind, s)
    && (v.kind == Postgres ==>
      && s.autocommit && (s.inTxn ==> v.inTransaction) && (s.failed ==> tr.failed)
      && (s.inTxn && !tr.moved ==> s.held <= {s.names}))
  }

  lemma StepStaysTraced(v: View, tr: Trail, e: Event, s: Server, t: Server)
    requires Traced(v, tr, s) && Keeps(v, tr, e) && ServerMay(v, e, s, t)
    ensures Traced(ViewAfter(v, e), TrailAfter(v, tr, e), t)
  {
    hide Classify, StatementWord, TxnEffectOf, ChangesContext, ContextSql, NamesRead, Asked;
    StepStaysSound(v, e, s, t);
    if e.Stmt? && v.kind == Postgres {
      WordsSee(v, e.sql);
      if EndsTxn(e.sql, v.kind) || RollsBackTo(e.sql, v.kind) { EndsAlone(e.sql, v.kind); }
      if Rewinds(e.sql, v.kind, s) { RewindsEnds(e.sql, v.kind, s); EndsAlone(e.sql, v.kind); }
      if OpensTxn(e.sql, v.kind) { OpensAlone(e.sql, v.kind); }
    }
  }

  lemma KeptIsNotTakenBack(v: View, tr: Trail, e: Event, s: Server, t: Server)
    requires Traced(v, tr, s) && Keeps(v, tr, e) && ServerMay(v, e, s, t) && Believes(v)
    ensures TakesBack(v, e, s) ==> t.names == s.names
    ensures !MovesUnseen(v, e)
  {
    hide StatementWord, Classify, NamesRead, Asked;
    if TakesBack(v, e, s) {
      if Rewinds(e.sql, v.kind, s) { RewindsEnds(e.sql, v.kind, s); }
      EndsAlone(e.sql, v.kind);
    }
  }

  /** On MySQL and SQLite, and on PostgreSQL whenever transactions that switch contexts are committed cleanly,
      the server resolves names as the cached context asks. */
  lemma {:induction false} CommittedSwitchesStay(v: View, tr: Trail, events: seq<Event>, servers: seq<Server>)
    requires Plays(v, events, servers) && KeepsAll(v, tr, events)
    requires Traced(v, tr, servers[0]) && Coherent(v, servers[0])
    ensures NoneTakenBack(v, events, servers)
    ensures Coherent(ViewsAfter(v, events), servers[|events|])
    decreases |events|
  {
    hide ServerMay, ViewAfter, TrailAfter, Keeps, Coherent, Traced, TakesBack, MovesUnseen, Believes;
    if events != [] {
      var e, s, t := events[0], servers[0], servers[1];
      StepStaysTraced(v, tr, e, s, t);
      if Believes(v) { KeptIsNotTakenBack(v, tr, e, s, t); }
      StepStaysCoherent(v, e, s, t);
      CommittedSwitchesStay(ViewAfter(v, e), TrailAfter(v, tr, e), events[1..], servers[1..]);
    }
  }

  /** A session just opened may start such a run, whatever names an earlier batch left on the connection. */
  lemma OpenedIsTraced(kind: Kind, sticky: bool, names: Names)
    ensures var v, s := Opened(kind, sticky), Server(false, false, true, false, names, {});
      Traced(v, CALM, s) && Coherent(v, s)
  {
  }

  // ------------------------------ what goes wrong -----------------------

  function SwitchedInside(): seq<Event> {
    [Apply(Context(None, Some("a")), false, Fine), Stmt("BEGIN", Done),
     Apply(Context(None, Some("b")), false, Fine), Stmt("ROLLBACK", Done)]
  }

  /** A schema that is not applied yet is sent and taken. */
  lemma SchemaMoves(v: View, name: string, s: Server, t: Server)
    requires v.kind == Postgres && (name == "a" || name == "b") && v.applied != Some(Context(None, Some(name)))
    requires t == s.(names := In(name), held := if s.inTxn then s.held + {s.names, In(name)} else {}) && !s.failed
    ensures var e := Apply(Context(None, Some(name)), false, Fine);
      ServerMay(v, e, s, t) && ViewAfter(v, e) == v.(applied := Some(Context(None, Some(name))))
  {
    hide ContextSql, NamesRead;
    SentIsAsked(Postgres, Context(None, Some(name)), false);
    SendsSchema(name);
  }

  lemma BeginMoves(v: View, s: Server, t: Server)
    requires v.kind == Postgres && t == s.(inTxn := true, held := {s.names}) && !s.inTxn && !s.failed
    ensures ServerMay(v, Stmt("BEGIN", Done), s, t) && ViewAfter(v, Stmt("BEGIN", Done)).applied == v.applied
    ensures ViewAfter(v, Stmt("BEGIN", Done)).kind == Postgres
  {
    hide StatementWord, TurnsOn, BareSql, WordsOf, TxnEffectOf, Classify, ChangesContext;
    KeywordAlone("BEGIN");
    OpensAlone("BEGIN", Postgres);
    WordsSee(v, "BEGIN");
  }

  lemma RollbackMoves(v: View, s: Server, t: Server)
    requires v.kind == Postgres && s.inTxn && t == s.(inTxn := false, failed := false, names := t.names, held := {})
    requires t.names in s.held
    ensures ServerMay(v, Stmt("ROLLBACK", Done), s, t) && ViewAfter(v, Stmt("ROLLBACK", Done)).applied == v.applied
    ensures ViewAfter(v, Stmt("ROLLBACK", Done)).kind == Postgres
  {
    hide StatementWord, TurnsOn, BareSql, WordsOf, TxnEffectOf, Classify, ChangesContext;
    KeywordAlone("ROLLBACK");
    EndsAlone("ROLLBACK", Postgres);
    WordsSee(v, "ROLLBACK");
  }

  /** A context switched inside a PostgreSQL transaction that is then rolled back: the session goes on
      believing in schema b, the server is back at schema a. */
  lemma RollbackUndoesSwitch() returns (servers: seq<Server>)
    ensures Plays(Opened(Postgres, true), SwitchedInside(), servers)
    ensures Traced(Opened(Postgres, true), CALM, servers[0])
    ensures !Coherent(ViewsAfter(Opened(Postgres, true), SwitchedInside()), servers[4])
  {
    hide ServerMay, ViewAfter;
    var v0 := Opened(Postgres, true);
    var events := SwitchedInside();
    var s0 := Server(false, false, true, false, Default, {});
    var s1 := s0.(names := In("a"));
    var s2 := s1.(inTxn := true, held := {In("a")});
    var s3 := s2.(names := In("b"), held := {In("a")} + {In("a"), In("b")});
    servers := [s0, s1, s2, s3, s1];
    SchemaMoves(v0, "a", s0, s1);
    var v1 := ViewAfter(v0, events[0]);
    BeginMoves(v1, s1, s2);
    var v2 := ViewAfter(v1, events[1]);
    assert "a" != "b" by { assert "a"[0] != "b"[0]; }
    SchemaMoves(v2, "b", s2, s3);
    var v3 := ViewAfter(v2, events[2]);
    RollbackMoves(v3, s3, s1);
    PlaysFour(v0, events, servers);
  }

  lemma PlaysFour(v: View, es: seq<Event>, ss: seq<Server>)
    requires |es| == 4 && |ss| == 5
    requires var v1 := ViewAfter(v, es[0]);
      var v2 := ViewAfter(v1, es[1]);
      var v3 := ViewAfter(v2, es[2]);
      && ServerMay(v, es[0], ss[0], ss[1]) && ServerMay(v1, es[1], ss[1], ss[2])
      && ServerMay(v2, es[2], ss[2], ss[3]) && ServerMay(v3, es[3], ss[3], ss[4])
    ensures Plays(v, es, ss)
    ensures ViewsAfter(v, es) == ViewAfter(ViewAfter(ViewAfter(ViewAfter(v, es[0]), es[1]), es[2]), es[3])
  {
    hide ServerMay, ViewAfter;
    var v1 := ViewAfter(v, es[0]);
    var v2 := ViewAfter(v1, es[1]);
    var v3 := ViewAfter(v2, es[2]);
    var e1, e2, e3, s1, s2, s3 := es[1..], es[2..], es[3..], ss[1..], ss[2..], ss[3..];
    assert e1[1..] == e2 && e2[1..] == e3 && e3[1..] == [] && s1[1..] == s2 && s2[1..] == s3;
    assert Plays(v3, e3, s3) && ViewsAfter(v3, e3) == ViewAfter(v3, es[3]);
    assert Plays(v2, e2, s2) && ViewsAfter(v2, e2) == ViewsAfter(v3, e3);
    assert Plays(v1, e1, s1) && ViewsAfter(v1, e1) == ViewsAfter(v2, e2);
  }

  lemma SendsSchema(s: string)
    requires s == "a" || s == "b"
    ensures ContextSql(Postgres, Context(None, Some(s)), false).Send?
  {
  }

  const USES_B := [Apply(Context(Some("a"), None), false, Fine), Stmt("USE" + " B", Abandoned)]

  /** A `USE` that was given up on and ran all the same: the session goes on believing in database a. */
  lemma AbandonedUseIsMissed() returns (servers: seq<Server>)
    ensures Plays(Opened(Mysql, true), USES_B, servers) && Clean(servers[0])
    ensures !Coherent(ViewsAfter(Opened(Mysql, true), USES_B), servers[2])
  {
    hide ServerMay, ViewAfter;
    var v0 := Opened(Mysql, true);
    var s0 := Server(false, false, true, false, Default, {});
    var s1 := s0.(names := In("a"));
    var s2 := s1.(names := In("B"), userState := true);
    servers := [s0, s1, s2];
    UseMoves(v0, s0, s1, s2);
    var v1 := ViewAfter(v0, USES_B[0]);
    var rest, last := USES_B[1..], servers[1..];
    assert rest == [USES_B[1]] && last == [s1, s2] && rest[1..] == [] && last[1..] == [s2];
    assert Plays(ViewAfter(v1, USES_B[1]), [], [s2]);
    assert Plays(v1, rest, last);
    assert ViewsAfter(v1, rest) == ViewsAfter(ViewAfter(v1, USES_B[1]), []);
  }

  lemma UseMoves(v: View, s0: Server, s1: Server, s2: Server)
    requires v == Opened(Mysql, true) && s0 == Server(false, false, true, false, Default, {})
    requires s1 == s0.(names := In("a")) && s2 == s1.(names := In("B"), userState := true)
    ensures ServerMay(v, USES_B[0], s0, s1) && ViewAfter(v, USES_B[0]) == v.(applied := Some(Context(Some("a"), None)))
    ensures var v1 := ViewAfter(v, USES_B[0]);
      && ServerMay(v1, USES_B[1], s1, s2) && ViewAfter(v1, USES_B[1]) == v1 && !Coherent(v1, s2)
  {
    hide StatementWord, BareSql, WordsOf, Classify, MovesAutocommit, TurnsOn, ContextSql, NamesRead;
    SentIsAsked(Mysql, Context(Some("a"), None), false);
    SendsDatabase();
    StartsWith("USE", " B", Mysql);
    SetsAlone("USE" + " B", Mysql);
    assert In("a") != In("B") by { assert "a"[0] != "B"[0]; }
  }

  lemma SendsDatabase()
    ensures ContextSql(Mysql, Context(Some("a"), None), false).Send?
  {
  }
}
