/** One pinned connection: what the helper remembers of it, what the server does with it, and when the
    two agree (`session.rs`). */
module Session {
  import opened Text
  import opened Lexer
  import opened Words
  import opened Analysis
  import Ident
  import opened ContextText
  import Quoting

  /** The context a batch asks for. */
  datatype Context = Context(database: Option<string>, schema: Option<string>)

  /** What a session remembers. */
  datatype View = View(kind: Kind, inTransaction: bool, dirty: bool, applied: Option<Context>, closeOnDrop: bool)

  /** `Session::open`. */
  function Opened(kind: Kind, sticky: bool): View { View(kind, false, false, None, sticky) }

  /** `observe`: how the session changes once a statement has run to its end. */
  function Observed(v: View, sql: string): View {
    var effect := TxnEffectOf(sql, v.kind);
    var inTransaction := match effect case Some(Begin) => true case Some(End) => false case None => v.inTransaction;
    var dirty := v.dirty || ChangesContext(sql, v.kind);
    var stale := ChangesContext(sql, v.kind) || Classify(sql, v.kind) == Ddl;
    View(v.kind, inTransaction, dirty, if stale then None else v.applied, v.closeOnDrop || inTransaction || dirty)
  }

  /** What `apply_context` sends. */
  datatype Ask = Nothing | Send(sql: string) | Refused

  function NonEmpty(s: Option<string>): Option<string> { if s == Some("") then None else s }

  function ContextSql(kind: Kind, ctx: Context, force: bool): Ask {
    match kind
    case Mysql => (
      match NonEmpty(ctx.database)
      case None => Nothing
      case Some(db) =>
        match Ident.EscapeQuotedIdent(db, '`')
        case None => Refused
        case Some(q) => Send("USE " + q))
    case Postgres => (
      match NonEmpty(ctx.schema)
      case None => Send("SET search_path TO DEFAULT")
      case Some(s) =>
        match Ident.EscapeQuotedIdent(s, '"')
        case None => Refused
        case Some(q) => Send("SET search_path TO " + q + ", public"))
    case Sqlite => if force then Send("SELECT 1") else Nothing
  }

  /** How a step ends: well, with an error of the statement, or with the connection gone. */
  datatype Reply = Fine | Fault | Gone

  predicate Settled(v: View, ctx: Context, force: bool) { !force && v.applied == Some(ctx) }

  function ApplyReply(v: View, ctx: Context, force: bool, server: Reply): Reply {
    if Settled(v, ctx, force) then Fine
    else match ContextSql(v.kind, ctx, force)
      case Nothing => Fine
      case Refused => Fault
      case Send(_) => server
  }

  function Applied(v: View, ctx: Context, force: bool, server: Reply): View {
    if ApplyReply(v, ctx, force, server) == Fine then v.(applied := Some(ctx)) else v
  }

  /** The session itself. Replies of the server come in as parameters. */
  class Session {
    const kind: Kind
    const poolDatabase: Option<string>
    var inTransaction: bool
    var dirty: bool
    var applied: Option<Context>
    var closeOnDrop: bool

    function Sees(): View
      reads this
    {
      View(kind, inTransaction, dirty, applied, closeOnDrop)
    }

    constructor (kind: Kind, poolDatabase: Option<string>, sticky: bool)
      ensures Sees() == Opened(kind, sticky) && this.poolDatabase == poolDatabase && this.kind == kind
    {
      this.kind, this.poolDatabase := kind, poolDatabase;
      inTransaction, dirty, applied := false, false, None;
      closeOnDrop := sticky;
    }

    method ApplyContext(ctx: Context, force: bool, server: Reply) returns (r: Reply)
      modifies this
      ensures r == ApplyReply(old(Sees()), ctx, force, server)
      ensures Sees() == Applied(old(Sees()), ctx, force, server)
    {
      if !force && applied == Some(ctx) {
        return Fine;
      }
      match ContextSql(kind, ctx, force) {
        case Nothing =>
        case Refused => return Fault;
        case Send(_) =>
          if server != Fine {
            return server;
          }
      }
      applied := Some(ctx);
      return Fine;
    }

    method Observe(sql: string)
      modifies this
      ensures Sees() == Observed(old(Sees()), sql)
    {
      var effect := TxnEffectOf(sql, kind);
      if effect == Some(Begin) {
        inTransaction := true;
      } else if effect == Some(End) {
        inTransaction := false;
      }
      if ChangesContext(sql, kind) || Classify(sql, kind) == Ddl {
        applied := None;
      }
      if ChangesContext(sql, kind) {
        applied := None;
        dirty := true;
      }
      if inTransaction || dirty {
        closeOnDrop := true;
      }
    }
  }

  // ------------------------------ the server ----------------------------

  /** What the server resolves unqualified names against: its default, one named database or schema
      (on PostgreSQL followed by `public`), or whatever the user set. */
  datatype Names = Default | In(name: string) | Other(text: string)

  /** One connection as the server sees it. `failed` is a PostgreSQL transaction in which a statement has failed.
      `held` are the names in force at some time since the open transaction began: a PostgreSQL rollback may
      restore any of them. */
  datatype Server = Server(inTxn: bool, failed: bool, autocommit: bool, userState: bool, names: Names, held: set<Names>)

  /** Nothing on it that a next user of the connection could trip over. */
  predicate Clean(s: Server) { !s.inTxn && s.autocommit && !s.userState }

  function StatementWord(sql: string, kind: Kind, i: nat): string { WordOr(LeadingWords(BareSql(sql, kind), 4), i) }

  predicate OpensTxn(sql: string, kind: Kind) {
    || StatementWord(sql, kind, 0) == "BEGIN"
    || (StatementWord(sql, kind, 0) == "START" && StatementWord(sql, kind, 1) == "TRANSACTION")
  }

  predicate EndsTxn(sql: string, kind: Kind) {
    || StatementWord(sql, kind, 0) == "COMMIT" || StatementWord(sql, kind, 0) == "END"
    || (StatementWord(sql, kind, 0) == "ROLLBACK" && StatementWord(sql, kind, 1) != "TO")
  }

  /** A rollback to a savepoint stays in the transaction. */
  predicate RollsBackTo(sql: string, kind: Kind) {
    StatementWord(sql, kind, 0) == "ROLLBACK" && StatementWord(sql, kind, 1) == "TO"
  }

  predicate SetsState(sql: string, kind: Kind) {
    StatementWord(sql, kind, 0) == "SET" || StatementWord(sql, kind, 0) == "USE"
  }

  predicate IsDdl(sql: string, kind: Kind) { Classify(sql, kind) == Ddl }

  /** A MySQL `SET` that names autocommit, wherever. */
  predicate MovesAutocommit(sql: string, kind: Kind) {
    && kind == Mysql && StatementWord(sql, kind, 0) == "SET"
    && "AUTOCOMMIT" in UppercaseAll(WordsOf(Unicode, BareSql(sql, kind)))
  }

  predicate OneAssignment(bare: string) {
    && ',' !in bare
    && forall i, j :: 0 <= i < j < |bare| ==> !(bare[i] == '=' && bare[j] == '=')
  }

  /** A MySQL `SET` of one thing that turns autocommit on and never off. */
  predicate TurnsOn(sql: string, kind: Kind) {
    && MovesAutocommit(sql, kind)
    && var bare := BareSql(sql, kind);
      && OneAssignment(bare)
      && (AssignsLast(bare, "1") || AssignsLast(bare, "ON") || AssignsLast(bare, "TRUE"))
  }

  /** What takes back names set since the transaction began: a PostgreSQL rollback, and the end of a PostgreSQL
      transaction that has failed. */
  predicate Rewinds(sql: string, kind: Kind, s: Server) {
    kind == Postgres && (StatementWord(sql, kind, 0) == "ROLLBACK" || (s.failed && EndsTxn(sql, kind)))
  }

  /** What holds of any connection. */
  predicate Sound(kind: Kind, s: Server) {
    && (if s.inTxn then s.names in s.held else s.held == {})
    && (s.failed ==> s.inTxn && kind == Postgres)
  }

  /** Whatever moves the names, a transaction remembers them. */
  predicate Holds(s: Server, t: Server) {
    && t.held == (if t.inTxn then (if s.inTxn then s.held else {}) + {s.names, t.names} else {})
    && (t.failed ==> t.inTxn)
  }

  /** What the server may do on a statement it runs. A `SET` may set anything; MySQL commits on DDL, and
      when autocommit, being off, is turned on; in a failed transaction only its end and a rollback to a savepoint go
      through. */
  predicate Succeeds(kind: Kind, sql: string, s: Server, t: Server) {
    && Holds(s, t) && !t.failed
    && (s.failed ==> EndsTxn(sql, kind) || RollsBackTo(sql, kind))
    && (t.userState ==> s.userState || SetsState(sql, kind))
    && (t.autocommit != s.autocommit ==> MovesAutocommit(sql, kind) && (TurnsOn(sql, kind) ==> t.autocommit))
    && (t.names != s.names ==>
      SetsState(sql, kind) || IsDdl(sql, kind) || (Rewinds(sql, kind, s) && t.names in s.held))
    && (if OpensTxn(sql, kind) then t.inTxn
        else if EndsTxn(sql, kind) then !t.inTxn
        else if kind == Mysql && IsDdl(sql, kind) then !t.inTxn
        else if TurnsOn(sql, kind) then if s.autocommit then t.inTxn == s.inTxn else !(t.autocommit && t.inTxn)
        else if kind == Mysql && SetsState(sql, kind) then t.inTxn ==> s.inTxn || !s.autocommit
        else (s.inTxn ==> t.inTxn) && (t.inTxn ==> s.inTxn || !s.autocommit))
  }

  /** A statement that fails can only end a transaction, or begin one where autocommit is off. On PostgreSQL it
      leaves the transaction failed, unless it was to end it: a commit that fails rolls back. */
  predicate Fails(kind: Kind, sql: string, s: Server, t: Server) {
    && Holds(s, t) && t.userState == s.userState && t.autocommit == s.autocommit
    && (t.inTxn ==> s.inTxn || !s.autocommit)
    && t.failed == (kind == Postgres && s.inTxn && t.inTxn)
    && (kind == Postgres && s.inTxn && !t.inTxn ==> EndsTxn(sql, kind))
    && (t.names != s.names ==> kind == Postgres && s.inTxn && !t.inTxn && t.names in s.held)
  }

  /** What a statement of the helper, read as the server reads it, makes of the names. */
  function NamesRead(kind: Kind, sql: string): Option<Names> {
    match ReadTarget(kind, sql)
    case None => None
    case Some(ToDefault) => Some(Default)
    case Some(ToName(name)) => Some(In(name))
  }

  /** The server runs the statement that sets a context. */
  predicate TakesContext(kind: Kind, sql: string, s: Server, t: Server) {
    && Holds(s, t) && t.inTxn == s.inTxn && t.userState == s.userState && t.autocommit == s.autocommit
    && !s.failed && !t.failed
    && t.names == match NamesRead(kind, sql) case None => s.names case Some(n) => n
  }

  /** The names a context asks for, if it asks for any. */
  function Asked(kind: Kind, ctx: Context): Option<Names> {
    match kind
    case Mysql => (match NonEmpty(ctx.database) case None => None case Some(db) => Some(In(db)))
    case Postgres => (match NonEmpty(ctx.schema) case None => Some(Default) case Some(s) => Some(In(s)))
    case Sqlite => None
  }

  /** What is sent for a context reads as what the context asks for; nothing is sent when it asks for nothing, unless
      the connection is probed on SQLite; and a context is refused exactly when the name
      it asks for cannot be quoted. */
  lemma SentIsAsked(kind: Kind, ctx: Context, force: bool)
    ensures var ask := ContextSql(kind, ctx, force);
      && (ask.Send? ==> NamesRead(kind, ask.sql) == Asked(kind, ctx))
      && (ask.Nothing? <==> Asked(kind, ctx).None? && !(kind == Sqlite && force))
      && (ask.Refused? <==>
        match Asked(kind, ctx)
        case Some(In(name)) => name == [] || '\0' in name || '\n' in name || '\r' in name
        case _ => false)
  {
    hide Quoting.Quoted, ReadTarget;
    match kind
    case Mysql =>
      if NonEmpty(ctx.database).Some? { UseIsRead(NonEmpty(ctx.database).value); }
    case Postgres =>
      DefaultIsRead();
      if NonEmpty(ctx.schema).Some? { PathIsRead(NonEmpty(ctx.schema).value); }
    case Sqlite => NoTarget(if force then "SELECT 1" else "");
  }

  /** A context asks for its database on MySQL and for its schema on PostgreSQL, an empty name being none: the server's
      default on PostgreSQL, and nothing on MySQL. On SQLite it asks for nothing. */
  lemma AskedIs(kind: Kind, ctx: Context)
    ensures
      var noDatabase := ctx.database.None? || ctx.database == Some("");
      var noSchema := ctx.schema.None? || ctx.schema == Some("");
      Asked(kind, ctx) == match kind
        case Mysql => if noDatabase then None else Some(In(ctx.database.value))
        case Postgres => Some(if noSchema then Default else In(ctx.schema.value))
        case Sqlite => None
  {
  }

  lemma NoTarget(sql: string)
    ensures ReadTarget(Sqlite, sql) == None
  {
  }

  // ------------------------------ steps ---------------------------------

  datatype Fate = Done | Failed | Abandoned

  datatype Event = Apply(ctx: Context, force: bool, server: Reply) | Stmt(sql: string, fate: Fate)

  function ViewAfter(v: View, e: Event): View {
    match e
    case Apply(ctx, force, server) => Applied(v, ctx, force, server)
    case Stmt(sql, fate) => if fate == Done then Observed(v, sql) else v
  }

  /** A context that goes out to the server. */
  predicate Sends(v: View, ctx: Context, force: bool) {
    !Settled(v, ctx, force) && ContextSql(v.kind, ctx, force).Send?
  }

  predicate ServerMay(v: View, e: Event, s: Server, t: Server) {
    match e
    case Apply(ctx, force, server) => (
      if !Sends(v, ctx, force) then t == s
      else
        match server
        case Fine => TakesContext(v.kind, ContextSql(v.kind, ctx, force).sql, s, t)
        case Fault => t == s.(failed := v.kind == Postgres && s.inTxn)
        case Gone => t == s)
    case Stmt(sql, Done) => Succeeds(v.kind, sql, s, t)
    case Stmt(sql, Failed) => Fails(v.kind, sql, s, t)
    // Nobody waits for it: it may fail, or succeed in its own time.
    case Stmt(sql, Abandoned) => Fails(v.kind, sql, s, t) || Succeeds(v.kind, sql, s, t)
  }

  lemma StepStaysSound(v: View, e: Event, s: Server, t: Server)
    requires Sound(v.kind, s) && ServerMay(v, e, s, t)
    ensures Sound(v.kind, t)
  {
    hide StatementWord, TxnEffectOf, ChangesContext, Classify, ContextSql, NamesRead;
  }

  function ViewsAfter(v: View, events: seq<Event>): View
    decreases |events|
  {
    if events == [] then v else ViewsAfter(ViewAfter(v, events[0]), events[1..])
  }

  /** `servers` are states the server may go through on `events`. */
  predicate Plays(v: View, events: seq<Event>, servers: seq<Server>)
    decreases |events|
  {
    && |servers| == |events| + 1
    && (events != [] ==>
      ServerMay(v, events[0], servers[0], servers[1]) && Plays(ViewAfter(v, events[0]), events[1..], servers[1..]))
  }

  // ------------------------------ hygiene -------------------------------

  /** Anything untoward on the connection has marked it for closing. */
  predicate Guarded(v: View, s: Server) { !Clean(s) ==> v.closeOnDrop }

  lemma WordsSee(v: View, sql: string)
    ensures OpensTxn(sql, v.kind) ==> TxnEffectOf(sql, v.kind) == Some(Begin)
    ensures EndsTxn(sql, v.kind) ==> TxnEffectOf(sql, v.kind) == Some(End)
    ensures SetsState(sql, v.kind) <==> ChangesContext(sql, v.kind)
    ensures TxnEffectOf(sql, v.kind) == Some(Begin) ==> OpensTxn(sql, v.kind) || MovesAutocommit(sql, v.kind)
    ensures TxnEffectOf(sql, v.kind) == Some(End) ==>
      EndsTxn(sql, v.kind) || MovesAutocommit(sql, v.kind) || (v.kind == Mysql && IsDdl(sql, v.kind))
    ensures TurnsOn(sql, v.kind) ==> MovesAutocommit(sql, v.kind) && SetsState(sql, v.kind) && v.kind == Mysql
  {
    hide WordsOf, AssignsLast;
    var bare := BareSql(sql, v.kind);
    FirstOfFour(bare);
    var ws, four := UppercaseAll(WordsOf(Unicode, bare)), LeadingWords(bare, 4);
    assert forall i :: 0 <= i < |four| ==> four[i] == ws[i];
  }

  lemma FirstOfFour(bare: string)
    ensures WordOr(LeadingWords(bare, 1), 0) == WordOr(LeadingWords(bare, 4), 0)
  {
    hide WordsOf;
  }

  /** A statement nobody waited for does no harm when the connection is marked for closing, or when it neither
      opens a transaction nor sets anything. */
  predicate Harmless(v: View, e: Event) {
    e.Stmt? && e.fate == Abandoned ==> v.closeOnDrop || !(OpensTxn(e.sql, v.kind) || SetsState(e.sql, v.kind))
  }

  lemma StepStaysGuarded(v: View, e: Event, s: Server, t: Server)
    requires Guarded(v, s) && ServerMay(v, e, s, t) && Harmless(v, e)
    ensures Guarded(ViewAfter(v, e), t)
  {
    hide StatementWord, TxnEffectOf, ChangesContext, Classify, ContextSql, NamesRead;
    if e.Stmt? {
      WordsSee(v, e.sql);
      AutocommitIsSet(e.sql, v.kind);
    }
  }

  lemma AutocommitIsSet(sql: string, kind: Kind)
    ensures MovesAutocommit(sql, kind) ==> SetsState(sql, kind)
  {
    hide WordsOf, BareSql;
  }

  /** Exactly which abandoned statements a pool can survive, whatever the server makes of them. */
  lemma AbandonedExact(v: View, sql: string, s: Server)
    requires Guarded(v, s) && Sound(v.kind, s)
    ensures (forall t :: ServerMay(v, Stmt(sql, Abandoned), s, t) ==> Guarded(v, t))
      <==> Harmless(v, Stmt(sql, Abandoned))
  {
    hide StatementWord, Classify, MovesAutocommit, TurnsOn;
    var e := Stmt(sql, Abandoned);
    if Harmless(v, e) {
      forall t | ServerMay(v, e, s, t) ensures Guarded(v, t) { StepStaysGuarded(v, e, s, t); }
    } else if OpensTxn(sql, v.kind) {
      OpensAlone(sql, v.kind);
      var t := s.(inTxn := true, held := {s.names});
      assert ServerMay(v, e, s, t) && !Guarded(v, t);
    } else {
      SetsAlone(sql, v.kind);
      var t := s.(userState := true);
      assert ServerMay(v, e, s, t) && !Guarded(v, t);
    }
  }

  /** A statement has one first word. */
  lemma OpensAlone(sql: string, kind: Kind)
    requires OpensTxn(sql, kind)
    ensures !EndsTxn(sql, kind) && !RollsBackTo(sql, kind) && !SetsState(sql, kind) && !IsDdl(sql, kind)
  {
    hide WordsOf, BareSql;
    FirstOfFour(BareSql(sql, kind));
  }

  lemma SetsAlone(sql: string, kind: Kind)
    requires SetsState(sql, kind)
    ensures !EndsTxn(sql, kind) && !RollsBackTo(sql, kind) && !OpensTxn(sql, kind) && !IsDdl(sql, kind)
  {
    hide WordsOf, BareSql;
    FirstOfFour(BareSql(sql, kind));
  }

  predicate HarmlessRun(v: View, events: seq<Event>)
    decreases |events|
  {
    events != [] ==> Harmless(v, events[0]) && HarmlessRun(ViewAfter(v, events[0]), events[1..])
  }

  /** Pool hygiene: over every run of a session from a clean pool connection, unless a statement was abandoned
      that opens a transaction or sets something, a connection that is not marked for closing goes back clean,
      whatever the statements were: no transaction, no `autocommit = 0`, no state a user set. */
  lemma {:induction false} PoolStaysClean(v: View, events: seq<Event>, servers: seq<Server>)
    requires Plays(v, events, servers) && HarmlessRun(v, events) && Guarded(v, servers[0])
    ensures !ViewsAfter(v, events).closeOnDrop ==> Clean(servers[|events|])
    decreases |events|
  {
    hide ServerMay, ViewAfter, Harmless;
    if events != [] {
      StepStaysGuarded(v, events[0], servers[0], servers[1]);
      PoolStaysClean(ViewAfter(v, events[0]), events[1..], servers[1..]);
    }
  }

  /** The mark is never taken back. */
  lemma {:induction false} MarkStays(v: View, events: seq<Event>)
    requires v.closeOnDrop
    ensures ViewsAfter(v, events).closeOnDrop
    decreases |events|
  {
    hide TxnEffectOf, ChangesContext, Classify, ContextSql, NamesRead;
    if events != [] {
      MarkStays(ViewAfter(v, events[0]), events[1..]);
    }
  }

  predicate Marking(e: Event, kind: Kind) {
    e.Stmt? && e.fate == Done && (OpensTxn(e.sql, kind) || SetsState(e.sql, kind))
  }

  /** A one-off session is marked for closing exactly when a statement has run to its end on it that opens a
      transaction or sets something: any other goes back to the pool. */
  lemma MarkedIff(kind: Kind, events: seq<Event>)
    ensures ViewsAfter(Opened(kind, false), events).closeOnDrop <==> exists e | e in events :: Marking(e, kind)
  {
    hide Marking, ViewsAfter;
    MarkedFrom(Opened(kind, false), events);
  }

  lemma {:induction false} MarkedFrom(v: View, events: seq<Event>)
    requires !v.closeOnDrop && !v.inTransaction && !v.dirty
    ensures ViewsAfter(v, events).closeOnDrop <==> exists e | e in events :: Marking(e, v.kind)
    decreases |events|
  {
    hide Marking, ViewAfter;
    if events != [] {
      var e, rest := events[0], events[1..];
      assert e in events && (forall x | x in rest :: x in events) && forall x | x in events :: x == e || x in rest;
      MarksOne(v, e);
      if Marking(e, v.kind) { MarkStays(ViewAfter(v, e), rest); } else { MarkedFrom(ViewAfter(v, e), rest); }
    }
  }

  lemma MarksOne(v: View, e: Event)
    requires !v.closeOnDrop && !v.inTransaction && !v.dirty
    ensures var w := ViewAfter(v, e);
      && w.kind == v.kind
      && (w.closeOnDrop <==> Marking(e, v.kind))
      && (!Marking(e, v.kind) ==> !w.inTransaction && !w.dirty)
  {
    hide StatementWord, TxnEffectOf, ChangesContext, Classify, ContextSql, MovesAutocommit, TurnsOn;
    if e.Stmt? {
      WordsSee(v, e.sql);
      AutocommitIsSet(e.sql, v.kind);
    }
  }

  /** An abandoned BEGIN that the server runs after all is what the exception is for. */
  lemma AbandonedBeginIsMissed() returns (servers: seq<Server>)
    ensures var v, events := Opened(Postgres, false), [Stmt("BEGIN", Abandoned)];
      && Plays(v, events, servers) && Clean(servers[0])
      && !ViewsAfter(v, events).closeOnDrop && !Clean(servers[1])
  {
    hide BareSql;
    var s := Server(false, false, true, false, Default, {});
    var t := s.(inTxn := true, held := {Default});
    servers := [s, t];
    BeginWords();
    var e := Stmt("BEGIN", Abandoned);
    assert ServerMay(Opened(Postgres, false), e, s, t);
    assert [e][1..] == [];
  }

  lemma BeginWords()
    ensures OpensTxn("BEGIN", Postgres) && !SetsState("BEGIN", Postgres)
  {
    BeginIsWord();
    hide StatementWord, Uppercase, AllWord, BareSql;
    KeywordAlone("BEGIN");
    assert "BEGIN"[0] == 'B' && "SET"[0] == 'S' && "USE"[0] == 'U';
  }

  lemma BeginIsWord()
    ensures AllWord("BEGIN") && Uppercase("BEGIN") == "BEGIN" && forall k :: 0 <= k < 5 ==> IsAlpha("BEGIN"[k])
  {
  }

  /** A keyword alone is bare and is its own first word. */
  lemma KeywordAlone(w: string)
    requires AllWord(w) && Uppercase(w) == w && (forall k :: 0 <= k < |w| ==> IsAlpha(w[k]))
    ensures BareSql(w, Postgres) == w
    ensures StatementWord(w, Postgres, 0) == w && StatementWord(w, Postgres, 1) == ""
  {
    LettersAreBare(START, w, Postgres);
    assert BareSql(w, Postgres) == w;
    WordLenIs(Unicode, w, |w|);
    assert WordsOf(Unicode, w) == [w] by { assert w[..|w|] == w && w[|w|..] == []; }
    assert LeadingWords(w, 4) == [Uppercase(w)];
  }

  lemma {:induction false} LettersAreBare(look: Look, s: string, kind: Kind)
    requires forall k :: 0 <= k < |s| ==> IsAlpha(s[k])
    ensures MaskFrom(look, s, kind) == Flags(|s|, true)
    decreases |s|
  {
    if s != [] {
      assert TokenAt(look, s, kind) == Token(1, false);
      LettersAreBare(AfterAll(look, s[..1]), s[1..], kind);
    }
  }
}
