/** Which session answers a run, in which context, and with which attempt. */
module EditorLaws {
  import opened Text
  import opened Lexer
  import opened Split
  import opened Analysis
  import opened Batch
  import opened Editor
  import S = Session

  /** The database a session must belong to: the one asked for on PostgreSQL, none elsewhere. */
  predicate Belongs(kind: Kind, s: Sess, req: Request) {
    s.view.kind == kind && if kind == Postgres then s.pool == req.database else s.pool == None
  }

  predicate InContext(s: Sess, req: Request) { s.view.applied == Some(S.Context(req.database, req.schema)) }

  predicate SlotOf(kind: Kind, slot: Option<Sess>) { slot.Some? ==> slot.value.view.kind == kind }

  /** A run never goes on with the session of another database; and its session is in the context asked for, unless
      it is the one found, under an open transaction. */
  lemma ReadyIsRequested(kind: Kind, slot: Option<Sess>, req: Request, w: World)
    requires SlotOf(kind, slot)
    ensures var p := Prepare(kind, slot, req, w);
      p.Ready? ==>
        && Belongs(kind, p.session, req)
        && (InContext(p.session, req) || (slot == Some(p.session) && p.session.view.inTransaction))
  {
    hide S.ContextSql;
  }

  lemma {:induction false} KindStays(v: S.View, events: seq<S.Event>)
    ensures S.ViewsAfter(v, events).kind == v.kind
    decreases |events|
  {
    hide TxnEffectOf, ChangesContext, Classify, S.ContextSql;
    if events != [] { KindStays(S.ViewAfter(v, events[0]), events[1..]); }
  }

  /** So does the session a run leaves. */
  lemma LeftIsRequested(kind: Kind, slot: Option<Sess>, req: Request, w: World)
    requires SlotOf(kind, slot)
    ensures var out := WorkOf(kind, slot, req, w);
      out.Ok? && out.slot.Some? ==> Belongs(kind, out.slot.value, req)
  {
    hide RunScript, S.ViewsAfter, Prepare, FirstIsRead, S.ContextSql;
    ReadyIsRequested(kind, slot, req, w);
    var p := Prepare(kind, slot, req, w);
    if p.Ready? {
      KindStays(p.session.view, RunScript(req.sql, kind, w.fates1, req.opts).events);
      var f := Fresh(kind, req, w.open2, w.set2);
      if f.Some? { KindStays(f.value.view, RunScript(req.sql, kind, w.fates2, req.opts).events); }
    }
  }

  // ------------------------------ which session -------------------------

  /** A connection opens and takes the context of the run. */
  predicate Opens(kind: Kind, req: Request, opens: bool, server: S.Reply) {
    opens && match S.ContextSql(kind, S.Context(req.database, req.schema), false)
      case Nothing => true
      case Send(_) => server == S.Fine
      case Refused => false
  }

  /** The session of a connection just opened. */
  function New(kind: Kind, req: Request): Sess {
    Sess(S.View(kind, false, false, Some(S.Context(req.database, req.schema)), true),
      if kind == Postgres then req.database else None)
  }

  lemma FreshIs(kind: Kind, req: Request, opens: bool, server: S.Reply)
    ensures Fresh(kind, req, opens, server) == if Opens(kind, req, opens, server) then Some(New(kind, req)) else None
  {
    hide S.ContextSql;
  }

  /** A run that begins with a session just opened, or fails and leaves none. */
  predicate Replaces(p: Prepared, kind: Kind, req: Request, w: World, local: Option<Notice>) {
    p == if Opens(kind, req, w.open1, w.set1) then Ready(New(kind, req), local) else Refused(None)
  }

  /** An empty slot, and the session of another database with no transaction open, are replaced. */
  lemma EmptyIsReplaced(kind: Kind, slot: Option<Sess>, req: Request, w: World)
    requires SlotOf(kind, slot)
    requires slot.Some? ==> !Belongs(kind, slot.value, req) && !slot.value.view.inTransaction
    ensures Replaces(Prepare(kind, slot, req, w), kind, req, w, None)
  {
    hide S.ContextSql, Fresh;
    FreshIs(kind, req, w.open1, w.set1);
  }

  /** What a run sends first to the session it finds: its context, where it is not in place; and any statement that
      brings an answer, when the session sat idle with no transaction open. */
  predicate Asks(s: Sess, req: Request, w: World) {
    (!InContext(s, req) || (w.idle && !s.view.inTransaction))
    && S.ContextSql(s.view.kind, S.Context(req.database, req.schema), w.idle && !s.view.inTransaction).Send?
  }

  /** A session whose connection turns out to be gone is replaced, with a notice of the transaction lost with it. */
  lemma GoneIsReplaced(kind: Kind, s: Sess, req: Request, w: World)
    requires Belongs(kind, s, req) && Asks(s, req, w) && w.probe == S.Gone
    ensures Replaces(Prepare(kind, Some(s), req, w), kind, req, w,
      if s.view.inTransaction then Some(LostTransaction) else None)
  {
    hide S.ContextSql, Fresh;
    FreshIs(kind, req, w.open1, w.set1);
  }

  /** One that answers is kept as it is, in the context asked for. */
  lemma AnsweringIsKept(kind: Kind, s: Sess, req: Request, w: World)
    requires Belongs(kind, s, req) && Asks(s, req, w) && w.probe == S.Fine
    ensures Prepare(kind, Some(s), req, w)
      == Ready(s.(view := s.view.(applied := Some(S.Context(req.database, req.schema)))), None)
  {
    hide S.ContextSql;
  }

  /** So is one that nothing is sent to, whatever its connection has come to. */
  lemma UnaskedIsKept(kind: Kind, s: Sess, req: Request, w: World)
    requires Belongs(kind, s, req) && InContext(s, req) && (!w.idle || s.view.inTransaction)
    ensures Prepare(kind, Some(s), req, w) == Ready(s, None)
  {
    hide S.ContextSql;
  }

  /** One that refuses the context is kept; under an open transaction, which may have failed, the run goes on. */
  lemma FaultIsKept(kind: Kind, s: Sess, req: Request, w: World)
    requires Belongs(kind, s, req) && Asks(s, req, w) && w.probe == S.Fault
    ensures Prepare(kind, Some(s), req, w) == if s.view.inTransaction then Ready(s, None) else Refused(Some(s))
  {
    hide S.ContextSql;
  }

  // ------------------------------ which attempt -------------------------

  /** The first attempt broke under its first statement, a read, with no transaction open when the run began. */
  predicate MayRepeat(kind: Kind, s: Sess, req: Request, first: Outcome) {
    var statements := SplitStatements(req.sql, kind);
    && first.broken && !s.view.inTransaction && |first.results| == 1
    && statements != [] && Classify(statements[0], kind) == Read
  }

  /** A run's results are those of its last attempt, and it tells of the transaction lost on the way or with its first
      attempt; it leaves the session of that attempt, unless its connection
      broke; and there is a second attempt exactly when the first may be repeated and a new connection holds. */
  lemma ResultsAreTheLast(kind: Kind, slot: Option<Sess>, req: Request, w: World)
    requires Prepare(kind, slot, req, w).Ready?
    ensures var s, out := Prepare(kind, slot, req, w).session, WorkOf(kind, slot, req, w);
      var o, p := RunScript(req.sql, kind, w.fates1, req.opts), RunScript(req.sql, kind, w.fates2, req.opts);
      var repeats := MayRepeat(kind, s, req, o);
      && (out.Err? <==> repeats && !Opens(kind, req, w.open2, w.set2))
      && (out.Err? ==> out.tried == Some(o) && out.slot == None)
      && (out.Ok? ==>
        && out.local == (if o.broken && s.view.inTransaction then Some(LostTransaction)
                         else Prepare(kind, slot, req, w).local)
        && out.first == o && out.second == (if repeats then Some(p) else None)
        && var (last, used) := if repeats then (p, New(kind, req)) else (o, s);
          && out.results == last.results
          && out.slot == if last.broken then None else Some(used.(view := S.ViewsAfter(used.view, last.events))))
  {
    hide RunScript, S.ViewsAfter, Prepare, Fresh, S.ContextSql;
    FreshIs(kind, req, w.open2, w.set2);
  }

  /** A run that cannot begin sends nothing of its script. */
  lemma RefusedSendsNothing(kind: Kind, slot: Option<Sess>, req: Request, w: World)
    requires Prepare(kind, slot, req, w).Refused?
    ensures WorkOf(kind, slot, req, w).Err? && AttemptsOf(WorkOf(kind, slot, req, w)) == []
  {
    hide RunScript, Prepare;
  }
}
