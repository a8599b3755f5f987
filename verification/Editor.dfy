/** A run of the query editor on the one session it keeps (`run_query`), with its one-shot retry. */
module Editor {
  import opened Text
  import opened Lexer
  import opened Split
  import opened Analysis
  import opened Batch
  import opened BatchLaws
  import S = Session

  /** A session as a value, and the database its pool was opened for. */
  datatype Sess = Sess(view: S.View, pool: Option<string>)

  datatype Notice = LostTransaction | RolledBackIdle

  /** A run with its database already resolved. */
  datatype Request = Request(sql: string, database: Option<string>, schema: Option<string>, opts: Options)

  /** What the outside does during a run: whether the session sat idle long enough to be probed, whether
      connections open, how contexts are taken, and the fates of the statements in both attempts. */
  datatype World = World(idle: bool, probe: S.Reply,
                         open1: bool, set1: S.Reply, fates1: nat -> Fate,
                         open2: bool, set2: S.Reply, fates2: nat -> Fate)

  function ContextOf(req: Request): S.Context { S.Context(req.database, req.schema) }

  /** A PostgreSQL session belongs to one database. */
  function PoolOf(kind: Kind, req: Request): Option<string> { if kind == Postgres then req.database else None }

  /** A sticky session with its context in place, if the server plays along. */
  function Fresh(kind: Kind, req: Request, opens: bool, server: S.Reply): Option<Sess> {
    var v := S.Opened(kind, true);
    if opens && S.ApplyReply(v, ContextOf(req), false, server) == S.Fine
    then Some(Sess(S.Applied(v, ContextOf(req), false, server), PoolOf(kind, req)))
    else None
  }

  /** A run before its batch: refused with the slot left as given, or with a session, and a notice of a
      transaction lost on the way. */
  datatype Prepared = Refused(slot: Option<Sess>) | Ready(session: Sess, local: Option<Notice>)

  function Prepare(kind: Kind, slot: Option<Sess>, req: Request, w: World): Prepared {
    if slot.Some? && slot.value.pool != PoolOf(kind, req) then
      if slot.value.view.inTransaction then Refused(slot) else OpenOne(kind, req, w, None)
    else if slot.Some? then
      var v := slot.value.view;
      var probe := w.idle && !v.inTransaction;
      match S.ApplyReply(v, ContextOf(req), probe, w.probe)
      case Fine => Ready(Sess(S.Applied(v, ContextOf(req), probe, w.probe), slot.value.pool), None)
      case Gone => OpenOne(kind, req, w, if v.inTransaction then Some(LostTransaction) else None)
      // Inside a failed transaction the batch may still roll back.
      case Fault => if v.inTransaction then Ready(slot.value, None) else Refused(slot)
    else OpenOne(kind, req, w, None)
  }

  function OpenOne(kind: Kind, req: Request, w: World, local: Option<Notice>): Prepared {
    match Fresh(kind, req, w.open1, w.set1)
    case None => Refused(None)
    case Some(s) => Ready(s, local)
  }

  /** A run as it ends, still under the editor lock. `first` and `second` are its attempts; a run may fail after
      its first, when there is no session for the second. */
  datatype Work =
    | Err(slot: Option<Sess>, tried: Option<Outcome>)
    | Ok(slot: Option<Sess>, local: Option<Notice>, results: seq<Result>, first: Outcome, second: Option<Outcome>)

  predicate FirstIsRead(sql: string, kind: Kind) {
    var statements := SplitStatements(sql, kind);
    statements != [] && Classify(statements[0], kind) == Read
  }

  function Attempt(kind: Kind, s: Sess, o: Outcome): Option<Sess> {
    if o.broken then None else Some(s.(view := S.ViewsAfter(s.view, o.events)))
  }

  predicate Retries(kind: Kind, s: Sess, req: Request, o: Outcome) {
    o.broken && !s.view.inTransaction && |o.results| == 1 && FirstIsRead(req.sql, kind)
  }

  /** The attempts of a run that found or opened session `s`. */
  function Attempts(kind: Kind, s: Sess, local: Option<Notice>, req: Request, w: World): Work {
    var o := RunScript(req.sql, kind, w.fates1, req.opts);
    if Retries(kind, s, req, o) then
      match Fresh(kind, req, w.open2, w.set2)
      case None => Err(None, Some(o))
      case Some(f) =>
        var p := RunScript(req.sql, kind, w.fates2, req.opts);
        Ok(Attempt(kind, f, p), local, p.results, o, Some(p))
    else
      var lost := if o.broken && s.view.inTransaction then Some(LostTransaction) else local;
      Ok(Attempt(kind, s, o), lost, o.results, o, None)
  }

  function WorkOf(kind: Kind, slot: Option<Sess>, req: Request, w: World): Work {
    match Prepare(kind, slot, req, w)
    case Refused(left) => Err(left, None)
    case Ready(s, local) => Attempts(kind, s, local, req, w)
  }

  // ------------------------------ promises ------------------------------

  /** A statement of the batch that ran ended a transaction. */
  predicate EndsSome(events: seq<S.Event>, kind: Kind) {
    exists e | e in events :: e.Stmt? && e.fate == S.Done && TxnEffectOf(e.sql, kind) == Some(End)
  }

  lemma {:induction false} StaysOpen(v: S.View, events: seq<S.Event>)
    requires v.inTransaction && !EndsSome(events, v.kind)
    ensures S.ViewsAfter(v, events).inTransaction
    decreases |events|
  {
    hide TxnEffectOf, ChangesContext, Classify, S.ContextSql;
    if events != [] {
      assert events[0] in events;
      assert forall e | e in events[1..] :: e in events;
      StaysOpen(S.ViewAfter(v, events[0]), events[1..]);
    }
  }

  /** What a run may not do without a word: it keeps the transaction, or a statement of the batch ended it, or the
      user is told. */
  predicate NotSilent(out: Work, kind: Kind) {
    out.Ok? ==>
      || (out.slot.Some? && out.slot.value.view.inTransaction)
      || EndsSome(out.first.events, kind)
      || out.local.Some?
  }

  /** No silent loss: a transaction the session knows of before a run that returns is still open in the slot, or a
      statement of the batch ended it, or the user is told. */
  lemma NoSilentLoss(kind: Kind, s: Sess, req: Request, w: World)
    requires s.view.inTransaction && s.view.kind == kind
    ensures NotSilent(WorkOf(kind, Some(s), req, w), kind)
  {
    hide RunScript, S.ContextSql, S.Observed, S.ViewsAfter, EndsSome;
    var prepared := Prepare(kind, Some(s), req, w);
    if prepared.Ready? && prepared.session.view.inTransaction {
      var o := RunScript(req.sql, kind, w.fates1, req.opts);
      if !EndsSome(o.events, kind) {
        StaysOpen(prepared.session.view, o.events);
      }
    }
  }

  /** The reply to the context a run starts with. */
  function ProbeReply(s: Sess, req: Request, w: World): S.Reply {
    S.ApplyReply(s.view, ContextOf(req), w.idle && !s.view.inTransaction, w.probe)
  }

  /** The run finds that the connection of its session is gone. */
  predicate Dropped(kind: Kind, s: Sess, req: Request, w: World) {
    s.pool == PoolOf(kind, req)
    && (ProbeReply(s, req, w) == S.Gone
      || (ProbeReply(s, req, w) == S.Fine && RunScript(req.sql, kind, w.fates1, req.opts).broken))
  }

  /** A run that succeeds tells of every session it lost exactly when the session knows of a transaction: one the
      server has open, but the session does not know of, goes without a word. */
  lemma LossIsToldIffSeen(kind: Kind, s: Sess, req: Request)
    requires s.view.kind == kind && s.pool == PoolOf(kind, req) && S.ContextSql(kind, ContextOf(req), true).Send?
    requires Fresh(kind, req, true, S.Fine).Some?
    ensures (forall w :: Dropped(kind, s, req, w) && WorkOf(kind, Some(s), req, w).Ok? ==>
        WorkOf(kind, Some(s), req, w).local.Some?)
      <==> s.view.inTransaction
  {
    hide RunScript, S.ContextSql, S.ViewsAfter, Fresh, FirstIsRead;
    if s.view.inTransaction {
      forall w | Dropped(kind, s, req, w) && WorkOf(kind, Some(s), req, w).Ok?
        ensures WorkOf(kind, Some(s), req, w).local.Some?
      {}
    } else {
      var w := GoneWorld();
      CancelledIsWhole(req, kind);
      assert Dropped(kind, s, req, w) && WorkOf(kind, Some(s), req, w).Ok? && WorkOf(kind, Some(s), req, w).local.None?;
    }
  }

  /** A statement that is never sent. */
  function NeverSent(k: nat): Fate { Fate(true, Whole, [], [], Affected(0)) }

  /** The session's connection died while it was idle; the next one holds; the batch is cancelled. */
  function GoneWorld(): World { World(true, S.Gone, true, S.Fine, NeverSent, true, S.Fine, NeverSent) }

  lemma CancelledIsWhole(req: Request, kind: Kind)
    ensures !RunScript(req.sql, kind, NeverSent, req.opts).broken
  {
    hide IsReadOnlySafe, ReturnsRows, RunOne;
  }

  /** A database switch under an open transaction is refused, nothing is sent, and the session stays. */
  lemma SwitchIsRefused(kind: Kind, s: Sess, req: Request, w: World)
    requires s.view.inTransaction && s.pool != PoolOf(kind, req)
    ensures WorkOf(kind, Some(s), req, w) == Err(Some(s), None)
  {
  }

  /** The connection is gone, and either there is no new one, or the new one dies under the first statement, a
      read, and there is no third. */
  predicate LostOnTheWay(kind: Kind, s: Sess, req: Request, w: World) {
    && s.pool == PoolOf(kind, req)
    && S.ApplyReply(s.view, ContextOf(req), false, w.probe) == S.Gone
    && match Fresh(kind, req, w.open1, w.set1)
      case None => true
      case Some(f) =>
        && Retries(kind, f, req, RunScript(req.sql, kind, w.fates1, req.opts))
        && Fresh(kind, req, w.open2, w.set2).None?
  }

  /** Exactly when a run under an open transaction fails: with the transaction kept when it is a refused switch,
      and with the transaction lost, and no notice of it, when the connection was lost on the way. */
  lemma FailedRunKeeps(kind: Kind, s: Sess, req: Request, w: World)
    requires s.view.inTransaction && s.view.kind == kind
    ensures var out := WorkOf(kind, Some(s), req, w);
      && (out.Err? && out.slot == Some(s) <==> s.pool != PoolOf(kind, req))
      && (out.Err? && out.slot == None <==> LostOnTheWay(kind, s, req, w))
      && (out.Err? ==> out.slot == Some(s) || out.slot == None)
  {
    hide RunScript, S.ContextSql;
  }

  /** It can happen to any session with a transaction that a run has a context to send to. */
  lemma LossOnTheWay(kind: Kind, s: Sess, req: Request, w: World)
    requires s.view.inTransaction && s.view.kind == kind && s.pool == PoolOf(kind, req)
    requires S.Sends(s.view, ContextOf(req), false)
    ensures WorkOf(kind, Some(s), req, w.(probe := S.Gone, open1 := false)) == Err(None, None)
  {
    hide S.ContextSql;
  }

  /** One run it happens to. */
  lemma OneLossOnTheWay()
    ensures var s := Sess(S.View(Postgres, true, false, None, true), Some("a"));
      && s.view.inTransaction
      && WorkOf(Postgres, Some(s), Request("SELECT 1", Some("a"), None, Options(true, 1)), GoneWorld().(open1 := false))
        == Err(None, None)
  {
    var s := Sess(S.View(Postgres, true, false, None, true), Some("a"));
    LossOnTheWay(Postgres, s, Request("SELECT 1", Some("a"), None, Options(true, 1)), GoneWorld());
  }

  /** The attempts of a run. */
  function AttemptsOf(out: Work): seq<Outcome> {
    match out
    case Err(_, tried) => if tried.Some? then [tried.value] else []
    case Ok(_, _, _, first, second) => if second.Some? then [first, second.value] else [first]
  }

  /** How often statement `i` was sent. */
  function Submissions(attempts: seq<Outcome>, i: nat): nat {
    if attempts == [] then 0 else (if i in attempts[0].sent then 1 else 0) + Submissions(attempts[1..], i)
  }

  /** At most once for writes, whether the run succeeds or not: a statement that does not classify as a read is sent
      at most once in a run, any other at most twice, and never twice in one attempt. */
  lemma WritesAreSentOnce(kind: Kind, slot: Option<Sess>, req: Request, w: World, i: nat)
    ensures var attempts, statements := AttemptsOf(WorkOf(kind, slot, req, w)), SplitStatements(req.sql, kind);
      && Submissions(attempts, i) <= 2
      && (Submissions(attempts, i) == 2 ==> i == 0 && statements != [] && Classify(statements[0], kind) == Read)
      && (forall o | o in attempts :: Increasing(o.sent, 0, |statements|))
  {
    hide RunScript, Prepare, Fresh, Classify, SplitStatements, S.ViewsAfter;
    var out := WorkOf(kind, slot, req, w);
    SentInOrder(req, kind, w.fates1);
    SentInOrder(req, kind, w.fates2);
    SubmissionsOf(AttemptsOf(out), i);
    if out.Ok? && out.second.Some? {
      BrokenAtFirst(req, kind, w.fates1);
    }
  }

  lemma SubmissionsOf(attempts: seq<Outcome>, i: nat)
    requires |attempts| <= 2
    ensures Submissions(attempts, i) <= |attempts|
    ensures Submissions(attempts, i) == 2 ==> |attempts| == 2 && i in attempts[0].sent
  {
    assert |attempts| == 1 ==> attempts[1..] == [];
    assert |attempts| == 2 ==> attempts[1..][1..] == [];
  }

  lemma SentInOrder(req: Request, kind: Kind, fates: nat -> Fate)
    ensures Increasing(RunScript(req.sql, kind, fates, req.opts).sent, 0, |SplitStatements(req.sql, kind)|)
  {
    hide Run, SplitStatements;
    var statements := SplitStatements(req.sql, kind);
    SentOnceInOrder(statements, 0, kind, fates, req.opts, RESULT_BYTE_BUDGET);
    ResultsAlign(statements, 0, kind, fates, req.opts, RESULT_BYTE_BUDGET);
  }

  /** A batch broken with one result sent its first statement only. */
  lemma BrokenAtFirst(req: Request, kind: Kind, fates: nat -> Fate)
    ensures var o := RunScript(req.sql, kind, fates, req.opts);
      o.broken && |o.results| == 1 ==> forall i :: i in o.sent ==> i == 0
  {
    hide Run, SplitStatements, Classify;
    BrokenFirst(SplitStatements(req.sql, kind), kind, fates, req.opts, RESULT_BYTE_BUDGET);
  }

  /** What the notices rely on: a run that finds no session ends with none when it fails, and with no
      notice of its own when it succeeds; one that fails puts no session there. */
  lemma EmptySlotHasNoNews(kind: Kind, slot: Option<Sess>, req: Request, w: World)
    ensures var out := WorkOf(kind, slot, req, w);
      && (out.Err? ==> out.slot.None? || out.slot == slot)
      && (out.Ok? && slot.None? ==> out.local.None?)
  {
    hide RunScript, S.ContextSql;
  }

  // ------------------------------ the connection ------------------------

  method FirstStatementIsRead(sql: string, kind: Kind) returns (r: bool)
    ensures r == FirstIsRead(sql, kind)
  {
    var statements := SplitLoop(sql, kind);
    r := statements != [] && Classify(statements[0], kind) == Read;
  }

  class Connection {
    const kind: Kind
    var editor: S.Session?
    var notice: Option<Notice>
    var epoch: nat

    constructor (kind: Kind)
      ensures this.kind == kind && Slot() == None && notice == None && epoch == 0
    {
      this.kind, editor, notice, epoch := kind, null, None, 0;
    }

    function Slot(): Option<Sess>
      reads this, editor
    {
      if editor == null then None else Some(Sess(editor.Sees(), editor.poolDatabase))
    }

    ghost predicate Valid()
      reads this, editor
    {
      editor != null ==> editor.kind == kind
    }

    method SetNotice(n: Notice)
      modifies this`notice
      ensures notice == Some(n)
    {
      notice := Some(n);
    }

    method TakeNotice() returns (n: Option<Notice>)
      modifies this`notice
      ensures n == old(notice) && notice == None
    {
      n := notice;
      notice := None;
    }

    /** The timer after its epoch check: unless an editor run holds the lock, the session goes, and an open
        transaction leaves a notice. */
    method IdleClose(due: bool, busy: bool)
      requires Valid()
      modifies this`editor, this`notice
      ensures Valid()
      ensures !due || busy ==> editor == old(editor) && notice == old(notice)
      ensures due && !busy ==> Slot() == None
      ensures due && !busy ==>
        var open := old(Slot()).Some? && old(Slot()).value.view.inTransaction;
        notice == if open then Some(RolledBackIdle) else old(notice)
    {
      if !due || busy {
        return;
      }
      if editor != null {
        var open := editor.inTransaction;
        editor := null;
        if open {
          SetNotice(RolledBackIdle);
        }
      }
    }

    method OpenFresh(req: Request, opens: bool, server: S.Reply) returns (s: S.Session?)
      ensures s == null <==> Fresh(kind, req, opens, server).None?
      ensures s != null ==> fresh(s) && s.kind == kind
      ensures s != null ==> Sess(s.Sees(), s.poolDatabase) == Fresh(kind, req, opens, server).value
    {
      if !opens {
        return null;
      }
      var session := new S.Session(kind, PoolOf(kind, req), true);
      var r := session.ApplyContext(ContextOf(req), false, server);
      s := if r == S.Fine then session else null;
    }

    /** The editor's part of a run up to its batch. */
    method PrepareSession(req: Request, w: World) returns (ready: bool, local: Option<Notice>)
      requires Valid()
      modifies this`editor, editor
      ensures Valid()
      ensures var p := Prepare(kind, old(Slot()), req, w);
        if p.Ready? then ready && Slot() == Some(p.session) && local == p.local else !ready && Slot() == p.slot
      ensures editor == null || editor == old(editor) || fresh(editor)
    {
      hide S.ApplyReply, S.Applied;
      local := None;
      if editor != null && editor.poolDatabase != PoolOf(kind, req) {
        if editor.inTransaction {
          return false, None;
        }
        editor := null;
      }
      if editor != null {
        var open := editor.inTransaction;
        var r := editor.ApplyContext(ContextOf(req), w.idle && !open, w.probe);
        UnchangedUnlessFine(old(editor.Sees()), ContextOf(req), w.idle && !open, w.probe);
        if r == S.Gone {
          if open {
            local := Some(LostTransaction);
          }
          editor := null;
        } else {
          return r == S.Fine || open, None;
        }
      }
      var s := OpenFresh(req, w.open1, w.set1);
      editor := s;
      ready := s != null;
    }

    /** The batch of a run, and its one retry. */
    method RunAttempts(req: Request, w: World, told: Option<Notice>)
        returns (ok: bool, out: seq<Result>, local: Option<Notice>)
      requires Valid() && editor != null
      modifies this`editor, editor
      ensures Valid()
      ensures var work := Attempts(kind, old(Slot()).value, told, req, w);
        && Slot() == work.slot
        && ok == work.Ok?
        && (ok ==> out == work.results && local == work.local)
    {
      hide RunScript, SplitStatements, S.ViewsAfter, S.Opened, Fresh, Classify;
      local := told;
      var session := editor;
      var wasInTransaction := session.inTransaction;
      var broken;
      out, broken := ExecuteBatch(session, req.sql, w.fates1, req.opts);
      if broken {
        editor := null;
        var firstIsRead := FirstStatementIsRead(req.sql, kind);
        if wasInTransaction {
          local := Some(LostTransaction);
        } else if |out| == 1 && firstIsRead {
          var f := OpenFresh(req, w.open2, w.set2);
          if f == null {
            return false, out, local;
          }
          out, broken := ExecuteBatch(f, req.sql, w.fates2, req.opts);
          if !broken {
            editor := f;
          }
        }
      }
      ok := true;
    }

    /** `run_query` for the editor: the results, whether a transaction is open now, and the notice. */
    method RunQuery(req: Request, w: World) returns (r: Option<(seq<Result>, bool, Option<Notice>)>)
      requires Valid()
      modifies this, editor
      ensures Valid()
      ensures SplitStatements(req.sql, kind) == [] ==>
        r == None && Slot() == old(Slot()) && notice == old(notice) && epoch == old(epoch)
      ensures SplitStatements(req.sql, kind) != [] ==>
        var out := WorkOf(kind, old(Slot()), req, w);
        && Slot() == out.slot
        && (out.Err? ==> r == None && notice == old(notice) && epoch == old(epoch))
        && (out.Ok? ==>
          var told := if out.local.Some? then out.local else old(notice);
          && r == Some((out.results, out.slot.Some? && out.slot.value.view.inTransaction, told))
          && notice == (if out.local.Some? then old(notice) else None)
          && epoch == old(epoch) + 1)
    {
      hide SplitStatements, Prepare, Attempts;
      var statements := SplitLoop(req.sql, kind);
      if statements == [] {
        return None;
      }
      var ready, local := PrepareSession(req, w);
      if !ready {
        return None;
      }
      var ok, out, told := RunAttempts(req, w, local);
      if !ok {
        return None;
      }
      if told == None {
        told := TakeNotice();
      }
      epoch := epoch + 1;
      r := Some((out, editor != null && editor.inTransaction, told));
    }

    /** Closing the connection closes its editor session. */
    method Close()
      modifies this`editor
      ensures Slot() == None
    {
      editor := null;
    }
  }

  lemma UnchangedUnlessFine(v: S.View, ctx: S.Context, force: bool, server: S.Reply)
    ensures S.ApplyReply(v, ctx, force, server) != S.Fine ==> S.Applied(v, ctx, force, server) == v
  {
  }
}
