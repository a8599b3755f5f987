/** Running a script statement by statement on one session (`query.rs`). What the database and the
    caller do (rows, errors, timeouts, cancels) comes in as a `Fate` per statement. */
module Batch {
  import opened Text
  import opened Lexer
  import opened Split
  import opened Analysis
  import opened Json
  import S = Session

  const RESULT_BYTE_BUDGET: nat := 32 * 1024 * 1024

  // ------------------------------ sizes ---------------------------------

  function Utf8Len(s: string): nat {
    if s == [] then 0
    else
      (if s[0] < '\U{0080}' then 1 else if s[0] < '\U{0800}' then 2 else if s[0] < '\U{10000}' then 3 else 4)
      + Utf8Len(s[1..])
  }

  /** `approx_size`. */
  function ApproxSize(v: Json): nat
    decreases v
  {
    match v
    case Null => 5
    case Bool(_) => 5
    case Number(_) => 12
    case Str(s) => Utf8Len(s) + 2
    case Arr(items) => 2 + RowSize(items)
    case Obj(fields) => 2 + FieldsSize(fields)
  }

  function RowSize(items: seq<Json>): nat
    decreases items
  {
    if items == [] then 0 else ApproxSize(items[0]) + RowSize(items[1..])
  }

  function FieldsSize(fields: seq<Member>): nat
    decreases fields
  {
    if fields == [] then 0
    else Utf8Len(fields[0].key) + 3 + ApproxSize(fields[0].value) + FieldsSize(fields[1..])
  }

  function RowsSize(rows: seq<seq<Json>>): nat {
    if rows == [] then 0 else RowSize(rows[0]) + RowsSize(rows[1..])
  }

  /** `saturating_sub`. */
  function Charge(budget: nat, n: nat): nat { if n <= budget then budget - n else 0 }

  // ------------------------------ one result ----------------------------

  /** An error of the connection, MySQL's refusal of the prepared protocol, or any other. */
  datatype DbError = Connection | TextOnly | Plain

  datatype Item = RowItem(cells: seq<Json>) | ErrItem(error: DbError)

  datatype Collected = Collected(rows: seq<seq<Json>>, truncated: bool, bySize: bool, failed: Option<DbError>,
                                 budget: nat)

  /** What draining `stream` under both caps yields. */
  function Collect(stream: seq<Item>, limit: nat, budget: nat): Collected
    decreases |stream|
  {
    if stream == [] then Collected([], false, false, None, budget)
    else
      match stream[0]
      case ErrItem(e) => Collected([], false, false, Some(e), budget)
      case RowItem(cells) =>
        if limit == 0 then Collected([], true, false, None, budget)
        else if budget == 0 then Collected([], true, true, None, budget)
        else
          var rest := Collect(stream[1..], limit - 1, Charge(budget, RowSize(cells)));
          rest.(rows := [cells] + rest.rows)
  }

  /** The loop of `collect_rows!`. */
  method CollectRows(stream: seq<Item>, limit: nat, budget: nat) returns (c: Collected)
    ensures c == Collect(stream, limit, budget)
  {
    var rows: seq<seq<Json>> := [];
    var truncated, bySize := false, false;
    var failed := None;
    var left := budget;
    var i := 0;
    assert stream[0..] == stream;
    while i < |stream|
      invariant 0 <= i <= |stream| && |rows| == i <= limit
      invariant !truncated && !bySize && failed == None
      invariant var rest := Collect(stream[i..], limit - i, left);
        Collect(stream, limit, budget) == rest.(rows := rows + rest.rows)
    {
      if stream[i].ErrItem? {
        failed := Some(stream[i].error);
        break;
      }
      if |rows| >= limit {
        truncated := true;
        break;
      }
      if left == 0 {
        truncated := true;
        bySize := true;
        break;
      }
      assert stream[i..][1..] == stream[i + 1..];
      left := Charge(left, RowSize(stream[i].cells));
      ghost var rest := Collect(stream[i + 1..], limit - (i + 1), left);
      assert rows + ([stream[i].cells] + rest.rows) == rows + [stream[i].cells] + rest.rows;
      rows := rows + [stream[i].cells];
      i := i + 1;
    }
    c := Collected(rows, truncated, bySize, failed, left);
    assert rows + [] == rows;
  }

  /** A result is a prefix of its stream of at most `limit` rows, truncated exactly when a further row
      was there, by size only while the budget was used up. */
  lemma {:induction false} CollectedIsPrefix(stream: seq<Item>, limit: nat, budget: nat)
    ensures var c := Collect(stream, limit, budget);
      var n := |c.rows|;
      && n <= |stream| && n <= limit
      && (forall k :: 0 <= k < n ==> stream[k] == RowItem(c.rows[k]))
      && (c.failed.None? ==> (c.truncated <==> n < |stream|))
      && (c.truncated ==> n < |stream| && stream[n].RowItem? && c.failed.None?)
      && (c.bySize <==> c.truncated && n < limit)
      && (c.bySize ==> c.budget == 0)
      && (c.failed.Some? ==> n < |stream| && stream[n] == ErrItem(c.failed.value))
    decreases |stream|
  {
    if stream != [] && stream[0].RowItem? && limit > 0 && budget > 0 {
      CollectedIsPrefix(stream[1..], limit - 1, Charge(budget, RowSize(stream[0].cells)));
    }
  }

  /** What the rows cost: each was taken while some budget was left. */
  lemma {:induction false} CollectedIsCharged(stream: seq<Item>, limit: nat, budget: nat)
    ensures var c := Collect(stream, limit, budget);
      && c.budget == Charge(budget, RowsSize(c.rows))
      && (c.rows != [] ==> RowsSize(c.rows[..|c.rows| - 1]) < budget)
    decreases |stream|
  {
    if stream != [] && stream[0].RowItem? && limit > 0 && budget > 0 {
      var left := Charge(budget, RowSize(stream[0].cells));
      CollectedIsCharged(stream[1..], limit - 1, left);
      var c, rest := Collect(stream, limit, budget), Collect(stream[1..], limit - 1, left);
      assert c.rows[1..] == rest.rows;
      if rest.rows != [] {
        assert c.rows[..|c.rows| - 1][1..] == rest.rows[..|rest.rows| - 1];
      }
    }
  }

  // ------------------------------ one statement -------------------------

  datatype Cut = Whole | Canceled | TimedOut

  /** What happens to one statement: cancelled before it is sent; or sent, and run whole or cut short
      by a cancel or a timeout. A read streams `first`, and `second` when the prepared protocol refuses
      it; anything else ends with `exec`. */
  datatype Fate = Fate(cancelled: bool, cut: Cut, first: seq<Item>, second: seq<Item>, exec: ExecReply)

  datatype ExecReply = Affected(n: nat) | ExecError(error: DbError)

  datatype OneReply = RowsReply(c: Collected) | CountReply(n: nat) | ErrReply(error: DbError)

  /** `run_one`, with the budget it leaves. */
  function RunOne(isRead: bool, fate: Fate, limit: nat, budget: nat): (OneReply, nat) {
    if isRead then
      var c := Collect(fate.first, limit, budget);
      var d := if c.failed == Some(TextOnly) then Collect(fate.second, limit, c.budget) else c;
      (if d.failed.Some? then ErrReply(d.failed.value) else RowsReply(d), d.budget)
    else
      match fate.exec
      case Affected(n) => (CountReply(n), budget)
      case ExecError(e) => (ErrReply(e), budget)
  }

  datatype Result =
    | Rows(sql: string, rows: seq<seq<Json>>, truncated: bool, bySize: bool)
    | Exec(sql: string, affected: nat)
    | Error(sql: string)

  datatype Options = Options(allowWrites: bool, rowLimit: nat)

  /** What comes after a statement. */
  datatype Next = Go | Halt | Broken

  datatype Step = Step(result: Result, budget: nat, next: Next, sent: Option<S.Fate>)

  function StatementStep(stmt: string, kind: Kind, fate: Fate, opts: Options, budget: nat): Step {
    if fate.cancelled then Step(Error(stmt), budget, Halt, None)
    else if !opts.allowWrites && !IsReadOnlySafe(stmt, kind) then Step(Error(stmt), budget, Go, None)
    else
      var (reply, left) := RunOne(ReturnsRows(stmt, kind), fate, opts.rowLimit, budget);
      match fate.cut
      case Canceled => Step(Error(stmt), left, Halt, Some(S.Abandoned))
      case TimedOut => Step(Error(stmt), left, Go, Some(S.Abandoned))
      case Whole =>
        match reply
        case RowsReply(c) => Step(Rows(stmt, c.rows, c.truncated, c.bySize), left, Go, Some(S.Done))
        case CountReply(n) => Step(Exec(stmt, n), left, Go, Some(S.Done))
        case ErrReply(Connection) => Step(Error(stmt), left, Broken, Some(S.Failed))
        case ErrReply(_) => Step(Error(stmt), left, Go, Some(S.Failed))
  }

  // ------------------------------ the batch -----------------------------

  /** What a batch comes to: its results, whether the connection died, which statements were sent, and
      what the session went through. */
  datatype Outcome = Outcome(results: seq<Result>, broken: bool, sent: seq<nat>, events: seq<S.Event>)

  function SentAt(i: nat, step: Step): seq<nat> { if step.sent.Some? then [i] else [] }

  function EventsOf(stmt: string, step: Step): seq<S.Event> {
    if step.sent.Some? then [S.Stmt(stmt, step.sent.value)] else []
  }

  function Run(statements: seq<string>, i: nat, kind: Kind, fates: nat -> Fate, opts: Options, budget: nat): Outcome
    requires i <= |statements|
    decreases |statements| - i
  {
    if i == |statements| then Outcome([], false, [], [])
    else
      var step := StatementStep(statements[i], kind, fates(i), opts, budget);
      var events := EventsOf(statements[i], step);
      if step.next != Go then Outcome([step.result], step.next == Broken, SentAt(i, step), events)
      else
        var rest := Run(statements, i + 1, kind, fates, opts, step.budget);
        Outcome([step.result] + rest.results, rest.broken, SentAt(i, step) + rest.sent, events + rest.events)
  }

  function RunScript(sql: string, kind: Kind, fates: nat -> Fate, opts: Options): Outcome {
    Run(SplitStatements(sql, kind), 0, kind, fates, opts, RESULT_BYTE_BUDGET)
  }

  lemma {:induction false} ViewsAfterConcat(v: S.View, a: seq<S.Event>, b: seq<S.Event>)
    ensures S.ViewsAfter(v, a + b) == S.ViewsAfter(S.ViewsAfter(v, a), b)
    decreases |a|
  {
    hide S.ViewAfter;
    if a == [] {
      assert a + b == b;
    } else {
      SliceConcat(a, b, 1);
      ViewsAfterConcat(S.ViewAfter(v, a[0]), a[1..], b);
    }
  }

  lemma OneEvent(v: S.View, e: S.Event)
    ensures S.ViewsAfter(v, [e]) == S.ViewAfter(v, e)
  {
    assert [e][1..] == [];
  }

  method RunOneMethod(stmt: string, kind: Kind, fate: Fate, limit: nat, budget: nat)
      returns (reply: OneReply, left: nat)
    ensures (reply, left) == RunOne(ReturnsRows(stmt, kind), fate, limit, budget)
  {
    if ReturnsRows(stmt, kind) {
      var got := CollectRows(fate.first, limit, budget);
      if got.failed == Some(TextOnly) {
        got := CollectRows(fate.second, limit, got.budget);
      }
      left := got.budget;
      reply := if got.failed.Some? then ErrReply(got.failed.value) else RowsReply(got);
    } else {
      left := budget;
      reply := match fate.exec case Affected(n) => CountReply(n) case ExecError(e) => ErrReply(e);
    }
  }

  /** The body of the loop of `execute_batch`: one statement, and what the session makes of it. */
  method RunStatement(session: S.Session, stmt: string, fate: Fate, opts: Options, budget: nat)
      returns (result: Result, left: nat, next: Next)
    modifies session
    ensures var step := StatementStep(stmt, session.kind, fate, opts, budget);
      && result == step.result && left == step.budget && next == step.next
      && session.Sees() == S.ViewsAfter(old(session.Sees()), EventsOf(stmt, step))
  {
    hide RunOne, S.Observed, IsReadOnlySafe, S.ViewsAfter;
    ghost var step := StatementStep(stmt, session.kind, fate, opts, budget);
    NoEvents(session.Sees());
    if step.sent.Some? { OneEvent(session.Sees(), S.Stmt(stmt, step.sent.value)); }
    if fate.cancelled {
      return Error(stmt), budget, Halt;
    }
    if !opts.allowWrites && !IsReadOnlySafe(stmt, session.kind) {
      return Error(stmt), budget, Go;
    }
    var reply, spare := RunOneMethod(stmt, session.kind, fate, opts.rowLimit, budget);
    left := spare;
    match fate.cut {
      case Canceled => return Error(stmt), left, Halt;
      case TimedOut => return Error(stmt), left, Go;
      case Whole =>
    }
    match reply {
      case RowsReply(c) =>
        session.Observe(stmt);
        return Rows(stmt, c.rows, c.truncated, c.bySize), left, Go;
      case CountReply(n) =>
        session.Observe(stmt);
        return Exec(stmt, n), left, Go;
      case ErrReply(e) => return Error(stmt), left, if e == Connection then Broken else Go;
    }
  }

  /** `execute_batch`. */
  method ExecuteBatch(session: S.Session, sql: string, fates: nat -> Fate, opts: Options)
      returns (out: seq<Result>, broken: bool)
    modifies session
    ensures var o := RunScript(sql, session.kind, fates, opts);
      && out == o.results && broken == o.broken
      && session.Sees() == S.ViewsAfter(old(session.Sees()), o.events)
  {
    hide StatementStep, S.ViewsAfter;
    var statements := SplitLoop(sql, session.kind);
    var budget := RESULT_BYTE_BUDGET;
    ghost var seen: seq<S.Event> := [];
    ghost var view := session.Sees();
    ghost var o := RunScript(sql, session.kind, fates, opts);
    out, broken := [], false;
    var i := 0;
    NoEvents(view);
    AfterNothing(o);
    while i < |statements|
      invariant 0 <= i <= |statements| && !broken
      invariant session.Sees() == S.ViewsAfter(view, seen)
      invariant AfterAll(out, seen, Run(statements, i, session.kind, fates, opts, budget), o)
    {
      var stmt := statements[i];
      ghost var step := StatementStep(stmt, session.kind, fates(i), opts, budget);
      ghost var rest := Run(statements, i, session.kind, fates, opts, budget);
      ghost var events := EventsOf(stmt, step);
      ViewsAfterConcat(view, seen, events);
      var result, left, next := RunStatement(session, stmt, fates(i), opts, budget);
      if next == Go {
        AfterOne(out, seen, result, events, rest, Run(statements, i + 1, session.kind, fates, opts, left), o);
      }
      out := out + [result];
      seen := seen + events;
      budget := left;
      if next != Go {
        return out, next == Broken;
      }
      i := i + 1;
    }
    assert out + [] == out && seen + [] == seen;
  }

  /** `o` is what came before together with `rest`. */
  predicate AfterAll(out: seq<Result>, seen: seq<S.Event>, rest: Outcome, o: Outcome) {
    o.results == out + rest.results && o.broken == rest.broken && o.events == seen + rest.events
  }

  lemma AfterNothing(o: Outcome)
    ensures AfterAll([], [], o, o)
  {
    assert [] + o.results == o.results && [] + o.events == o.events;
  }

  lemma AfterOne(out: seq<Result>, seen: seq<S.Event>, result: Result, events: seq<S.Event>, rest: Outcome,
                 more: Outcome, o: Outcome)
    requires AfterAll(out, seen, rest, o) && AfterAll([result], events, more, rest)
    ensures AfterAll(out + [result], seen + events, more, o)
  {
    assert out + ([result] + more.results) == out + [result] + more.results;
    assert seen + (events + more.events) == seen + events + more.events;
  }

  lemma NoEvents(v: S.View)
    ensures S.ViewsAfter(v, []) == v
  {
  }
}
