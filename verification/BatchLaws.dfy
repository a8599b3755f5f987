/** What every batch keeps, whatever the database and the caller do. */
module BatchLaws {
  import opened Text
  import opened Lexer
  import opened Split
  import opened Analysis
  import opened Json
  import opened Batch
  import S = Session

  // ------------------------------ results and statements ----------------

  predicate Increasing(s: seq<nat>, lo: nat, hi: nat) {
    && (forall k :: 0 <= k < |s| ==> lo <= s[k] < hi)
    && (forall j, k :: 0 <= j < k < |s| ==> s[j] < s[k])
  }

  predicate Aligned(statements: seq<string>, i: nat, results: seq<Result>) {
    && i + |results| <= |statements|
    && forall k :: i <= k < i + |results| ==> results[k - i].sql == statements[k]
  }

  /** Results align with a prefix of the statements. */
  lemma {:induction false} ResultsAlign(
      statements: seq<string>, i: nat, kind: Kind, fates: nat -> Fate, opts: Options, budget: nat)
    requires i <= |statements|
    ensures Aligned(statements, i, Run(statements, i, kind, fates, opts, budget).results)
    decreases |statements| - i
  {
    hide StatementStep;
    if i < |statements| {
      var step := StatementStep(statements[i], kind, fates(i), opts, budget);
      StepAnswers(statements[i], kind, fates(i), opts, budget);
      if step.next == Go {
        ResultsAlign(statements, i + 1, kind, fates, opts, step.budget);
      }
    }
  }

  /** Each statement is sent at most once and in order; when the connection breaks, it is under the last
      statement reported. */
  lemma {:induction false} SentOnceInOrder(
      statements: seq<string>, i: nat, kind: Kind, fates: nat -> Fate, opts: Options, budget: nat)
    requires i <= |statements|
    ensures SentWell(Run(statements, i, kind, fates, opts, budget), i)
    decreases |statements| - i
  {
    hide StatementStep, SentWell, SentAt, EventsOf;
    if i < |statements| {
      var step := StatementStep(statements[i], kind, fates(i), opts, budget);
      StepAnswers(statements[i], kind, fates(i), opts, budget);
      var events := EventsOf(statements[i], step);
      SentAlone(i, step, events);
      if step.next == Go {
        SentOnceInOrder(statements, i + 1, kind, fates, opts, step.budget);
        SentFirst(i, step, events, Run(statements, i + 1, kind, fates, opts, step.budget));
      }
    } else {
      NoneSent(i);
    }
  }

  predicate SentWell(o: Outcome, i: nat) {
    && Increasing(o.sent, i, i + |o.results|)
    && (o.broken ==> o.sent != [] && o.sent[|o.sent| - 1] + 1 == i + |o.results|)
  }

  lemma SentAlone(i: nat, step: Step, events: seq<S.Event>)
    requires step.next == Broken ==> step.sent.Some?
    ensures SentWell(Outcome([step.result], step.next == Broken, SentAt(i, step), events), i)
  {
  }

  lemma NoneSent(i: nat)
    ensures SentWell(Outcome([], false, [], []), i)
  {
  }

  lemma StepAnswers(stmt: string, kind: Kind, fate: Fate, opts: Options, budget: nat)
    ensures var step := StatementStep(stmt, kind, fate, opts, budget);
      step.result.sql == stmt && (step.next == Broken ==> step.sent.Some?)
  {
    hide RunOne, IsReadOnlySafe, ReturnsRows;
  }

  lemma SentFirst(i: nat, step: Step, events: seq<S.Event>, rest: Outcome)
    requires SentWell(rest, i + 1)
    ensures SentWell(Outcome([step.result] + rest.results, rest.broken, SentAt(i, step) + rest.sent,
      events + rest.events), i)
  {
    var first := SentAt(i, step);
    if first == [] { assert first + rest.sent == rest.sent; }
  }

  /** A batch that ends neither broken nor cancelled has one result for every statement. */
  lemma {:induction false} EveryStatementAnswered(
      statements: seq<string>, i: nat, kind: Kind, fates: nat -> Fate, opts: Options, budget: nat)
    requires i <= |statements|
    requires forall k :: i <= k < |statements| ==> !fates(k).cancelled && fates(k).cut != Canceled
    ensures var o := Run(statements, i, kind, fates, opts, budget);
      !o.broken ==> i + |o.results| == |statements|
    decreases |statements| - i
  {
    hide RunOne, IsReadOnlySafe, ReturnsRows;
    if i < |statements| {
      var step := StatementStep(statements[i], kind, fates(i), opts, budget);
      if step.next == Go {
        EveryStatementAnswered(statements, i + 1, kind, fates, opts, step.budget);
      }
    }
  }

  /** On a read-only connection nothing is sent but what the gate lets through. */
  lemma {:induction false} OnlySafeIsSent(
      statements: seq<string>, i: nat, kind: Kind, fates: nat -> Fate, opts: Options, budget: nat)
    requires i <= |statements| && !opts.allowWrites
    ensures forall k | k in Run(statements, i, kind, fates, opts, budget).sent ::
      k < |statements| && IsReadOnlySafe(statements[k], kind)
    decreases |statements| - i
  {
    hide RunOne, IsReadOnlySafe, ReturnsRows;
    if i < |statements| {
      var step := StatementStep(statements[i], kind, fates(i), opts, budget);
      if step.next == Go {
        OnlySafeIsSent(statements, i + 1, kind, fates, opts, step.budget);
      }
    }
  }

  /** Broken with one result means that the first statement, and nothing else, was sent. */
  lemma BrokenFirst(statements: seq<string>, kind: Kind, fates: nat -> Fate, opts: Options, budget: nat)
    ensures var o := Run(statements, 0, kind, fates, opts, budget);
      o.broken && |o.results| == 1 ==> o.sent == [0]
  {
    SentOnceInOrder(statements, 0, kind, fates, opts, budget);
    var o := Run(statements, 0, kind, fates, opts, budget);
    assert |o.sent| > 1 ==> o.sent[0] < o.sent[1];
  }

  // ------------------------------ what was shown ------------------------

  /** The rows of a result come from a stream of its statement, in order and without a gap. */
  predicate Shows(r: Result, stream: seq<Item>, limit: nat)
    requires r.Rows?
  {
    var n := |r.rows|;
    && n <= |stream| && n <= limit
    && (forall k :: 0 <= k < n ==> stream[k] == RowItem(r.rows[k]))
    && (r.truncated <==> n < |stream|)
    && (r.truncated ==> stream[n].RowItem?)
    && (r.bySize <==> r.truncated && n < limit)
  }

  predicate Shown(r: Result, fate: Fate, limit: nat) {
    r.Rows? ==> Shows(r, fate.first, limit) || Shows(r, fate.second, limit)
  }

  lemma StatementShows(stmt: string, kind: Kind, fate: Fate, opts: Options, budget: nat)
    ensures Shown(StatementStep(stmt, kind, fate, opts, budget).result, fate, opts.rowLimit)
  {
    hide Collect, IsReadOnlySafe, ReturnsRows;
    CollectedIsPrefix(fate.first, opts.rowLimit, budget);
    CollectedIsPrefix(fate.second, opts.rowLimit, Collect(fate.first, opts.rowLimit, budget).budget);
  }

  /** Every result with rows shows a prefix of its stream, of at most `limit` rows, and is marked
      truncated exactly when a further row was there. */
  lemma {:induction false} ResultsArePrefixes(
      statements: seq<string>, i: nat, kind: Kind, fates: nat -> Fate, opts: Options, budget: nat)
    requires i <= |statements|
    ensures var rs := Run(statements, i, kind, fates, opts, budget).results;
      forall k :: i <= k < i + |rs| ==> Shown(rs[k - i], fates(k), opts.rowLimit)
    decreases |statements| - i
  {
    hide StatementStep, Shown;
    if i < |statements| {
      var step := StatementStep(statements[i], kind, fates(i), opts, budget);
      StatementShows(statements[i], kind, fates(i), opts, budget);
      if step.next == Go {
        ResultsArePrefixes(statements, i + 1, kind, fates, opts, step.budget);
      }
    }
  }

  // ------------------------------ the shared budget ---------------------

  function RowsOf(r: Result): seq<seq<Json>> { if r.Rows? then r.rows else [] }

  /** All rows a batch returns, in order. */
  function AllRows(rs: seq<Result>): seq<seq<Json>> { if rs == [] then [] else RowsOf(rs[0]) + AllRows(rs[1..]) }

  lemma {:induction false} RowsSizeConcat(a: seq<seq<Json>>, b: seq<seq<Json>>)
    ensures RowsSize(a + b) == RowsSize(a) + RowsSize(b)
  {
    if a == [] {
      assert a + b == b;
    } else {
      SliceConcat(a, b, 1);
      RowsSizeConcat(a[1..], b);
    }
  }

  /** All but the last of some rows are within the budget. */
  predicate Within(rows: seq<seq<Json>>, budget: nat) {
    rows != [] ==> RowsSize(rows[..|rows| - 1]) < budget
  }

  /** The rows a read decodes: its own, and those of the read that repeats it as plain text. */
  function ReadRows(fate: Fate, limit: nat, budget: nat): seq<seq<Json>> {
    var c := Collect(fate.first, limit, budget);
    if c.failed == Some(TextOnly) then c.rows + Collect(fate.second, limit, c.budget).rows else c.rows
  }

  function Decoded(stmt: string, kind: Kind, fate: Fate, opts: Options, budget: nat): seq<seq<Json>> {
    if fate.cancelled || (!opts.allowWrites && !IsReadOnlySafe(stmt, kind)) || !ReturnsRows(stmt, kind) then []
    else ReadRows(fate, opts.rowLimit, budget)
  }

  predicate EndsWith(all: seq<seq<Json>>, rows: seq<seq<Json>>) {
    |rows| <= |all| && all[|all| - |rows|..] == rows
  }

  lemma ReadCharges(fate: Fate, limit: nat, budget: nat)
    ensures var rows, run := ReadRows(fate, limit, budget), RunOne(true, fate, limit, budget);
      && run.1 == Charge(budget, RowsSize(rows)) && Within(rows, budget)
      && (run.0.RowsReply? ==> EndsWith(rows, run.0.c.rows))
  {
    hide Collect;
    var c := Collect(fate.first, limit, budget);
    CollectedIsCharged(fate.first, limit, budget);
    if c.failed == Some(TextOnly) {
      var d := Collect(fate.second, limit, c.budget);
      CollectedIsCharged(fate.second, limit, c.budget);
      RowsSizeConcat(c.rows, d.rows);
      WithinJoin(c.rows, d.rows, budget, c.budget);
      assert (c.rows + d.rows)[|c.rows|..] == d.rows;
    }
  }

  /** Every row a statement decodes is charged, whether it is returned or not: rows of a failed read, of a read
      repeated as plain text, of a read cut short. What is returned is the end of what was decoded. */
  lemma StatementCharges(stmt: string, kind: Kind, fate: Fate, opts: Options, budget: nat)
    ensures var step, rows := StatementStep(stmt, kind, fate, opts, budget), Decoded(stmt, kind, fate, opts, budget);
      && step.budget == Charge(budget, RowsSize(rows))
      && Within(rows, budget)
      && EndsWith(rows, RowsOf(step.result))
  {
    hide StatementStep, ReadRows, Within, IsReadOnlySafe, ReturnsRows, EndsWith, RowsOf, RowsSize, Charge, RunOne;
    NoRows(budget, Decoded(stmt, kind, fate, opts, budget));
    ReadCharges(fate, opts.rowLimit, budget);
    OthersChargeNothing(fate, opts.rowLimit, budget);
    if IsSent(stmt, kind, fate, opts) {
      SentStep(stmt, kind, fate, opts, budget);
    } else {
      UnsentStep(stmt, kind, fate, opts, budget);
    }
  }

  predicate IsSent(stmt: string, kind: Kind, fate: Fate, opts: Options) {
    !fate.cancelled && (opts.allowWrites || IsReadOnlySafe(stmt, kind))
  }

  lemma UnsentStep(stmt: string, kind: Kind, fate: Fate, opts: Options, budget: nat)
    requires !IsSent(stmt, kind, fate, opts)
    ensures var step := StatementStep(stmt, kind, fate, opts, budget);
      step.budget == budget && RowsOf(step.result) == []
  {
    hide IsReadOnlySafe, ReturnsRows, RunOne;
  }

  lemma SentStep(stmt: string, kind: Kind, fate: Fate, opts: Options, budget: nat)
    requires IsSent(stmt, kind, fate, opts)
    ensures var step := StatementStep(stmt, kind, fate, opts, budget);
      var run := RunOne(ReturnsRows(stmt, kind), fate, opts.rowLimit, budget);
      && step.budget == run.1
      && (RowsOf(step.result) == [] || (run.0.RowsReply? && RowsOf(step.result) == run.0.c.rows))
  {
    hide IsReadOnlySafe, ReturnsRows, RunOne;
  }

  lemma OthersChargeNothing(fate: Fate, limit: nat, budget: nat)
    ensures var run := RunOne(false, fate, limit, budget); run.1 == budget && !run.0.RowsReply?
  {
  }

  lemma NoRows(budget: nat, all: seq<seq<Json>>)
    ensures Within([], budget) && Charge(budget, RowsSize([])) == budget && EndsWith(all, [])
  {
  }

  /** What a statement returns is charged all the more. */
  lemma ReturnedIsCharged(stmt: string, kind: Kind, fate: Fate, opts: Options, budget: nat)
    ensures var step := StatementStep(stmt, kind, fate, opts, budget);
      && Within(RowsOf(step.result), budget)
      && step.budget <= Charge(budget, RowsSize(RowsOf(step.result)))
  {
    hide Collect, IsReadOnlySafe, ReturnsRows;
    CollectedIsCharged(fate.first, opts.rowLimit, budget);
    CollectedIsCharged(fate.second, opts.rowLimit, Collect(fate.first, opts.rowLimit, budget).budget);
  }

  lemma WithinJoin(a: seq<seq<Json>>, b: seq<seq<Json>>, budget: nat, left: nat)
    requires Within(a, budget) && left <= Charge(budget, RowsSize(a)) && Within(b, left)
    ensures Within(a + b, budget)
  {
    if b == [] {
      assert a + b == a;
    } else {
      assert (a + b)[..|a + b| - 1] == a + b[..|b| - 1];
      RowsSizeConcat(a, b[..|b| - 1]);
    }
  }

  lemma {:induction false} BatchIsWithin(
      statements: seq<string>, i: nat, kind: Kind, fates: nat -> Fate, opts: Options, budget: nat)
    requires i <= |statements|
    ensures Within(AllRows(Run(statements, i, kind, fates, opts, budget).results), budget)
    decreases |statements| - i
  {
    hide StatementStep, RowsOf;
    if i < |statements| {
      var step := StatementStep(statements[i], kind, fates(i), opts, budget);
      var o := Run(statements, i, kind, fates, opts, budget);
      ReturnedIsCharged(statements[i], kind, fates(i), opts, budget);
      assert o.results[0] == step.result;
      if step.next == Go {
        BatchIsWithin(statements, i + 1, kind, fates, opts, step.budget);
        assert o.results[1..] == Run(statements, i + 1, kind, fates, opts, step.budget).results;
        WithinJoin(RowsOf(step.result), AllRows(o.results[1..]), budget, step.budget);
      } else {
        assert o.results[1..] == [];
        assert RowsOf(step.result) + [] == RowsOf(step.result);
      }
    }
  }

  /** Over a whole batch, all rows returned but the last stay below the byte budget. */
  lemma BudgetIsShared(sql: string, kind: Kind, fates: nat -> Fate, opts: Options)
    ensures var rows := AllRows(RunScript(sql, kind, fates, opts).results);
      rows != [] ==> RowsSize(rows[..|rows| - 1]) < RESULT_BYTE_BUDGET
  {
    BatchIsWithin(SplitStatements(sql, kind), 0, kind, fates, opts, RESULT_BYTE_BUDGET);
  }

  /** All rows a batch decodes, in order. */
  function AllDecoded(
      statements: seq<string>, i: nat, kind: Kind, fates: nat -> Fate, opts: Options, budget: nat): seq<seq<Json>>
    requires i <= |statements|
    decreases |statements| - i
  {
    if i == |statements| then []
    else
      var step := StatementStep(statements[i], kind, fates(i), opts, budget);
      Decoded(statements[i], kind, fates(i), opts, budget)
      + if step.next == Go then AllDecoded(statements, i + 1, kind, fates, opts, step.budget) else []
  }

  /** Not only what a batch returns: all it decodes, but for the last row, stays below the budget. */
  lemma {:induction false} DecodedIsWithin(
      statements: seq<string>, i: nat, kind: Kind, fates: nat -> Fate, opts: Options, budget: nat)
    requires i <= |statements|
    ensures Within(AllDecoded(statements, i, kind, fates, opts, budget), budget)
    decreases |statements| - i
  {
    hide StatementStep, Decoded, Within, RowsSize;
    if i < |statements| {
      var step := StatementStep(statements[i], kind, fates(i), opts, budget);
      var rows := Decoded(statements[i], kind, fates(i), opts, budget);
      StatementCharges(statements[i], kind, fates(i), opts, budget);
      assert rows + [] == rows;
      if step.next == Go {
        DecodedIsWithin(statements, i + 1, kind, fates, opts, step.budget);
        WithinJoin(rows, AllDecoded(statements, i + 1, kind, fates, opts, step.budget), budget, step.budget);
      }
    } else {
      NoRowsWithin(budget);
    }
  }

  lemma NoRowsWithin(budget: nat)
    ensures Within([], budget)
  {
  }

  // ------------------------------ what the session goes through ---------

  lemma {:induction false} EventsAreStatements(
      statements: seq<string>, i: nat, kind: Kind, fates: nat -> Fate, opts: Options, budget: nat)
    requires i <= |statements|
    ensures forall e | e in Run(statements, i, kind, fates, opts, budget).events ::
      e.Stmt? && exists k ::
        i <= k < |statements| && e.sql == statements[k] && (e.fate == S.Abandoned ==> fates(k).cut != Whole)
    decreases |statements| - i
  {
    hide RunOne, IsReadOnlySafe, ReturnsRows;
    if i < |statements| {
      var step := StatementStep(statements[i], kind, fates(i), opts, budget);
      assert forall e | e in EventsOf(statements[i], step) :: e.sql == statements[i];
      if step.next == Go {
        EventsAreStatements(statements, i + 1, kind, fates, opts, step.budget);
      }
    }
  }

  /** A one-off batch, from the pool connection it is given to the one it gives back. */
  function OneOffEvents(ctx: S.Context, sql: string, kind: Kind, fates: nat -> Fate, opts: Options): seq<S.Event> {
    [S.Apply(ctx, false, S.Fine)] + RunScript(sql, kind, fates, opts).events
  }

  /** Pool hygiene for a one-off batch: unless a statement was cut short that opens a transaction or sets
      something on a connection not yet marked, a connection that goes back to the pool has no transaction and no
      state a user set, whatever the server did with the statements. */
  lemma OneOffLeavesPoolClean(
      ctx: S.Context, sql: string, kind: Kind, fates: nat -> Fate, opts: Options, servers: seq<S.Server>)
    requires S.HarmlessRun(S.Opened(kind, false), OneOffEvents(ctx, sql, kind, fates, opts))
    requires S.Plays(S.Opened(kind, false), OneOffEvents(ctx, sql, kind, fates, opts), servers)
    requires S.Clean(servers[0])
    ensures var events := OneOffEvents(ctx, sql, kind, fates, opts);
      !S.ViewsAfter(S.Opened(kind, false), events).closeOnDrop ==> S.Clean(servers[|events|])
  {
    S.PoolStaysClean(S.Opened(kind, false), OneOffEvents(ctx, sql, kind, fates, opts), servers);
  }

  /** A statement that may be cut short wherever it stands. */
  predicate MayBeCut(stmt: string, kind: Kind) { !(S.OpensTxn(stmt, kind) || S.SetsState(stmt, kind)) }

  /** As long as only such statements are cut short, reads for one, the above holds. */
  lemma CuttingReadsIsHarmless(ctx: S.Context, sql: string, kind: Kind, fates: nat -> Fate, opts: Options)
    requires var statements := SplitStatements(sql, kind);
      forall k :: 0 <= k < |statements| && fates(k).cut != Whole ==> MayBeCut(statements[k], kind)
    ensures S.HarmlessRun(S.Opened(kind, false), OneOffEvents(ctx, sql, kind, fates, opts))
  {
    hide RunScript, S.HarmlessRun, MayBeCut;
    var statements := SplitStatements(sql, kind);
    var first, events := S.Apply(ctx, false, S.Fine), RunScript(sql, kind, fates, opts).events;
    ScriptIsRun(sql, kind, fates, opts);
    EventsAreStatements(statements, 0, kind, fates, opts, RESULT_BYTE_BUDGET);
    forall e | e in [first] + events ensures UncutOrHarmless(e, kind) {
      if e in events {
        var k :| 0 <= k < |statements| && e.sql == statements[k] && (e.fate == S.Abandoned ==> fates(k).cut != Whole);
        assert e.fate == S.Abandoned ==> MayBeCut(statements[k], kind);
      }
    }
    UncutIsHarmless(S.Opened(kind, false), [first] + events);
  }

  predicate UncutOrHarmless(e: S.Event, kind: Kind) { e.Stmt? && e.fate == S.Abandoned ==> MayBeCut(e.sql, kind) }

  lemma {:induction false} UncutIsHarmless(v: S.View, events: seq<S.Event>)
    requires forall e | e in events :: UncutOrHarmless(e, v.kind)
    ensures S.HarmlessRun(v, events)
    decreases |events|
  {
    hide S.OpensTxn, S.SetsState, S.Observed, S.Applied;
    if events != [] {
      assert events[0] in events && UncutOrHarmless(events[0], v.kind);
      assert forall e | e in events[1..] :: e in events;
      assert S.ViewAfter(v, events[0]).kind == v.kind by { KindStays(v, events[0]); }
      UncutIsHarmless(S.ViewAfter(v, events[0]), events[1..]);
    }
  }

  lemma KindStays(v: S.View, e: S.Event)
    ensures S.ViewAfter(v, e).kind == v.kind
  {
    hide TxnEffectOf, ChangesContext, Classify, S.ContextSql;
  }

  lemma ScriptIsRun(sql: string, kind: Kind, fates: nat -> Fate, opts: Options)
    ensures RunScript(sql, kind, fates, opts)
      == Run(SplitStatements(sql, kind), 0, kind, fates, opts, RESULT_BYTE_BUDGET)
  {
  }
}
