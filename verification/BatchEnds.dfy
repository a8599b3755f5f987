/** When a batch ends, what it answers and what it tells the session, statement by statement. */
module BatchEnds {
  import opened Text
  import opened Lexer
  import opened Split
  import opened Analysis
  import opened Json
  import opened Batch
  import opened BatchLaws
  import S = Session

  // ------------------------------ one read ------------------------------

  function CellsOf(stream: seq<Item>): (r: seq<seq<Json>>)
    ensures |r| == |stream|
  {
    seq(|stream|, i requires 0 <= i < |stream| => if stream[i].RowItem? then stream[i].cells else [])
  }

  /** The error after `n` rows is met: both caps let the rows in front of it through. */
  predicate MeetsAt(stream: seq<Item>, limit: nat, budget: nat, e: DbError, n: nat) {
    && n < |stream| && n <= limit && stream[n] == ErrItem(e)
    && (forall k :: 0 <= k < n ==> stream[k].RowItem?)
    && (n > 0 ==> RowsSize(CellsOf(stream[..n - 1])) < budget)
  }

  predicate Meets(stream: seq<Item>, limit: nat, budget: nat, e: DbError) {
    exists n :: 0 <= n < |stream| && MeetsAt(stream, limit, budget, e, n)
  }

  /** A read fails exactly on the error it meets; and one cut by its size has used up the budget. */
  lemma CollectedExact(stream: seq<Item>, limit: nat, budget: nat)
    ensures var c := Collect(stream, limit, budget);
      && (forall e :: c.failed == Some(e) <==> Meets(stream, limit, budget, e))
      && (c.bySize ==> RowsSize(c.rows) >= budget)
  {
    hide Collect, RowsSize, MeetsAt, CellsOf;
    CollectedIsPrefix(stream, limit, budget);
    CollectedIsCharged(stream, limit, budget);
    var c := Collect(stream, limit, budget);
    if c.failed.Some? { FailedMeets(stream, limit, budget); }
    forall e | Meets(stream, limit, budget, e) ensures c.failed == Some(e) {
      var n :| 0 <= n < |stream| && MeetsAt(stream, limit, budget, e, n);
      MetFails(stream, limit, budget, e, n);
    }
  }

  lemma FailedMeets(stream: seq<Item>, limit: nat, budget: nat)
    requires Collect(stream, limit, budget).failed.Some?
    ensures var c := Collect(stream, limit, budget);
      |c.rows| < |stream| && MeetsAt(stream, limit, budget, c.failed.value, |c.rows|)
  {
    hide Collect;
    CollectedIsPrefix(stream, limit, budget);
    CollectedIsCharged(stream, limit, budget);
    var c := Collect(stream, limit, budget);
    if c.rows != [] { assert CellsOf(stream[..|c.rows| - 1]) == c.rows[..|c.rows| - 1]; }
  }

  lemma MetFails(stream: seq<Item>, limit: nat, budget: nat, e: DbError, n: nat)
    requires MeetsAt(stream, limit, budget, e, n)
    ensures Collect(stream, limit, budget).failed == Some(e)
  {
    hide Collect;
    CollectedIsPrefix(stream, limit, budget);
    CollectedIsCharged(stream, limit, budget);
    var c := Collect(stream, limit, budget);
    var m := |c.rows|;
    if m < n {
      var before := CellsOf(stream[..n - 1]);
      assert before[..m] == c.rows && before == before[..m] + before[m..];
      RowsSizeConcat(before[..m], before[m..]);
    }
  }

  // ------------------------------ one statement -------------------------

  /** A read that ends in an error, be it of the plain-text repetition of a refused one. */
  predicate ReadEnds(fate: Fate, limit: nat, budget: nat, e: DbError) {
    || (e != TextOnly && Meets(fate.first, limit, budget, e))
    || (Meets(fate.first, limit, budget, TextOnly)
        && Meets(fate.second, limit, Collect(fate.first, limit, budget).budget, e))
  }

  /** What a statement run whole ends in. */
  predicate EndsIn(stmt: string, kind: Kind, fate: Fate, limit: nat, budget: nat, e: DbError) {
    if ReturnsRows(stmt, kind) then ReadEnds(fate, limit, budget, e) else fate.exec == ExecError(e)
  }

  predicate RunsWhole(stmt: string, kind: Kind, fate: Fate, opts: Options) {
    IsSent(stmt, kind, fate, opts) && fate.cut == Whole
  }

  /** The connection dies under a statement. */
  predicate Dies(stmt: string, kind: Kind, fate: Fate, opts: Options, budget: nat) {
    RunsWhole(stmt, kind, fate, opts) && EndsIn(stmt, kind, fate, opts.rowLimit, budget, Connection)
  }

  predicate Fails(stmt: string, kind: Kind, fate: Fate, opts: Options, budget: nat) {
    exists e :: EndsIn(stmt, kind, fate, opts.rowLimit, budget, e)
  }

  /** The user cancels, before a statement is sent or while it runs. */
  predicate Cancels(stmt: string, kind: Kind, fate: Fate, opts: Options) {
    fate.cancelled || (IsSent(stmt, kind, fate, opts) && fate.cut == Canceled)
  }

  /** The rows of a read that was not refused, or of its plain-text repetition, cut by size only when they use up the
      budget. */
  predicate Reads(r: Result, fate: Fate, limit: nat, budget: nat)
    requires r.Rows?
  {
    if Meets(fate.first, limit, budget, TextOnly) then
      Shows(r, fate.second, limit) && (r.bySize ==> RowsSize(r.rows) >= Collect(fate.first, limit, budget).budget)
    else
      Shows(r, fate.first, limit) && (r.bySize ==> RowsSize(r.rows) >= budget)
  }

  /** What a statement is answered with: its count, its rows, or an error. */
  predicate Answers(r: Result, stmt: string, kind: Kind, fate: Fate, opts: Options, budget: nat) {
    if !RunsWhole(stmt, kind, fate, opts) || Fails(stmt, kind, fate, opts, budget) then r == Error(stmt)
    else if ReturnsRows(stmt, kind) then r.Rows? && r.sql == stmt && Reads(r, fate, opts.rowLimit, budget)
    else fate.exec.Affected? && r == Exec(stmt, fate.exec.n)
  }

  /** What the session is told of a statement that was sent. */
  function FateOf(stmt: string, kind: Kind, fate: Fate, opts: Options, budget: nat): S.Fate {
    if fate.cut != Whole then S.Abandoned
    else if Fails(stmt, kind, fate, opts, budget) then S.Failed
    else S.Done
  }

  lemma ReplyIs(stmt: string, kind: Kind, fate: Fate, limit: nat, budget: nat)
    ensures var reply := RunOne(ReturnsRows(stmt, kind), fate, limit, budget).0;
      && (forall e :: reply == ErrReply(e) <==> EndsIn(stmt, kind, fate, limit, budget, e))
      && (reply.RowsReply? ==>
        && ReturnsRows(stmt, kind)
        && Reads(Rows(stmt, reply.c.rows, reply.c.truncated, reply.c.bySize), fate, limit, budget))
      && (reply.CountReply? ==> !ReturnsRows(stmt, kind) && fate.exec == Affected(reply.n))
  {
    hide Collect, Meets, ReturnsRows, RowsSize;
    CollectedIsPrefix(fate.first, limit, budget);
    CollectedIsPrefix(fate.second, limit, Collect(fate.first, limit, budget).budget);
    CollectedExact(fate.first, limit, budget);
    CollectedExact(fate.second, limit, Collect(fate.first, limit, budget).budget);
  }

  lemma StepIs(stmt: string, kind: Kind, fate: Fate, opts: Options, budget: nat)
    ensures var step := StatementStep(stmt, kind, fate, opts, budget);
      && (step.next == Broken <==> Dies(stmt, kind, fate, opts, budget))
      && (step.next == Halt <==> Cancels(stmt, kind, fate, opts))
      && Answers(step.result, stmt, kind, fate, opts, budget)
      && step.sent == (if IsSent(stmt, kind, fate, opts) then Some(FateOf(stmt, kind, fate, opts, budget)) else None)
      && step.budget == Charge(budget, RowsSize(Decoded(stmt, kind, fate, opts, budget)))
  {
    hide RunOne, IsReadOnlySafe, ReturnsRows, EndsIn, Decoded, RowsSize, Reads;
    StatementCharges(stmt, kind, fate, opts, budget);
    ReplyIs(stmt, kind, fate, opts.rowLimit, budget);
  }

  // ------------------------------ the batch -----------------------------

  /** The budget left when it is statement `k`'s turn: every row decoded before is charged. */
  function LeftAt(
      statements: seq<string>, i: nat, kind: Kind, fates: nat -> Fate, opts: Options, budget: nat, k: nat): nat
    requires i <= k <= |statements|
    decreases k - i
  {
    if k == i then budget
    else
      LeftAt(statements, i + 1, kind, fates, opts,
        Charge(budget, RowsSize(Decoded(statements[i], kind, fates(i), opts, budget))), k)
  }

  predicate DiesAt(
    statements: seq<string>, i: nat, kind: Kind, fates: nat -> Fate, opts: Options, budget: nat, k: nat)
    requires i <= k < |statements|
  {
    Dies(statements[k], kind, fates(k), opts, LeftAt(statements, i, kind, fates, opts, budget, k))
  }

  predicate CancelsAt(statements: seq<string>, kind: Kind, fates: nat -> Fate, opts: Options, k: nat)
    requires k < |statements|
  {
    Cancels(statements[k], kind, fates(k), opts)
  }

  /** A batch ends with its statements, or with the first under which the connection dies or the user cancels; in the
      first case, and no other, it is broken. */
  predicate EndsWell(
    statements: seq<string>, i: nat, kind: Kind, fates: nat -> Fate, opts: Options, budget: nat, o: Outcome)
    requires i <= |statements|
  {
    var n := i + |o.results|;
    && n <= |statements|
    && (forall k :: i <= k < n - 1 ==>
      !DiesAt(statements, i, kind, fates, opts, budget, k) && !CancelsAt(statements, kind, fates, opts, k))
    && (n < |statements| ==> n > i)
    && (n < |statements| ==>
      DiesAt(statements, i, kind, fates, opts, budget, n - 1) || CancelsAt(statements, kind, fates, opts, n - 1))
    && (o.broken <==> n > i && DiesAt(statements, i, kind, fates, opts, budget, n - 1))
  }

  lemma {:induction false} BatchEndsWell(
      statements: seq<string>, i: nat, kind: Kind, fates: nat -> Fate, opts: Options, budget: nat)
    requires i <= |statements|
    ensures EndsWell(statements, i, kind, fates, opts, budget, Run(statements, i, kind, fates, opts, budget))
    decreases |statements| - i
  {
    hide StatementStep, Dies, Cancels, Decoded, RowsSize, EndsWell, SentAt, EventsOf;
    if i == |statements| {
      NoneEnds(statements, kind, fates, opts, budget);
    } else {
      var step := StatementStep(statements[i], kind, fates(i), opts, budget);
      StepIs(statements[i], kind, fates(i), opts, budget);
      if step.next == Go {
        BatchEndsWell(statements, i + 1, kind, fates, opts, step.budget);
        EndsFirst(statements, i, kind, fates, opts, budget, step,
          Run(statements, i + 1, kind, fates, opts, step.budget));
      } else {
        EndsOne(statements, i, kind, fates, opts, budget, step);
      }
    }
  }

  /** What a step says of the end of its batch. */
  predicate StepEnds(stmt: string, kind: Kind, fate: Fate, opts: Options, budget: nat, step: Step) {
    && (step.next == Broken <==> Dies(stmt, kind, fate, opts, budget))
    && (step.next == Halt <==> Cancels(stmt, kind, fate, opts))
  }

  lemma EndsOne(
      statements: seq<string>, i: nat, kind: Kind, fates: nat -> Fate, opts: Options, budget: nat, step: Step)
    requires i < |statements| && step.next != Go && StepEnds(statements[i], kind, fates(i), opts, budget, step)
    ensures EndsWell(statements, i, kind, fates, opts, budget,
      Outcome([step.result], step.next == Broken, SentAt(i, step), EventsOf(statements[i], step)))
  {
    hide Dies, Cancels, Decoded, RowsSize, SentAt, EventsOf;
  }

  lemma EndsFirst(
      statements: seq<string>, i: nat, kind: Kind, fates: nat -> Fate, opts: Options, budget: nat, step: Step,
      rest: Outcome)
    requires i < |statements| && step.next == Go && StepEnds(statements[i], kind, fates(i), opts, budget, step)
    requires step.budget == Charge(budget, RowsSize(Decoded(statements[i], kind, fates(i), opts, budget)))
    requires EndsWell(statements, i + 1, kind, fates, opts, step.budget, rest)
    ensures EndsWell(statements, i, kind, fates, opts, budget,
      Outcome([step.result] + rest.results, rest.broken, SentAt(i, step) + rest.sent,
        EventsOf(statements[i], step) + rest.events))
  {
    hide Dies, Cancels, Decoded, RowsSize, SentAt, EventsOf, Charge;
    forall k | i < k < |statements|
      ensures DiesAt(statements, i, kind, fates, opts, budget, k)
        == DiesAt(statements, i + 1, kind, fates, opts, step.budget, k)
    {}
    assert |[step.result] + rest.results| == 1 + |rest.results|;
    assert rest.results == [] ==> i + 1 == |statements|;
  }

  lemma NoneEnds(statements: seq<string>, kind: Kind, fates: nat -> Fate, opts: Options, budget: nat)
    ensures EndsWell(statements, |statements|, kind, fates, opts, budget, Outcome([], false, [], []))
  {
  }

  /** In short: a batch is broken exactly when the connection died under a statement it answered, the last of all. */
  lemma BrokenIff(sql: string, kind: Kind, fates: nat -> Fate, opts: Options)
    ensures var statements, o := SplitStatements(sql, kind), RunScript(sql, kind, fates, opts);
      && |o.results| <= |statements|
      && (o.broken <==>
        exists k :: 0 <= k < |o.results| && DiesAt(statements, 0, kind, fates, opts, RESULT_BYTE_BUDGET, k))
      && (o.broken ==> o.sent != [] && o.sent[|o.sent| - 1] == |o.results| - 1)
  {
    hide Run, SplitStatements, DiesAt;
    var statements := SplitStatements(sql, kind);
    BatchEndsWell(statements, 0, kind, fates, opts, RESULT_BYTE_BUDGET);
    SentOnceInOrder(statements, 0, kind, fates, opts, RESULT_BYTE_BUDGET);
  }

  function EventAt(
      statements: seq<string>, i: nat, kind: Kind, fates: nat -> Fate, opts: Options, budget: nat, k: nat): S.Event
    requires i <= k < |statements|
  {
    S.Stmt(statements[k],
      FateOf(statements[k], kind, fates(k), opts, LeftAt(statements, i, kind, fates, opts, budget, k)))
  }

  predicate AnswersAt(
    statements: seq<string>, i: nat, kind: Kind, fates: nat -> Fate, opts: Options, budget: nat, rs: seq<Result>,
    k: nat)
    requires i <= k < |statements| && k < i + |rs|
  {
    Answers(rs[k - i], statements[k], kind, fates(k), opts, LeftAt(statements, i, kind, fates, opts, budget, k))
  }

  predicate AnswersAll(
    statements: seq<string>, i: nat, kind: Kind, fates: nat -> Fate, opts: Options, budget: nat, rs: seq<Result>)
    requires i <= |statements|
  {
    && i + |rs| <= |statements|
    && forall k :: i <= k < i + |rs| ==> AnswersAt(statements, i, kind, fates, opts, budget, rs, k)
  }

  /** Of the statements up to `n`, those neither cancelled nor refused. */
  ghost predicate SendsAll(
    statements: seq<string>, i: nat, n: nat, kind: Kind, fates: nat -> Fate, opts: Options, sent: seq<nat>)
  {
    n <= |statements| && forall k :: k in sent <==> i <= k < n && IsSent(statements[k], kind, fates(k), opts)
  }

  predicate TellsAll(
    statements: seq<string>, i: nat, kind: Kind, fates: nat -> Fate, opts: Options, budget: nat, sent: seq<nat>,
    events: seq<S.Event>)
  {
    && |events| == |sent|
    && forall j :: 0 <= j < |sent| ==>
      i <= sent[j] < |statements| && events[j] == EventAt(statements, i, kind, fates, opts, budget, sent[j])
  }

  /** Every statement reached is answered, is sent unless it is cancelled or refused, and is told to the session. */
  lemma {:induction false} BatchTells(
      statements: seq<string>, i: nat, kind: Kind, fates: nat -> Fate, opts: Options, budget: nat)
    requires i <= |statements|
    ensures var o := Run(statements, i, kind, fates, opts, budget);
      && AnswersAll(statements, i, kind, fates, opts, budget, o.results)
      && SendsAll(statements, i, i + |o.results|, kind, fates, opts, o.sent)
      && TellsAll(statements, i, kind, fates, opts, budget, o.sent, o.events)
    decreases |statements| - i
  {
    hide StatementStep, Answers, FateOf, IsSent, Decoded, RowsSize, SentAt, EventsOf, AnswersAll, SendsAll, TellsAll;
    if i == |statements| {
      NoneTold(statements, kind, fates, opts, budget);
    } else {
      var step := StatementStep(statements[i], kind, fates(i), opts, budget);
      StepIs(statements[i], kind, fates(i), opts, budget);
      var sent, events := SentAt(i, step), EventsOf(statements[i], step);
      OneTold(statements, i, kind, fates, opts, budget, step);
      if step.next == Go {
        BatchTells(statements, i + 1, kind, fates, opts, step.budget);
        var rest := Run(statements, i + 1, kind, fates, opts, step.budget);
        AnswersFirst(statements, i, kind, fates, opts, budget, step, rest.results);
        SendsFirst(statements, i, i + 1 + |rest.results|, kind, fates, opts, sent, rest.sent);
        TellsFirst(statements, i, kind, fates, opts, budget, step.budget, sent, events, rest.sent, rest.events);
      }
    }
  }

  lemma NoneTold(statements: seq<string>, kind: Kind, fates: nat -> Fate, opts: Options, budget: nat)
    ensures var i := |statements|;
      && AnswersAll(statements, i, kind, fates, opts, budget, [])
      && SendsAll(statements, i, i, kind, fates, opts, [])
      && TellsAll(statements, i, kind, fates, opts, budget, [], [])
  {
  }

  lemma OneTold(
      statements: seq<string>, i: nat, kind: Kind, fates: nat -> Fate, opts: Options, budget: nat, step: Step)
    requires i < |statements| && Answers(step.result, statements[i], kind, fates(i), opts, budget)
    requires step.sent ==
      if IsSent(statements[i], kind, fates(i), opts) then Some(FateOf(statements[i], kind, fates(i), opts, budget))
      else None
    ensures AnswersAll(statements, i, kind, fates, opts, budget, [step.result])
    ensures SendsAll(statements, i, i + 1, kind, fates, opts, SentAt(i, step))
    ensures TellsAll(statements, i, kind, fates, opts, budget, SentAt(i, step), EventsOf(statements[i], step))
  {
    hide Answers, FateOf, IsSent, Decoded, RowsSize;
  }

  lemma AnswersFirst(
      statements: seq<string>, i: nat, kind: Kind, fates: nat -> Fate, opts: Options, budget: nat, step: Step,
      rest: seq<Result>)
    requires i < |statements| && AnswersAll(statements, i, kind, fates, opts, budget, [step.result])
    requires step.budget == Charge(budget, RowsSize(Decoded(statements[i], kind, fates(i), opts, budget)))
    requires AnswersAll(statements, i + 1, kind, fates, opts, step.budget, rest)
    ensures AnswersAll(statements, i, kind, fates, opts, budget, [step.result] + rest)
  {
    hide Answers, Decoded, RowsSize, Charge;
    var rs := [step.result] + rest;
    assert AnswersAt(statements, i, kind, fates, opts, budget, [step.result], i);
    forall k | i < k < i + |rs| ensures AnswersAt(statements, i, kind, fates, opts, budget, rs, k) {
      assert rs[k - i] == rest[k - (i + 1)];
      assert AnswersAt(statements, i + 1, kind, fates, opts, step.budget, rest, k);
    }
  }

  lemma SendsFirst(
      statements: seq<string>, i: nat, n: nat, kind: Kind, fates: nat -> Fate, opts: Options, first: seq<nat>,
      rest: seq<nat>)
    requires i < n && SendsAll(statements, i, i + 1, kind, fates, opts, first)
    requires SendsAll(statements, i + 1, n, kind, fates, opts, rest)
    ensures SendsAll(statements, i, n, kind, fates, opts, first + rest)
  {
    hide IsSent;
    assert forall k :: k in first + rest <==> k in first || k in rest;
  }

  lemma TellsFirst(
      statements: seq<string>, i: nat, kind: Kind, fates: nat -> Fate, opts: Options, budget: nat, left: nat,
      sent: seq<nat>, events: seq<S.Event>, more: seq<nat>, rest: seq<S.Event>)
    requires i < |statements| && left == Charge(budget, RowsSize(Decoded(statements[i], kind, fates(i), opts, budget)))
    requires TellsAll(statements, i, kind, fates, opts, budget, sent, events)
    requires TellsAll(statements, i + 1, kind, fates, opts, left, more, rest)
    ensures TellsAll(statements, i, kind, fates, opts, budget, sent + more, events + rest)
  {
    hide FateOf, Decoded, RowsSize, Charge;
    forall j | 0 <= j < |more|
      ensures EventAt(statements, i, kind, fates, opts, budget, more[j])
        == EventAt(statements, i + 1, kind, fates, opts, left, more[j])
    {}
  }
}
