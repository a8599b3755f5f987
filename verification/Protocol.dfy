/** The editor slot under every interleaving of runs, idle timers and closes. The steps of one task are
    its stretches between two points where another task may come in; only the holder of the editor lock
    touches the slot and the notice. */
module Protocol {
  import opened Text
  import opened Lexer
  import Editor
  import Batch
  import S = Session

  /** What a run tells its user: that a transaction was lost under it, the idle notice with this
      number, or nothing. */
  datatype Told = Lost | Idle(id: nat) | Silent

  datatype Task =
    // a run: the lock taken, the batch over, the notice taken, the lock given back, answered or failed
    | Locked
    | Worked(local: bool)
    | Telling(told: Told)
    | Unlocked(told: Told)
    | Answered(told: Told)
    | Failed
    // a timer: asleep, past its epoch check, session taken, notice set, over
    | Asleep(epoch: nat)
    | Due(epoch: nat)
    | Took(open: bool)
    | Posted
    | Over
    // a close: waiting for the lock, session taken, over
    | Waiting
    | Closing
    | Closed

  /** Idle notices are numbered as they are set; `delivered` are those handed to a run, in order. */
  datatype Sys = Sys(kind: Kind, slot: Option<Editor.Sess>, notice: Option<nat>, lock: Option<nat>, epoch: nat,
                     tasks: map<nat, Task>, posted: nat, delivered: seq<nat>)

  datatype Label =
    | StartRun(t: nat)
    | Work(t: nat, req: Editor.Request, w: Editor.World)
    | TakeNotice(t: nat)
    | UnlockRun(t: nat)
    | Answer(t: nat, timer: nat)
    | Check(t: nat)
    | Fire(t: nat)
    | Post(t: nat)
    | UnlockTimer(t: nat)
    | StartClose(t: nat)
    | TakeForClose(t: nat)
    | UnlockClose(t: nat)

  function Start(kind: Kind): Sys { Sys(kind, None, None, None, 0, map[], 0, []) }

  predicate IsAt(s: Sys, t: nat, task: Task) { t in s.tasks && s.tasks[t] == task }

  predicate IsDue(s: Sys, t: nat) { t in s.tasks && s.tasks[t].Due? }

  function Move(s: Sys, t: nat, task: Task): Sys { s.(tasks := s.tasks[t := task]) }

  predicate OpenIn(slot: Option<Editor.Sess>) { slot.Some? && slot.value.view.inTransaction }

  /** One step, where it is possible. */
  function Next(s: Sys, l: Label): Option<Sys> {
    match l
    case StartRun(t) =>
      // a second run is refused, not queued
      if t in s.tasks || s.lock.Some? then None else Some(Move(s, t, Locked).(lock := Some(t)))
    case Work(t, req, w) =>
      if !IsAt(s, t, Locked) then None
      else (
        match Editor.WorkOf(s.kind, s.slot, req, w)
        case Err(slot, _) => Some(Move(s, t, Failed).(slot := slot, lock := None))
        case Ok(slot, local, _, _, _) => Some(Move(s, t, Worked(local.Some?)).(slot := slot)))
    case TakeNotice(t) =>
      if IsAt(s, t, Worked(true)) then Some(Move(s, t, Telling(Lost)))
      else if !IsAt(s, t, Worked(false)) then None
      else if s.notice.None? then Some(Move(s, t, Telling(Silent)))
      else Some(Move(s, t, Telling(Idle(s.notice.value))).(notice := None, delivered := s.delivered + [s.notice.value]))
    case UnlockRun(t) =>
      if t in s.tasks && s.tasks[t].Telling? then Some(Move(s, t, Unlocked(s.tasks[t].told)).(lock := None)) else None
    case Answer(t, timer) =>
      if t in s.tasks && s.tasks[t].Unlocked? && timer !in s.tasks
      then Some(Move(Move(s, t, Answered(s.tasks[t].told)), timer, Asleep(s.epoch + 1)).(epoch := s.epoch + 1))
      else None
    case Check(t) =>
      if t in s.tasks && s.tasks[t].Asleep?
      then Some(Move(s, t, if s.tasks[t].epoch == s.epoch then Due(s.epoch) else Over)) else None
    case Fire(t) =>
      if !IsDue(s, t) then None
      else if s.lock.Some? then Some(Move(s, t, Over))
      else Some(Move(s, t, Took(OpenIn(s.slot))).(lock := Some(t), slot := None))
    case Post(t) =>
      if IsAt(s, t, Took(true)) then Some(Move(s, t, Posted).(notice := Some(s.posted), posted := s.posted + 1))
      else if IsAt(s, t, Took(false)) then Some(Move(s, t, Posted))
      else None
    case UnlockTimer(t) => if IsAt(s, t, Posted) then Some(Move(s, t, Over).(lock := None)) else None
    case StartClose(t) => if t in s.tasks then None else Some(Move(s, t, Waiting))
    case TakeForClose(t) =>
      if IsAt(s, t, Waiting) && s.lock.None? then Some(Move(s, t, Closing).(lock := Some(t), slot := None)) else None
    case UnlockClose(t) => if IsAt(s, t, Closing) then Some(Move(s, t, Closed).(lock := None)) else None
  }

  function Steps(s: Sys, labels: seq<Label>): Option<Sys>
    decreases |labels|
  {
    if labels == [] then Some(s)
    else match Next(s, labels[0])
      case None => None
      case Some(t) => Steps(t, labels[1..])
  }

  // ------------------------------ what every step keeps -----------------

  predicate Holding(task: Task) {
    task.Locked? || task.Worked? || task.Telling? || task.Took? || task.Posted? || task.Closing?
  }

  /** The lock has one holder. */
  predicate OneHolder(s: Sys) {
    && (s.lock.Some? ==> s.lock.value in s.tasks && Holding(s.tasks[s.lock.value]))
    && (forall t | t in s.tasks :: Holding(s.tasks[t]) ==> s.lock == Some(t))
  }

  /** What holds of slot and notice while the holder is where it is; `None` when the lock is free. */
  predicate NoticeFits(slot: Option<Editor.Sess>, notice: Option<nat>, holder: Option<Task>) {
    match holder
    case Some(Worked(local)) => notice.Some? ==> !local
    case Some(Telling(_)) => notice.None?
    case Some(Took(open)) => slot.None? && (open ==> notice.None?)
    case Some(Closing) => slot.None?
    case _ => notice.Some? ==> slot.None?
  }

  function Holder(s: Sys): Option<Task> {
    if s.lock.Some? && s.lock.value in s.tasks then Some(s.tasks[s.lock.value]) else None
  }

  function UpTo(n: nat): (r: seq<nat>)
    ensures |r| == n
  {
    seq(n, i => i)
  }

  /** Every notice set was delivered, once and in order, but for the one pending. */
  predicate Accounted(s: Sys) {
    if s.notice.Some? then s.posted == s.notice.value + 1 && s.delivered == UpTo(s.notice.value)
    else s.delivered == UpTo(s.posted)
  }

  predicate Inv(s: Sys) { OneHolder(s) && NoticeFits(s.slot, s.notice, Holder(s)) && Accounted(s) }

  lemma MoveHolder(s: Sys, t: nat, task: Task)
    requires OneHolder(s) && t in s.tasks && Holding(s.tasks[t]) && Holding(task)
    ensures OneHolder(Move(s, t, task)) && Holder(Move(s, t, task)) == Some(task)
  {
  }

  lemma Release(s: Sys, t: nat, task: Task)
    requires OneHolder(s) && t in s.tasks && Holding(s.tasks[t]) && !Holding(task)
    ensures OneHolder(Move(s, t, task).(lock := None)) && Holder(Move(s, t, task).(lock := None)) == None
  {
  }

  lemma Acquire(s: Sys, t: nat, task: Task)
    requires OneHolder(s) && s.lock.None? && Holding(task)
    ensures OneHolder(Move(s, t, task).(lock := Some(t))) && Holder(Move(s, t, task).(lock := Some(t))) == Some(task)
  {
  }

  lemma Aside(s: Sys, t: nat, task: Task)
    requires OneHolder(s) && !Holding(task) && (t in s.tasks ==> !Holding(s.tasks[t]))
    ensures OneHolder(Move(s, t, task)) && Holder(Move(s, t, task)) == Holder(s)
  {
  }

  lemma UpToNext(n: nat)
    ensures UpTo(n) + [n] == UpTo(n + 1)
  {
  }

  lemma WorkKeeps(s: Sys, l: Label)
    requires Inv(s) && l.Work? && Next(s, l).Some?
    ensures Inv(Next(s, l).value)
  {
    hide OneHolder, Editor.WorkOf, Holding;
    var out := Editor.WorkOf(s.kind, s.slot, l.req, l.w);
    Editor.EmptySlotHasNoNews(s.kind, s.slot, l.req, l.w);
    IsHolding(s, l.t);
    if out.Err? {
      Release(s, l.t, Failed);
      SlotAside(Move(s, l.t, Failed).(lock := None), out.slot);
    } else {
      MoveHolder(s, l.t, Worked(out.local.Some?));
      SlotAside(Move(s, l.t, Worked(out.local.Some?)), out.slot);
    }
  }

  lemma SlotAside(s: Sys, slot: Option<Editor.Sess>)
    ensures OneHolder(s.(slot := slot)) == OneHolder(s)
  {
  }

  lemma IsHolding(s: Sys, t: nat)
    requires OneHolder(s) && IsAt(s, t, Locked)
    ensures Holding(s.tasks[t]) && s.lock == Some(t) && Holder(s) == Some(Locked)
    ensures forall local :: Holding(Worked(local))
    ensures !Holding(Failed)
  {
  }

  lemma RunStepKeeps(s: Sys, l: Label)
    requires Inv(s) && Next(s, l).Some? && (l.StartRun? || l.UnlockRun? || l.Answer?)
    ensures Inv(Next(s, l).value)
  {
    hide Editor.WorkOf;
    match l
    case StartRun(t) => Acquire(s, t, Locked);
    case UnlockRun(t) => Release(s, t, Unlocked(s.tasks[t].told));
    case Answer(t, timer) =>
      Aside(s, t, Answered(s.tasks[t].told));
      Aside(Move(s, t, Answered(s.tasks[t].told)), timer, Asleep(s.epoch + 1));
  }

  lemma TakeKeeps(s: Sys, t: nat)
    requires Inv(s) && Next(s, TakeNotice(t)).Some?
    ensures Inv(Next(s, TakeNotice(t)).value)
  {
    hide Editor.WorkOf;
    if s.tasks[t].local {
      MoveHolder(s, t, Telling(Lost));
    } else if s.notice.None? {
      MoveHolder(s, t, Telling(Silent));
    } else {
      MoveHolder(s, t, Telling(Idle(s.notice.value)));
      UpToNext(s.notice.value);
    }
  }

  lemma TimerStepKeeps(s: Sys, l: Label)
    requires Inv(s) && Next(s, l).Some? && (l.Check? || l.Fire? || l.Post? || l.UnlockTimer?)
    ensures Inv(Next(s, l).value)
  {
    hide Editor.WorkOf;
    match l
    case Check(t) =>
      Aside(s, t, Due(s.epoch));
      Aside(s, t, Over);
    case Fire(t) =>
      if s.lock.Some? { Aside(s, t, Over); } else { Acquire(s, t, Took(OpenIn(s.slot))); }
    case Post(t) => MoveHolder(s, t, Posted);
    case UnlockTimer(t) => Release(s, t, Over);
  }

  lemma CloseStepKeeps(s: Sys, l: Label)
    requires Inv(s) && Next(s, l).Some? && (l.StartClose? || l.TakeForClose? || l.UnlockClose?)
    ensures Inv(Next(s, l).value)
  {
    hide Editor.WorkOf;
    match l
    case StartClose(t) => Aside(s, t, Waiting);
    case TakeForClose(t) => Acquire(s, t, Closing);
    case UnlockClose(t) => Release(s, t, Closed);
  }

  /** The invariant of the protocol is kept by every step. */
  lemma StepKeeps(s: Sys, l: Label)
    requires Inv(s) && Next(s, l).Some?
    ensures Inv(Next(s, l).value)
  {
    hide Inv, Next;
    if l.Work? {
      WorkKeeps(s, l);
    } else if l.TakeNotice? {
      TakeKeeps(s, l.t);
    } else if l.StartRun? || l.UnlockRun? || l.Answer? {
      RunStepKeeps(s, l);
    } else if l.Check? || l.Fire? || l.Post? || l.UnlockTimer? {
      TimerStepKeeps(s, l);
    } else {
      CloseStepKeeps(s, l);
    }
  }

  /** Over every interleaving: notices are delivered once each, in the order they were set, and while
      the lock is free a pending notice means an empty slot. */
  lemma {:induction false} EveryInterleavingKeeps(s: Sys, labels: seq<Label>)
    requires Inv(s) && Steps(s, labels).Some?
    ensures var t := Steps(s, labels).value;
      && Inv(t)
      && (t.lock.None? && t.notice.Some? ==> t.slot.None?)
      && t.delivered + (if t.notice.Some? then [t.notice.value] else []) == UpTo(t.posted)
    decreases |labels|
  {
    hide Next, OneHolder;
    if labels == [] {
      if s.notice.Some? { UpToNext(s.notice.value); }
    } else {
      StepKeeps(s, labels[0]);
      EveryInterleavingKeeps(Next(s, labels[0]).value, labels[1..]);
    }
  }

  lemma StartKeeps(kind: Kind)
    ensures Inv(Start(kind))
  {
  }

  /** A notice is never overwritten. */
  lemma NeverOverwritten(s: Sys, t: nat)
    requires Inv(s) && IsAt(s, t, Took(true))
    ensures s.notice.None?
  {
  }

  /** Only the holder of the editor lock touches the slot and the notice. */
  lemma HolderAlone(s: Sys, l: Label)
    requires OneHolder(s) && Next(s, l).Some?
    ensures var z := Next(s, l).value;
      || (z.slot == s.slot && z.notice == s.notice)
      || s.lock == Some(l.t) || (s.lock.None? && z.lock == Some(l.t))
  {
    hide Editor.WorkOf;
  }

  lemma TookWaits(s: Sys, l: Label, t: nat, open: bool)
    requires OneHolder(s) && IsAt(s, t, Took(open)) && Next(s, l).Some? && l != Post(t)
    ensures IsAt(Next(s, l).value, t, Took(open)) && Next(s, l).value.posted == s.posted
  {
    hide Editor.WorkOf;
  }

  lemma PostedGrows(s: Sys, l: Label)
    requires Next(s, l).Some?
    ensures Next(s, l).value.posted >= s.posted
  {
    hide Editor.WorkOf;
  }

  /** A timer that took a session with an open transaction posts a notice, and posts nothing before. */
  lemma {:induction false} PostsIffOpen(s: Sys, labels: seq<Label>, t: nat, open: bool)
    requires Inv(s) && IsAt(s, t, Took(open)) && Steps(s, labels).Some?
    ensures var z := Steps(s, labels).value;
      if Post(t) in labels then z.posted >= s.posted + (if open then 1 else 0)
      else IsAt(z, t, Took(open)) && z.posted == s.posted
    decreases |labels|
  {
    hide Next, Inv, IsAt;
    if labels != [] {
      var l, rest := labels[0], labels[1..];
      var a := Next(s, l).value;
      assert l in labels && (forall x | x in rest :: x in labels) && forall x | x in labels :: x == l || x in rest;
      StepKeeps(s, l);
      if l == Post(t) {
        PostOpen(s, t, open);
        PostedNeverFalls(a, rest);
      } else {
        InvHolder(s);
        TookWaits(s, l, t, open);
        PostsIffOpen(a, rest, t, open);
      }
    }
  }

  lemma InvHolder(s: Sys)
    requires Inv(s)
    ensures OneHolder(s) && Accounted(s)
  {
  }

  lemma PostOpen(s: Sys, t: nat, open: bool)
    requires IsAt(s, t, Took(open))
    ensures Next(s, Post(t)).Some?
    ensures var z := Next(s, Post(t)).value;
      && z.posted == s.posted + (if open then 1 else 0)
      && z.notice == if open then Some(s.posted) else s.notice
  {
  }

  lemma {:induction false} PostedNeverFalls(s: Sys, labels: seq<Label>)
    requires Steps(s, labels).Some?
    ensures Steps(s, labels).value.posted >= s.posted
    decreases |labels|
  {
    hide Next;
    if labels != [] {
      PostedGrows(s, labels[0]);
      PostedNeverFalls(Next(s, labels[0]).value, labels[1..]);
    }
  }

  /** No silent idle close: once a timer that fired on a session with an open transaction has come to its notice, that
      notice is pending, or was handed to a run, whatever came in between. */
  lemma IdleLossIsTold(s: Sys, labels: seq<Label>, t: nat)
    requires Inv(s) && IsDue(s, t) && s.lock.None? && OpenIn(s.slot)
    requires Steps(s, [Fire(t)] + labels).Some? && Post(t) in labels
    ensures var z := Steps(s, [Fire(t)] + labels).value;
      z.notice == Some(s.posted) || s.posted in z.delivered
  {
    hide Next, Inv, Steps;
    DueFires(s, t);
    var a := Next(s, Fire(t)).value;
    StepKeeps(s, Fire(t));
    StepsFirst(s, Fire(t), labels);
    PostsIffOpen(a, labels, t, true);
    EveryInterleavingKeeps(a, labels);
    var z := Steps(a, labels).value;
    InvHolder(z);
    AccountedFor(z, s.posted);
  }

  lemma AccountedFor(s: Sys, n: nat)
    requires Accounted(s) && n < s.posted
    ensures s.notice == Some(n) || n in s.delivered
  {
    var m := if s.notice.Some? then s.notice.value else s.posted;
    if n < m { assert UpTo(m)[n] == n; }
  }

  /** A run leaves in the slot what its work comes to, whether it succeeds or fails, and a failed one gives back the
      lock with nothing to tell. */
  lemma RunLeavesItsWork(s: Sys, t: nat, req: Editor.Request, w: Editor.World)
    requires Inv(s) && Next(s, Work(t, req, w)).Some?
    ensures var out, z := Editor.WorkOf(s.kind, s.slot, req, w), Next(s, Work(t, req, w)).value;
      && z.slot == out.slot && z.notice == s.notice
      && IsAt(z, t, if out.Ok? then Worked(out.local.Some?) else Failed)
      && z.lock == if out.Ok? then Some(t) else None
  {
    hide Editor.WorkOf;
    IsHolding(s, t);
  }

  /** A pending notice stays until a run takes it, and that run has it to tell. */
  lemma PendingStays(s: Sys, l: Label)
    requires Inv(s) && s.notice.Some? && Next(s, l).Some?
    ensures var t := Next(s, l).value;
      if l.TakeNotice? then IsAt(t, l.t, Telling(Idle(s.notice.value))) && s.notice.value in t.delivered
      else t.notice == s.notice && t.delivered == s.delivered
  {
    hide Editor.WorkOf;
  }

  /** What a run has to tell once it took the notice. */
  function ToldBy(task: Task): Option<Told> {
    match task
    case Telling(told) => Some(told)
    case Unlocked(told) => Some(told)
    case Answered(told) => Some(told)
    case _ => None
  }

  /** A step moves its own task and, at most, starts a timer. */
  lemma OthersStay(s: Sys, l: Label, t: nat)
    requires Next(s, l).Some? && t in s.tasks && t != l.t
    ensures t in Next(s, l).value.tasks && Next(s, l).value.tasks[t] == s.tasks[t]
  {
    hide Editor.WorkOf;
  }

  lemma OwnTaskMoves(s: Sys, l: Label)
    requires Next(s, l).Some? && l.t in s.tasks
    ensures l.t in Next(s, l).value.tasks
    ensures var a, b := ToldBy(s.tasks[l.t]), ToldBy(Next(s, l).value.tasks[l.t]);
      (a.Some? ==> b == a) && (a.None? && b.Some? ==> l.TakeNotice?)
  {
    hide Editor.WorkOf;
  }

  /** What a run has to tell it goes on to answer; a run only comes to tell by taking the notice. */
  lemma TellingStays(s: Sys, l: Label, t: nat)
    requires Next(s, l).Some? && t in s.tasks
    ensures t in Next(s, l).value.tasks
    ensures ToldBy(s.tasks[t]).Some? ==> ToldBy(Next(s, l).value.tasks[t]) == ToldBy(s.tasks[t])
    ensures ToldBy(s.tasks[t]).None? && ToldBy(Next(s, l).value.tasks[t]).Some? ==> l == TakeNotice(t)
  {
    hide Next, ToldBy;
    if t == l.t { OwnTaskMoves(s, l); } else { OthersStay(s, l, t); }
  }

  lemma NewTasksTellNothing(s: Sys, l: Label, t: nat)
    requires Next(s, l).Some? && t !in s.tasks && t in Next(s, l).value.tasks
    ensures ToldBy(Next(s, l).value.tasks[t]) == None
  {
    hide Editor.WorkOf;
  }

  /** The first later run that answers delivers the pending notice: as long as the notice is not
      delivered it is pending, and no run has come to tell anything that did not before. */
  lemma {:induction false} FirstAnswerDelivers(s: Sys, labels: seq<Label>, n: nat)
    requires Inv(s) && s.notice == Some(n) && Steps(s, labels).Some? && n !in Steps(s, labels).value.delivered
    ensures var z := Steps(s, labels).value;
      && z.notice == Some(n)
      && forall t | t in z.tasks && ToldBy(z.tasks[t]).Some? :: t in s.tasks && ToldBy(s.tasks[t]).Some?
    decreases |labels|
  {
    hide Next, Inv;
    if labels != [] {
      var l, a, z := labels[0], Next(s, labels[0]).value, Steps(s, labels).value;
      StepKeeps(s, l);
      PendingStays(s, l);
      DeliveredStays(a, labels[1..], n);
      FirstAnswerDelivers(a, labels[1..], n);
      forall t | t in z.tasks && ToldBy(z.tasks[t]).Some? ensures t in s.tasks && ToldBy(s.tasks[t]).Some? {
        if t in s.tasks { TellingStays(s, l, t); } else { NewTasksTellNothing(s, l, t); }
      }
    }
  }

  lemma {:induction false} DeliveredStays(s: Sys, labels: seq<Label>, n: nat)
    requires Steps(s, labels).Some?
    ensures n in s.delivered ==> n in Steps(s, labels).value.delivered
    decreases |labels|
  {
    hide Editor.WorkOf;
    if labels != [] {
      DeliveredStays(Next(s, labels[0]).value, labels[1..], n);
    }
  }

  // ------------------------------ which timer fires ---------------------
  // Every answer moves the epoch on and arms the timer of that epoch: the last one armed has the current epoch.

  function Answers(labels: seq<Label>): nat {
    if labels == [] then 0 else (if labels[0].Answer? then 1 else 0) + Answers(labels[1..])
  }

  lemma StepEpoch(s: Sys, l: Label)
    requires Next(s, l).Some?
    ensures Next(s, l).value.epoch == s.epoch + if l.Answer? then 1 else 0
  {
    hide Editor.WorkOf;
  }

  lemma {:induction false} EpochCounts(s: Sys, labels: seq<Label>)
    requires Steps(s, labels).Some?
    ensures Steps(s, labels).value.epoch == s.epoch + Answers(labels)
    decreases |labels|
  {
    hide Next;
    if labels != [] {
      StepEpoch(s, labels[0]);
      EpochCounts(Next(s, labels[0]).value, labels[1..]);
    }
  }

  /** Any other step leaves a timer that is due as it is. */
  lemma DueWaits(s: Sys, l: Label, t: nat)
    requires Next(s, l).Some? && IsDue(s, t) && l != Fire(t)
    ensures IsDue(Next(s, l).value, t) && Next(s, l).value.tasks[t] == s.tasks[t]
  {
    hide Editor.WorkOf;
  }

  lemma {:induction false} DueWaitsOn(s: Sys, labels: seq<Label>, t: nat)
    requires Steps(s, labels).Some? && IsDue(s, t) && Fire(t) !in labels
    ensures IsDue(Steps(s, labels).value, t) && Steps(s, labels).value.tasks[t] == s.tasks[t]
    decreases |labels|
  {
    hide Next;
    if labels != [] {
      assert labels[0] in labels && forall l | l in labels[1..] :: l in labels;
      DueWaits(s, labels[0], t);
      DueWaitsOn(Next(s, labels[0]).value, labels[1..], t);
    }
  }

  /** The last timer armed. */
  predicate IsLast(s: Sys, t: nat) { IsDue(s, t) && s.tasks[t].epoch == s.epoch }

  /** A timer that has passed its epoch check is still the last one armed, when it comes to fire, exactly when no
      run answered in between. */
  lemma LastIffNoneAnswered(s: Sys, t: nat, labels: seq<Label>)
    requires Next(s, Check(t)).Some? && IsDue(Next(s, Check(t)).value, t)
    requires Steps(Next(s, Check(t)).value, labels).Some? && Fire(t) !in labels
    ensures IsLast(Steps(Next(s, Check(t)).value, labels).value, t) <==> forall l | l in labels :: !l.Answer?
  {
    hide Editor.WorkOf, Steps;
    var a := Next(s, Check(t)).value;
    DueWaitsOn(a, labels, t);
    EpochCounts(a, labels);
    NoneAnswered(labels);
  }

  lemma {:induction false} NoneAnswered(labels: seq<Label>)
    ensures Answers(labels) == 0 <==> forall l | l in labels :: !l.Answer?
  {
    if labels != [] {
      NoneAnswered(labels[1..]);
      assert forall l | l in labels :: l == labels[0] || l in labels[1..];
      assert labels[0] in labels && forall l | l in labels[1..] :: l in labels;
    }
  }

  // The comment of the source holds where the timer's check and lock are one step, and the run's unlock and epoch
  // bump are one step.

  datatype Atom = Single(l: Label) | CheckAndFire(t: nat) | UnlockAndAnswer(t: nat, timer: nat)

  function NextAtom(s: Sys, a: Atom): Option<Sys> {
    match a
    case Single(l) => if l.Check? || l.Fire? || l.UnlockRun? || l.Answer? then None else Next(s, l)
    case CheckAndFire(t) => (
      match Next(s, Check(t))
      case None => None
      case Some(b) => if IsDue(b, t) then Next(b, Fire(t)) else Some(b))
    case UnlockAndAnswer(t, timer) =>
      match Next(s, UnlockRun(t))
      case None => None
      case Some(b) => Next(b, Answer(t, timer))
  }

  function AtomSteps(s: Sys, atoms: seq<Atom>): Option<Sys>
    decreases |atoms|
  {
    if atoms == [] then Some(s)
    else match NextAtom(s, atoms[0])
      case None => None
      case Some(t) => AtomSteps(t, atoms[1..])
  }

  /** No timer is between its check and its lock, no run between its unlock and its answer. */
  predicate NoneBetween(s: Sys) { forall t | t in s.tasks :: !s.tasks[t].Due? && !s.tasks[t].Unlocked? }

  lemma AtomKeepsNoneBetween(s: Sys, a: Atom)
    requires NoneBetween(s) && NextAtom(s, a).Some?
    ensures NoneBetween(NextAtom(s, a).value)
  {
    hide Editor.WorkOf;
    match a
    case Single(l) => SingleKeepsNoneBetween(s, l);
    case CheckAndFire(t) =>
    case UnlockAndAnswer(t, timer) =>
  }

  lemma SingleKeepsNoneBetween(s: Sys, l: Label)
    requires NoneBetween(s) && Next(s, l).Some? && !(l.Check? || l.Fire? || l.UnlockRun? || l.Answer?)
    ensures NoneBetween(Next(s, l).value)
  {
    hide Editor.WorkOf;
  }

  lemma {:induction false} AtomsKeepNoneBetween(s: Sys, atoms: seq<Atom>)
    requires NoneBetween(s) && AtomSteps(s, atoms).Some?
    ensures NoneBetween(AtomSteps(s, atoms).value)
    decreases |atoms|
  {
    hide NextAtom, NoneBetween;
    if atoms != [] {
      AtomKeepsNoneBetween(s, atoms[0]);
      AtomsKeepNoneBetween(NextAtom(s, atoms[0]).value, atoms[1..]);
    }
  }

  /** In such a system a timer that takes the session is always the last one armed, and every run that has given
      back the lock has armed its own. */
  lemma AtomicTimersAreLast(kind: Kind, atoms: seq<Atom>, t: nat)
    requires AtomSteps(Start(kind), atoms).Some?
    requires var s := AtomSteps(Start(kind), atoms).value;
      && NextAtom(s, CheckAndFire(t)).Some? && t in NextAtom(s, CheckAndFire(t)).value.tasks
      && NextAtom(s, CheckAndFire(t)).value.tasks[t].Took?
    ensures var s := AtomSteps(Start(kind), atoms).value;
      && t in s.tasks && s.tasks[t] == Asleep(s.epoch)
      && forall u | u in s.tasks :: !s.tasks[u].Unlocked?
  {
    hide Editor.WorkOf, AtomSteps;
    AtomsKeepNoneBetween(Start(kind), atoms);
  }

  // ------------------------------ what does not hold --------------------

  lemma StepsFirst(s: Sys, l: Label, rest: seq<Label>)
    requires Next(s, l).Some?
    ensures Steps(s, [l] + rest) == Steps(Next(s, l).value, rest)
  {
    hide Next;
    assert ([l] + rest)[1..] == rest;
  }

  lemma {:induction false} StepsJoin(s: Sys, a: seq<Label>, b: seq<Label>)
    requires Steps(s, a).Some?
    ensures Steps(s, a + b) == Steps(Steps(s, a).value, b)
    decreases |a|
  {
    hide Next;
    if a == [] {
      assert a + b == b;
    } else {
      SliceConcat(a, b, 1);
      StepsJoin(Next(s, a[0]).value, a[1..], b);
    }
  }

  /** A run, from its start to its answer, which arms `timer`. */
  function WholeRun(t: nat, timer: nat, req: Editor.Request, w: Editor.World): seq<Label> {
    [StartRun(t)] + ([Work(t, req, w)] + ([TakeNotice(t)] + ([UnlockRun(t)] + ([Answer(t, timer)] + []))))
  }

  /** The states a run goes through, while others stay as they are. */
  lemma RunGoes(s: Sys, t: nat, timer: nat, req: Editor.Request, w: Editor.World)
      returns (s1: Sys, s2: Sys, s3: Sys, s4: Sys, s5: Sys)
    requires s.lock.None? && t !in s.tasks && timer !in s.tasks && t != timer
    requires Editor.WorkOf(s.kind, s.slot, req, w).Ok?
    ensures Next(s, StartRun(t)) == Some(s1) && Next(s1, Work(t, req, w)) == Some(s2)
    ensures Next(s2, TakeNotice(t)) == Some(s3) && Next(s3, UnlockRun(t)) == Some(s4)
    ensures Next(s4, Answer(t, timer)) == Some(s5)
    ensures s5.kind == s.kind && s5.epoch == s.epoch + 1 && s5.lock.None?
    ensures s5.slot == Editor.WorkOf(s.kind, s.slot, req, w).slot
    ensures IsAt(s5, timer, Asleep(s5.epoch)) && s5.tasks.Keys == s.tasks.Keys + {t, timer}
    ensures forall u | u in s.tasks :: s5.tasks[u] == s.tasks[u]
  {
    hide Editor.WorkOf;
    s1 := StartGoes(s, t);
    s2 := Next(s1, Work(t, req, w)).value;
    s3 := TakingGoes(s2, t);
    s4, s5 := EndGoes(s3, t, timer);
  }

  lemma StartGoes(s: Sys, t: nat) returns (a: Sys)
    requires s.lock.None? && t !in s.tasks
    ensures Next(s, StartRun(t)) == Some(a) && a == s.(tasks := s.tasks[t := Locked], lock := Some(t))
  {
    hide Editor.WorkOf;
    a := Next(s, StartRun(t)).value;
  }

  lemma EndGoes(s: Sys, t: nat, timer: nat) returns (a: Sys, b: Sys)
    requires t in s.tasks && s.tasks[t].Telling? && timer !in s.tasks
    ensures Next(s, UnlockRun(t)) == Some(a) && Next(a, Answer(t, timer)) == Some(b)
    ensures b.kind == s.kind && b.slot == s.slot && b.epoch == s.epoch + 1 && b.lock.None?
    ensures IsAt(b, timer, Asleep(b.epoch)) && b.tasks.Keys == s.tasks.Keys + {timer}
    ensures forall u | u in s.tasks && u != t :: b.tasks[u] == s.tasks[u]
  {
    hide Editor.WorkOf;
    a := Next(s, UnlockRun(t)).value;
    b := Next(a, Answer(t, timer)).value;
  }

  lemma TakingGoes(s: Sys, t: nat) returns (a: Sys)
    requires t in s.tasks && s.tasks[t].Worked?
    ensures Next(s, TakeNotice(t)) == Some(a)
    ensures a.tasks.Keys == s.tasks.Keys && a.tasks[t].Telling?
    ensures forall u | u in s.tasks && u != t :: a.tasks[u] == s.tasks[u]
    ensures a.kind == s.kind && a.slot == s.slot && a.epoch == s.epoch && a.lock == s.lock
  {
    hide Editor.WorkOf;
    a := Next(s, TakeNotice(t)).value;
  }

  /** A whole run goes through from any state with a free lock. */
  lemma WholeRunGoes(s: Sys, t: nat, timer: nat, req: Editor.Request, w: Editor.World) returns (a: Sys)
    requires s.lock.None? && t !in s.tasks && timer !in s.tasks && t != timer
    requires Editor.WorkOf(s.kind, s.slot, req, w).Ok?
    ensures Steps(s, WholeRun(t, timer, req, w)) == Some(a)
    ensures a.kind == s.kind && a.epoch == s.epoch + 1 && a.lock.None?
    ensures a.slot == Editor.WorkOf(s.kind, s.slot, req, w).slot
    ensures IsAt(a, timer, Asleep(a.epoch)) && a.tasks.Keys == s.tasks.Keys + {t, timer}
    ensures forall u | u in s.tasks :: a.tasks[u] == s.tasks[u]
  {
    hide Editor.WorkOf, Steps, Next;
    var s1, s2, s3, s4, s5 := RunGoes(s, t, timer, req, w);
    a := s5;
    StepsFirst(s4, Answer(t, timer), []);
    StepsFirst(s3, UnlockRun(t), [Answer(t, timer)] + []);
    StepsFirst(s2, TakeNotice(t), [UnlockRun(t)] + ([Answer(t, timer)] + []));
    StepsFirst(s1, Work(t, req, w), [TakeNotice(t)] + ([UnlockRun(t)] + ([Answer(t, timer)] + [])));
    StepsFirst(s, StartRun(t), [Work(t, req, w)] + ([TakeNotice(t)] + ([UnlockRun(t)] + ([Answer(t, timer)] + []))));
    NoSteps(s5);
  }

  lemma NoSteps(s: Sys)
    ensures Steps(s, []) == Some(s)
  {
  }

  /** It is not so that only the timer armed by the last run fires: one that has passed its epoch check may be
      overtaken by a whole run, and then closes the session that run left behind. */
  lemma StaleTimerFires(s: Sys, stale: nat, t: nat, timer: nat, req: Editor.Request, w: Editor.World)
    requires IsLast(s, stale) && s.lock.None? && t !in s.tasks && timer !in s.tasks && t != timer
    requires Editor.WorkOf(s.kind, s.slot, req, w).Ok?
    ensures Steps(s, WholeRun(t, timer, req, w)).Some?
    ensures var a := Steps(s, WholeRun(t, timer, req, w)).value;
      && IsDue(a, stale) && !IsLast(a, stale) && IsAt(a, timer, Asleep(a.epoch))
      && a.slot == Editor.WorkOf(s.kind, s.slot, req, w).slot
      && Next(a, Fire(stale)) == Some(Move(a, stale, Took(OpenIn(a.slot))).(lock := Some(stale), slot := None))
  {
    hide Editor.WorkOf, Steps, Next;
    var a := WholeRunGoes(s, t, timer, req, w);
    DueFires(a, stale);
  }

  lemma DueFires(s: Sys, t: nat)
    requires IsDue(s, t) && s.lock.None?
    ensures Next(s, Fire(t)) == Some(Move(s, t, Took(OpenIn(s.slot))).(lock := Some(t), slot := None))
  {
    hide Editor.WorkOf;
  }

  lemma CheckPasses(s: Sys, t: nat)
    requires IsAt(s, t, Asleep(s.epoch))
    ensures Next(s, Check(t)) == Some(Move(s, t, Due(s.epoch)))
  {
    hide Editor.WorkOf;
  }

  /** Such a state is reached from the start: a run, its timer's check, and a second run. */
  lemma StaleTimerIsReached(kind: Kind, req: Editor.Request, w: Editor.World)
    requires Editor.WorkOf(kind, None, req, w).Ok?
    requires Editor.WorkOf(kind, Editor.WorkOf(kind, None, req, w).slot, req, w).Ok?
    ensures var labels := WholeRun(0, 1, req, w) + ([Check(1)] + WholeRun(2, 3, req, w));
      && Steps(Start(kind), labels).Some?
      && var a := Steps(Start(kind), labels).value;
        && IsDue(a, 1) && !IsLast(a, 1) && IsAt(a, 3, Asleep(a.epoch))
        && Next(a, Fire(1)).Some? && Next(a, Fire(1)).value.slot == None
  {
    hide Editor.WorkOf, Steps, Next;
    var s := Start(kind);
    var a := WholeRunGoes(s, 0, 1, req, w);
    CheckPasses(a, 1);
    var b := Next(a, Check(1)).value;
    StaleTimerFires(b, 1, 2, 3, req, w);
    StepsFirst(a, Check(1), WholeRun(2, 3, req, w));
    StepsJoin(s, WholeRun(0, 1, req, w), [Check(1)] + WholeRun(2, 3, req, w));
  }

  /** One such history: two runs of any script on PostgreSQL, where connections open. */
  lemma OneStaleTimer(sql: string) returns (labels: seq<Label>)
    ensures Steps(Start(Postgres), labels).Some?
    ensures var a := Steps(Start(Postgres), labels).value;
      && IsDue(a, 1) && !IsLast(a, 1) && IsAt(a, 3, Asleep(a.epoch))
      && Next(a, Fire(1)).Some? && Next(a, Fire(1)).value.slot == None
  {
    hide Steps, Next, WholeRun;
    var req := Editor.Request(sql, None, None, Batch.Options(true, 1));
    var w := Editor.GoneWorld().(idle := false, probe := S.Fine);
    CancelledRunsGo(req, w);
    StaleTimerIsReached(Postgres, req, w);
    labels := WholeRun(0, 1, req, w) + ([Check(1)] + WholeRun(2, 3, req, w));
  }

  lemma CancelledRunsGo(req: Editor.Request, w: Editor.World)
    requires req.database == None && req.schema == None && w == Editor.GoneWorld().(idle := false, probe := S.Fine)
    ensures Editor.WorkOf(Postgres, None, req, w).Ok?
    ensures Editor.WorkOf(Postgres, Editor.WorkOf(Postgres, None, req, w).slot, req, w).Ok?
  {
    hide Batch.RunScript, S.ViewsAfter, Editor.FirstIsRead;
    Editor.CancelledIsWhole(req, Postgres);
  }
}
