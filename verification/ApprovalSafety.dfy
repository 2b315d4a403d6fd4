/**
 * What every run of the approval queue keeps, and what two gaps around it cost.
 *
 * A run mixes the queue's operations with every other write to a task's status, one statement a
 * step: creating it, queueing it again, patching it, claiming it, giving it up, stopping it.
 */
module ApprovalSafety {
  import opened Text
  import opened Approvals

  // ---------------------------------------------------------------- runs

  /** The statuses that a worker may report. */
  type WorkerStatus = status: TaskStatus | !status.WaitingApproval? witness Queued

  datatype Event =
    | Ask(taskId: string, repoId: Option<string>, robotId: Option<string>, actor: Option<string>, evaluation: Evaluation, now: int)
    | Decide(id: nat, verdict: Verdict, decider: string, note: Option<string>, now: int)
    | AddTask(taskId: string, now: int)
    | Requeue(taskId: string, now: int)
    | Patch(taskId: string, to: Option<WorkerStatus>, patch: string, now: int)
    | Claim(taskId: string, now: int)
    | Interrupt(taskId: string, lost: bool, message: string, now: int)
    | StopTask(taskId: string, now: int)

  predicate Waiting(s: Store, taskId: string) {
    taskId in s.tasks && s.tasks[taskId].status.WaitingApproval?
  }

  /** Stopping by hand fails a queued or waiting task and only flags a running one. */
  function StoppedTask(t: Task, now: int): Task {
    if t.status.Queued? || t.status.WaitingApproval? then Task(Failed, Stopped(t.result), now)
    else if t.status.Processing? then Task(Processing, Stopped(t.result), now)
    else t
  }

  /** A patch of the result and, if one is given, the status, whatever the status is. */
  function PatchedTask(t: Task, to: Option<WorkerStatus>, patch: string, now: int): Task {
    Task(if to.Some? then to.value else t.status, Patched(t.result, patch), now)
  }

  /** A running task that has been silent for too long, or has lost its worker, fails. */
  function InterruptedTask(t: Task, lost: bool, message: string, now: int): Task {
    if !t.status.Processing? then t
    else Task(Failed, if lost then Other(message) else Patched(t.result, message), now)
  }

  /** Steps that write one task and nothing else; a retry queues a task whatever its status is. */
  function TaskStep(t: Task, e: Event): Task
    requires !e.Ask? && !e.Decide? && !e.AddTask?
  {
    match e
    case Requeue(_, now) => Task(Queued, Empty, now)
    case Patch(_, to, patch, now) => PatchedTask(t, to, patch, now)
    case Claim(_, now) => if t.status.Queued? then t.(status := Processing, updatedAt := now) else t
    case Interrupt(_, lost, message, now) => InterruptedTask(t, lost, message, now)
    case StopTask(_, now) => StoppedTask(t, now)
  }

  function Step(s: Store, e: Event): Store {
    match e
    case Ask(taskId, repoId, robotId, actor, evaluation, now) => Enqueue(s, taskId, repoId, robotId, actor, evaluation, now)
    case Decide(id, verdict, decider, note, now) => if Fits(verdict) then Resolve(s, id, verdict, decider, note, now) else s
    case AddTask(taskId, now) => if taskId in s.tasks then s else s.(tasks := s.tasks[taskId := Task(Queued, Empty, now)])
    case _ => if e.taskId !in s.tasks then s else s.(tasks := s.tasks[e.taskId := TaskStep(s.tasks[e.taskId], e)])
  }

  function Run(s: Store, events: seq<Event>): Store
    decreases |events|
  {
    if events == [] then s else Run(Step(s, events[0]), events[1..])
  }

  // ---------------------------------------------------------------- the invariant

  function LogOf(actions: seq<Action>, id: nat): seq<Action> {
    if actions == [] then []
    else
      var last := actions[|actions| - 1];
      LogOf(actions[..|actions| - 1], id) + (if last.request == id then [last] else [])
  }

  function RulesOf(rules: seq<Rule>, id: nat): seq<Rule> {
    if rules == [] then []
    else
      var last := rules[|rules| - 1];
      RulesOf(rules[..|rules| - 1], id) + (if last.request == id then [last] else [])
  }

  /** One "requested" action, then, once the request is resolved, one action that fits its status. */
  predicate Logged(r: Request, log: seq<Action>) {
    && 1 <= |log|
    && log[0].kind.Requested? && log[0].actor == r.requestedBy && log[0].createdAt == r.createdAt
    && (r.status.Pending? ==> |log| == 1 && r.resolvedBy.None? && r.resolvedAt.None?)
    && (!r.status.Pending? ==>
          && |log| == 2 && Fits(Verdict(r.status, log[1].kind))
          && r.resolvedBy.Some? && log[1].actor == r.resolvedBy && r.resolvedAt == Some(log[1].createdAt))
  }

  /** A rule for each request approved for always, made from what was approved; none for the others. */
  predicate Ruled(r: Request, id: nat, log: seq<Action>, rules: seq<Rule>) {
    if |log| == 2 && log[1].kind.ApproveAlways? then
      r.resolvedBy.Some? && r.resolvedAt.Some? && rules == [RuleFor(r, id, r.resolvedBy.value, r.resolvedAt.value)]
    else rules == []
  }

  predicate RequestOk(s: Store, i: nat)
    requires i < |s.requests|
  {
    && s.requests[i].taskId in s.tasks
    && Logged(s.requests[i], LogOf(s.actions, i))
    && Ruled(s.requests[i], i, LogOf(s.actions, i), RulesOf(s.rules, i))
  }

  predicate OnePending(requests: seq<Request>) {
    forall i, j :: 0 <= i < j < |requests| && requests[i].status.Pending? && requests[j].status.Pending? ==>
      requests[i].taskId != requests[j].taskId
  }

  predicate HasPending(requests: seq<Request>, taskId: string) {
    exists i :: 0 <= i < |requests| && PendingFor(requests[i], taskId)
  }

  predicate RequestsOk(s: Store) {
    forall i :: 0 <= i < |s.requests| ==> RequestOk(s, i)
  }

  /** The tables refer only to requests that exist. */
  ghost predicate NothingBeyond(s: Store) {
    forall i: nat :: i >= |s.requests| ==> LogOf(s.actions, i) == [] && RulesOf(s.rules, i) == []
  }

  ghost predicate WaitingIsPending(s: Store) {
    forall t :: Waiting(s, t) ==> HasPending(s.requests, t)
  }

  ghost predicate Inv(s: Store) {
    RequestsOk(s) && NothingBeyond(s) && OnePending(s.requests) && WaitingIsPending(s)
  }

  /** The other direction: a pending request's task is held back. */
  predicate PendingIsWaiting(s: Store) {
    forall i :: 0 <= i < |s.requests| && s.requests[i].status.Pending? ==> Waiting(s, s.requests[i].taskId)
  }

  // ---------------------------------------------------------------- one more log entry

  lemma LogGrows(actions: seq<Action>, a: Action, id: nat)
    ensures a.request == id ==> LogOf(actions + [a], id) == LogOf(actions, id) + [a]
    ensures a.request != id ==> LogOf(actions + [a], id) == LogOf(actions, id)
  {
    assert (actions + [a])[..|actions|] == actions;
  }

  lemma RulesGrow(rules: seq<Rule>, r: Rule, id: nat)
    ensures r.request == id ==> RulesOf(rules + [r], id) == RulesOf(rules, id) + [r]
    ensures r.request != id ==> RulesOf(rules + [r], id) == RulesOf(rules, id)
  {
    assert (rules + [r])[..|rules|] == rules;
  }

  lemma NewestDecides(requests: seq<Request>, taskId: string)
    ensures HasPending(requests, taskId) <==> Newest(requests, taskId, |requests|).Some?
  {
    hide Newest;
    var k := Newest(requests, taskId, |requests|);
    if k.Some? {
      assert PendingFor(requests[k.value], taskId);
    }
  }

  lemma PendingStays(a: seq<Request>, b: seq<Request>, taskId: string)
    requires |a| <= |b| && forall i :: 0 <= i < |a| && PendingFor(a[i], taskId) ==> PendingFor(b[i], taskId)
    requires HasPending(a, taskId)
    ensures HasPending(b, taskId)
  {
    var i :| 0 <= i < |a| && PendingFor(a[i], taskId);
    assert PendingFor(b[i], taskId);
  }

  /** Waiting tasks other than one, whose requests stay pending, and that one, which has a pending request. */
  lemma WaitingStays(s: Store, s': Store, taskId: string)
    requires WaitingIsPending(s)
    requires forall t :: t != taskId && Waiting(s', t) ==> Waiting(s, t)
    requires |s.requests| <= |s'.requests|
    requires forall i :: 0 <= i < |s.requests| && s.requests[i].taskId != taskId && s.requests[i].status.Pending? ==>
               s'.requests[i].taskId == s.requests[i].taskId && s'.requests[i].status.Pending?
    requires Waiting(s', taskId) ==> HasPending(s'.requests, taskId)
    ensures WaitingIsPending(s')
  {
    forall t | Waiting(s', t) ensures HasPending(s'.requests, t) {
      if t != taskId {
        PendingStays(s.requests, s'.requests, t);
      }
    }
  }

  // ---------------------------------------------------------------- creating a request

  lemma FreshIsLogged(r: Request, id: nat, a: Action)
    requires r.status.Pending? && r.resolvedBy.None? && r.resolvedAt.None?
    requires a.kind.Requested? && a.actor == r.requestedBy && a.createdAt == r.createdAt
    ensures Logged(r, [a]) && Ruled(r, id, [a], [])
  {
  }

  lemma CreateKeepsLogs(s: Store, s': Store, a: Action)
    requires RequestsOk(s) && NothingBeyond(s)
    requires a.request == |s.requests| && s'.actions == s.actions + [a] && s'.rules == s.rules
    requires |s'.requests| == |s.requests| + 1 && s'.requests[..|s.requests|] == s.requests
    requires forall t :: t in s.tasks ==> t in s'.tasks
    requires var r := s'.requests[|s.requests|];
             && r.status.Pending? && r.resolvedBy.None? && r.resolvedAt.None? && r.taskId in s'.tasks
             && a.kind.Requested? && a.actor == r.requestedBy && a.createdAt == r.createdAt
    ensures RequestsOk(s') && NothingBeyond(s')
  {
    hide LogOf, RulesOf, Logged, Ruled;
    var n := |s.requests|;
    forall i | 0 <= i < |s'.requests| ensures RequestOk(s', i) {
      LogGrows(s.actions, a, i);
      if i < n {
        assert RequestOk(s, i) && s'.requests[i] == s'.requests[..n][i];
      } else {
        FreshIsLogged(s'.requests[n], n, a);
        assert LogOf(s.actions, n) == [] && [] + [a] == [a];
      }
    }
    forall i: nat | i >= |s'.requests| ensures LogOf(s'.actions, i) == [] {
      LogGrows(s.actions, a, i);
    }
  }

  lemma CreateKeepsInv(s: Store, taskId: string, repoId: Option<string>, robotId: Option<string>,
                       actor: Option<string>, evaluation: Evaluation, now: int)
    requires Inv(s) && taskId in s.tasks && !HasPending(s.requests, taskId)
    ensures Inv(CommitEnqueue(s, None, taskId, repoId, robotId, actor, evaluation, now))
  {
    hide LogOf, RulesOf, Logged, Ruled, RequestOk;
    var s' := CommitEnqueue(s, None, taskId, repoId, robotId, actor, evaluation, now);
    var n := |s.requests|;
    CreateKeepsLogs(s, s', Action(n, actor, Requested, Some(evaluation.summary), now));
    forall i | 0 <= i < n && s.requests[i].status.Pending? ensures s.requests[i].taskId != taskId {
      assert !PendingFor(s.requests[i], taskId);
    }
    assert PendingFor(s'.requests[n], taskId);
    WaitingStays(s, s', taskId);
  }

  // ---------------------------------------------------------------- rewriting a pending request

  /** The log and the rules do not look at what an enqueue rewrites in a pending request. */
  lemma RewriteIsOk(r: Request, r': Request, id: nat, log: seq<Action>, rules: seq<Rule>)
    requires Logged(r, log) && Ruled(r, id, log, rules)
    requires r.status.Pending? && r' == r.(evaluation := r'.evaluation, updatedAt := r'.updatedAt)
    ensures Logged(r', log) && Ruled(r', id, log, rules)
  {
  }

  lemma UpdateKeepsInv(s: Store, k: nat, taskId: string, evaluation: Evaluation, now: int)
    requires Inv(s) && taskId in s.tasks && k < |s.requests| && PendingFor(s.requests[k], taskId)
    ensures Inv(CommitEnqueue(s, Some(k), taskId, None, None, None, evaluation, now))
  {
    hide LogOf, RulesOf, Logged, Ruled;
    var s' := CommitEnqueue(s, Some(k), taskId, None, None, None, evaluation, now);
    forall i | 0 <= i < |s'.requests| ensures RequestOk(s', i) {
      assert RequestOk(s, i);
      if i == k {
        RewriteIsOk(s.requests[k], s'.requests[k], k, LogOf(s.actions, k), RulesOf(s.rules, k));
      }
    }
    assert PendingFor(s'.requests[k], taskId);
    WaitingStays(s, s', taskId);
  }

  // ---------------------------------------------------------------- resolving

  /** A second entry that fits completes the log of a pending request. */
  lemma ResolvedIsLogged(r: Request, r': Request, id: nat, log: seq<Action>, a: Action, rules: seq<Rule>, actor: string)
    requires Logged(r, log) && Ruled(r, id, log, rules) && r.status.Pending?
    requires Fits(Verdict(r'.status, a.kind)) && a.actor == Some(actor) && a.createdAt == r'.updatedAt
    requires r' == r.(status := r'.status, resolvedBy := Some(actor), resolvedAt := Some(r'.updatedAt), updatedAt := r'.updatedAt)
    ensures Logged(r', log + [a])
    ensures rules == []
    ensures Ruled(r', id, log + [a], if a.kind.ApproveAlways? then [RuleFor(r, id, actor, r'.updatedAt)] else [])
  {
  }

  lemma CommitLogs(s: Store, id: nat, v: Verdict, actor: string, note: Option<string>, now: int, i: nat)
    requires id < |s.requests|
    ensures var s' := CommitResolve(s, id, v, actor, note, now);
            var a := Action(id, Some(actor), v.kind, NoteOf(note), now);
            && (i != id ==> LogOf(s'.actions, i) == LogOf(s.actions, i) && RulesOf(s'.rules, i) == RulesOf(s.rules, i))
            && (i == id ==> LogOf(s'.actions, i) == LogOf(s.actions, i) + [a])
            && (i == id && v.kind.ApproveAlways? ==>
                  RulesOf(s'.rules, i) == RulesOf(s.rules, i) + [RuleFor(s.requests[id], id, actor, now)])
            && (i == id && !v.kind.ApproveAlways? ==> RulesOf(s'.rules, i) == RulesOf(s.rules, i))
  {
    hide LogOf, RulesOf, ConditionsOf, NoteOf, TaskAfter;
    LogGrows(s.actions, Action(id, Some(actor), v.kind, NoteOf(note), now), i);
    RulesGrow(s.rules, RuleFor(s.requests[id], id, actor, now), i);
  }

  lemma ResolveKeepsLogs(s: Store, id: nat, v: Verdict, actor: string, note: Option<string>, now: int)
    requires RequestsOk(s) && NothingBeyond(s) && id < |s.requests| && s.requests[id].status.Pending? && Fits(v)
    ensures RequestsOk(CommitResolve(s, id, v, actor, note, now))
    ensures NothingBeyond(CommitResolve(s, id, v, actor, note, now))
  {
    hide LogOf, RulesOf, Logged, Ruled, RuleFor, NoteOf, TaskAfter;
    var s' := CommitResolve(s, id, v, actor, note, now);
    var r, r' := s.requests[id], s'.requests[id];
    forall i | 0 <= i < |s'.requests| ensures RequestOk(s', i) {
      assert RequestOk(s, i);
      CommitLogs(s, id, v, actor, note, now, i);
      if i == id {
        var a := Action(id, Some(actor), v.kind, NoteOf(note), now);
        ResolvedIsLogged(r, r', id, LogOf(s.actions, id), a, RulesOf(s.rules, id), actor);
        assert [] + [RuleFor(r, id, actor, now)] == [RuleFor(r, id, actor, now)];
      }
    }
    forall i: nat | i >= |s'.requests| ensures LogOf(s'.actions, i) == [] && RulesOf(s'.rules, i) == [] {
      CommitLogs(s, id, v, actor, note, now, i);
    }
  }

  lemma ResolveKeepsInv(s: Store, id: nat, v: Verdict, actor: string, note: Option<string>, now: int)
    requires Inv(s) && id < |s.requests| && s.requests[id].status.Pending? && Fits(v)
    ensures Inv(CommitResolve(s, id, v, actor, note, now))
  {
    hide LogOf, RulesOf, Logged, Ruled, RequestOk, RuleFor, NoteOf;
    var s' := CommitResolve(s, id, v, actor, note, now);
    ResolveKeepsLogs(s, id, v, actor, note, now);
    WaitingStays(s, s', s.requests[id].taskId);
  }

  // ---------------------------------------------------------------- runs

  lemma EnqueueKeepsInv(s: Store, taskId: string, repoId: Option<string>, robotId: Option<string>,
                        actor: Option<string>, evaluation: Evaluation, now: int)
    requires Inv(s)
    ensures Inv(Enqueue(s, taskId, repoId, robotId, actor, evaluation, now))
  {
    hide Inv, HasPending, Newest;
    if taskId in s.tasks {
      var existing := Newest(s.requests, taskId, |s.requests|);
      NewestDecides(s.requests, taskId);
      if existing.Some? {
        UpdateKeepsInv(s, existing.value, taskId, evaluation, now);
      } else {
        CreateKeepsInv(s, taskId, repoId, robotId, actor, evaluation, now);
      }
    }
  }

  /** Steps that touch only tasks, and make none wait. */
  lemma TasksKeepInv(s: Store, tasks: map<string, Task>)
    requires Inv(s)
    requires forall t :: t in s.tasks ==> t in tasks
    requires forall t :: t in tasks && tasks[t].status.WaitingApproval? ==> Waiting(s, t)
    ensures Inv(s.(tasks := tasks))
  {
    hide LogOf, RulesOf, Logged, Ruled;
    var s' := s.(tasks := tasks);
    forall i | 0 <= i < |s'.requests| ensures RequestOk(s', i) {
      assert RequestOk(s, i);
    }
    forall t | Waiting(s', t) ensures HasPending(s'.requests, t) {
    }
  }

  lemma StepKeepsInv(s: Store, e: Event)
    requires Inv(s)
    ensures Inv(Step(s, e))
  {
    hide Inv, Enqueue, CommitResolve;
    match e
    case Ask(taskId, repoId, robotId, actor, evaluation, now) =>
      EnqueueKeepsInv(s, taskId, repoId, robotId, actor, evaluation, now);
    case Decide(id, verdict, decider, note, now) =>
      if Fits(verdict) && ResolveOutcome(s, id).Resolved? {
        ResolveKeepsInv(s, id, verdict, decider, note, now);
      }
    case _ => TasksKeepInv(s, Step(s, e).tasks);
  }

  lemma StartIsInv(tasks: map<string, Task>)
    requires forall t :: t in tasks ==> !tasks[t].status.WaitingApproval?
    ensures Inv(Store([], [], tasks, [])) && PendingIsWaiting(Store([], [], tasks, []))
  {
  }

  /**
   * After any run: at most one pending request a task; one "requested" action and, once resolved,
   * one resolving action that fits; one rule for each approval for always; and every waiting task
   * has a pending request.
   */
  lemma {:induction false} RunKeepsInv(s: Store, events: seq<Event>)
    requires Inv(s)
    ensures Inv(Run(s, events))
    decreases |events|
  {
    hide Inv, Step;
    if events != [] {
      StepKeepsInv(s, events[0]);
      RunKeepsInv(Step(s, events[0]), events[1..]);
    }
  }

  // ---------------------------------------------------------------- waiting, exactly

  /** A pending request whose task does not wait for it. */
  predicate Stray(s: Store, taskId: string) {
    HasPending(s.requests, taskId) && !Waiting(s, taskId)
  }

  /** A waiting task is stopped, queued again or given another status, and its request is not told. */
  predicate Drops(s: Store, e: Event, taskId: string) {
    && Waiting(s, taskId)
    && (e.StopTask? || e.Requeue? || (e.Patch? && e.to.Some?))
    && e.taskId == taskId
  }

  /** The task's request is refreshed, or decided. */
  predicate Settles(s: Store, e: Event, taskId: string) {
    || (e.Ask? && e.taskId == taskId)
    || (e.Decide? && Fits(e.verdict) && e.id < |s.requests| && PendingFor(s.requests[e.id], taskId))
  }

  lemma PendingHasTask(s: Store, taskId: string)
    requires RequestsOk(s) && HasPending(s.requests, taskId)
    ensures taskId in s.tasks
  {
    var i :| 0 <= i < |s.requests| && PendingFor(s.requests[i], taskId);
    assert RequestOk(s, i);
  }

  lemma AskStray(s: Store, e: Event, taskId: string)
    requires Inv(s) && e.Ask?
    ensures Stray(Step(s, e), taskId) <==> Stray(s, taskId) && e.taskId != taskId
  {
    hide RequestOk, NothingBeyond, OnePending, WaitingIsPending, Newest;
    var s' := Step(s, e);
    if HasPending(s.requests, taskId) {
      PendingHasTask(s, taskId);
      PendingStays(s.requests, s'.requests, taskId);
    }
    if e.taskId != taskId && HasPending(s'.requests, taskId) {
      var i :| 0 <= i < |s'.requests| && PendingFor(s'.requests[i], taskId);
      assert i < |s.requests| && PendingFor(s.requests[i], taskId);
    }
  }

  lemma DecideStray(s: Store, e: Event, taskId: string)
    requires Inv(s) && e.Decide?
    ensures Stray(Step(s, e), taskId) <==> Stray(s, taskId) && !Settles(s, e, taskId)
  {
    hide NothingBeyond, WaitingIsPending, RequestOk, RuleFor, NoteOf, TaskAfter;
    var s' := Step(s, e);
    if Fits(e.verdict) && ResolveOutcome(s, e.id).Resolved? {
      forall i | 0 <= i < |s.requests| && i != e.id ensures s'.requests[i] == s.requests[i] {
      }
      if s.requests[e.id].taskId == taskId {
        assert !HasPending(s'.requests, taskId);
      } else {
        assert HasPending(s'.requests, taskId) <==> HasPending(s.requests, taskId);
      }
    } else if Settles(s, e, taskId) {
      PendingHasTask(s, taskId);
    }
  }

  /**
   * Exactly when a task is left with a pending request that it does not wait for: it was so before
   * and its request is neither refreshed nor decided, or it waited and this step moved it on.
   */
  lemma StrayExactly(s: Store, e: Event, taskId: string)
    requires Inv(s)
    ensures Stray(Step(s, e), taskId) <==> (Stray(s, taskId) && !Settles(s, e, taskId)) || Drops(s, e, taskId)
  {
    hide RequestOk, RequestsOk, NothingBeyond, OnePending, Enqueue, Resolve, HasPending;
    match e
    case Ask(_, _, _, _, _, _) => AskStray(s, e, taskId);
    case Decide(_, _, _, _, _) => DecideStray(s, e, taskId);
    case AddTask(_, _) =>
      if HasPending(s.requests, taskId) { PendingHasTask(s, taskId); }
    case _ =>
  }

  lemma PendingIsWaitingMeans(s: Store)
    ensures PendingIsWaiting(s) <==> forall t :: !Stray(s, t)
  {
    forall t | PendingIsWaiting(s) ensures !Stray(s, t) {
    }
    forall i | (forall t :: !Stray(s, t)) && 0 <= i < |s.requests| && s.requests[i].status.Pending?
      ensures Waiting(s, s.requests[i].taskId)
    {
      assert PendingFor(s.requests[i], s.requests[i].taskId) && !Stray(s, s.requests[i].taskId);
    }
  }

  /** A task waits exactly when it has a pending request, until a step drops a waiting task. */
  lemma WaitingExactly(s: Store, e: Event)
    requires Inv(s) && PendingIsWaiting(s)
    ensures PendingIsWaiting(Step(s, e)) <==> e.Decide? || !Drops(s, e, e.taskId)
  {
    hide Inv, Step, PendingIsWaiting, Stray, Settles;
    PendingIsWaitingMeans(s);
    PendingIsWaitingMeans(Step(s, e));
    forall t ensures Stray(Step(s, e), t) <==> Drops(s, e, t) {
      StrayExactly(s, e, t);
    }
  }

  // ---------------------------------------------------------------- a retry with its guards

  datatype Gate = Pass | Note(text: string) | Deny(text: string) | Require(evaluation: Evaluation)

  datatype Origin = Origin(repoId: Option<string>, robotId: Option<string>, actor: Option<string>)

  /** What one guard writes: nothing, a note, a failure, or a request for approval. */
  function Guard(s: Store, taskId: string, origin: Origin, gate: Gate, now: int): Store {
    match gate
    case Pass => s
    case Note(text) => Step(s, Patch(taskId, None, text, now))
    case Deny(text) => Step(s, Patch(taskId, Some(Failed), text, now))
    case Require(evaluation) => Step(s, Ask(taskId, origin.repoId, origin.robotId, origin.actor, evaluation, now))
  }

  /** The cost guard, and the policy guard if the task is still queued after it. */
  function Guards(s: Store, taskId: string, origin: Origin, cost: Gate, policy: Gate, now: int): Store {
    var s' := Guard(s, taskId, origin, cost, now);
    if taskId in s'.tasks && s'.tasks[taskId].status.Queued? then Guard(s', taskId, origin, policy, now) else s'
  }

  function Retry(s: Store, taskId: string, origin: Origin, cost: Gate, policy: Gate, now: int): Store {
    if taskId !in s.tasks then s
    else Guards(Step(s, Requeue(taskId, now)), taskId, origin, cost, policy, now)
  }

  predicate Asks(cost: Gate, policy: Gate) {
    cost.Require? || (!cost.Deny? && policy.Require?)
  }

  lemma GuardStray(s: Store, taskId: string, origin: Origin, gate: Gate, now: int, t: string)
    requires Inv(s) && taskId in s.tasks && !Waiting(s, taskId)
    ensures var s' := Guard(s, taskId, origin, gate, now);
            && Inv(s')
            && (Stray(s', t) <==> Stray(s, t) && !(gate.Require? && t == taskId))
            && taskId in s'.tasks
            && (gate.Pass? || gate.Note? ==> s'.tasks[taskId].status == s.tasks[taskId].status)
            && (gate.Deny? || gate.Require? ==> !s'.tasks[taskId].status.Queued?)
  {
    hide Inv, Stray, Newest;
    if !gate.Pass? {
      var e := if gate.Note? then Patch(taskId, None, gate.text, now)
               else if gate.Deny? then Patch(taskId, Some(Failed), gate.text, now)
               else Ask(taskId, origin.repoId, origin.robotId, origin.actor, gate.evaluation, now);
      StepKeepsInv(s, e);
      StrayExactly(s, e, t);
    }
  }

  /**
   * A retry keeps the invariant, and leaves its task with a request that it does not wait for
   * exactly when the task had a pending request, waiting or not, and no guard asks again.
   */
  lemma RetryExactly(s: Store, taskId: string, origin: Origin, cost: Gate, policy: Gate, now: int)
    requires Inv(s) && taskId in s.tasks
    ensures var s' := Retry(s, taskId, origin, cost, policy, now);
            && Inv(s')
            && (Stray(s', taskId) <==> HasPending(s.requests, taskId) && !Asks(cost, policy))
            && (forall t :: t != taskId ==> (Stray(s', t) <==> Stray(s, t)))
  {
    hide Inv, Stray, Guard, Step, HasPending;
    var e := Requeue(taskId, now);
    var s1, s' := Step(s, e), Retry(s, taskId, origin, cost, policy, now);
    RequeueQueues(s, taskId, now);
    StepKeepsInv(s, e);
    StrayIsPending(s, taskId);
    forall t ensures Stray(s', t) <==>
      if t == taskId then HasPending(s.requests, t) && !Asks(cost, policy) else Stray(s, t)
    {
      StrayExactly(s, e, t);
      GuardStray(s1, taskId, origin, cost, now, t);
      var s2 := Guard(s1, taskId, origin, cost, now);
      if s2.tasks[taskId].status.Queued? { GuardStray(s2, taskId, origin, policy, now, t); }
    }
    GuardStray(s1, taskId, origin, cost, now, taskId);
    var s2 := Guard(s1, taskId, origin, cost, now);
    if s2.tasks[taskId].status.Queued? { GuardStray(s2, taskId, origin, policy, now, taskId); }
  }

  lemma RequeueQueues(s: Store, taskId: string, now: int)
    requires taskId in s.tasks
    ensures var s' := Step(s, Requeue(taskId, now)); taskId in s'.tasks && s'.tasks[taskId].status.Queued?
  {
  }

  lemma StrayIsPending(s: Store, taskId: string)
    requires Inv(s)
    ensures HasPending(s.requests, taskId) <==> Stray(s, taskId) || Waiting(s, taskId)
  {
    hide RequestsOk, NothingBeyond, OnePending;
  }

  /**
   * What a dropped task's request can still do: whatever happened to the task, the next decision
   * on the request queues it or fails it.
   */
  lemma DroppedIsStillDecided(s: Store, e: Event, id: nat, v: Verdict, actor: string, note: Option<string>, now: int)
    requires Inv(s) && id < |s.requests| && s.requests[id].status.Pending? && Fits(v)
    requires Drops(s, e, s.requests[id].taskId)
    ensures var t := s.requests[id].taskId;
            var dropped := Step(s, e);
            var decided := Step(dropped, Decide(id, v, actor, note, now));
            && !Waiting(dropped, t) && dropped.requests == s.requests
            && decided.tasks[t].status == if v.status.Approved? then Queued else Failed
  {
    hide RequestOk, RuleFor, NoteOf, LogOf, RulesOf, OnePending, NothingBeyond, WaitingIsPending;
  }

  // ---------------------------------------------------------------- resolved requests are frozen

  /** The part of the store that belongs to a request. */
  function Record(s: Store, i: nat): (Request, seq<Action>, seq<Rule>)
    requires i < |s.requests|
  {
    (s.requests[i], LogOf(s.actions, i), RulesOf(s.rules, i))
  }

  lemma StepKeepsRecord(s: Store, e: Event, i: nat)
    requires i < |s.requests|
    ensures var s' := Step(s, e);
            && |s.requests| <= |s'.requests|
            && s'.requests[i].taskId == s.requests[i].taskId && s'.requests[i].createdAt == s.requests[i].createdAt
            && (!s.requests[i].status.Pending? ==> Record(s', i) == Record(s, i))
  {
    hide LogOf, RulesOf, RuleFor, NoteOf, TaskAfter, Newest;
    match e
    case Ask(taskId, _, _, actor, evaluation, now) =>
      LogGrows(s.actions, Action(|s.requests|, actor, Requested, Some(evaluation.summary), now), i);
    case Decide(id, verdict, decider, note, now) =>
      if id < |s.requests| { CommitLogs(s, id, verdict, decider, note, now, i); }
    case _ =>
  }

  /** No run changes a request's task or place in the list, nor anything of a request once it is resolved. */
  lemma {:induction false} ResolvedIsFrozen(s: Store, events: seq<Event>, i: nat)
    requires i < |s.requests|
    ensures var s' := Run(s, events);
            && |s.requests| <= |s'.requests|
            && s'.requests[i].taskId == s.requests[i].taskId && s'.requests[i].createdAt == s.requests[i].createdAt
            && (!s.requests[i].status.Pending? ==> Record(s', i) == Record(s, i))
    decreases |events|
  {
    hide Step, LogOf, RulesOf;
    if events != [] {
      StepKeepsRecord(s, events[0], i);
      ResolvedIsFrozen(Step(s, events[0]), events[1..], i);
    }
  }

  // ---------------------------------------------------------------- what one call does

  /**
   * A decision on a pending request queues its task or fails it, says who decided and when in the
   * request and in its log alike, and touches no other request and no other task.
   */
  lemma DecisionTakesEffect(s: Store, id: nat, v: Verdict, actor: string, note: Option<string>, now: int)
    requires Inv(s) && id < |s.requests| && s.requests[id].status.Pending? && Fits(v)
    ensures var s' := Step(s, Decide(id, v, actor, note, now));
            var t := s.requests[id].taskId;
            && t in s'.tasks && (s'.tasks[t].status == if v.status.Approved? then Queued else Failed)
            && s'.requests[id].status == v.status
            && s'.requests[id].resolvedBy == Some(actor) && s'.requests[id].resolvedAt == Some(now)
            && LogOf(s'.actions, id) == LogOf(s.actions, id) + [Action(id, Some(actor), v.kind, NoteOf(note), now)]
            && (forall i :: 0 <= i < |s.requests| && i != id ==> Record(s', i) == Record(s, i))
            && (forall u :: u in s.tasks && u != t ==> u in s'.tasks && s'.tasks[u] == s.tasks[u])
  {
    hide LogOf, RulesOf, RuleFor, NoteOf, Logged, Ruled, OnePending, NothingBeyond, WaitingIsPending;
    assert RequestOk(s, id);
    CommitLogs(s, id, v, actor, note, now, id);
    forall i | 0 <= i < |s.requests| && i != id
      ensures Record(Step(s, Decide(id, v, actor, note, now)), i) == Record(s, i)
    {
      CommitLogs(s, id, v, actor, note, now, i);
    }
  }

  /** Only the first decision counts: a later one, of any kind, changes nothing and is told so. */
  lemma FirstDecisionWins(s: Store, id: nat, v: Verdict, w: Verdict, a: string, b: string,
                          m: Option<string>, n: Option<string>, now: int, later: int)
    requires Inv(s) && id < |s.requests| && Fits(v) && Fits(w)
    ensures var s' := Step(s, Decide(id, v, a, m, now));
            Step(s', Decide(id, w, b, n, later)) == s' && ResolveOutcome(s', id) == Nothing
  {
    hide RuleFor, NoteOf, TaskAfter, OnePending, NothingBeyond, WaitingIsPending;
    assert RequestOk(s, id);
  }

  /** Asking again for a task that waits refreshes its request instead of adding one. */
  lemma AskingAgainRefreshes(s: Store, e: Event, f: Event)
    requires Inv(s) && e.Ask? && f.Ask? && e.taskId == f.taskId && e.taskId in s.tasks
    ensures var once := Step(s, e);
            var twice := Step(once, f);
            && |twice.requests| == |once.requests| && twice.actions == once.actions
            && exists k :: 0 <= k < |twice.requests| && PendingFor(twice.requests[k], e.taskId)
                           && twice.requests[k].evaluation == f.evaluation
  {
    hide Inv, Newest, PendingFor;
    AskLeavesPending(s, e);
    var once := Step(s, e);
    NewestDecides(once.requests, f.taskId);
    var k := Newest(once.requests, f.taskId, |once.requests|);
    assert once.requests[k.value].taskId == f.taskId && once.requests[k.value].status.Pending? by {
      PendingForIs(once.requests[k.value], f.taskId);
    }
    PendingForIs(Step(once, f).requests[k.value], f.taskId);
  }

  lemma PendingForIs(r: Request, taskId: string)
    ensures PendingFor(r, taskId) <==> r.status.Pending? && r.taskId == taskId
  {
  }

  lemma AskLeavesPending(s: Store, e: Event)
    requires e.Ask? && e.taskId in s.tasks
    ensures HasPending(Step(s, e).requests, e.taskId) && e.taskId in Step(s, e).tasks
  {
    hide Newest;
    var k := Newest(s.requests, e.taskId, |s.requests|);
    var s' := Step(s, e);
    var at := if k.Some? then k.value else |s.requests|;
    assert PendingFor(s'.requests[at], e.taskId);
  }

  // ---------------------------------------------------------------- guard and transaction apart

  /**
   * A decision whose transaction runs after the request has changed hands: the invariant survives
   * exactly when the guard would still have held, because the log would otherwise get a third entry.
   */
  lemma LateDecision(s: Store, id: nat, v: Verdict, actor: string, note: Option<string>, now: int)
    requires Inv(s) && id < |s.requests| && Fits(v)
    ensures Inv(CommitResolve(s, id, v, actor, note, now)) <==> s.requests[id].status.Pending?
  {
    hide RulesOf, Ruled, RuleFor, NoteOf, TaskAfter, WaitingIsPending;
    var s' := CommitResolve(s, id, v, actor, note, now);
    if s.requests[id].status.Pending? {
      ResolveKeepsInv(s, id, v, actor, note, now);
    } else {
      CommitLogs(s, id, v, actor, note, now, id);
      assert RequestOk(s, id);
      assert |LogOf(s'.actions, id)| == 3;
      assert !RequestOk(s', id);
    }
  }

  /** Two enqueues that both read "no pending request": the second may create exactly when there still is none. */
  lemma LateCreation(s: Store, taskId: string, repoId: Option<string>, robotId: Option<string>,
                     actor: Option<string>, evaluation: Evaluation, now: int)
    requires Inv(s) && taskId in s.tasks
    ensures Inv(CommitEnqueue(s, None, taskId, repoId, robotId, actor, evaluation, now))
            <==> !HasPending(s.requests, taskId)
  {
    hide RequestOk, RequestsOk, NothingBeyond, WaitingIsPending;
    var s' := CommitEnqueue(s, None, taskId, repoId, robotId, actor, evaluation, now);
    if HasPending(s.requests, taskId) {
      var i :| 0 <= i < |s.requests| && PendingFor(s.requests[i], taskId);
      assert s'.requests[i] == s.requests[i] && s'.requests[|s.requests|].taskId == taskId;
      assert !OnePending(s'.requests);
    } else {
      CreateKeepsInv(s, taskId, repoId, robotId, actor, evaluation, now);
    }
  }

  predicate ApprovedAlways(s: Store, k: nat) {
    |LogOf(s.actions, k)| == 2 && LogOf(s.actions, k)[1].kind.ApproveAlways?
  }

  /** A rewritten evaluation, on a request in any state, matters to the rule made from it and to nothing else. */
  lemma RewriteMatters(r: Request, r': Request, id: nat, log: seq<Action>, rules: seq<Rule>)
    requires Logged(r, log) && Ruled(r, id, log, rules)
    requires r' == r.(evaluation := r'.evaluation, updatedAt := r'.updatedAt)
    ensures Logged(r', log)
    ensures Ruled(r', id, log, rules) <==>
            (|log| == 2 && log[1].kind.ApproveAlways? ==> ConditionsOf(r'.evaluation) == ConditionsOf(r.evaluation))
  {
    hide ConditionsOf;
  }

  /**
   * An enqueue that read request k as pending and commits after it was decided: the invariant
   * survives exactly when the task has a pending request all the same, and the rewritten
   * evaluation still gives the rule that k left, if it left one.
   */
  lemma LateRefresh(s: Store, k: nat, evaluation: Evaluation, now: int)
    requires Inv(s) && k < |s.requests|
    ensures var t := s.requests[k].taskId;
            Inv(CommitEnqueue(s, Some(k), t, None, None, None, evaluation, now)) <==>
            && HasPending(s.requests, t)
            && (ApprovedAlways(s, k) ==> ConditionsOf(evaluation) == ConditionsOf(s.requests[k].evaluation))
  {
    hide LogOf, RulesOf, Logged, Ruled, ConditionsOf;
    var t := s.requests[k].taskId;
    var s' := CommitEnqueue(s, Some(k), t, None, None, None, evaluation, now);
    assert RequestOk(s, k);
    RewriteMatters(s.requests[k], s'.requests[k], k, LogOf(s.actions, k), RulesOf(s.rules, k));
    assert RequestsOk(s') <==> RequestOk(s', k) by {
      forall i | 0 <= i < |s'.requests| && i != k ensures RequestOk(s', i) {
        assert RequestOk(s, i);
      }
    }
    assert HasPending(s'.requests, t) <==> HasPending(s.requests, t) by {
      forall i | 0 <= i < |s.requests| ensures PendingFor(s'.requests[i], t) <==> PendingFor(s.requests[i], t) {
      }
    }
    if HasPending(s.requests, t) {
      WaitingStays(s, s', t);
    } else {
      assert Waiting(s', t);
    }
  }
}
