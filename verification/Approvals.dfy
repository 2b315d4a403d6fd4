/**
 * The approval queue: requests, their action log, the tasks they hold back, and the allow rules
 * that "approve always" leaves behind.
 *
 * Each operation's guard read and transaction are one step; `ApprovalSafety` says what the split
 * of the two would cost. Ids are positions in the tables, so a new id is fresh.
 */
module Approvals {
  import opened Text
  import opened Regex

  datatype Status = Pending | Approved | Rejected | ChangesRequested

  datatype Kind = Requested | Approve | ApproveOnce | ApproveAlways | Reject | RequestChanges

  datatype Details = Details(
    taskSource: string,
    provider: string,
    sandbox: string,
    networkAccess: Option<bool>,
    targetFiles: seq<string>,
    commands: seq<string>)

  datatype Evaluation = Evaluation(decision: string, riskLevel: string, summary: string, details: Details)

  datatype Request = Request(
    taskId: string,
    repoId: Option<string>,
    robotId: Option<string>,
    requestedBy: Option<string>,
    createdAt: int,
    evaluation: Evaluation,
    status: Status,
    resolvedBy: Option<string>,
    resolvedAt: Option<int>,
    updatedAt: int)

  datatype Action = Action(request: nat, actor: Option<string>, kind: Kind, note: Option<string>, createdAt: int)

  datatype TaskStatus = Queued | WaitingApproval | Processing | Succeeded | Failed | Commented

  datatype Result =
    | Gated(message: string, decision: string, riskLevel: string)
    | Granted(message: string)
    | Refused(message: string, status: Status, reason: Option<string>)
    | Stopped(before: Result)
    | Patched(before: Result, patch: string)
    | Empty
    | Other(text: string)

  datatype Task = Task(status: TaskStatus, result: Result, updatedAt: int)

  datatype Conditions = Conditions(
    providers: seq<string>,
    taskSources: seq<string>,
    sandboxes: seq<string>,
    networkAccess: Option<bool>,
    riskLevels: seq<string>,
    targetFilePatterns: seq<string>,
    commandPatterns: seq<string>)

  /** An enabled rule of priority 1000 with action "allow", named after the request it comes from. */
  datatype Rule = Rule(
    request: nat,
    repoId: Option<string>,
    robotId: Option<string>,
    createdBy: string,
    conditions: Conditions,
    createdAt: int)

  datatype Store = Store(requests: seq<Request>, actions: seq<Action>, tasks: map<string, Task>, rules: seq<Rule>)

  /** `null` when there is nothing to resolve, the task's id, or a rolled back transaction. */
  datatype Outcome = Nothing | Resolved(taskId: string) | RolledBack

  // ---------------------------------------------------------------- enqueue

  predicate PendingFor(r: Request, taskId: string) {
    r.status.Pending? && r.taskId == taskId
  }

  /** The newest pending request of a task among the first n, the first of them on a tie. */
  function Newest(requests: seq<Request>, taskId: string, n: nat): (k: Option<nat>)
    requires n <= |requests|
    ensures k.Some? ==> k.value < n && PendingFor(requests[k.value], taskId)
    ensures k.None? ==> forall i :: 0 <= i < n ==> !PendingFor(requests[i], taskId)
    ensures k.Some? ==> forall i :: 0 <= i < n && PendingFor(requests[i], taskId) ==>
                          requests[i].createdAt <= requests[k.value].createdAt
    ensures k.Some? ==> forall i :: 0 <= i < k.value && PendingFor(requests[i], taskId) ==>
                          requests[i].createdAt < requests[k.value].createdAt
  {
    if n == 0 then None
    else
      var before := Newest(requests, taskId, n - 1);
      if PendingFor(requests[n - 1], taskId)
         && (before.None? || requests[before.value].createdAt < requests[n - 1].createdAt)
      then Some(n - 1) else before
  }

  function Hold(tasks: map<string, Task>, taskId: string, evaluation: Evaluation, now: int): map<string, Task> {
    tasks[taskId := Task(WaitingApproval, Gated(evaluation.summary, evaluation.decision, evaluation.riskLevel), now)]
  }

  /** What the transaction of an enqueue writes when it has read `existing`. */
  function CommitEnqueue(s: Store, existing: Option<nat>, taskId: string, repoId: Option<string>,
                         robotId: Option<string>, actor: Option<string>, evaluation: Evaluation, now: int): Store
    requires existing.Some? ==> existing.value < |s.requests|
  {
    var tasks := Hold(s.tasks, taskId, evaluation, now);
    if existing.Some? then
      var r := s.requests[existing.value];
      s.(requests := s.requests[existing.value := r.(evaluation := evaluation, updatedAt := now)], tasks := tasks)
    else
      s.(requests := s.requests + [Request(taskId, repoId, robotId, actor, now, evaluation, Pending, None, None, now)],
         actions := s.actions + [Action(|s.requests|, actor, Requested, Some(evaluation.summary), now)],
         tasks := tasks)
  }

  /** A task that is not there makes the foreign key, or the task's own update, fail. */
  function Enqueue(s: Store, taskId: string, repoId: Option<string>, robotId: Option<string>,
                   actor: Option<string>, evaluation: Evaluation, now: int): Store
  {
    if taskId !in s.tasks then s
    else CommitEnqueue(s, Newest(s.requests, taskId, |s.requests|), taskId, repoId, robotId, actor, evaluation, now)
  }

  // ---------------------------------------------------------------- resolve

  /** How a request is resolved: the request's status and the action that is logged. */
  datatype Verdict = Verdict(status: Status, kind: Kind)

  predicate Fits(v: Verdict) {
    match v.status
    case Pending => false
    case Approved => v.kind.Approve? || v.kind.ApproveOnce? || v.kind.ApproveAlways?
    case Rejected => v.kind.Reject?
    case ChangesRequested => v.kind.RequestChanges?
  }

  function NoteOf(note: Option<string>): Option<string> {
    if note.None? || Trim(note.value) == "" then None else Some(Trim(note.value))
  }

  function RefusalMessage(status: Status): string {
    if status.ChangesRequested? then "Approval requested changes." else "Approval rejected."
  }

  function TaskAfter(v: Verdict, note: Option<string>, now: int): Task {
    if v.status.Approved? then
      Task(Queued,
           Granted(if v.kind.ApproveAlways? then "Approval granted and a matching allow rule was created."
                   else "Approval granted; task returned to queue."),
           now)
    else
      var message := RefusalMessage(v.status);
      Task(Failed, Refused(if note.Some? then message + " " + note.value else message, v.status, note), now)
  }

  function NonEmpty(s: string): seq<string> {
    if s == "" then [] else [s]
  }

  function LiteralPatterns(items: seq<string>): seq<string> {
    seq(|items|, i requires 0 <= i < |items| => LiteralPattern(items[i]))
  }

  function ConditionsOf(e: Evaluation): Conditions {
    Conditions(
      NonEmpty(e.details.provider),
      NonEmpty(e.details.taskSource),
      if e.details.sandbox == "read-only" || e.details.sandbox == "workspace-write" then [e.details.sandbox] else [],
      e.details.networkAccess,
      NonEmpty(e.riskLevel),
      LiteralPatterns(e.details.targetFiles),
      LiteralPatterns(e.details.commands))
  }

  function RuleFor(r: Request, id: nat, actor: string, now: int): Rule {
    Rule(id, r.repoId, r.robotId, actor, ConditionsOf(r.evaluation), now)
  }

  /** What the transaction of a resolution writes, whatever the request's status is by then. */
  function CommitResolve(s: Store, id: nat, v: Verdict, actor: string, note: Option<string>, now: int): Store
    requires id < |s.requests|
  {
    var r := s.requests[id];
    Store(
      s.requests[id := r.(status := v.status, resolvedBy := Some(actor), resolvedAt := Some(now), updatedAt := now)],
      s.actions + [Action(id, Some(actor), v.kind, NoteOf(note), now)],
      s.tasks[r.taskId := TaskAfter(v, NoteOf(note), now)],
      if v.kind.ApproveAlways? then s.rules + [RuleFor(r, id, actor, now)] else s.rules)
  }

  function ResolveOutcome(s: Store, id: nat): Outcome {
    if id >= |s.requests| || !s.requests[id].status.Pending? then Nothing
    else if s.requests[id].taskId !in s.tasks then RolledBack
    else Resolved(s.requests[id].taskId)
  }

  function Resolve(s: Store, id: nat, v: Verdict, actor: string, note: Option<string>, now: int): Store {
    if ResolveOutcome(s, id).Resolved? then CommitResolve(s, id, v, actor, note, now) else s
  }

  // ---------------------------------------------------------------- the service

  class ApprovalQueue {
    var requests: seq<Request>
    var actions: seq<Action>
    var tasks: map<string, Task>
    var rules: seq<Rule>

    constructor (tasks: map<string, Task>)
      ensures Contents() == Store([], [], tasks, [])
    {
      this.requests, this.actions, this.rules := [], [], [];
      this.tasks := tasks;
    }

    ghost function Contents(): Store
      reads this
    {
      Store(requests, actions, tasks, rules)
    }

    /** `findFirst` of the pending requests of a task, newest first. */
    method FindPending(taskId: string) returns (found: Option<nat>)
      ensures found == Newest(requests, taskId, |requests|)
    {
      found := None;
      for i := 0 to |requests|
        invariant found == Newest(requests, taskId, i)
      {
        if requests[i].status.Pending? && requests[i].taskId == taskId {
          if found.None? || requests[found.value].createdAt < requests[i].createdAt {
            found := Some(i);
          }
        }
      }
    }

    method EnqueueApproval(taskId: string, repoId: Option<string>, robotId: Option<string>,
                           actor: Option<string>, evaluation: Evaluation, now: int)
      modifies this
      ensures Contents() == Enqueue(old(Contents()), taskId, repoId, robotId, actor, evaluation, now)
    {
      hide Newest;
      var existing := FindPending(taskId);
      if taskId !in tasks {
        return;
      }
      if existing.Some? {
        var k := existing.value;
        requests := requests[k := requests[k].(evaluation := evaluation, updatedAt := now)];
      } else {
        var request := Request(taskId, repoId, robotId, actor, now, evaluation, Pending, None, None, now);
        actions := actions + [Action(|requests|, actor, Requested, Some(evaluation.summary), now)];
        requests := requests + [request];
      }
      tasks := tasks[taskId :=
        Task(WaitingApproval, Gated(evaluation.summary, evaluation.decision, evaluation.riskLevel), now)];
    }

    method RejectApproval(id: nat, actor: string, note: Option<string>, changesRequested: bool, now: int)
      returns (outcome: Outcome)
      modifies this
      ensures outcome == ResolveOutcome(old(Contents()), id)
      ensures var v := if changesRequested then Verdict(ChangesRequested, RequestChanges) else Verdict(Rejected, Reject);
              Contents() == Resolve(old(Contents()), id, v, actor, note, now)
    {
      if id >= |requests| || !requests[id].status.Pending? {
        return Nothing;
      }
      var taskId := requests[id].taskId;
      if taskId !in tasks {
        return RolledBack;
      }
      var status := if changesRequested then ChangesRequested else Rejected;
      var reason := NoteOf(note);
      var message := if changesRequested then "Approval requested changes." else "Approval rejected.";
      requests := requests[id := requests[id].(status := status, resolvedBy := Some(actor), resolvedAt := Some(now), updatedAt := now)];
      actions := actions + [Action(id, Some(actor), if changesRequested then RequestChanges else Reject, reason, now)];
      tasks := tasks[taskId :=
        Task(Failed, Refused(if reason.Some? then message + " " + reason.value else message, status, reason), now)];
      return Resolved(taskId);
    }

    method ApproveRequestOnce(id: nat, actor: string, note: Option<string>, once: bool,
                              now: int) returns (outcome: Outcome)
      modifies this
      ensures outcome == ResolveOutcome(old(Contents()), id)
      ensures var v := Verdict(Approved, if once then ApproveOnce else Approve);
              Contents() == Resolve(old(Contents()), id, v, actor, note, now)
    {
      if id >= |requests| || !requests[id].status.Pending? {
        return Nothing;
      }
      var taskId := requests[id].taskId;
      if taskId !in tasks {
        return RolledBack;
      }
      requests := requests[id := requests[id].(status := Approved, resolvedBy := Some(actor), resolvedAt := Some(now), updatedAt := now)];
      actions := actions + [Action(id, Some(actor), if once then ApproveOnce else Approve, NoteOf(note), now)];
      tasks := tasks[taskId := Task(Queued, Granted("Approval granted; task returned to queue."), now)];
      return Resolved(taskId);
    }

    method ApproveRequestAlways(id: nat, actor: string, note: Option<string>, now: int) returns (outcome: Outcome)
      modifies this
      ensures outcome == ResolveOutcome(old(Contents()), id)
      ensures Contents() == Resolve(old(Contents()), id, Verdict(Approved, ApproveAlways), actor, note, now)
    {
      hide ConditionsOf;
      if id >= |requests| || !requests[id].status.Pending? {
        return Nothing;
      }
      var current := requests[id];
      if current.taskId !in tasks {
        return RolledBack;
      }
      rules := rules + [Rule(id, current.repoId, current.robotId, actor, ConditionsOf(current.evaluation), now)];
      requests := requests[id := current.(status := Approved, resolvedBy := Some(actor), resolvedAt := Some(now), updatedAt := now)];
      actions := actions + [Action(id, Some(actor), ApproveAlways, NoteOf(note), now)];
      tasks := tasks[current.taskId := Task(Queued, Granted("Approval granted and a matching allow rule was created."), now)];
      return Resolved(current.taskId);
    }
  }
}
