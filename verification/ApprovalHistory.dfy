/**
 * What the requests, their log and their rules say about the events of a run.
 *
 * The effects of asking and deciding, field by field; and, over runs, which event each field of a
 * request comes from.
 */
module ApprovalHistory {
  import opened Text
  import opened Approvals
  import opened ApprovalSafety
  import opened ApprovalRules

  // ---------------------------------------------------------------- asking

  /** Asking for a task without a pending request adds one, with its first action, and holds the task. */
  lemma AskCreates(s: Store, e: Event)
    requires e.Ask? && e.taskId in s.tasks
    requires forall i :: 0 <= i < |s.requests| && s.requests[i].taskId == e.taskId ==> !s.requests[i].status.Pending?
    ensures var s', n := Step(s, e), |s.requests|;
            && |s'.requests| == n + 1 && (forall i :: 0 <= i < n ==> s'.requests[i] == s.requests[i])
            && s'.requests[n].taskId == e.taskId
            && s'.requests[n].repoId == e.repoId && s'.requests[n].robotId == e.robotId
            && s'.requests[n].requestedBy == e.actor && s'.requests[n].evaluation == e.evaluation
            && s'.requests[n].createdAt == e.now && s'.requests[n].updatedAt == e.now
            && s'.requests[n].status.Pending? && s'.requests[n].resolvedBy.None? && s'.requests[n].resolvedAt.None?
    ensures var s', a := Step(s, e), |s.actions|;
            && |s'.actions| == a + 1 && (forall i :: 0 <= i < a ==> s'.actions[i] == s.actions[i])
            && s'.actions[a].request == |s.requests| && s'.actions[a].kind.Requested?
            && s'.actions[a].actor == e.actor && s'.actions[a].note == Some(e.evaluation.summary) && s'.actions[a].createdAt == e.now
            && s'.rules == s.rules
    ensures HeldFor(s, e)
  {
    hide Newest;
    var k := Newest(s.requests, e.taskId, |s.requests|);
  }

  /** The task waits and says what was asked; no other task is touched. */
  predicate HeldFor(s: Store, e: Event)
    requires e.Ask?
  {
    var s' := Step(s, e);
    && e.taskId in s'.tasks && s'.tasks.Keys == s.tasks.Keys + {e.taskId}
    && (forall t :: t in s.tasks && t != e.taskId ==> s'.tasks[t] == s.tasks[t])
    && s'.tasks[e.taskId].status.WaitingApproval? && s'.tasks[e.taskId].updatedAt == e.now
    && s'.tasks[e.taskId].result.Gated?
    && s'.tasks[e.taskId].result.message == e.evaluation.summary
    && s'.tasks[e.taskId].result.decision == e.evaluation.decision
    && s'.tasks[e.taskId].result.riskLevel == e.evaluation.riskLevel
  }

  /** Asking for a task with a pending request rewrites its evaluation and holds the task again. */
  lemma AskRefreshes(s: Store, e: Event, k: nat)
    requires Inv(s) && e.Ask? && k < |s.requests| && s.requests[k].taskId == e.taskId && s.requests[k].status.Pending?
    ensures var s' := Step(s, e);
            && |s'.requests| == |s.requests| && (forall i :: 0 <= i < |s.requests| && i != k ==> s'.requests[i] == s.requests[i])
            && s'.requests[k] == s.requests[k].(evaluation := e.evaluation, updatedAt := e.now)
            && s'.actions == s.actions && s'.rules == s.rules
    ensures HeldFor(s, e)
  {
    hide Newest, NothingBeyond, WaitingIsPending, LogOf, RulesOf, Logged, Ruled;
    assert RequestOk(s, k);
    assert PendingFor(s.requests[k], e.taskId);
    var n := Newest(s.requests, e.taskId, |s.requests|);
  }

  /** For a task that is not there nothing happens. */
  lemma AskForNothing(s: Store, e: Event)
    requires e.Ask? && e.taskId !in s.tasks
    ensures Step(s, e) == s
  {
  }

  // ---------------------------------------------------------------- deciding

  /** What a decision on a pending request tells the task, and the rule it leaves. */
  lemma DecisionTells(s: Store, id: nat, v: Verdict, actor: string, note: Option<string>, now: int)
    requires Inv(s) && id < |s.requests| && s.requests[id].status.Pending? && Fits(v)
    ensures var s' := Step(s, Decide(id, v, actor, note, now));
            var r := s.requests[id];
            && r.taskId in s'.tasks && s'.tasks[r.taskId].updatedAt == now
            && (v.kind.ApproveAlways? ==>
                  s'.tasks[r.taskId].result == Granted("Approval granted and a matching allow rule was created."))
            && (v.kind.Approve? || v.kind.ApproveOnce? ==>
                  s'.tasks[r.taskId].result == Granted("Approval granted; task returned to queue."))
            && (v.kind.Reject? || v.kind.RequestChanges? ==>
                  var said := note.Some? && Trim(note.value) != "";
                  var message := if v.kind.Reject? then "Approval rejected." else "Approval requested changes.";
                  s'.tasks[r.taskId].result ==
                    if said then Refused(message + " " + Trim(note.value), v.status, Some(Trim(note.value)))
                    else Refused(message, v.status, None))
    ensures var s' := Step(s, Decide(id, v, actor, note, now));
            var r := s.requests[id];
            && (!v.kind.ApproveAlways? ==> s'.rules == s.rules)
            && (v.kind.ApproveAlways? ==>
                  && |s'.rules| == |s.rules| + 1 && (forall i :: 0 <= i < |s.rules| ==> s'.rules[i] == s.rules[i])
                  && s'.rules[|s.rules|].request == id && s'.rules[|s.rules|].createdBy == actor && s'.rules[|s.rules|].createdAt == now
                  && s'.rules[|s.rules|].repoId == r.repoId && s'.rules[|s.rules|].robotId == r.robotId)
    ensures var s' := Step(s, Decide(id, v, actor, note, now));
            && s'.actions[|s'.actions| - 1..] == [Action(id, Some(actor), v.kind,
                  if note.Some? && Trim(note.value) != "" then Some(Trim(note.value)) else None, now)]
  {
    hide Trim, ConditionsOf, LogOf, RulesOf, Logged, Ruled, OnePending, NothingBeyond, WaitingIsPending;
    assert RequestOk(s, id);
  }

  // ---------------------------------------------------------------- where the fields of a request come from

  lemma {:induction false} RunSnoc(s: Store, events: seq<Event>, e: Event)
    ensures Run(s, events + [e]) == Step(Run(s, events), e)
    decreases |events|
  {
    hide Step;
    if events == [] {
      assert [] + [e] == [e] && [e][1..] == [];
      assert Run(Step(s, e), []) == Step(s, e);
    } else {
      assert (events + [e])[1..] == events[1..] + [e];
      RunSnoc(Step(s, events[0]), events[1..], e);
    }
  }

  /** The store before event k, and after all of them for k == |events|. */
  function At(s: Store, events: seq<Event>, k: nat): Store
    requires k <= |events|
  {
    Run(s, events[..k])
  }

  lemma AtNext(s: Store, events: seq<Event>, k: nat)
    requires k < |events|
    ensures At(s, events, k + 1) == Step(At(s, events, k), events[k])
  {
    hide Run, Step;
    RunSnoc(s, events[..k], events[k]);
    assert events[..k + 1] == events[..k] + [events[k]];
  }

  /** Event k created request i. */
  predicate Created(s: Store, events: seq<Event>, i: nat, k: nat) {
    k < |events| && events[k].Ask? && |At(s, events, k).requests| <= i < |At(s, events, k + 1).requests|
  }

  predicate PendingAt(s: Store, events: seq<Event>, i: nat, k: nat)
    requires k <= |events|
  {
    i < |At(s, events, k).requests| && At(s, events, k).requests[i].status.Pending?
  }

  /** Event m is the last that asked for the task of request i while the request was pending, or created it. */
  predicate AskedLast(s: Store, events: seq<Event>, i: nat, m: nat) {
    && m < |events| && events[m].Ask? && PendingAt(s, events, i, m + 1)
    && At(s, events, m + 1).requests[i].taskId == events[m].taskId
    && forall j :: m < j < |events| && events[j].Ask? && events[j].taskId == events[m].taskId ==> !PendingAt(s, events, i, j)
  }

  /** Every field of a request, from the event that created it and the one that asked last. */
  predicate Tells(r: Request, created: Event, asked: Event)
    requires created.Ask? && asked.Ask?
  {
    && r.taskId == created.taskId && r.taskId == asked.taskId
    && r.repoId == created.repoId && r.robotId == created.robotId
    && r.requestedBy == created.actor && r.createdAt == created.now
    && r.evaluation == asked.evaluation
  }

  lemma PrefixAt(s: Store, events: seq<Event>, n: nat, k: nat)
    requires k <= n <= |events|
    ensures At(s, events[..n], k) == At(s, events, k)
  {
    hide Run;
    assert events[..n][..k] == events[..k];
  }

  lemma CreatedStays(s: Store, events: seq<Event>, n: nat, i: nat, k: nat)
    requires n <= |events| && Created(s, events[..n], i, k)
    ensures Created(s, events, i, k)
  {
    hide At;
    PrefixAt(s, events, n, k);
    PrefixAt(s, events, n, k + 1);
  }

  lemma AskedLastStays(s: Store, events: seq<Event>, i: nat, m: nat)
    requires events != [] && AskedLast(s, events[..|events| - 1], i, m)
    requires var n := |events| - 1;
             events[n].Ask? && events[n].taskId == events[m].taskId ==> !PendingAt(s, events, i, n)
    ensures AskedLast(s, events, i, m)
  {
    hide At;
    var n := |events| - 1;
    PrefixAt(s, events, n, m + 1);
    forall j | m < j < |events| && events[j].Ask? && events[j].taskId == events[m].taskId ensures !PendingAt(s, events, i, j) {
      if j < n { PrefixAt(s, events, n, j); }
    }
  }

  /** A step that asks for another task, or for one without this request pending, or does not ask, keeps these fields. */
  lemma OthersKeepFields(s: Store, e: Event, i: nat)
    requires Inv(s) && i < |s.requests|
    requires !(e.Ask? && e.taskId == s.requests[i].taskId && s.requests[i].status.Pending?)
    ensures var s' := Step(s, e);
            && i < |s'.requests|
            && s'.requests[i].taskId == s.requests[i].taskId && s'.requests[i].repoId == s.requests[i].repoId
            && s'.requests[i].robotId == s.requests[i].robotId && s'.requests[i].requestedBy == s.requests[i].requestedBy
            && s'.requests[i].createdAt == s.requests[i].createdAt && s'.requests[i].evaluation == s.requests[i].evaluation
  {
    hide Inv, Newest, RuleFor, NoteOf, TaskAfter;
  }

  lemma NewRequestIsAsked(s: Store, e: Event, i: nat)
    requires |s.requests| <= i < |Step(s, e).requests|
    ensures e.Ask? && e.taskId in s.tasks && i == |s.requests|
    ensures forall j :: 0 <= j < |s.requests| && s.requests[j].taskId == e.taskId ==> !s.requests[j].status.Pending?
  {
    hide Newest, RuleFor, NoteOf, TaskAfter;
  }

  /**
   * After any run from a store without this request: its repository, robot and requester are those
   * of the event that created it, and its evaluation is that of the last event that asked while it
   * was pending.
   */
  lemma {:induction false} RequestTellsEvents(s: Store, events: seq<Event>, i: nat) returns (k: nat, m: nat)
    requires Inv(s) && |s.requests| <= i < |At(s, events, |events|).requests|
    ensures Created(s, events, i, k) && AskedLast(s, events, i, m) && k <= m
    ensures Tells(At(s, events, |events|).requests[i], events[k], events[m])
    decreases |events|
  {
    hide Inv, Step, Run, Created, AskedLast, Tells;
    if events == [] {
      AtStart(s);
    }
    var n := |events| - 1;
    var before, after := At(s, events, n), At(s, events, n + 1);
    var e := events[n];
    RunKeepsInv(s, events[..n]);
    AtNext(s, events, n);
    PrefixAt(s, events, n, n);
    if i < |before.requests| {
      k, m := RequestTellsEvents(s, events[..n], i);
      CreatedStays(s, events, n, i, k);
      InPrefix(s, events, n, i, k, m);
      if e.Ask? && e.taskId == before.requests[i].taskId && before.requests[i].status.Pending? {
        AskRefreshes(before, e, i);
        NowAskedLast(s, events, i);
        RefreshTells(before.requests[i], after.requests[i], events[k], events[m], e);
        m := n;
      } else {
        OthersKeepFields(before, e, i);
        TellsStays(before.requests[i], after.requests[i], events[k], events[m]);
        AskedLastStays(s, events, i, m);
      }
    } else {
      NewRequestIsAsked(before, e, i);
      AskCreates(before, e);
      k, m := n, n;
      NowCreated(s, events, i);
      NowAskedLast(s, events, i);
      NewTells(after.requests[i], e);
    }
  }

  lemma AtStart(s: Store)
    ensures At(s, [], 0) == s
  {
  }

  lemma InPrefix(s: Store, events: seq<Event>, n: nat, i: nat, k: nat, m: nat)
    requires n <= |events| && Created(s, events[..n], i, k) && AskedLast(s, events[..n], i, m)
    ensures k < n && m < n && events[k].Ask? && events[m].Ask? && events[..n][k] == events[k] && events[..n][m] == events[m]
  {
    hide At;
  }

  lemma NowAskedLast(s: Store, events: seq<Event>, i: nat)
    requires events != []
    requires var n := |events| - 1;
             events[n].Ask? && PendingAt(s, events, i, n + 1) && At(s, events, n + 1).requests[i].taskId == events[n].taskId
    ensures AskedLast(s, events, i, |events| - 1)
  {
    hide At;
  }

  lemma NowCreated(s: Store, events: seq<Event>, i: nat)
    requires events != []
    requires var n := |events| - 1; events[n].Ask? && |At(s, events, n).requests| <= i < |At(s, events, n + 1).requests|
    ensures Created(s, events, i, |events| - 1)
  {
    hide At;
  }

  lemma NewTells(r: Request, e: Event)
    requires e.Ask? && r.taskId == e.taskId && r.repoId == e.repoId && r.robotId == e.robotId
    requires r.requestedBy == e.actor && r.createdAt == e.now && r.evaluation == e.evaluation
    ensures Tells(r, e, e)
  {
  }

  lemma RefreshTells(r: Request, r': Request, created: Event, asked: Event, e: Event)
    requires created.Ask? && asked.Ask? && Tells(r, created, asked)
    requires e.Ask? && e.taskId == r.taskId && r' == r.(evaluation := e.evaluation, updatedAt := e.now)
    ensures Tells(r', created, e)
  {
  }

  lemma TellsStays(r: Request, r': Request, created: Event, asked: Event)
    requires created.Ask? && asked.Ask? && Tells(r, created, asked)
    requires r'.taskId == r.taskId && r'.repoId == r.repoId && r'.robotId == r.robotId
    requires r'.requestedBy == r.requestedBy && r'.createdAt == r.createdAt && r'.evaluation == r.evaluation
    ensures Tells(r', created, asked)
  {
  }

  // ---------------------------------------------------------------- the rule, from what was asked

  /** What the policy guard asks for a task as it sees it. */
  function AskFor(c: Context, taskId: string, actor: Option<string>, decision: string, summary: string, now: int): Event {
    Ask(taskId, c.repoId, c.robotId, actor,
        Evaluation(decision, c.riskLevel, summary,
                   Details(c.taskSource, if c.provider.None? then "" else c.provider.value, c.sandbox,
                           Some(c.networkAccess), c.targetFiles, c.commands)),
        now)
  }

  /**
   * After any run: when a request is approved for always, the rule covers the task as the guard saw
   * it when it asked last, exactly when trimming does not change the texts that describe the task.
   */
  lemma RuleCoversItsTask(s: Store, events: seq<Event>, i: nat, k: nat, m: nat, c: Context, taskId: string,
                          actor: Option<string>, decision: string, summary: string, now: int, fold: char -> char)
    requires Inv(s) && |s.requests| <= i < |At(s, events, |events|).requests|
    requires Created(s, events, i, k) && AskedLast(s, events, i, m)
    requires events[k].repoId == c.repoId && events[k].robotId == c.robotId
    requires events[m] == AskFor(c, taskId, actor, decision, summary, now)
    requires ApprovedAlways(At(s, events, |events|), i)
    ensures var rules := RulesOf(At(s, events, |events|).rules, i);
            && |rules| == 1
            && (Covers(rules[0], c, fold) <==> Plain(c.taskSource) && (c.provider.Some? ==> Plain(c.provider.value)) && Plain(c.riskLevel))
  {
    hide Inv, Step, Run, Covers, Created, AskedLast, ApprovedAlways, RulesOf, Plain;
    TheyAsk(s, events, i, k, m);
    var x, y := RequestTellsEvents(s, events, i);
    CreatedOnce(s, events, i, k, x);
    AskedLastOnce(s, events, i, m, y);
    var end := At(s, events, |events|);
    assert events[..|events|] == events;
    RunKeepsInv(s, events);
    DescribedIs(end.requests[i], events[k], events[m], c, taskId, actor, decision, summary, now);
    RuleCoversDescribed(end, i, c, fold);
    PlainNothing();
  }

  lemma PlainNothing()
    ensures Plain("")
  {
    TrimOfTrimmed("");
  }

  lemma DescribedIs(r: Request, created: Event, asked: Event, c: Context, taskId: string, actor: Option<string>,
                    decision: string, summary: string, now: int)
    requires created.Ask? && asked == AskFor(c, taskId, actor, decision, summary, now) && Tells(r, created, asked)
    requires created.repoId == c.repoId && created.robotId == c.robotId
    ensures Describes(r, c)
  {
  }

  lemma {:induction false} RequestsGrow(s: Store, events: seq<Event>, a: nat, b: nat)
    requires a <= b <= |events|
    ensures |At(s, events, a).requests| <= |At(s, events, b).requests|
    decreases b - a
  {
    hide Step, At;
    if a < b {
      AtNext(s, events, a);
      StepGrows(At(s, events, a), events[a]);
      RequestsGrow(s, events, a + 1, b);
    }
  }

  lemma StepGrows(s: Store, e: Event)
    ensures |s.requests| <= |Step(s, e).requests|
  {
    hide Newest, RuleFor, NoteOf, TaskAfter;
  }

  lemma CreatedOnce(s: Store, events: seq<Event>, i: nat, k: nat, l: nat)
    requires Created(s, events, i, k) && Created(s, events, i, l)
    ensures k == l
  {
    hide At;
    if k < l { RequestsGrow(s, events, k + 1, l); }
    if l < k { RequestsGrow(s, events, l + 1, k); }
  }

  lemma {:induction false} TaskStays(s: Store, events: seq<Event>, i: nat, a: nat, b: nat)
    requires a <= b <= |events| && i < |At(s, events, a).requests|
    ensures i < |At(s, events, b).requests| && At(s, events, b).requests[i].taskId == At(s, events, a).requests[i].taskId
    ensures !PendingAt(s, events, i, a) ==> !PendingAt(s, events, i, b)
    decreases b - a
  {
    hide Step, At, Record;
    if a < b {
      AtNext(s, events, a);
      StepKeepsTask(At(s, events, a), events[a], i);
      TaskStays(s, events, i, a + 1, b);
    }
  }

  lemma StepKeepsTask(s: Store, e: Event, i: nat)
    requires i < |s.requests|
    ensures var s' := Step(s, e);
            && i < |s'.requests| && s'.requests[i].taskId == s.requests[i].taskId
            && (!s.requests[i].status.Pending? ==> !s'.requests[i].status.Pending?)
  {
    hide Step;
    StepKeepsRecord(s, e, i);
  }

  lemma AskedLastOnce(s: Store, events: seq<Event>, i: nat, m: nat, n: nat)
    requires AskedLast(s, events, i, m) && AskedLast(s, events, i, n)
    ensures m == n
  {
    NotAfter(s, events, i, m, n);
    NotAfter(s, events, i, n, m);
  }

  lemma NotAfter(s: Store, events: seq<Event>, i: nat, m: nat, n: nat)
    requires AskedLast(s, events, i, m) && AskedLast(s, events, i, n)
    ensures n <= m
  {
    hide At;
    if m < n {
      TaskStays(s, events, i, m + 1, n);
      TaskStays(s, events, i, n, n + 1);
    }
  }

  lemma TheyAsk(s: Store, events: seq<Event>, i: nat, k: nat, m: nat)
    requires Created(s, events, i, k) && AskedLast(s, events, i, m)
    ensures k < |events| && m < |events| && events[k].Ask? && events[m].Ask?
  {
    hide At;
  }
}
