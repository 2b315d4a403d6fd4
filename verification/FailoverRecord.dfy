/**
 * What the record of a run says in the end, attempt by attempt and with its texts, told from the
 * outcomes alone.
 */
module FailoverRecord {
  import opened Text
  import opened Failover

  /** The row of an attempt that has come to `outcome`. */
  predicate Shows(row: Attempt, p: Provider, role: Role, outcome: Outcome, waiting: string, running: string, won: string) {
    match outcome
    case SetupFails => row == Attempt(p, role, Planned, waiting)
    case Aborts(_) => row == Attempt(p, role, Running, running)
    case Succeeds => row == Attempt(p, role, Succeeded, won)
    case Fails(error) => row == Attempt(p, role, Failed, error)
  }

  /** How many times an attempt's record is saved. */
  function Saves(outcome: Outcome): nat {
    match outcome case SetupFails => 0 case Aborts(_) => 1 case Succeeds => 2 case Fails(_) => 2
  }

  function RunningText(second: bool): string {
    if second then "Running after primary provider failure." else "Selected for execution."
  }

  function WonText(second: bool): string {
    if second then "Fallback provider succeeded after primary failure." else "Execution completed successfully."
  }

  lemma StartRows(plan: Plan)
    requires Shaped(plan)
    ensures var r := StartRecord(plan);
            && |r.attempts| == |plan.attempts| && r.primary == plan.primary && r.selected == plan.selected
            && r.final.None? && !r.failoverTriggered
            && (plan.selected == plan.primary ==>
                  r.attempts[0] == Attempt(plan.primary, Primary, Planned, "Selected for execution."))
            && (plan.selected == plan.primary && |plan.attempts| == 2 ==>
                  r.attempts[1] == Attempt(plan.attempts[1].provider, Fallback, Planned, "Waiting for failover."))
            && (plan.selected != plan.primary ==>
                  && r.attempts[0] == Attempt(plan.primary, Primary, Skipped,
                       "Skipped before execution because availability-first routing selected the fallback provider.")
                  && r.attempts[1] == Attempt(plan.selected, Fallback, Planned, "Selected for execution."))
  {
  }

  /** An update of one provider's row, where the rows are of different providers. */
  lemma UpdateRow(r: Record, k: nat, status: Status, reason: string)
    requires k < |r.attempts| <= 2
    requires |r.attempts| == 2 ==> r.attempts[0].provider != r.attempts[1].provider
    ensures Update(r, r.attempts[k].provider, status, reason)
            == r.(attempts := r.attempts[k := r.attempts[k].(status := status, reason := reason)])
  {
  }

  lemma StartedRow(r: Record, a: Planned, index: nat, k: nat)
    requires k < |r.attempts| <= 2 && a.provider == r.attempts[k].provider
    requires |r.attempts| == 2 ==> r.attempts[0].provider != r.attempts[1].provider
    ensures var second := a.role.Fallback? && index > 0;
            Started(r, a, index) ==
            r.(attempts := r.attempts[k := r.attempts[k].(status := Running, reason := RunningText(second))],
               failoverTriggered := r.failoverTriggered || second)
  {
    hide Update;
    UpdateRow(r, k, Running, RunningText(IsFailover(a, index)));
  }

  lemma WonRow(r: Record, a: Planned, index: nat, k: nat)
    requires k < |r.attempts| <= 2 && a.provider == r.attempts[k].provider
    requires |r.attempts| == 2 ==> r.attempts[0].provider != r.attempts[1].provider
    ensures var second := a.role.Fallback? && index > 0;
            Won(r, a, index) ==
            r.(attempts := r.attempts[k := r.attempts[k].(status := Succeeded, reason := WonText(second))],
               final := Some(a.provider), failoverTriggered := r.failoverTriggered || second)
  {
    hide Update;
    UpdateRow(r, k, Succeeded, WonText(IsFailover(a, index)));
  }

  /** One turn of the loop rewrites the row of its attempt and nothing else but the verdict. */
  lemma TurnRow(queue: seq<Planned>, index: nat, k: nat, outcome: Outcome, p: Progress)
    requires index < |queue| && k < |p.record.attempts| <= 2 && p.ended.None?
    requires |p.record.attempts| == 2 ==> p.record.attempts[0].provider != p.record.attempts[1].provider
    requires queue[index].provider == p.record.attempts[k].provider && queue[index].role == p.record.attempts[k].role
    requires p.record.attempts[k].status.Planned?
    ensures var r, row, p' := p.record, p.record.attempts[k], Turn(queue, index, outcome, p);
            var second := row.role.Fallback? && index > 0;
            && |p'.record.attempts| == |r.attempts|
            && (forall i :: 0 <= i < |r.attempts| && i != k ==> p'.record.attempts[i] == r.attempts[i])
            && Shows(p'.record.attempts[k], row.provider, row.role, outcome, row.reason, RunningText(second), WonText(second))
            && p'.record.final == (if outcome.Succeeds? then Some(row.provider) else r.final)
            && p'.record.failoverTriggered == (r.failoverTriggered || (second && !outcome.SetupFails?))
            && p'.record.primary == r.primary && p'.record.selected == r.selected
            && |p'.saved| == |p.saved| + Saves(outcome)
            && (p'.ended.None? <==> outcome.Fails? && row.role.Primary? && index < |queue| - 1)
            && (p'.ended == Some(Success) <==> outcome.Succeeds?)
  {
    hide Update, Started, Won, RunningText, WonText;
    var r, a := p.record, queue[index];
    StartedRow(r, a, index, k);
    var started := Started(r, a, index);
    if outcome.Succeeds? { WonRow(started, a, index, k); }
    if outcome.Fails? { UpdateRow(started, k, Failed, outcome.error); }
  }

  /** The primary runs first; the fallback takes over exactly after its failure and by the policy. */
  lemma PrimaryRunTells(plan: Plan, outcomes: nat -> Outcome)
    requires Shaped(plan) && plan.selected == plan.primary
    ensures var end := Run(plan, outcomes);
            var r := end.record;
            var takesOver := outcomes(0).Fails? && plan.config.policy.FallbackOnce? && |plan.attempts| == 2;
            && |r.attempts| == |plan.attempts| && r.primary == plan.primary && r.selected == plan.primary
            && Shows(r.attempts[0], plan.primary, Primary, outcomes(0), "Selected for execution.", "Selected for execution.",
                     "Execution completed successfully.")
            && (takesOver ==>
                  Shows(r.attempts[1], plan.attempts[1].provider, Fallback, outcomes(1), "Waiting for failover.",
                        "Running after primary provider failure.", "Fallback provider succeeded after primary failure."))
            && (|plan.attempts| == 2 && !takesOver ==>
                  r.attempts[1] == Attempt(plan.attempts[1].provider, Fallback, Planned, "Waiting for failover."))
            && r.final == (if outcomes(0).Succeeds? then Some(plan.primary)
                           else if takesOver && outcomes(1).Succeeds? then Some(plan.attempts[1].provider) else None)
            && (r.failoverTriggered <==> takesOver && !outcomes(1).SetupFails?)
            && |end.saved| == Saves(outcomes(0)) + (if takesOver then Saves(outcomes(1)) else 0)
            && (end.ended == Some(Success) <==> r.final.Some?)
  {
    hide Queue, StartRecord, Turn, Loop;
    var queue := Queue(plan);
    var p := Progress(StartRecord(plan), [], None);
    QueueIs(plan);
    StartRows(plan);
    LoopUnfolds(queue, outcomes, p);
    TurnRow(queue, 0, 0, outcomes(0), p);
    var one := Turn(queue, 0, outcomes(0), p);
    if one.ended.None? { TurnRow(queue, 1, 1, outcomes(1), one); }
  }

  /** The fallback runs alone when availability has selected it up front. */
  lemma FallbackRunTells(plan: Plan, outcomes: nat -> Outcome)
    requires Shaped(plan) && plan.selected != plan.primary
    ensures var end := Run(plan, outcomes);
            var r := end.record;
            && |r.attempts| == 2 && r.primary == plan.primary && r.selected == plan.selected
            && r.attempts[0] == Attempt(plan.primary, Primary, Skipped,
                 "Skipped before execution because availability-first routing selected the fallback provider.")
            && Shows(r.attempts[1], plan.selected, Fallback, outcomes(0), "Selected for execution.", "Selected for execution.",
                     "Execution completed successfully.")
            && r.final == (if outcomes(0).Succeeds? then Some(plan.selected) else None)
            && !r.failoverTriggered && |end.saved| == Saves(outcomes(0))
            && (end.ended == Some(Success) <==> r.final.Some?)
  {
    hide Queue, StartRecord, Turn, Loop;
    var queue := Queue(plan);
    var p := Progress(StartRecord(plan), [], None);
    QueueIs(plan);
    StartRows(plan);
    LoopUnfolds(queue, outcomes, p);
    TurnRow(queue, 0, 1, outcomes(0), p);
  }
}
