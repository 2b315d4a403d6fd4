/**
 * Provider routing: which model provider runs a task, and when another one takes over.
 *
 * The record of a run is keyed by provider: an update touches every attempt of that provider. It
 * describes single attempts only because the normalised fallback is never the primary provider.
 */
module Failover {
  import opened Text

  datatype Provider = Codex | ClaudeCode | GeminiCli

  datatype Mode = Fixed | AvailabilityFirst

  datatype Policy = Disabled | FallbackOnce

  datatype Role = Primary | Fallback

  datatype Status = Planned | Skipped | Running | Succeeded | Failed

  datatype RawConfig = RawConfig(mode: string, policy: string, fallback: string)

  datatype Config = Config(mode: Mode, fallback: Option<Provider>, policy: Policy)

  datatype Planned = PlannedAttempt(provider: Provider, role: Role)

  datatype Plan = Plan(config: Config, primary: Provider, selected: Provider, attempts: seq<Planned>)

  datatype Attempt = Attempt(provider: Provider, role: Role, status: Status, reason: string)

  datatype Record = Record(
    primary: Provider,
    selected: Provider,
    final: Option<Provider>,
    failoverTriggered: bool,
    attempts: seq<Attempt>)

  // ---------------------------------------------------------------- configuration and plan

  function ProviderOf(key: string): Option<Provider> {
    if key == "codex" then Some(Codex)
    else if key == "claude_code" then Some(ClaudeCode)
    else if key == "gemini_cli" then Some(GeminiCli)
    else None
  }

  /** `lower` is `toLowerCase`. */
  function Normalize(raw: Option<RawConfig>, primary: Provider, lower: string -> string): (c: Config)
    ensures c.fallback != Some(primary)
    ensures c.policy.FallbackOnce? ==> c.fallback.Some?
  {
    if raw.None? then Config(Fixed, None, Disabled)
    else
      var asked := ProviderOf(lower(Trim(raw.value.fallback)));
      var fallback := if asked.Some? && asked.value != primary then asked else None;
      Config(
        if lower(Trim(raw.value.mode)) == "availability_first" then AvailabilityFirst else Fixed,
        fallback,
        if fallback.Some? && lower(Trim(raw.value.policy)) == "fallback_provider_once" then FallbackOnce else Disabled)
  }

  function BuildPlan(config: Config, primary: Provider, canExecute: Provider -> bool): Plan {
    var attempts := [PlannedAttempt(primary, Primary)]
                    + (if config.fallback.Some? then [PlannedAttempt(config.fallback.value, Fallback)] else []);
    if config.mode.AvailabilityFirst? && !canExecute(primary) && config.fallback.Some? && canExecute(config.fallback.value) then
      Plan(config, primary, config.fallback.value, attempts)
    else
      Plan(config, primary, primary, attempts)
  }

  function StartOf(a: Planned, plan: Plan): Attempt {
    if a.provider == plan.selected then Attempt(a.provider, a.role, Planned, "Selected for execution.")
    else if a.role.Primary? && plan.selected != plan.primary then
      Attempt(a.provider, a.role, Skipped,
              "Skipped before execution because availability-first routing selected the fallback provider.")
    else Attempt(a.provider, a.role, Planned, "Waiting for failover.")
  }

  function StartRecord(plan: Plan): Record {
    Record(plan.primary, plan.selected, None, false,
           seq(|plan.attempts|, i requires 0 <= i < |plan.attempts| => StartOf(plan.attempts[i], plan)))
  }

  /** Every attempt of the provider gets the new status; a failure's reason is its error. */
  function Update(r: Record, provider: Provider, status: Status, reason: string): Record {
    r.(attempts := seq(|r.attempts|, i requires 0 <= i < |r.attempts| =>
      if r.attempts[i].provider == provider then
        r.attempts[i].(status := status, reason := reason)
      else r.attempts[i]))
  }

  function FindProvider(attempts: seq<Planned>, p: Provider): Option<Planned> {
    if attempts == [] then None else if attempts[0].provider == p then Some(attempts[0]) else FindProvider(attempts[1..], p)
  }

  function FindFallback(attempts: seq<Planned>): Option<Planned> {
    if attempts == [] then None else if attempts[0].role.Fallback? then Some(attempts[0]) else FindFallback(attempts[1..])
  }

  function Queue(plan: Plan): seq<Planned>
    requires plan.attempts != []
  {
    var found := FindProvider(plan.attempts, plan.selected);
    var first := if found.Some? then found.value else plan.attempts[0];
    var second := if plan.selected == plan.primary && plan.config.policy.FallbackOnce? then FindFallback(plan.attempts) else None;
    if second.Some? then [first, second.value] else [first]
  }

  // ---------------------------------------------------------------- the attempt loop

  /**
   * What becomes of an attempt: preparing its files throws, or the model run ends in one of three
   * ways. Saving the record and writing the log cannot throw.
   */
  datatype Outcome =
    | SetupFails
    | Succeeds
    | Fails(error: string)
    | Aborts(error: string)

  datatype Ended = Success | Thrown

  /** The record as it stands, its saved versions, and whether and how the loop has ended. */
  datatype Progress = Progress(record: Record, saved: seq<Record>, ended: Option<Ended>)

  predicate IsFailover(a: Planned, index: nat) {
    a.role.Fallback? && index > 0
  }

  function Started(r: Record, a: Planned, index: nat): Record {
    var reason := if IsFailover(a, index) then "Running after primary provider failure." else "Selected for execution.";
    Update(r, a.provider, Running, reason).(failoverTriggered := r.failoverTriggered || IsFailover(a, index))
  }

  function Won(r: Record, a: Planned, index: nat): Record {
    var reason := if IsFailover(a, index) then "Fallback provider succeeded after primary failure."
                  else "Execution completed successfully.";
    Update(r, a.provider, Succeeded, reason).(
      final := Some(a.provider), failoverTriggered := r.failoverTriggered || IsFailover(a, index))
  }

  function Save(p: Progress, r: Record): Progress {
    p.(record := r, saved := p.saved + [r])
  }

  /** One turn of the loop. */
  function Turn(queue: seq<Planned>, index: nat, outcome: Outcome, p: Progress): Progress
    requires index < |queue|
  {
    var a := queue[index];
    if outcome.SetupFails? then p.(ended := Some(Thrown))
    else
      var running := Save(p, Started(p.record, a, index));
      match outcome
      case Succeeds => Save(running, Won(running.record, a, index)).(ended := Some(Success))
      case Aborts(_) => running.(ended := Some(Thrown))
      case Fails(error) =>
        var failed := Save(running, Update(running.record, a.provider, Failed, error));
        if a.role.Fallback? || index == |queue| - 1 then failed.(ended := Some(Thrown)) else failed
  }

  function Loop(queue: seq<Planned>, index: nat, outcomes: nat -> Outcome, p: Progress): Progress
    requires index <= |queue|
    decreases |queue| - index
  {
    if index == |queue| || p.ended.Some? then p
    else Loop(queue, index + 1, outcomes, Turn(queue, index, outcomes(index), p))
  }

  function Run(plan: Plan, outcomes: nat -> Outcome): Progress
    requires plan.attempts != []
  {
    Loop(Queue(plan), 0, outcomes, Progress(StartRecord(plan), [], None))
  }

  /** The loop as it is written, with the outcome of each attempt given. */
  method RunAttempts(plan: Plan, outcomes: nat -> Outcome)
    returns (record: Record, saved: seq<Record>, succeeded: bool)
    requires plan.attempts != []
    ensures var end := Run(plan, outcomes);
            record == end.record && saved == end.saved && (succeeded <==> end.ended == Some(Success))
  {
    hide Queue, StartRecord, Update;
    record := StartRecord(plan);
    saved := [];
    succeeded := false;
    var queue := Queue(plan);
    var index := 0;
    while index < |queue|
      invariant index <= |queue| && !succeeded
      invariant Run(plan, outcomes) == Loop(queue, index, outcomes, Progress(record, saved, None))
    {
      var attempt := queue[index];
      var outcome := outcomes(index);
      var failover := attempt.role.Fallback? && index > 0;
      if outcome.SetupFails? {
        return;
      }
      record := Update(record, attempt.provider, Running,
                       if failover then "Running after primary provider failure." else "Selected for execution.")
                .(failoverTriggered := record.failoverTriggered || failover);
      saved := saved + [record];
      if outcome.Aborts? {
        return;
      }
      if outcome.Succeeds? {
        record := Update(record, attempt.provider, Succeeded,
                         if failover then "Fallback provider succeeded after primary failure."
                         else "Execution completed successfully.")
                  .(final := Some(attempt.provider), failoverTriggered := record.failoverTriggered || failover);
        saved := saved + [record];
        succeeded := true;
        return;
      }
      record := Update(record, attempt.provider, Failed, outcome.error);
      saved := saved + [record];
      if attempt.role.Fallback? || index == |queue| - 1 {
        return;
      }
      index := index + 1;
    }
  }

  // ---------------------------------------------------------------- what a record says

  predicate Ran(s: Status) {
    s.Running? || s.Succeeded? || s.Failed?
  }

  /** The primary provider's attempt, and the fallback's when there is one, each its own provider. */
  predicate Shaped(plan: Plan) {
    && 1 <= |plan.attempts| <= 2
    && plan.attempts[0] == PlannedAttempt(plan.primary, Primary)
    && (|plan.attempts| == 2 ==> plan.attempts[1].role.Fallback? && plan.attempts[1].provider != plan.primary)
    && (plan.selected == plan.primary || (|plan.attempts| == 2 && plan.selected == plan.attempts[1].provider))
  }

  predicate Tells(plan: Plan, r: Record)
    requires Shaped(plan)
  {
    && |r.attempts| == |plan.attempts|
    && (forall i :: 0 <= i < |r.attempts| ==>
          r.attempts[i].provider == plan.attempts[i].provider && r.attempts[i].role == plan.attempts[i].role)
  }

  /**
   * The final provider is the one attempt that succeeded; a skipped primary is the one that was
   * not selected; a failover means that the fallback has started after the primary failed; and
   * the fallback starts only when selected up front, or by the policy after a failure.
   */
  predicate Honest(plan: Plan, r: Record)
    requires Shaped(plan)
  {
    && Tells(plan, r)
    && var first := r.attempts[0].status;
    var second := if |r.attempts| == 2 then r.attempts[1].status else Planned;
    && !(first.Running? && second.Running?) && !(first.Succeeded? && second.Succeeded?)
    && (r.final == if first.Succeeded? then Some(plan.primary)
                   else if second.Succeeded? then Some(plan.attempts[1].provider) else None)
    && (first.Skipped? <==> plan.selected != plan.primary) && !second.Skipped?
    && (r.failoverTriggered <==> plan.selected == plan.primary && Ran(second))
    && (r.failoverTriggered ==> first.Failed?)
    && (Ran(second) ==> plan.selected != plan.primary || (plan.config.policy.FallbackOnce? && first.Failed?))
  }

  lemma PlanIsShaped(raw: Option<RawConfig>, primary: Provider, lower: string -> string, canExecute: Provider -> bool)
    ensures var config := Normalize(raw, primary, lower);
            var plan := BuildPlan(config, primary, canExecute);
            && Shaped(plan) && plan.primary == primary && plan.config == config
            && (plan.selected != primary <==>
                  config.mode.AvailabilityFirst? && !canExecute(primary) && config.fallback.Some? && canExecute(config.fallback.value))
  {
  }

  // ---------------------------------------------------------------- configurations as text

  function ModeText(m: Mode): string {
    match m case Fixed => "fixed" case AvailabilityFirst => "availability_first"
  }

  function PolicyText(p: Policy): string {
    match p case Disabled => "disabled" case FallbackOnce => "fallback_provider_once"
  }

  function KeyOf(p: Provider): string {
    match p case Codex => "codex" case ClaudeCode => "claude_code" case GeminiCli => "gemini_cli"
  }

  function Write(c: Config): RawConfig {
    RawConfig(ModeText(c.mode), PolicyText(c.policy), if c.fallback.None? then "" else KeyOf(c.fallback.value))
  }

  /** What `toLowerCase` does to texts of small letters and underscores. */
  ghost predicate KeepsSmall(lower: string -> string) {
    forall s :: (forall i :: 0 <= i < |s| ==> 'a' <= s[i] <= 'z' || s[i] == '_') ==> lower(s) == s
  }

  lemma SmallText(s: string, lower: string -> string)
    requires KeepsSmall(lower) && forall i :: 0 <= i < |s| ==> 'a' <= s[i] <= 'z' || s[i] == '_'
    ensures lower(Trim(s)) == s
  {
    TrimOfTrimmed(s);
  }

  /** Which texts stand for which provider. */
  lemma ProviderOfIs(key: string, p: Provider)
    ensures ProviderOf(key) == Some(p) <==>
            (p.Codex? && key == "codex") || (p.ClaudeCode? && key == "claude_code") || (p.GeminiCli? && key == "gemini_cli")
  {
    assert "codex"[1] != "claude_code"[1] && "codex"[0] != "gemini_cli"[0] && "claude_code"[0] != "gemini_cli"[0];
  }

  /** Which texts give which mode, policy and fallback. */
  lemma NormalizeExactly(raw: Option<RawConfig>, primary: Provider, lower: string -> string)
    ensures var c := Normalize(raw, primary, lower);
            && (c.mode.AvailabilityFirst? <==> raw.Some? && lower(Trim(raw.value.mode)) == "availability_first")
            && (c.policy.FallbackOnce? <==>
                  raw.Some? && lower(Trim(raw.value.policy)) == "fallback_provider_once" && c.fallback.Some?)
            && (c.fallback == Some(Codex) <==> raw.Some? && primary != Codex && lower(Trim(raw.value.fallback)) == "codex")
            && (c.fallback == Some(ClaudeCode) <==>
                  raw.Some? && primary != ClaudeCode && lower(Trim(raw.value.fallback)) == "claude_code")
            && (c.fallback == Some(GeminiCli) <==>
                  raw.Some? && primary != GeminiCli && lower(Trim(raw.value.fallback)) == "gemini_cli")
  {
    hide Trim, ProviderOf;
    if raw.Some? {
      var key := lower(Trim(raw.value.fallback));
      ProviderOfIs(key, Codex);
      ProviderOfIs(key, ClaudeCode);
      ProviderOfIs(key, GeminiCli);
    }
  }

  lemma TextsDiffer(c: Config)
    ensures ModeText(c.mode) == "availability_first" <==> c.mode.AvailabilityFirst?
    ensures PolicyText(c.policy) == "fallback_provider_once" <==> c.policy.FallbackOnce?
  {
    assert "fixed"[0] != "availability_first"[0] && "disabled"[0] != "fallback_provider_once"[0];
  }

  lemma WritesSmall(c: Config, lower: string -> string)
    requires KeepsSmall(lower)
    ensures var raw := Write(c);
            && lower(Trim(raw.mode)) == ModeText(c.mode) && lower(Trim(raw.policy)) == PolicyText(c.policy)
            && lower(Trim(raw.fallback)) == if c.fallback.None? then "" else KeyOf(c.fallback.value)
  {
    hide Trim, KeepsSmall;
    var raw := Write(c);
    SmallText(raw.mode, lower);
    SmallText(raw.policy, lower);
    SmallText(raw.fallback, lower);
  }

  lemma SameConfig(a: Config, b: Config)
    requires a.mode.AvailabilityFirst? <==> b.mode.AvailabilityFirst?
    requires a.policy.FallbackOnce? <==> b.policy.FallbackOnce?
    requires forall p :: a.fallback == Some(p) <==> b.fallback == Some(p)
    ensures a == b
  {
    if a.fallback.Some? { assert b.fallback == Some(a.fallback.value); }
  }

  /** Reading undoes writing, for every configuration that can be meant. */
  lemma NormalizeUndoesWrite(c: Config, primary: Provider, lower: string -> string)
    requires KeepsSmall(lower) && c.fallback != Some(primary) && (c.policy.FallbackOnce? ==> c.fallback.Some?)
    ensures Normalize(Some(Write(c)), primary, lower) == c
  {
    hide *;
    var n := Normalize(Some(Write(c)), primary, lower);
    WritesSmall(c, lower);
    NormalizeExactly(Some(Write(c)), primary, lower);
    TextsDiffer(c);
    forall p ensures n.fallback == Some(p) <==> c.fallback == Some(p) {
      if c.fallback.Some? { KeysDiffer(c.fallback.value); }
      match p case Codex => case ClaudeCode => case GeminiCli =>
    }
    SameConfig(n, c);
  }

  lemma KeysDiffer(p: Provider)
    ensures KeyOf(p) == "codex" <==> p.Codex?
    ensures KeyOf(p) == "claude_code" <==> p.ClaudeCode?
    ensures KeyOf(p) == "gemini_cli" <==> p.GeminiCli?
    ensures KeyOf(p) != ""
  {
    assert "codex"[1] != "claude_code"[1] && "codex"[0] != "gemini_cli"[0] && "claude_code"[0] != "gemini_cli"[0];
  }

  /** Which provider runs first, from the texts: the named fallback, if availability comes first and only it is available. */
  lemma SelectedExactly(raw: Option<RawConfig>, primary: Provider, lower: string -> string, canExecute: Provider -> bool,
                        p: Provider)
    requires p != primary
    ensures var selected := BuildPlan(Normalize(raw, primary, lower), primary, canExecute).selected;
            && (selected == p <==>
                  && raw.Some? && lower(Trim(raw.value.mode)) == "availability_first"
                  && !canExecute(primary) && canExecute(p)
                  && (match p
                      case Codex => lower(Trim(raw.value.fallback)) == "codex"
                      case ClaudeCode => lower(Trim(raw.value.fallback)) == "claude_code"
                      case GeminiCli => lower(Trim(raw.value.fallback)) == "gemini_cli"))
  {
    hide Trim, Normalize;
    NormalizeExactly(raw, primary, lower);
  }

  // ---------------------------------------------------------------- the queue of attempts

  /** The queue: the selected attempt, and the fallback after a primary that the policy backs up. */
  lemma QueueIs(plan: Plan)
    requires Shaped(plan)
    ensures var queue := Queue(plan);
            && (plan.selected != plan.primary ==> queue == [plan.attempts[1]])
            && (plan.selected == plan.primary && plan.config.policy.FallbackOnce? && |plan.attempts| == 2 ==> queue == plan.attempts)
            && (plan.selected == plan.primary && !(plan.config.policy.FallbackOnce? && |plan.attempts| == 2) ==>
                  queue == [plan.attempts[0]])
  {
    var first := plan.attempts[0];
    if |plan.attempts| == 1 {
      assert plan.attempts == [first];
      FindIn(first, first, plan.selected);
    } else {
      assert plan.attempts == [first, plan.attempts[1]];
      FindIn(first, plan.attempts[1], plan.selected);
    }
  }

  lemma FindIn(a: Planned, b: Planned, p: Provider)
    ensures FindProvider([a], p) == if a.provider == p then Some(a) else None
    ensures FindFallback([a]) == if a.role.Fallback? then Some(a) else None
    ensures a.provider == p ==> FindProvider([a, b], p) == Some(a)
    ensures a.provider != p && b.provider == p ==> FindProvider([a, b], p) == Some(b)
    ensures a.role.Primary? && b.role.Fallback? ==> FindFallback([a, b]) == Some(b)
  {
    assert [a][1..] == [] && [a, b][1..] == [b] && [b][1..] == [];
  }

  lemma UpdateOne(plan: Plan, r: Record, k: nat, status: Status, reason: string)
    requires Shaped(plan) && Tells(plan, r) && k < |plan.attempts|
    ensures var r' := Update(r, plan.attempts[k].provider, status, reason);
            && Tells(plan, r') && r'.attempts[k].status == status
            && (forall i :: 0 <= i < |r.attempts| && i != k ==> r'.attempts[i] == r.attempts[i])
            && r'.final == r.final && r'.failoverTriggered == r.failoverTriggered
  {
  }

  lemma StartIsHonest(plan: Plan)
    requires Shaped(plan)
    ensures Honest(plan, StartRecord(plan)) && StartRecord(plan).final.None?
    ensures plan.selected == plan.primary ==> StartRecord(plan).attempts[0].status == Planned
    ensures |plan.attempts| == 2 ==> StartRecord(plan).attempts[1].status == Planned
  {
    hide StartRecord;
    StartStatuses(plan);
  }

  lemma StartStatuses(plan: Plan)
    requires Shaped(plan)
    ensures var r := StartRecord(plan);
            && Tells(plan, r) && r.final.None? && !r.failoverTriggered
            && (r.attempts[0].status == if plan.selected == plan.primary then Planned else Skipped)
            && (|plan.attempts| == 2 ==> r.attempts[1].status == Planned)
  {
    hide StartOf;
    StartOfIs(plan.attempts[0], plan);
    if |plan.attempts| == 2 { StartOfIs(plan.attempts[1], plan); }
  }

  lemma StartOfIs(a: Planned, plan: Plan)
    ensures StartOf(a, plan).provider == a.provider && StartOf(a, plan).role == a.role
    ensures StartOf(a, plan).status ==
            if a.provider != plan.selected && a.role.Primary? && plan.selected != plan.primary then Skipped else Planned
  {
  }

  /** Attempt k of the plan is about to start: nothing else runs, and it is its turn. */
  predicate Due(plan: Plan, r: Record, k: nat, index: nat)
    requires Shaped(plan)
  {
    && k < |plan.attempts| && Honest(plan, r) && r.final.None?
    && r.attempts[k].status.Planned? && (|r.attempts| == 2 ==> !r.attempts[1 - k].status.Running?)
    && (k == 0 ==> plan.selected == plan.primary && index == 0)
    && (k == 1 && plan.selected != plan.primary ==> index == 0)
    && (k == 1 && plan.selected == plan.primary ==> index == 1 && plan.config.policy.FallbackOnce? && r.attempts[0].status.Failed?)
  }

  /** Starting, and then winning or failing, keeps the record honest. */
  lemma StartedIsHonest(plan: Plan, r: Record, k: nat, index: nat)
    requires Shaped(plan) && Due(plan, r, k, index)
    ensures var r' := Started(r, plan.attempts[k], index);
            && Honest(plan, r') && r'.attempts[k].status.Running? && r'.final.None?
            && |r'.attempts| == |r.attempts|
            && (forall i :: 0 <= i < |r.attempts| && i != k ==> r'.attempts[i] == r.attempts[i])
  {
    hide Update;
    UpdateOne(plan, r, k, Running,
              if IsFailover(plan.attempts[k], index) then "Running after primary provider failure." else "Selected for execution.");
  }

  lemma WonIsHonest(plan: Plan, r: Record, k: nat, index: nat)
    requires Shaped(plan) && Due(plan, r, k, index)
    ensures var r' := Won(Started(r, plan.attempts[k], index), plan.attempts[k], index);
            && Honest(plan, r') && r'.final == Some(plan.attempts[k].provider)
            && (forall i :: 0 <= i < |r'.attempts| ==> !r'.attempts[i].status.Running?)
  {
    hide Update;
    StartedIsHonest(plan, r, k, index);
    UpdateOne(plan, Started(r, plan.attempts[k], index), k, Succeeded,
              if IsFailover(plan.attempts[k], index) then "Fallback provider succeeded after primary failure."
              else "Execution completed successfully.");
  }

  lemma FailedIsHonest(plan: Plan, r: Record, k: nat, index: nat, error: string)
    requires Shaped(plan) && Due(plan, r, k, index)
    ensures var r' := Update(Started(r, plan.attempts[k], index), plan.attempts[k].provider, Failed, error);
            && Honest(plan, r') && r'.final.None? && |r'.attempts| == |r.attempts| && r'.attempts[k].status.Failed?
            && (forall i :: 0 <= i < |r.attempts| && i != k ==> r'.attempts[i] == r.attempts[i])
  {
    hide Update, Started;
    StartedIsHonest(plan, r, k, index);
    UpdateOne(plan, Started(r, plan.attempts[k], index), k, Failed, error);
  }

  predicate LeftRunning(r: Record) {
    exists i :: 0 <= i < |r.attempts| && r.attempts[i].status.Running?
  }

  predicate AllHonest(plan: Plan, saved: seq<Record>)
    requires Shaped(plan)
  {
    forall i :: 0 <= i < |saved| ==> Honest(plan, saved[i])
  }

  /** One turn of the loop, from a record in which it is due. */
  lemma TurnIsHonest(plan: Plan, queue: seq<Planned>, k: nat, index: nat, outcome: Outcome, p: Progress)
    requires Shaped(plan) && Due(plan, p.record, k, index) && AllHonest(plan, p.saved) && p.ended.None?
    requires index < |queue| && queue[index] == plan.attempts[k]
    ensures var p' := Turn(queue, index, outcome, p);
            && Honest(plan, p'.record) && AllHonest(plan, p'.saved)
            && (p'.ended == Some(Success) <==> outcome.Succeeds?)
            && (p'.record.final.Some? <==> outcome.Succeeds?)
            && (LeftRunning(p'.record) <==> outcome.Aborts?)
            && (p'.ended.None? <==> outcome.Fails? && plan.attempts[k].role.Primary? && index < |queue| - 1)
            && (p'.ended.None? ==> |p'.record.attempts| == |p.record.attempts| && p'.record.attempts[k].status.Failed?)
            && (p'.ended.None? ==>
                  forall i :: 0 <= i < |p.record.attempts| && i != k ==> p'.record.attempts[i] == p.record.attempts[i])
  {
    hide Honest, Started, Won, Update;
    var r := p.record;
    DueIsQuiet(plan, r, k, index);
    StartedIsHonest(plan, r, k, index);
    WonIsHonest(plan, r, k, index);
    if outcome.Fails? { FailedIsHonest(plan, r, k, index, outcome.error); }
  }

  lemma DueIsQuiet(plan: Plan, r: Record, k: nat, index: nat)
    requires Shaped(plan) && Due(plan, r, k, index)
    ensures Honest(plan, r) && r.final.None? && !LeftRunning(r) && |r.attempts| == |plan.attempts|
    ensures forall i :: 0 <= i < |r.attempts| && i != k ==> !r.attempts[i].status.Running?
  {
  }

  // ---------------------------------------------------------------- the whole run

  /** The outcome that ended the loop. */
  function LastOutcome(plan: Plan, outcomes: nat -> Outcome): Outcome
    requires plan.attempts != []
  {
    if |Queue(plan)| == 2 && outcomes(0).Fails? then outcomes(1) else outcomes(0)
  }

  lemma LoopUnfolds(queue: seq<Planned>, outcomes: nat -> Outcome, p: Progress)
    requires 1 <= |queue| <= 2 && p.ended.None?
    ensures var one := Turn(queue, 0, outcomes(0), p);
            && (one.ended.Some? || |queue| == 1 ==> Loop(queue, 0, outcomes, p) == one)
            && (one.ended.None? && |queue| == 2 ==> Loop(queue, 0, outcomes, p) == Turn(queue, 1, outcomes(1), one))
  {
    hide Turn;
    var one := Turn(queue, 0, outcomes(0), p);
    assert Loop(queue, 0, outcomes, p) == Loop(queue, 1, outcomes, one);
    if one.ended.None? && |queue| == 2 {
      assert Loop(queue, 1, outcomes, one) == Loop(queue, 2, outcomes, Turn(queue, 1, outcomes(1), one));
    }
  }

  /**
   * Every record that is saved on the way, and the one at the end, is honest. The run succeeds
   * exactly when a final provider is named, and an attempt is left "running" exactly when the run
   * was aborted.
   */
  lemma RunIsHonest(raw: Option<RawConfig>, primary: Provider, lower: string -> string,
                    canExecute: Provider -> bool, outcomes: nat -> Outcome)
    ensures var plan := BuildPlan(Normalize(raw, primary, lower), primary, canExecute);
            var end := Run(plan, outcomes);
            && Shaped(plan) && Honest(plan, end.record) && AllHonest(plan, end.saved)
            && end.ended.Some?
            && (end.ended == Some(Success) <==> end.record.final.Some?)
            && (end.record.final.Some? <==> LastOutcome(plan, outcomes).Succeeds?)
            && (LeftRunning(end.record) <==> LastOutcome(plan, outcomes).Aborts?)
  {
    hide Normalize, BuildPlan, Turn, Loop, Honest, AllHonest, LeftRunning, Queue, StartRecord;
    var plan := BuildPlan(Normalize(raw, primary, lower), primary, canExecute);
    PlanIsShaped(raw, primary, lower, canExecute);
    var queue := Queue(plan);
    var p := Progress(StartRecord(plan), [], None);
    QueueIs(plan);
    StartIsHonest(plan);
    StartIsDue(plan);
    var k := if plan.selected == plan.primary then 0 else 1;
    TurnIsHonest(plan, queue, k, 0, outcomes(0), p);
    LoopUnfolds(queue, outcomes, p);
    var one := Turn(queue, 0, outcomes(0), p);
    if one.ended.None? {
      FallbackIsDue(plan, one.record);
      TurnIsHonest(plan, queue, 1, 1, outcomes(1), one);
    }
  }

  lemma StartIsDue(plan: Plan)
    requires Shaped(plan)
    ensures Due(plan, StartRecord(plan), if plan.selected == plan.primary then 0 else 1, 0)
    ensures AllHonest(plan, [])
    ensures |StartRecord(plan).attempts| == |plan.attempts|
    ensures |plan.attempts| == 2 ==> StartRecord(plan).attempts[1].status.Planned?
  {
    hide Honest, StartRecord;
    StartIsHonest(plan);
    StartStatuses(plan);
  }

  lemma FallbackIsDue(plan: Plan, r: Record)
    requires Shaped(plan) && |plan.attempts| == 2 && plan.selected == plan.primary && plan.config.policy.FallbackOnce?
    requires Honest(plan, r) && r.final.None? && r.attempts[0].status.Failed? && r.attempts[1].status.Planned?
    ensures Due(plan, r, 1, 1)
  {
  }

  // ---------------------------------------------------------------- why the keys must differ

  /** A failed primary, its fallback, and a policy that lets the fallback take over. */
  function Backed(config: Config, primary: Provider, fallback: Provider): Plan {
    Plan(config, primary, primary, [PlannedAttempt(primary, Primary), PlannedAttempt(fallback, Fallback)])
  }

  lemma BackedQueue(config: Config, primary: Provider, fallback: Provider)
    requires config.policy.FallbackOnce?
    ensures var plan := Backed(config, primary, fallback); Queue(plan) == plan.attempts
  {
    FindIn(PlannedAttempt(primary, Primary), PlannedAttempt(fallback, Fallback), primary);
  }

  /**
   * With equal keys a run would end in a false record: a fallback that never started counts as
   * failed, and a primary that failed counts as succeeded once its fallback has. Neither can
   * happen with different keys.
   */
  lemma KeysMustDiffer(config: Config, primary: Provider, fallback: Provider, outcomes: nat -> Outcome)
    requires config.policy.FallbackOnce? && outcomes(0).Fails?
    ensures var end := Run(Backed(config, primary, fallback), outcomes).record;
            && |end.attempts| == 2
            && (outcomes(1).SetupFails? ==> (end.attempts[1].status.Failed? <==> primary == fallback))
            && (outcomes(1).Succeeds? ==> (end.attempts[0].status.Succeeded? <==> primary == fallback))
  {
    hide Queue, StartRecord, Loop, Update, StartOf;
    var plan := Backed(config, primary, fallback);
    var p := Progress(StartRecord(plan), [], None);
    BackedQueue(config, primary, fallback);
    StartedBacked(plan);
    LoopUnfolds(plan.attempts, outcomes, p);
    var started := Started(p.record, plan.attempts[0], 0);
    UpdateTwo(p.record, primary, Running, "Selected for execution.");
    UpdateTwo(started, primary, Failed, outcomes(0).error);
    var failed := Update(started, primary, Failed, outcomes(0).error);
    UpdateTwo(failed, fallback, Running, "Running after primary provider failure.");
    var restarted := Started(failed, plan.attempts[1], 1);
    UpdateTwo(restarted, fallback, Succeeded, "Fallback provider succeeded after primary failure.");
    if outcomes(1).Fails? { UpdateTwo(restarted, fallback, Failed, outcomes(1).error); }
  }

  lemma UpdateTwo(r: Record, provider: Provider, status: Status, reason: string)
    requires |r.attempts| == 2
    ensures var r' := Update(r, provider, status, reason);
            && |r'.attempts| == 2
            && r'.attempts[0].provider == r.attempts[0].provider && r'.attempts[1].provider == r.attempts[1].provider
            && (r'.attempts[0].status == if r.attempts[0].provider == provider then status else r.attempts[0].status)
            && (r'.attempts[1].status == if r.attempts[1].provider == provider then status else r.attempts[1].status)
  {
  }

  lemma StartedBacked(plan: Plan)
    requires |plan.attempts| == 2
    ensures var r := StartRecord(plan);
            && |r.attempts| == 2
            && r.attempts[0].provider == plan.attempts[0].provider && r.attempts[1].provider == plan.attempts[1].provider
            && !r.attempts[0].status.Succeeded? && !r.attempts[1].status.Failed?
  {
  }
}
