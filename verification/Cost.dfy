/**
 * Cost estimates in whole micro-dollars, and their totals.
 *
 * `Math.round` of a non-negative number is its floor after adding one half; products and
 * quotients are exact here.
 */
module Cost {
  import opened Text

  // ---------------------------------------------------------------- the estimate

  datatype Rate = Rate(inputPer1k: nat, outputPer1k: nat)

  datatype Tokens = Tokens(input: int, output: int)

  function AtLeastZero(n: int): nat {
    if n < 0 then 0 else n
  }

  /** `Math.round(k / 1000)`. */
  function RoundThousandth(k: nat): nat {
    (k + 500) / 1000
  }

  function Estimate(rate: Rate, t: Tokens): nat {
    RoundThousandth(AtLeastZero(t.input) * rate.inputPer1k) + RoundThousandth(AtLeastZero(t.output) * rate.outputPer1k)
  }

  lemma RoundIsNear(k: nat)
    ensures -499 <= 1000 * RoundThousandth(k) - k <= 500
  {
  }

  lemma RoundIsMonotone(a: nat, b: nat)
    requires a <= b
    ensures RoundThousandth(a) <= RoundThousandth(b)
  {
  }

  lemma ProductIsMonotone(a: nat, b: nat, rate: nat)
    requires a <= b
    ensures a * rate <= b * rate
  {
  }

  /** More tokens of either kind never cost less. */
  lemma EstimateIsMonotone(rate: Rate, s: Tokens, t: Tokens)
    requires s.input <= t.input && s.output <= t.output
    ensures Estimate(rate, s) <= Estimate(rate, t)
  {
    hide RoundThousandth;
    ProductIsMonotone(AtLeastZero(s.input), AtLeastZero(t.input), rate.inputPer1k);
    ProductIsMonotone(AtLeastZero(s.output), AtLeastZero(t.output), rate.outputPer1k);
    RoundIsMonotone(AtLeastZero(s.input) * rate.inputPer1k, AtLeastZero(t.input) * rate.inputPer1k);
    RoundIsMonotone(AtLeastZero(s.output) * rate.outputPer1k, AtLeastZero(t.output) * rate.outputPer1k);
  }

  function SumEstimates(rate: Rate, ts: seq<Tokens>): nat {
    if ts == [] then 0 else SumEstimates(rate, ts[..|ts| - 1]) + Estimate(rate, ts[|ts| - 1])
  }

  /** The tokens of all tasks together, negative counts taken as none. */
  function Combined(ts: seq<Tokens>): (t: Tokens)
    ensures t.input >= 0 && t.output >= 0
  {
    if ts == [] then Tokens(0, 0)
    else
      var before := Combined(ts[..|ts| - 1]);
      var last := ts[|ts| - 1];
      Tokens(before.input + AtLeastZero(last.input), before.output + AtLeastZero(last.output))
  }

  /** What the tasks cost in thousandths of a micro-dollar, for one kind of token. */
  function InputCosts(rate: Rate, ts: seq<Tokens>): seq<nat> {
    seq(|ts|, i requires 0 <= i < |ts| => AtLeastZero(ts[i].input) * rate.inputPer1k)
  }

  function OutputCosts(rate: Rate, ts: seq<Tokens>): seq<nat> {
    seq(|ts|, i requires 0 <= i < |ts| => AtLeastZero(ts[i].output) * rate.outputPer1k)
  }

  function SumRounded(costs: seq<nat>): nat {
    if costs == [] then 0 else SumRounded(costs[..|costs| - 1]) + RoundThousandth(costs[|costs| - 1])
  }

  function Total(costs: seq<nat>): nat {
    if costs == [] then 0 else Total(costs[..|costs| - 1]) + costs[|costs| - 1]
  }

  lemma {:induction false} SumIsNear(costs: seq<nat>)
    ensures -499 * |costs| <= 1000 * SumRounded(costs) - Total(costs) <= 500 * |costs|
  {
    hide RoundThousandth;
    if costs != [] {
      SumIsNear(costs[..|costs| - 1]);
      RoundIsNear(costs[|costs| - 1]);
    }
  }

  lemma RoundedAgainstTotal(costs: seq<nat>)
    ensures 0 - RoundThousandth(499 * |costs|) <= SumRounded(costs) - RoundThousandth(Total(costs)) <= |costs| / 2
  {
    hide SumRounded, Total;
    SumIsNear(costs);
  }

  lemma {:induction false} SumByKind(rate: Rate, ts: seq<Tokens>)
    ensures SumEstimates(rate, ts) == SumRounded(InputCosts(rate, ts)) + SumRounded(OutputCosts(rate, ts))
    ensures Combined(ts).input * rate.inputPer1k == Total(InputCosts(rate, ts))
    ensures Combined(ts).output * rate.outputPer1k == Total(OutputCosts(rate, ts))
  {
    hide RoundThousandth, AtLeastZero;
    if ts != [] {
      var n := |ts| - 1;
      SumByKind(rate, ts[..n]);
      assert InputCosts(rate, ts)[..n] == InputCosts(rate, ts[..n]);
      assert OutputCosts(rate, ts)[..n] == OutputCosts(rate, ts[..n]);
      Distributes(Combined(ts[..n]).input, AtLeastZero(ts[n].input), rate.inputPer1k);
      Distributes(Combined(ts[..n]).output, AtLeastZero(ts[n].output), rate.outputPer1k);
    }
  }

  lemma Distributes(a: nat, b: nat, c: nat)
    ensures (a + b) * c == a * c + b * c
  {
  }

  /**
   * How far the estimates of n tasks may be from the estimate of all their tokens at once: each
   * kind of token by half a micro-dollar a task upwards, and by just under that downwards.
   */
  lemma SumAgainstCombined(rate: Rate, ts: seq<Tokens>)
    ensures -2 * RoundThousandth(499 * |ts|) <= SumEstimates(rate, ts) - Estimate(rate, Combined(ts)) <= 2 * (|ts| / 2)
  {
    hide SumEstimates, Combined, RoundThousandth, SumRounded, Total;
    SumByKind(rate, ts);
    RoundedAgainstTotal(InputCosts(rate, ts));
    RoundedAgainstTotal(OutputCosts(rate, ts));
  }

  lemma LastEstimate(rate: Rate, ts: seq<Tokens>, t: Tokens)
    requires t.input >= 0 && t.output >= 0
    ensures SumEstimates(rate, ts + [t]) == SumEstimates(rate, ts) + Estimate(rate, t)
    ensures Combined(ts + [t]) == Tokens(Combined(ts).input + t.input, Combined(ts).output + t.output)
  {
    hide Estimate;
    assert (ts + [t])[..|ts|] == ts;
  }

  lemma {:induction false} SumOfEqual(rate: Rate, n: nat, k: nat)
    ensures var ts := seq(n, _ => Tokens(k, k));
            SumEstimates(rate, ts) == n * Estimate(rate, Tokens(k, k)) && Combined(ts) == Tokens(n * k, n * k)
  {
    hide Estimate;
    if n > 0 {
      var before := seq(n - 1, _ => Tokens(k, k));
      assert seq(n, _ => Tokens(k, k)) == before + [Tokens(k, k)];
      SumOfEqual(rate, n - 1, k);
      LastEstimate(rate, before, Tokens(k, k));
      Distributes(n - 1, 1, k);
      Distributes(n - 1, 1, Estimate(rate, Tokens(k, k)));
    }
  }

  lemma EstimateEqual(rate: nat, k: nat)
    ensures Estimate(Rate(rate, rate), Tokens(k, k)) == 2 * RoundThousandth(k * rate)
  {
    hide RoundThousandth;
  }

  lemma HalfRoundsUp(n: nat)
    ensures RoundThousandth(n * 2 * 250) == (n + 1) / 2
  {
    assert (n * 2 * 250 + 500) / 1000 == (n + 1) / 2;
  }

  /** Both bounds are met for every n: by costs of half a micro-dollar, and by costs of just under it. */
  lemma BoundsAreMet(n: nat)
    ensures var ts := seq(n, _ => Tokens(2, 2));
            SumEstimates(Rate(250, 250), ts) - Estimate(Rate(250, 250), Combined(ts)) == 2 * (n / 2)
    ensures var ts := seq(n, _ => Tokens(499, 499));
            SumEstimates(Rate(1, 1), ts) - Estimate(Rate(1, 1), Combined(ts)) == -2 * RoundThousandth(499 * n)
  {
    hide SumEstimates, Combined, Estimate, RoundThousandth;
    SumOfEqual(Rate(250, 250), n, 2);
    EstimateEqual(250, 2);
    EstimateEqual(250, n * 2);
    HalfRoundsUp(1);
    HalfRoundsUp(n);
    SumOfEqual(Rate(1, 1), n, 499);
    EstimateEqual(1, 499);
    EstimateEqual(1, n * 499);
    BelowHalf();
  }

  lemma BelowHalf()
    ensures RoundThousandth(499 * 1) == 0
  {
  }

  // ---------------------------------------------------------------- grouping

  datatype Sample = Sample(
    provider: Option<string>,
    repoId: string,
    robotId: string,
    actorUserId: string,
    day: string,
    failed: bool,
    inputTokens: int,
    outputTokens: int,
    totalTokens: int,
    costMicroUsd: nat)

  datatype Totals = Totals(tasks: int, failed: int, tokens: int, costMicroUsd: int)

  function Plus(a: Totals, b: Totals): Totals {
    Totals(a.tasks + b.tasks, a.failed + b.failed, a.tokens + b.tokens, a.costMicroUsd + b.costMicroUsd)
  }

  const ZERO := Totals(0, 0, 0, 0)

  function Of(s: Sample): Totals {
    Totals(1, if s.failed then 1 else 0, s.totalTokens, s.costMicroUsd)
  }

  /** A breakdown is a JavaScript Map, which keeps its keys in the order of their insertion. */
  datatype Group = Group(key: string, totals: Totals)

  function Find(groups: seq<Group>, key: string): (k: Option<nat>)
    ensures k.Some? ==> k.value < |groups| && groups[k.value].key == key
    ensures k.None? ==> forall i :: 0 <= i < |groups| ==> groups[i].key != key
  {
    if groups == [] then None
    else if groups[|groups| - 1].key == key then Some(|groups| - 1)
    else Find(groups[..|groups| - 1], key)
  }

  function Added(groups: seq<Group>, key: string, s: Sample): seq<Group> {
    var k := Find(groups, key);
    if k.None? then groups + [Group(key, Plus(ZERO, Of(s)))]
    else groups[k.value := Group(key, Plus(groups[k.value].totals, Of(s)))]
  }

  /** What a sample is grouped by; the empty text stands for an absent id, which is not grouped. */
  datatype By = ByProvider | ByRepo | ByRobot | ByUser | ByDay

  function KeyOf(s: Sample, b: By): Option<string> {
    match b
    case ByProvider => Some(if s.provider.None? then "unknown" else s.provider.value)
    case ByRepo => if s.repoId == "" then None else Some(s.repoId)
    case ByRobot => if s.robotId == "" then None else Some(s.robotId)
    case ByUser => if s.actorUserId == "" then None else Some(s.actorUserId)
    case ByDay => Some(s.day)
  }

  function Grouped(samples: seq<Sample>, b: By): seq<Group> {
    if samples == [] then []
    else
      var s := samples[|samples| - 1];
      var before := Grouped(samples[..|samples| - 1], b);
      if KeyOf(s, b).None? then before else Added(before, KeyOf(s, b).value, s)
  }

  /** The totals of the samples with a key, or with any key at all. */
  function TotalOf(samples: seq<Sample>, b: By, key: Option<string>): Totals {
    if samples == [] then ZERO
    else
      var s := samples[|samples| - 1];
      var before := TotalOf(samples[..|samples| - 1], b, key);
      if KeyOf(s, b).Some? && (key.None? || KeyOf(s, b) == key) then Plus(before, Of(s)) else before
  }

  function Sum(groups: seq<Group>): Totals {
    if groups == [] then ZERO else Plus(Sum(groups[..|groups| - 1]), groups[|groups| - 1].totals)
  }

  /** The head of the summary, whose cost is added up in dollars; the groups add micro-dollars. */
  datatype Overall = Overall(tasks: int, failed: int, inputTokens: int, outputTokens: int, totalTokens: int, costUsd: real)

  datatype Summary = Summary(
    overall: Overall,
    providers: seq<Group>,
    repos: seq<Group>,
    robots: seq<Group>,
    users: seq<Group>,
    days: seq<Group>)

  function Usd(microUsd: int): real {
    microUsd as real / 1000000.0
  }

  function InputTokens(samples: seq<Sample>): int {
    if samples == [] then 0 else InputTokens(samples[..|samples| - 1]) + samples[|samples| - 1].inputTokens
  }

  function OutputTokens(samples: seq<Sample>): int {
    if samples == [] then 0 else OutputTokens(samples[..|samples| - 1]) + samples[|samples| - 1].outputTokens
  }

  /** What the head of the summary says, from the totals of all samples. */
  function OverallOf(totals: Totals, samples: seq<Sample>): Overall {
    Overall(totals.tasks, totals.failed, InputTokens(samples), OutputTokens(samples), totals.tokens, Usd(totals.costMicroUsd))
  }

  function Bump(groups: seq<Group>, s: Sample, b: By): seq<Group> {
    if KeyOf(s, b).None? then groups else Added(groups, KeyOf(s, b).value, s)
  }

  /** How many samples were picked, how many of them failed, and the sums of their tokens and costs. */
  function SumOver(samples: seq<Sample>, pick: Sample -> bool): Totals {
    if samples == [] then Totals(0, 0, 0, 0)
    else
      var t := SumOver(samples[..|samples| - 1], pick);
      var s := samples[|samples| - 1];
      if pick(s) then
        Totals(t.tasks + 1, if s.failed then t.failed + 1 else t.failed, t.tokens + s.totalTokens, t.costMicroUsd + s.costMicroUsd)
      else t
  }

  method Summarize(samples: seq<Sample>) returns (r: Summary)
    ensures var all := SumOver(samples, _ => true);
            r.overall == Overall(all.tasks, all.failed, InputTokens(samples), OutputTokens(samples), all.tokens,
                                 all.costMicroUsd as real / 1000000.0)
    ensures forall i :: 0 <= i < |r.repos| ==>
              r.repos[i].key != "" && r.repos[i].totals == SumOver(samples, (s: Sample) => s.repoId == r.repos[i].key)
    ensures forall i :: 0 <= i < |r.robots| ==>
              r.robots[i].key != "" && r.robots[i].totals == SumOver(samples, (s: Sample) => s.robotId == r.robots[i].key)
    ensures forall i :: 0 <= i < |r.users| ==>
              r.users[i].key != "" && r.users[i].totals == SumOver(samples, (s: Sample) => s.actorUserId == r.users[i].key)
    ensures forall i :: 0 <= i < |r.providers| ==>
              r.providers[i].totals == SumOver(samples, (s: Sample) =>
                r.providers[i].key == if s.provider.None? then "unknown" else s.provider.value)
    ensures forall i :: 0 <= i < |r.days| ==> r.days[i].totals == SumOver(samples, (s: Sample) => s.day == r.days[i].key)
    ensures DistinctKeys(r.repos) && DistinctKeys(r.robots) && DistinctKeys(r.users)
            && DistinctKeys(r.providers) && DistinctKeys(r.days)
    ensures forall k :: 0 <= k < |samples| ==>
              && (samples[k].repoId != "" ==> HasGroup(r.repos, samples[k].repoId))
              && (samples[k].robotId != "" ==> HasGroup(r.robots, samples[k].robotId))
              && (samples[k].actorUserId != "" ==> HasGroup(r.users, samples[k].actorUserId))
              && HasGroup(r.providers, if samples[k].provider.None? then "unknown" else samples[k].provider.value)
              && HasGroup(r.days, samples[k].day)
    ensures r.providers == Grouped(samples, ByProvider) && r.repos == Grouped(samples, ByRepo)
    ensures r.robots == Grouped(samples, ByRobot) && r.users == Grouped(samples, ByUser)
    ensures r.days == Grouped(samples, ByDay)
  {
    hide *;
    var o := Overall(0, 0, 0, 0, 0, 0.0);
    var providers: seq<Group>, repos: seq<Group>, robots: seq<Group>, users: seq<Group>, days: seq<Group> := [], [], [], [], [];
    NoSamples();
    for i := 0 to |samples|
      invariant o == OverallOf(TotalOf(samples[..i], ByDay, None), samples[..i])
      invariant providers == Grouped(samples[..i], ByProvider) && repos == Grouped(samples[..i], ByRepo)
      invariant robots == Grouped(samples[..i], ByRobot) && users == Grouped(samples[..i], ByUser)
      invariant days == Grouped(samples[..i], ByDay)
    {
      var s := samples[i];
      OneSample(samples, i, ByProvider);
      OneSample(samples, i, ByRepo);
      OneSample(samples, i, ByRobot);
      OneSample(samples, i, ByUser);
      OneSample(samples, i, ByDay);
      OneMore(samples, i);
      KeysAre(s);
      o := Overall(
        o.tasks + 1, if s.failed then o.failed + 1 else o.failed, o.inputTokens + s.inputTokens,
        o.outputTokens + s.outputTokens, o.totalTokens + s.totalTokens, o.costUsd + Usd(s.costMicroUsd));
      providers := Added(providers, if s.provider.None? then "unknown" else s.provider.value, s);
      if s.repoId != "" { repos := Added(repos, s.repoId, s); }
      if s.robotId != "" { robots := Added(robots, s.robotId, s); }
      if s.actorUserId != "" { users := Added(users, s.actorUserId, s); }
      days := Added(days, s.day, s);
    }
    assert samples[..|samples|] == samples;
    r := Summary(o, providers, repos, robots, users, days);
    OverallIsSum(samples);
    RepoGroups(samples);
    RobotGroups(samples);
    UserGroups(samples);
    ProviderGroups(samples);
    DayGroups(samples);
  }

  lemma KeysAre(s: Sample)
    ensures KeyOf(s, ByRepo) == if s.repoId == "" then None else Some(s.repoId)
    ensures KeyOf(s, ByRobot) == if s.robotId == "" then None else Some(s.robotId)
    ensures KeyOf(s, ByUser) == if s.actorUserId == "" then None else Some(s.actorUserId)
    ensures KeyOf(s, ByProvider) == Some(if s.provider.None? then "unknown" else s.provider.value)
    ensures KeyOf(s, ByDay) == Some(s.day)
    ensures forall groups, b :: Bump(groups, s, b) == if KeyOf(s, b).None? then groups else Added(groups, KeyOf(s, b).value, s)
  {
    hide Added, KeyOf;
    KeyOfIs(s);
  }

  lemma KeyOfIs(s: Sample)
    ensures KeyOf(s, ByRepo) == if s.repoId == "" then None else Some(s.repoId)
    ensures KeyOf(s, ByRobot) == if s.robotId == "" then None else Some(s.robotId)
    ensures KeyOf(s, ByUser) == if s.actorUserId == "" then None else Some(s.actorUserId)
    ensures KeyOf(s, ByProvider) == Some(if s.provider.None? then "unknown" else s.provider.value)
    ensures KeyOf(s, ByDay) == Some(s.day)
  {
  }

  lemma UsdAdds(a: int, b: int)
    ensures Usd(a + b) == Usd(a) + Usd(b)
  {
  }

  lemma OneMore(samples: seq<Sample>, i: nat)
    requires i < |samples|
    ensures var before := OverallOf(TotalOf(samples[..i], ByDay, None), samples[..i]);
            var s := samples[i];
            OverallOf(TotalOf(samples[..i + 1], ByDay, None), samples[..i + 1]) ==
              Overall(before.tasks + 1, before.failed + if s.failed then 1 else 0, before.inputTokens + s.inputTokens,
                      before.outputTokens + s.outputTokens, before.totalTokens + s.totalTokens,
                      before.costUsd + Usd(s.costMicroUsd))
  {
    hide *;
    var t, t' := TotalOf(samples[..i], ByDay, None), TotalOf(samples[..i + 1], ByDay, None);
    OneSample(samples, i, ByDay);
    PlusOf(t, samples[i]);
    TokensGrow(samples, i);
    OverallIs(t, samples[..i]);
    OverallIs(t', samples[..i + 1]);
    UsdAdds(t.costMicroUsd, samples[i].costMicroUsd);
  }

  lemma PlusOf(t: Totals, s: Sample)
    ensures Plus(t, Of(s)) ==
            Totals(t.tasks + 1, t.failed + if s.failed then 1 else 0, t.tokens + s.totalTokens, t.costMicroUsd + s.costMicroUsd)
  {
  }

  lemma TokensGrow(samples: seq<Sample>, i: nat)
    requires i < |samples|
    ensures InputTokens(samples[..i + 1]) == InputTokens(samples[..i]) + samples[i].inputTokens
    ensures OutputTokens(samples[..i + 1]) == OutputTokens(samples[..i]) + samples[i].outputTokens
  {
    assert samples[..i + 1][..i] == samples[..i];
  }

  lemma OverallIs(t: Totals, samples: seq<Sample>)
    ensures OverallOf(t, samples) ==
            Overall(t.tasks, t.failed, InputTokens(samples), OutputTokens(samples), t.tokens, Usd(t.costMicroUsd))
  {
  }

  lemma NoSamples()
    ensures OverallOf(TotalOf([], ByDay, None), []) == Overall(0, 0, 0, 0, 0, 0.0) && forall b :: Grouped([], b) == []
  {
  }

  lemma OneSample(samples: seq<Sample>, i: nat, b: By)
    requires i < |samples|
    ensures Grouped(samples[..i + 1], b) == Bump(Grouped(samples[..i], b), samples[i], b)
    ensures b == ByDay ==> TotalOf(samples[..i + 1], b, None) == Plus(TotalOf(samples[..i], b, None), Of(samples[i]))
  {
    assert samples[..i + 1][..i] == samples[..i];
  }

  // ---------------------------------------------------------------- conservation

  predicate DistinctKeys(groups: seq<Group>) {
    forall i, j :: 0 <= i < j < |groups| ==> groups[i].key != groups[j].key
  }

  /** What a breakdown says of a key. */
  function TotalAt(groups: seq<Group>, key: string): Totals {
    var k := Find(groups, key);
    if k.None? then ZERO else groups[k.value].totals
  }

  lemma {:induction false} SumOfUpdate(groups: seq<Group>, k: nat, t: Totals)
    requires k < |groups|
    ensures Sum(groups[k := Group(groups[k].key, Plus(groups[k].totals, t))]) == Plus(Sum(groups), t)
  {
    var n := |groups| - 1;
    var g := groups[k := Group(groups[k].key, Plus(groups[k].totals, t))];
    if k == n {
      assert g[..n] == groups[..n];
    } else {
      assert g[..n] == groups[..n][k := Group(groups[k].key, Plus(groups[k].totals, t))];
      SumOfUpdate(groups[..n], k, t);
    }
  }

  lemma SumOfAdded(groups: seq<Group>, key: string, s: Sample)
    ensures Sum(Added(groups, key, s)) == Plus(Sum(groups), Of(s))
  {
    hide Find, Of;
    var k := Find(groups, key);
    if k.None? {
      assert Added(groups, key, s)[..|groups|] == groups;
    } else {
      SumOfUpdate(groups, k.value, Of(s));
    }
  }

  lemma AddedKeepsKeys(groups: seq<Group>, key: string, s: Sample)
    requires DistinctKeys(groups)
    ensures DistinctKeys(Added(groups, key, s))
  {
    hide Find, Of, Plus;
  }

  lemma FindIsUnique(groups: seq<Group>, i: nat)
    requires DistinctKeys(groups) && i < |groups|
    ensures Find(groups, groups[i].key) == Some(i)
  {
    hide Find;
    var k := Find(groups, groups[i].key);
    assert k.Some?;
  }

  lemma AddedAt(groups: seq<Group>, key: string, s: Sample, other: string)
    requires DistinctKeys(groups)
    ensures key == other ==> TotalAt(Added(groups, key, s), other) == Plus(TotalAt(groups, other), Of(s))
    ensures key != other ==> TotalAt(Added(groups, key, s), other) == TotalAt(groups, other)
  {
    hide Find, Of;
    var after := Added(groups, key, s);
    var k := Find(groups, key);
    AddedKeepsKeys(groups, key, s);
    if k.Some? {
      FindIsUnique(after, k.value);
    } else {
      FindIsUnique(after, |groups|);
    }
    var o := Find(groups, other);
    if key != other && o.Some? {
      assert after[o.value] == groups[o.value];
      FindIsUnique(after, o.value);
    }
  }

  /**
   * Each group holds exactly the totals of the samples with its key, no key has two groups, and the
   * groups together hold the totals of all samples that have a key.
   */
  lemma {:induction false} GroupsConserve(samples: seq<Sample>, b: By, key: string)
    ensures var groups := Grouped(samples, b);
            && DistinctKeys(groups)
            && TotalAt(groups, key) == TotalOf(samples, b, Some(key))
            && Sum(groups) == TotalOf(samples, b, None)
  {
    hide Added, TotalAt, KeyOf, Of;
    if samples == [] {
      NothingAt(key);
    } else {
      var n := |samples| - 1;
      var s := samples[n];
      var before := Grouped(samples[..n], b);
      GroupsConserve(samples[..n], b, key);
      if KeyOf(s, b).Some? {
        SumOfAdded(before, KeyOf(s, b).value, s);
        AddedKeepsKeys(before, KeyOf(s, b).value, s);
        AddedAt(before, KeyOf(s, b).value, s, key);
      }
    }
  }

  // ---------------------------------------------------------------- groups, field by field

  predicate HasGroup(groups: seq<Group>, key: string) {
    exists i :: 0 <= i < |groups| && groups[i].key == key
  }

  lemma {:induction false} TotalIsSum(samples: seq<Sample>, b: By, key: Option<string>, pick: Sample -> bool)
    requires forall s: Sample :: pick(s) <==> KeyOf(s, b).Some? && (key.None? || KeyOf(s, b) == key)
    ensures TotalOf(samples, b, key) == SumOver(samples, pick)
  {
    hide KeyOf;
    if samples != [] { TotalIsSum(samples[..|samples| - 1], b, key, pick); }
  }

  lemma AddedHas(groups: seq<Group>, key: string, s: Sample, other: string)
    ensures HasGroup(Added(groups, key, s), other) <==> other == key || HasGroup(groups, other)
  {
    hide Find, Of, Plus;
    var k := Find(groups, key);
    var after := Added(groups, key, s);
    if k.Some? {
      assert after[k.value].key == key;
      assert forall i :: 0 <= i < |groups| ==> after[i].key == groups[i].key;
    } else {
      assert after[|groups|].key == key;
      assert forall i :: 0 <= i < |groups| ==> after[i] == groups[i];
    }
  }

  /** A breakdown has a group for every key that occurs, and for no other. */
  lemma {:induction false} GroupsOccur(samples: seq<Sample>, b: By, key: string)
    ensures HasGroup(Grouped(samples, b), key) <==> exists k :: 0 <= k < |samples| && KeyOf(samples[k], b) == Some(key)
  {
    hide KeyOf, Added, HasGroup;
    if samples == [] {
      NoGroup(key);
    } else {
      var n := |samples| - 1;
      var s := samples[n];
      GroupsOccur(samples[..n], b, key);
      assert forall k :: 0 <= k < n ==> samples[..n][k] == samples[k];
      if KeyOf(s, b).Some? { AddedHas(Grouped(samples[..n], b), KeyOf(s, b).value, s, key); }
    }
  }

  lemma NoGroup(key: string)
    ensures !HasGroup([], key)
  {
  }

  /** The group of a key holds what the samples with that key add up to. */
  lemma GroupHolds(samples: seq<Sample>, b: By, i: nat, pick: Sample -> bool)
    requires i < |Grouped(samples, b)|
    requires forall s: Sample :: pick(s) <==> KeyOf(s, b) == Some(Grouped(samples, b)[i].key)
    ensures Grouped(samples, b)[i].totals == SumOver(samples, pick)
    ensures DistinctKeys(Grouped(samples, b))
    ensures exists k :: 0 <= k < |samples| && KeyOf(samples[k], b) == Some(Grouped(samples, b)[i].key)
  {
    hide KeyOf, Grouped, TotalOf, Find, SumOver;
    var key := Grouped(samples, b)[i].key;
    GroupsConserve(samples, b, key);
    FindIsUnique(Grouped(samples, b), i);
    TotalIsSum(samples, b, Some(key), pick);
    GroupsOccur(samples, b, key);
    assert HasGroup(Grouped(samples, b), key);
  }

  lemma RepoGroups(samples: seq<Sample>)
    ensures var g := Grouped(samples, ByRepo);
            && DistinctKeys(g)
            && (forall i :: 0 <= i < |g| ==> g[i].key != "" && g[i].totals == SumOver(samples, (s: Sample) => s.repoId == g[i].key))
            && (forall k :: 0 <= k < |samples| && samples[k].repoId != "" ==> HasGroup(g, samples[k].repoId))
  {
    hide Grouped, KeyOf, SumOver, HasGroup, DistinctKeys;
    var g := Grouped(samples, ByRepo);
    forall s: Sample { KeyOfIs(s); }
    GroupsConserve(samples, ByRepo, "");
    forall i | 0 <= i < |g| ensures g[i].key != "" && g[i].totals == SumOver(samples, (s: Sample) => s.repoId == g[i].key) {
      GroupIsOfSample(samples, ByRepo, i);
      GroupHolds(samples, ByRepo, i, (s: Sample) => s.repoId == g[i].key);
    }
    forall k | 0 <= k < |samples| && samples[k].repoId != "" ensures HasGroup(g, samples[k].repoId) {
      GroupsOccur(samples, ByRepo, samples[k].repoId);
    }
  }

  lemma RobotGroups(samples: seq<Sample>)
    ensures var g := Grouped(samples, ByRobot);
            && DistinctKeys(g)
            && (forall i :: 0 <= i < |g| ==> g[i].key != "" && g[i].totals == SumOver(samples, (s: Sample) => s.robotId == g[i].key))
            && (forall k :: 0 <= k < |samples| && samples[k].robotId != "" ==> HasGroup(g, samples[k].robotId))
  {
    hide Grouped, KeyOf, SumOver, HasGroup, DistinctKeys;
    var g := Grouped(samples, ByRobot);
    forall s: Sample { KeyOfIs(s); }
    GroupsConserve(samples, ByRobot, "");
    forall i | 0 <= i < |g| ensures g[i].key != "" && g[i].totals == SumOver(samples, (s: Sample) => s.robotId == g[i].key) {
      GroupIsOfSample(samples, ByRobot, i);
      GroupHolds(samples, ByRobot, i, (s: Sample) => s.robotId == g[i].key);
    }
    forall k | 0 <= k < |samples| && samples[k].robotId != "" ensures HasGroup(g, samples[k].robotId) {
      GroupsOccur(samples, ByRobot, samples[k].robotId);
    }
  }

  lemma UserGroups(samples: seq<Sample>)
    ensures var g := Grouped(samples, ByUser);
            && DistinctKeys(g)
            && (forall i :: 0 <= i < |g| ==> g[i].key != "" && g[i].totals == SumOver(samples, (s: Sample) => s.actorUserId == g[i].key))
            && (forall k :: 0 <= k < |samples| && samples[k].actorUserId != "" ==> HasGroup(g, samples[k].actorUserId))
  {
    hide Grouped, KeyOf, SumOver, HasGroup, DistinctKeys;
    var g := Grouped(samples, ByUser);
    forall s: Sample { KeyOfIs(s); }
    GroupsConserve(samples, ByUser, "");
    forall i | 0 <= i < |g| ensures g[i].key != "" && g[i].totals == SumOver(samples, (s: Sample) => s.actorUserId == g[i].key) {
      GroupIsOfSample(samples, ByUser, i);
      GroupHolds(samples, ByUser, i, (s: Sample) => s.actorUserId == g[i].key);
    }
    forall k | 0 <= k < |samples| && samples[k].actorUserId != "" ensures HasGroup(g, samples[k].actorUserId) {
      GroupsOccur(samples, ByUser, samples[k].actorUserId);
    }
  }

  lemma ProviderGroups(samples: seq<Sample>)
    ensures var g := Grouped(samples, ByProvider);
            && DistinctKeys(g)
            && (forall i :: 0 <= i < |g| ==> g[i].totals == SumOver(samples, (s: Sample) =>
                  g[i].key == if s.provider.None? then "unknown" else s.provider.value))
            && (forall k :: 0 <= k < |samples| ==>
                  HasGroup(g, if samples[k].provider.None? then "unknown" else samples[k].provider.value))
  {
    hide Grouped, KeyOf, SumOver, HasGroup, DistinctKeys;
    var g := Grouped(samples, ByProvider);
    forall s: Sample { KeyOfIs(s); }
    GroupsConserve(samples, ByProvider, "");
    forall i | 0 <= i < |g|
      ensures g[i].totals == SumOver(samples, (s: Sample) => g[i].key == if s.provider.None? then "unknown" else s.provider.value)
    {
      GroupHolds(samples, ByProvider, i, (s: Sample) => g[i].key == if s.provider.None? then "unknown" else s.provider.value);
    }
    forall k | 0 <= k < |samples| ensures HasGroup(g, if samples[k].provider.None? then "unknown" else samples[k].provider.value) {
      GroupsOccur(samples, ByProvider, if samples[k].provider.None? then "unknown" else samples[k].provider.value);
    }
  }

  lemma DayGroups(samples: seq<Sample>)
    ensures var g := Grouped(samples, ByDay);
            && DistinctKeys(g)
            && (forall i :: 0 <= i < |g| ==> g[i].totals == SumOver(samples, (s: Sample) => s.day == g[i].key))
            && (forall k :: 0 <= k < |samples| ==> HasGroup(g, samples[k].day))
  {
    hide Grouped, KeyOf, SumOver, HasGroup, DistinctKeys;
    var g := Grouped(samples, ByDay);
    forall s: Sample { KeyOfIs(s); }
    GroupsConserve(samples, ByDay, "");
    forall i | 0 <= i < |g| ensures g[i].totals == SumOver(samples, (s: Sample) => s.day == g[i].key) {
      GroupHolds(samples, ByDay, i, (s: Sample) => s.day == g[i].key);
    }
    forall k | 0 <= k < |samples| ensures HasGroup(g, samples[k].day) {
      GroupsOccur(samples, ByDay, samples[k].day);
    }
  }

  lemma GroupIsOfSample(samples: seq<Sample>, b: By, i: nat)
    requires i < |Grouped(samples, b)|
    ensures exists k :: 0 <= k < |samples| && KeyOf(samples[k], b) == Some(Grouped(samples, b)[i].key)
  {
    hide KeyOf, Grouped;
    GroupsOccur(samples, b, Grouped(samples, b)[i].key);
    assert HasGroup(Grouped(samples, b), Grouped(samples, b)[i].key);
  }

  lemma OverallIsSum(samples: seq<Sample>)
    ensures var all := SumOver(samples, _ => true);
            OverallOf(TotalOf(samples, ByDay, None), samples) ==
              Overall(all.tasks, all.failed, InputTokens(samples), OutputTokens(samples), all.tokens,
                      all.costMicroUsd as real / 1000000.0)
  {
    hide SumOver, TotalOf, KeyOf;
    forall s: Sample { KeyOfIs(s); }
    TotalIsSum(samples, ByDay, None, _ => true);
  }

  lemma NothingAt(key: string)
    ensures TotalAt([], key) == ZERO
  {
  }

  lemma {:induction false} AlwaysGrouped(samples: seq<Sample>, b: By, c: By)
    requires forall s: Sample :: KeyOf(s, b).Some? && KeyOf(s, c).Some?
    ensures TotalOf(samples, b, None) == TotalOf(samples, c, None)
  {
    hide KeyOf, Of, Plus;
    if samples != [] { AlwaysGrouped(samples[..|samples| - 1], b, c); }
  }

  /** The provider groups and the day groups each add up to the head of the summary, micro-dollars to dollars. */
  lemma ProvidersAndDaysAddUp(samples: seq<Sample>)
    ensures var overall := OverallOf(TotalOf(samples, ByDay, None), samples);
            && overall == OverallOf(Sum(Grouped(samples, ByDay)), samples)
            && overall == OverallOf(Sum(Grouped(samples, ByProvider)), samples)
  {
    hide Grouped, Sum, TotalOf;
    GroupsConserve(samples, ByDay, "");
    GroupsConserve(samples, ByProvider, "");
    AlwaysGrouped(samples, ByProvider, ByDay);
  }
}
