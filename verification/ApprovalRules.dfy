/**
 * Which tasks an allow rule covers, and what "approve always" therefore allows.
 *
 * `Covers` is the rule query and the rule matcher of the policy engine, on the conditions that such
 * a rule can have. A list that is empty once its texts are trimmed and the blank ones dropped
 * restricts nothing, and one matching file, or command, is enough.
 */
module ApprovalRules {
  import opened Text
  import opened Regex
  import opened Approvals
  import opened ApprovalSafety

  /** A task as the policy engine sees it; a provider that is not known is None. */
  datatype Context = Context(
    repoId: Option<string>,
    robotId: Option<string>,
    taskSource: string,
    provider: Option<string>,
    sandbox: string,
    networkAccess: bool,
    riskLevel: string,
    targetFiles: seq<string>,
    commands: seq<string>)

  // ---------------------------------------------------------------- the rule matcher

  predicate Lists(list: seq<string>, value: string) {
    TrimmedNonBlank(list) == [] || value in TrimmedNonBlank(list)
  }

  predicate SomePattern(patterns: seq<string>, subject: string, fold: char -> char) {
    exists i :: 0 <= i < |patterns| && Test(patterns[i], subject, fold)
  }

  predicate SomeMatch(patterns: seq<string>, subjects: seq<string>, fold: char -> char) {
    exists j :: 0 <= j < |subjects| && SomePattern(patterns, subjects[j], fold)
  }

  predicate Matches(patterns: seq<string>, subjects: seq<string>, fold: char -> char) {
    TrimmedNonBlank(patterns) == [] || SomeMatch(TrimmedNonBlank(patterns), subjects, fold)
  }

  function SandboxOf(c: Context): string {
    if c.sandbox == "unknown" then "read-only" else c.sandbox
  }

  function ProviderOf(c: Context): string {
    if c.provider.None? then "" else c.provider.value
  }

  predicate Covers(rule: Rule, c: Context, fold: char -> char) {
    && (rule.repoId.None? || rule.repoId == c.repoId)
    && (rule.robotId.None? || rule.robotId == c.robotId)
    && Lists(rule.conditions.providers, ProviderOf(c))
    && Lists(rule.conditions.taskSources, c.taskSource)
    && Lists(rule.conditions.sandboxes, SandboxOf(c))
    && (rule.conditions.networkAccess.None? || rule.conditions.networkAccess.value == c.networkAccess)
    && Lists(rule.conditions.riskLevels, c.riskLevel)
    && Matches(rule.conditions.targetFilePatterns, c.targetFiles, fold)
    && Matches(rule.conditions.commandPatterns, c.commands, fold)
  }

  // ---------------------------------------------------------------- what the approval says

  predicate OneOf(approved: seq<string>, subjects: seq<string>, fold: char -> char) {
    exists i, j :: 0 <= i < |approved| && 0 <= j < |subjects| && SameFolded(approved[i], subjects[j], fold)
  }

  /** A text that was given, if any, is the value. */
  predicate Given(text: string, value: string) {
    Trim(text) == "" || value == Trim(text)
  }

  predicate Restricted(sandbox: string) {
    sandbox == "read-only" || sandbox == "workspace-write"
  }

  /** What a request that is approved for always allows, in its own terms. */
  predicate Allows(r: Request, c: Context, fold: char -> char) {
    var d := r.evaluation.details;
    && (r.repoId.None? || r.repoId == c.repoId)
    && (r.robotId.None? || r.robotId == c.robotId)
    && (Trim(d.provider) == "" || c.provider == Some(Trim(d.provider)))
    && Given(d.taskSource, c.taskSource)
    && (Restricted(d.sandbox) ==> c.sandbox == d.sandbox || (c.sandbox == "unknown" && d.sandbox == "read-only"))
    && (d.networkAccess.Some? ==> c.networkAccess == d.networkAccess.value)
    && Given(r.evaluation.riskLevel, c.riskLevel)
    && (d.targetFiles == [] || OneOf(d.targetFiles, c.targetFiles, fold))
    && (d.commands == [] || OneOf(d.commands, c.commands, fold))
  }

  // ---------------------------------------------------------------- the two agree

  lemma ListsGiven(text: string, value: string)
    ensures Lists(NonEmpty(text), value) <==> Given(text, value)
  {
    hide Trim;
    TrimOfTrimmed("");
    if text != "" {
      assert [text][1..] == [];
      assert TrimmedNonBlank([text]) == (if Trim(text) == "" then [] else [Trim(text)]) + TrimmedNonBlank([]);
    }
  }

  lemma ListsSandbox(sandbox: string, value: string)
    requires Restricted(sandbox)
    ensures Lists([sandbox], value) <==> value == sandbox
  {
    hide Trim, Lists;
    assert Trimmed(sandbox);
    TrimOfTrimmed(sandbox);
    ListsGiven(sandbox, value);
    assert sandbox != "" && NonEmpty(sandbox) == [sandbox];
  }

  lemma PatternIsTrimmed(item: string)
    ensures Trimmed(LiteralPattern(item)) && LiteralPattern(item) != ""
  {
    hide Escape;
  }

  lemma {:induction false} TrimmedStay(list: seq<string>)
    requires forall i :: 0 <= i < |list| ==> Trimmed(list[i]) && list[i] != ""
    ensures TrimmedNonBlank(list) == list
  {
    hide Trim, Trimmed;
    if list != [] {
      TrimOfTrimmed(list[0]);
      TrimmedStay(list[1..]);
      assert list == [list[0]] + list[1..];
    }
  }

  lemma PatternsStay(items: seq<string>)
    ensures TrimmedNonBlank(LiteralPatterns(items)) == LiteralPatterns(items)
  {
    hide LiteralPattern, Trimmed, Trim;
    forall i | 0 <= i < |items| ensures Trimmed(LiteralPatterns(items)[i]) && LiteralPatterns(items)[i] != "" {
      PatternIsTrimmed(items[i]);
    }
    TrimmedStay(LiteralPatterns(items));
  }

  lemma PatternsCover(items: seq<string>, subject: string, fold: char -> char)
    ensures SomePattern(LiteralPatterns(items), subject, fold) <==>
            exists i :: 0 <= i < |items| && SameFolded(items[i], subject, fold)
  {
    hide Test, LiteralPattern, SameFolded;
    forall i | 0 <= i < |items|
      ensures Test(LiteralPatterns(items)[i], subject, fold) <==> SameFolded(items[i], subject, fold)
    {
      LiteralPatternMatchesItself(items[i], subject, fold);
    }
  }

  lemma MatchesOneOf(items: seq<string>, subjects: seq<string>, fold: char -> char)
    ensures Matches(LiteralPatterns(items), subjects, fold) <==> items == [] || OneOf(items, subjects, fold)
  {
    hide SomePattern, SameFolded, LiteralPattern;
    PatternsStay(items);
    forall j | 0 <= j < |subjects|
      ensures SomePattern(LiteralPatterns(items), subjects[j], fold) <==>
              exists i :: 0 <= i < |items| && SameFolded(items[i], subjects[j], fold)
    {
      PatternsCover(items, subjects[j], fold);
    }
  }

  /** The matcher takes an unknown sandbox for the stricter one, and an unknown provider for none. */
  lemma ContextIs(c: Context, provider: string, sandbox: string)
    ensures Given(provider, ProviderOf(c)) <==> Trim(provider) == "" || c.provider == Some(Trim(provider))
    ensures Restricted(sandbox) ==>
              (SandboxOf(c) == sandbox <==> c.sandbox == sandbox || (c.sandbox == "unknown" && sandbox == "read-only"))
  {
    hide Trim;
    assert "unknown"[0] != "read-only"[0] && "unknown"[0] != "workspace-write"[0];
  }

  lemma RuleCovers(r: Request, id: nat, actor: string, now: int, c: Context, fold: char -> char)
    ensures Covers(RuleFor(r, id, actor, now), c, fold) <==> Allows(r, c, fold)
  {
    hide Lists, Matches, Given, OneOf, LiteralPatterns, NonEmpty, SandboxOf, ProviderOf, Trim;
    var d := r.evaluation.details;
    ListsGiven(d.provider, ProviderOf(c));
    ListsGiven(d.taskSource, c.taskSource);
    ListsGiven(r.evaluation.riskLevel, c.riskLevel);
    if Restricted(d.sandbox) { ListsSandbox(d.sandbox, SandboxOf(c)); }
    ContextIs(c, d.provider, d.sandbox);
    ListsNothing(SandboxOf(c));
    MatchesOneOf(d.targetFiles, c.targetFiles, fold);
    MatchesOneOf(d.commands, c.commands, fold);
  }

  lemma ListsNothing(value: string)
    ensures Lists([], value)
  {
  }

  /**
   * After any run, exactly which tasks the rule of a request that was approved for always covers:
   * those of its repository and robot, if it names them, with its provider, source, network access
   * and risk level, with its sandbox if that is one of the two known ones, and with at least one of
   * its files and one of its commands, if it names any.
   */
  lemma RuleCoversExactly(s: Store, id: nat, c: Context, fold: char -> char)
    requires Inv(s) && id < |s.requests| && ApprovedAlways(s, id)
    ensures var rules := RulesOf(s.rules, id);
            |rules| == 1 && (Covers(rules[0], c, fold) <==> Allows(s.requests[id], c, fold))
  {
    hide Covers, Allows, LogOf, RulesOf, Logged, OnePending, NothingBeyond, WaitingIsPending, RuleFor;
    assert RequestOk(s, id);
    var r := s.requests[id];
    RuleCovers(r, id, r.resolvedBy.value, r.resolvedAt.value, c, fold);
  }

  // ---------------------------------------------------------------- the approved task itself

  /** The request was made for this task as the policy engine saw it. */
  predicate Describes(r: Request, c: Context) {
    var d := r.evaluation.details;
    && r.repoId == c.repoId && r.robotId == c.robotId
    && d.taskSource == c.taskSource && d.provider == ProviderOf(c) && d.sandbox == c.sandbox
    && d.networkAccess == Some(c.networkAccess) && r.evaluation.riskLevel == c.riskLevel
    && d.targetFiles == c.targetFiles && d.commands == c.commands
  }

  /** Trimming leaves nothing of the text, or all of it. */
  predicate Plain(text: string) {
    Trim(text) == "" || Trim(text) == text
  }

  lemma OwnFiles(items: seq<string>, fold: char -> char)
    requires items != []
    ensures OneOf(items, items, fold)
  {
    assert SameFolded(items[0], items[0], fold);
  }

  /** The rule covers the task that the request describes, exactly when trimming does not change its texts. */
  lemma RuleCoversDescribed(s: Store, id: nat, c: Context, fold: char -> char)
    requires Inv(s) && id < |s.requests| && ApprovedAlways(s, id) && Describes(s.requests[id], c)
    ensures var rules := RulesOf(s.rules, id);
            |rules| == 1 && (Covers(rules[0], c, fold) <==> Plain(c.taskSource) && Plain(ProviderOf(c)) && Plain(c.riskLevel))
  {
    hide Covers, Trim, OneOf, RulesOf, ApprovedAlways, Inv;
    RuleCoversExactly(s, id, c, fold);
    if c.targetFiles != [] { OwnFiles(c.targetFiles, fold); }
    if c.commands != [] { OwnFiles(c.commands, fold); }
  }

  /** A rule from a request without files and commands looks at neither. */
  lemma NamelessRule(r: Request, c: Context, files: seq<string>, commands: seq<string>, fold: char -> char)
    requires r.evaluation.details.targetFiles == [] && r.evaluation.details.commands == []
    ensures Allows(r, c.(targetFiles := files, commands := commands), fold) <==> Allows(r, c, fold)
  {
    hide Given;
  }
}
