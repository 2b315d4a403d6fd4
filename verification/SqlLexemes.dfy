/**
 * An independent reading of a migration file: a quoted part is one lexeme that runs to the
 * first place that can close it, and a semicolon cuts exactly when it is outside all of them.
 */
module SqlLexemes {
  import opened Text
  import opened SqlSplit

  /** The first quote `q` at or after `from` that no backslash precedes, or the end of the text. */
  function FindQuote(s: string, q: char, from: nat): (c: nat)
    requires from <= |s|
    ensures from <= c <= |s|
    decreases |s| - from
  {
    if from == |s| || (s[from] == q && !Escaped(s, from)) then from else FindQuote(s, q, from + 1)
  }

  predicate StandsAt(s: string, t: string, i: nat) {
    i + |t| <= |s| && s[i..i + |t|] == t
  }

  /** The first place at or after `from` where `t` stands, or the end of the text. */
  function FindText(s: string, t: string, from: nat): (c: nat)
    requires from <= |s|
    ensures from <= c <= |s| && (c < |s| ==> StandsAt(s, t, c))
    decreases |s| - from
  {
    if from == |s| || StandsAt(s, t, from) then from else FindText(s, t, from + 1)
  }

  /** The segments, one lexeme at a time, from a segment that began at `start` and is read up to `i`. */
  function Lexed(s: string, i: nat, start: nat): seq<string>
    requires start <= i <= |s|
    decreases |s| - i
  {
    if i == |s| then [s[start..]]
    else if TagAt(s, i) != "" then
      var tag := TagAt(s, i);
      var c := FindText(s, tag, i + |tag|);
      if c == |s| then [s[start..]] else Lexed(s, c + |tag|, start)
    else if (s[i] == '\'' || s[i] == '"') && !Escaped(s, i) then
      var c := FindQuote(s, s[i], i + 1);
      if c == |s| then [s[start..]] else Lexed(s, c + 1, start)
    else if s[i] == ';' then [s[start..i]] + Lexed(s, i + 1, i + 1)
    else Lexed(s, i + 1, start)
  }

  lemma RawUnfold(s: string, i: nat, start: nat, m: Mode)
    requires start <= i <= |s|
    ensures i == |s| ==> RawSegments(s, i, start, m) == [s[start..]]
    ensures i < |s| && Step(s, i, m).Cut? ==>
              RawSegments(s, i, start, m) == [s[start..i]] + RawSegments(s, i + 1, i + 1, Plain)
    ensures i < |s| && Step(s, i, m).Go? ==>
              RawSegments(s, i, start, m) == RawSegments(s, Step(s, i, m).next, start, Step(s, i, m).mode)
  {
    hide Step;
  }

  lemma DollarStep(s: string, i: nat, tag: string)
    requires i < |s| && IsTag(tag)
    ensures Step(s, i, Dollar(tag)) == if StandsAt(s, tag, i) then Go(i + |tag|, Plain) else Go(i + 1, Dollar(tag))
    ensures |tag| >= 2
  {
    hide TagAt;
    TagAtIsText(s, i, tag);
  }

  lemma PlainStep(s: string, i: nat)
    requires i < |s|
    ensures Step(s, i, Plain) ==
      if TagAt(s, i) != "" then Go(i + |TagAt(s, i)|, Dollar(TagAt(s, i)))
      else if s[i] == '\'' && !Escaped(s, i) then Go(i + 1, Single)
      else if s[i] == '"' && !Escaped(s, i) then Go(i + 1, Double)
      else if s[i] == ';' then Cut
      else Go(i + 1, Plain)
  {
    hide TagAt;
  }

  lemma FindTextUnfold(s: string, t: string, from: nat)
    requires from <= |s|
    ensures FindText(s, t, from) == if from == |s| || StandsAt(s, t, from) then from else FindText(s, t, from + 1)
  {
    hide StandsAt;
  }

  /** Inside quotes the scanner only looks for the closing quote. */
  lemma {:induction false} QuotedPart(s: string, i: nat, start: nat, m: Mode)
    requires start <= i <= |s| && (m.Single? || m.Double?)
    ensures var c := FindQuote(s, if m.Single? then '\'' else '"', i);
      RawSegments(s, i, start, m) == if c == |s| then [s[start..]] else RawSegments(s, c + 1, start, Plain)
    decreases |s| - i
  {
    hide TagAt;
    if i < |s| && Step(s, i, m) == Go(i + 1, m) {
      QuotedPart(s, i + 1, start, m);
    }
  }

  /** Inside a dollar-quoted part it only looks for the first place where the opening tag stands again. */
  lemma {:induction false} DollarPart(s: string, i: nat, start: nat, tag: string)
    requires start <= i <= |s| && IsTag(tag)
    ensures var c := FindText(s, tag, i);
      RawSegments(s, i, start, Dollar(tag)) == if c == |s| then [s[start..]] else RawSegments(s, c + |tag|, start, Plain)
    decreases |s| - i
  {
    hide *;
    RawUnfold(s, i, start, Dollar(tag));
    FindTextUnfold(s, tag, i);
    if i < |s| {
      DollarStep(s, i, tag);
      if !StandsAt(s, tag, i) {
        DollarPart(s, i + 1, start, tag);
      }
    }
  }

  lemma TagNotEmpty(tag: string)
    requires IsTag(tag)
    ensures |tag| >= 2
  {
  }

  lemma LexedEnd(s: string, start: nat)
    requires start <= |s|
    ensures Lexed(s, |s|, start) == [s[start..]]
  {
  }

  lemma LexedUnfold(s: string, i: nat, start: nat)
    requires start <= i < |s|
    ensures Lexed(s, i, start) ==
      if TagAt(s, i) != "" then
        var c := FindText(s, TagAt(s, i), i + |TagAt(s, i)|);
        if c == |s| then [s[start..]] else Lexed(s, c + |TagAt(s, i)|, start)
      else if (s[i] == '\'' || s[i] == '"') && !Escaped(s, i) then
        var c := FindQuote(s, s[i], i + 1);
        if c == |s| then [s[start..]] else Lexed(s, c + 1, start)
      else if s[i] == ';' then [s[start..i]] + Lexed(s, i + 1, i + 1)
      else Lexed(s, i + 1, start)
  {
    hide TagAt, FindText, FindQuote, Escaped;
  }

  /** The scanner cuts exactly at the semicolons that stand outside every quoted part. */
  lemma {:induction false} ScannerReadsLexemes(s: string, i: nat, start: nat)
    requires start <= i <= |s|
    ensures RawSegments(s, i, start, Plain) == Lexed(s, i, start)
    decreases |s| - i
  {
    hide TagAt, FindText, FindQuote, RawSegments, Step, Lexed, Escaped;
    RawUnfold(s, i, start, Plain);
    if i < |s| {
      PlainStep(s, i);
      LexedUnfold(s, i, start);
    }
    if i == |s| {
      LexedEnd(s, start);
    } else if TagAt(s, i) != "" {
      var tag := TagAt(s, i);
      TagAtIsTag(s, i);
      TagNotEmpty(tag);
      DollarPart(s, i + |tag|, start, tag);
      var c := FindText(s, tag, i + |tag|);
      if c < |s| {
        ScannerReadsLexemes(s, c + |tag|, start);
      }
    } else if (s[i] == '\'' || s[i] == '"') && !Escaped(s, i) {
      QuotedPart(s, i + 1, start, if s[i] == '\'' then Single else Double);
      var c := FindQuote(s, s[i], i + 1);
      if c < |s| {
        ScannerReadsLexemes(s, c + 1, start);
      }
    } else if s[i] == ';' {
      ScannerReadsLexemes(s, i + 1, i + 1);
    } else {
      ScannerReadsLexemes(s, i + 1, start);
    }
  }
}
