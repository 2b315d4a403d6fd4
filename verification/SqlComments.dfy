/** Comments before a statement, which the runner skips. */
module SqlComments {
  import opened Text
  import opened SqlSplit
  import opened SqlLexemes

  predicate Starts(s: string, t: string) {
    |t| <= |s| && s[..|t|] == t
  }

  function TrimStart(s: string): string {
    s[Lead(s, 0)..]
  }

  /** One round of the loop: the result, or what is left after a comment. */
  datatype Round = Result(text: string) | Again(rest: string)

  function RoundOf(t: string): (r: Round)
    ensures r.Again? ==> |r.rest| < |t|
  {
    if t == "" then Result("")
    else if Starts(t, "--") then
      var n := FindText(t, "\n", 0);
      if n == |t| then Result("") else Again(t[n + 1..])
    else if Starts(t, "/*") then
      var end := FindText(t, "*/", 2);
      if end == |t| then Result(t) else Again(t[end + 2..])
    else Result(t)
  }

  /** The statement without the blanks and comments in front of it. */
  function StripLeadingComments(s: string): string
    decreases |s|
  {
    var round := RoundOf(TrimStart(s));
    if round.Result? then round.text else StripLeadingComments(round.rest)
  }

  method StripSqlLeadingComments(input: string) returns (r: string)
    ensures r == StripLeadingComments(input)
  {
    hide Lead, FindText, Starts;
    var s := input;
    while true
      invariant StripLeadingComments(s) == StripLeadingComments(input)
      decreases |s|
    {
      var trimmed := TrimStart(s);
      if trimmed == "" {
        return "";
      }
      if Starts(trimmed, "--") {
        var nextLine := FindText(trimmed, "\n", 0);
        if nextLine == |trimmed| {
          return "";
        }
        s := trimmed[nextLine + 1..];
        continue;
      }
      if Starts(trimmed, "/*") {
        var end := FindText(trimmed, "*/", 2);
        if end == |trimmed| {
          return trimmed;
        }
        s := trimmed[end + 2..];
        continue;
      }
      return trimmed;
    }
  }

  // ---------------------------------------------------------------- what a header is made of

  datatype Item = Blank(c: char) | Line(text: string) | Block(text: string)

  function Print(item: Item): string {
    match item
    case Blank(c) => [c]
    case Line(text) => "--" + text + "\n"
    case Block(text) => "/*" + text + "*/"
  }

  /** A line comment stays on its line, and a block comment ends at its own end mark. */
  predicate Wf(item: Item) {
    match item
    case Blank(c) => IsSpace(c)
    case Line(text) => '\n' !in text
    case Block(text) => FindText("/*" + text + "*/", "*/", 2) == 2 + |text|
  }

  function PrintAll(items: seq<Item>): string {
    if items == [] then "" else Print(items[0]) + PrintAll(items[1..])
  }

  predicate AllWf(items: seq<Item>) {
    forall i :: 0 <= i < |items| ==> Wf(items[i])
  }

  /** No blank and no whole comment comes first. */
  predicate IsCode(s: string) {
    s != "" ==> !IsSpace(s[0]) && !Starts(s, "--") && (Starts(s, "/*") ==> FindText(s, "*/", 2) == |s|)
  }

  // ---------------------------------------------------------------- headers are skipped

  lemma {:induction false} FindTextLocal(a: string, b: string, t: string, from: nat)
    requires from <= |a| && t != "" && FindText(a, t, from) + |t| == |a|
    ensures FindText(a + b, t, from) == FindText(a, t, from)
    decreases |a| - from
  {
    if from < |a| {
      if from + |t| <= |a| {
        assert (a + b)[from..from + |t|] == a[from..from + |t|];
      }
      if !StandsAt(a, t, from) {
        FindTextLocal(a, b, t, from + 1);
      }
    }
  }

  lemma {:induction false} FindNewline(text: string, rest: string, from: nat)
    requires '\n' !in text && from <= |text|
    ensures FindText(text + "\n" + rest, "\n", from) == |text|
    decreases |text| - from
  {
    var s := text + "\n" + rest;
    assert s[from..from + 1] == [s[from]];
    if from < |text| {
      FindNewline(text, rest, from + 1);
    }
  }

  lemma LeadShifts(c: char, s: string)
    ensures IsSpace(c) ==> TrimStart([c] + s) == TrimStart(s)
    ensures !IsSpace(c) ==> TrimStart([c] + s) == [c] + s
  {
    hide IsSpace;
    if IsSpace(c) {
      LeadOfTail([c] + s, 1);
      assert ([c] + s)[1..] == s;
    }
  }

  lemma {:induction false} LeadOfTail(s: string, i: nat)
    requires i <= |s|
    ensures Lead(s, i) == i + Lead(s[i..], 0)
    decreases |s| - i
  {
    LeadFrom(s, i, 0);
  }

  lemma {:induction false} LeadFrom(s: string, i: nat, k: nat)
    requires i + k <= |s|
    ensures Lead(s, i + k) == i + Lead(s[i..], k)
    decreases |s| - i - k
  {
    hide IsSpace;
    if i + k < |s| && IsSpace(s[i + k]) {
      LeadFrom(s, i, k + 1);
    }
  }

  lemma SkipLine(text: string, rest: string)
    requires '\n' !in text
    ensures StripLeadingComments("--" + text + "\n" + rest) == StripLeadingComments(rest)
  {
    hide TrimStart, RoundOf, IsSpace;
    LineRound(text, rest);
  }

  lemma LineRound(text: string, rest: string)
    requires '\n' !in text
    ensures RoundOf(TrimStart("--" + text + "\n" + rest)) == Again(rest)
  {
    hide Lead, FindText, TrimStart;
    var line := "--" + text;
    var s := line + "\n" + rest;
    assert s == ['-'] + (['-'] + text + "\n" + rest);
    LeadShifts('-', ['-'] + text + "\n" + rest);
    FindNewline(line, rest, 0);
    assert s[..2] == "--" && s[|line| + 1..] == rest;
  }

  lemma SkipBlock(text: string, rest: string)
    requires Wf(Block(text))
    ensures StripLeadingComments("/*" + text + "*/" + rest) == StripLeadingComments(rest)
  {
    hide TrimStart, RoundOf, IsSpace, Wf;
    BlockRound(text, rest);
  }

  lemma BlockRound(text: string, rest: string)
    requires Wf(Block(text))
    ensures RoundOf(TrimStart("/*" + text + "*/" + rest)) == Again(rest)
  {
    hide Lead, FindText, TrimStart, StandsAt;
    var block := "/*" + text + "*/";
    var s := block + rest;
    assert s == ['/'] + (['*'] + text + "*/" + rest);
    LeadShifts('/', ['*'] + text + "*/" + rest);
    FindTextLocal(block, rest, "*/", 2);
    assert s[..2] == "/*" && s[0] == '/' && s[2 + |text| + 2..] == rest;
  }

  lemma SkipBlank(c: char, rest: string)
    requires IsSpace(c)
    ensures StripLeadingComments([c] + rest) == StripLeadingComments(rest)
  {
    hide TrimStart, RoundOf, IsSpace;
    LeadShifts(c, rest);
  }

  lemma CodeStays(body: string)
    requires IsCode(body)
    ensures StripLeadingComments(body) == body
  {
    hide FindText, TrimStart, Starts, IsSpace;
    TrimOfCode(body);
  }

  lemma TrimOfCode(body: string)
    requires body != "" ==> !IsSpace(body[0])
    ensures TrimStart(body) == body
  {
    hide IsSpace;
  }

  /** Whatever header of blanks and comments is put before a statement, stripping gives the statement back. */
  lemma {:induction false} StripUndoesHeader(items: seq<Item>, body: string)
    requires AllWf(items) && IsCode(body)
    ensures StripLeadingComments(PrintAll(items) + body) == body
  {
    hide StripLeadingComments, IsCode, FindText, IsSpace;
    if items == [] {
      CodeStays(body);
      assert PrintAll(items) + body == body;
    } else {
      var rest := PrintAll(items[1..]) + body;
      StripUndoesHeader(items[1..], body);
      assert Wf(items[0]);
      assert PrintAll(items) + body == Print(items[0]) + rest;
      match items[0]
      case Blank(c) => SkipBlank(c, rest);
      case Line(text) => SkipLine(text, rest);
      case Block(text) => SkipBlock(text, rest);
    }
  }

  // ---------------------------------------------------------------- and nothing else is

  function Blanks(s: string): seq<Item> {
    seq(|s|, i requires 0 <= i < |s| => Blank(s[i]))
  }

  lemma {:induction false} PrintBlanks(s: string)
    requires AllSpace(s)
    ensures PrintAll(Blanks(s)) == s && AllWf(Blanks(s))
  {
    hide IsSpace;
    if s != "" {
      PrintBlanks(s[1..]);
      assert Blanks(s) == [Blank(s[0])] + Blanks(s[1..]);
      assert Blanks(s)[1..] == Blanks(s[1..]) && s == [s[0]] + s[1..];
    }
  }

  lemma {:induction false} PrintAllJoin(a: seq<Item>, b: seq<Item>)
    ensures PrintAll(a + b) == PrintAll(a) + PrintAll(b)
  {
    hide Print;
    if a == [] {
      assert a + b == b;
    } else {
      assert (a + b)[1..] == a[1..] + b;
      PrintAllJoin(a[1..], b);
    }
  }

  lemma {:induction false} FindTextFirst(a: string, t: string, from: nat, k: nat)
    requires t != "" && from <= k < |a| && FindText(a, t, from) == k
    ensures FindText(a[..k + |t|], t, from) == k
    decreases k - from
  {
    var cut := a[..k + |t|];
    if from == k {
      assert cut[k..k + |t|] == a[k..k + |t|];
    } else {
      if from + |t| <= |cut| {
        assert cut[from..from + |t|] == a[from..from + |t|];
      }
      FindTextFirst(a, t, from + 1, k);
    }
  }

  lemma {:induction false} FindNewlineFirst(a: string, from: nat)
    requires from <= |a|
    ensures '\n' !in a[from..FindText(a, "\n", from)]
    decreases |a| - from
  {
    var k := FindText(a, "\n", from);
    if from < k {
      FindNewlineFirst(a, from + 1);
      assert a[from..from + 1] == [a[from]];
      assert a[from..k] == [a[from]] + a[from + 1..k];
    }
  }

  /** What one round takes away is one comment; what it leaves alone is code, or a comment that never ends. */
  lemma RoundIsItem(t: string) returns (item: Option<Item>)
    requires t != "" ==> !IsSpace(t[0])
    ensures RoundOf(t).Again? ==> item.Some? && Wf(item.value) && t == Print(item.value) + RoundOf(t).rest
    ensures RoundOf(t).Result? ==>
              || (RoundOf(t).text == t && IsCode(t))
              || (RoundOf(t).text == "" && Starts(t, "--") && '\n' !in t)
  {
    hide IsSpace, StandsAt;
    item := None;
    if Starts(t, "--") {
      var n := FindText(t, "\n", 0);
      FindNewlineFirst(t, 0);
      if n < |t| {
        LineAt(t, n);
        item := Some(Line(t[2..n]));
      } else {
        assert t[0..n] == t;
      }
    } else if Starts(t, "/*") {
      var end := FindText(t, "*/", 2);
      if end < |t| {
        BlockAt(t, end);
        item := Some(Block(t[2..end]));
      }
    }
  }

  lemma CutFour<T>(s: seq<T>, a: nat, b: nat, c: nat)
    requires a <= b <= c <= |s|
    ensures s == s[..a] + s[a..b] + s[b..c] + s[c..]
  {
  }

  lemma CutTwo<T>(s: seq<T>, a: nat, b: nat)
    requires a <= b <= |s|
    ensures s[..b] == s[..a] + s[a..b]
  {
  }

  lemma NotIn(s: string, a: nat, b: nat, c: char)
    requires a <= b <= |s| && c !in s[..b]
    ensures c !in s[a..b]
  {
    hide *;
    CutTwo(s, a, b);
  }

  lemma AfterDashes(t: string, n: nat)
    requires Starts(t, "--") && n < |t| && t[n..n + 1] == "\n"
    ensures n >= 2
  {
    assert t[0] == '-' && t[1] == '-' && t[n] == '\n';
  }

  lemma LineAt(t: string, n: nat)
    requires Starts(t, "--") && n == FindText(t, "\n", 0) < |t|
    ensures n >= 2 && '\n' !in t[2..n] && t == "--" + t[2..n] + "\n" + t[n + 1..]
  {
    hide FindText;
    FindNewlineFirst(t, 0);
    AfterDashes(t, n);
    assert t[0..n] == t[..n];
    NotIn(t, 2, n, '\n');
    CutFour(t, 2, n, n + 1);
  }

  lemma BlockAt(t: string, end: nat)
    requires Starts(t, "/*") && 2 <= |t| && end == FindText(t, "*/", 2) < |t|
    ensures end + 2 <= |t| && FindText("/*" + t[2..end] + "*/", "*/", 2) == end
    ensures t == "/*" + t[2..end] + "*/" + t[end + 2..]
  {
    hide FindText;
    FindTextFirst(t, "*/", 2, end);
    CutFour(t, 2, end, end + 2);
    CutTwo(t, end, end + 2);
    CutTwo(t, 2, end);
  }

  /** Every text is a header and what is left, unless it ends in a line comment without a line end. */
  lemma {:induction false} TextIsHeaderAndRest(s: string) returns (items: seq<Item>, tail: string)
    ensures AllWf(items) && s == PrintAll(items) + tail
    ensures || (StripLeadingComments(s) == tail && IsCode(tail))
            || (StripLeadingComments(s) == "" && Starts(tail, "--") && '\n' !in tail)
    decreases |s|
  {
    hide Lead, RoundOf, IsCode, Starts, Print, IsSpace, Wf;
    var n := Lead(s, 0);
    LeadSkipsSpace(s, 0);
    var t := TrimStart(s);
    PrintBlanks(s[..n]);
    assert s == s[..n] + t;
    var item := RoundIsItem(t);
    if RoundOf(t).Result? {
      items, tail := Blanks(s[..n]), t;
    } else {
      var more, rest := TextIsHeaderAndRest(RoundOf(t).rest);
      var one := [item.value];
      assert one[1..] == [];
      items, tail := Blanks(s[..n]) + (one + more), rest;
      PrintAllJoin(Blanks(s[..n]), one + more);
      PrintAllJoin(one, more);
      assert PrintAll(one) == Print(item.value) + "";
    }
  }
}
