/**
 * What comments do to the statement splitter, which knows none.
 *
 * `Coded` reads a file as `SqlLexemes.Lexed` does, but passes over the comments that stand outside
 * quoted parts, each up to the end that the runner's own comment stripping gives it. The splitter
 * is right about a file when the two agree.
 */
module SqlCommentAware {
  import opened Text
  import opened SqlSplit
  import opened SqlLexemes
  import opened SqlResplit

  // ---------------------------------------------------------------- a reading that knows comments

  predicate Pair(s: string, i: nat, a: char, b: char) {
    i + 1 < |s| && s[i] == a && s[i + 1] == b
  }

  predicate CommentAt(s: string, i: nat) {
    Pair(s, i, '-', '-') || Pair(s, i, '/', '*')
  }

  /** A line comment ends before its line end, a block comment after its end mark, either at the end of the text. */
  function CommentEnd(s: string, i: nat): (e: nat)
    requires CommentAt(s, i)
    ensures i < e <= |s|
  {
    if s[i] == '-' then
      FindText(s, "\n", i + 2)
    else
      var c := FindText(s, "*/", i + 2);
      if c == |s| then |s| else c + 2
  }

  /** How far a place outside comments and quotes reads in one go; `|s|` also when nothing closes a quote. */
  function Past(s: string, i: nat): (n: nat)
    requires i < |s|
    ensures i < n <= |s|
  {
    if CommentAt(s, i) then CommentEnd(s, i)
    else if TagAt(s, i) != "" then
      var tag := TagAt(s, i);
      var c := FindText(s, tag, i + |tag|);
      if c == |s| then |s| else c + |tag|
    else if (s[i] == '\'' || s[i] == '"') && !Escaped(s, i) then
      var c := FindQuote(s, s[i], i + 1);
      if c == |s| then |s| else c + 1
    else i + 1
  }

  /** The segments of a file read with its comments in mind. */
  function Coded(s: string, i: nat, start: nat): (segs: seq<string>)
    requires start <= i <= |s|
    ensures segs != []
    decreases |s| - i
  {
    if i == |s| then [s[start..]]
    else if s[i] == ';' then [s[start..i]] + Coded(s, i + 1, i + 1)
    else Coded(s, Past(s, i), start)
  }

  /** The first semicolon outside comments and quotes at or after a place that is outside both. */
  function NextCut(s: string, i: nat): (k: nat)
    requires i <= |s|
    ensures i <= k <= |s| && (k < |s| ==> s[k] == ';')
    decreases |s| - i
  {
    if i == |s| || s[i] == ';' then i else NextCut(s, Past(s, i))
  }

  /** The scanner comes out of the comment as it went in, and without a cut. */
  predicate Quiet(s: string, i: nat)
    requires CommentAt(s, i)
  {
    ReadTo(s, i, Plain, CommentEnd(s, i)) == Some(Plain)
  }

  /** The first comment at or after a place outside comments and quotes that is not quiet. */
  function FirstLoud(s: string, i: nat): (l: Option<nat>)
    requires i <= |s|
    ensures l.Some? ==> i <= l.value < |s| && CommentAt(s, l.value) && !Quiet(s, l.value)
    decreases |s| - i
  {
    if i == |s| then None
    else if CommentAt(s, i) && !Quiet(s, i) then Some(i)
    else FirstLoud(s, if s[i] == ';' then i + 1 else Past(s, i))
  }

  // ---------------------------------------------------------------- the scanner on a stretch

  /** The cutter passes over a stretch that reads without a cut. */
  lemma {:induction false} CutOn(s: string, i: nat, start: nat, m: Mode, b: nat)
    requires start <= i <= |s| && b <= |s| && ReadTo(s, i, m, b).Some?
    ensures start <= b
    ensures RawSegments(s, i, start, m) == RawSegments(s, b, start, ReadTo(s, i, m, b).value)
    decreases |s| - i
  {
    hide Step;
    if i < b {
      match Step(s, i, m)
      case Cut =>
      case Go(n, m') => CutOn(s, n, start, m', b);
    }
  }

  /** The cutter's first cut, if there is one. */
  lemma {:induction false} FirstCut(s: string, i: nat, start: nat, m: Mode) returns (c: nat)
    requires start <= i <= |s| && |RawSegments(s, i, start, m)| > 1
    ensures i <= c < |s| && ReadTo(s, i, m, c) == Some(Plain) && RawSegments(s, i, start, m)[0] == s[start..c]
    ensures s[c] == ';'
    decreases |s| - i
  {
    hide Step;
    match Step(s, i, m)
    case Cut =>
      CutIsSemicolon(s, i, m);
      c := i;
    case Go(n, m') =>
      c := FirstCut(s, n, start, m');
  }

  lemma {:induction false} NoCutIsRead(s: string, i: nat, start: nat, m: Mode)
    requires start <= i <= |s| && |RawSegments(s, i, start, m)| == 1
    ensures ReadTo(s, i, m, |s|).Some?
    decreases |s| - i
  {
    hide Step;
    if i < |s| {
      match Step(s, i, m)
      case Cut =>
      case Go(n, m') => NoCutIsRead(s, n, start, m');
    }
  }

  // ---------------------------------------------------------------- quoted parts and other places

  lemma ReadNow(s: string, i: nat, m: Mode)
    requires i <= |s|
    ensures ReadTo(s, i, m, i) == Some(m)
  {
  }

  lemma ReadUnfold(s: string, i: nat, m: Mode, b: nat)
    requires i < b <= |s|
    ensures ReadTo(s, i, m, b) ==
            match Step(s, i, m)
            case Cut => None
            case Go(n, m') => ReadTo(s, n, m', b)
  {
    hide Step;
  }

  lemma QuoteStep(s: string, i: nat, m: Mode)
    requires i < |s| && (m.Single? || m.Double?)
    ensures Step(s, i, m) ==
            Go(i + 1, if s[i] == (if m.Single? then '\'' else '"') && !Escaped(s, i) then Plain else m)
  {
    hide TagAt;
  }

  lemma FindQuoteUnfold(s: string, q: char, from: nat)
    requires from <= |s|
    ensures FindQuote(s, q, from) ==
            if from == |s| || (s[from] == q && !Escaped(s, from)) then from else FindQuote(s, q, from + 1)
  {
  }

  /** Inside quotes: plain again right after the closing quote, and still quoted before. */
  lemma {:induction false} ReadQuoted(s: string, i: nat, m: Mode, b: nat)
    requires i <= b <= |s| && (m.Single? || m.Double?)
    requires b <= FindQuote(s, if m.Single? then '\'' else '"', i)
             || b == FindQuote(s, if m.Single? then '\'' else '"', i) + 1
    ensures var c := FindQuote(s, if m.Single? then '\'' else '"', i);
            ReadTo(s, i, m, b) == Some(if b <= c then m else Plain)
    decreases b - i
  {
    hide *;
    var q := if m.Single? then '\'' else '"';
    FindQuoteUnfold(s, q, i);
    if i == b {
      ReadNow(s, i, m);
    } else {
      QuoteStep(s, i, m);
      ReadUnfold(s, i, m, b);
      if s[i] == q && !Escaped(s, i) {
        ReadNow(s, i + 1, Plain);
      } else {
        ReadQuoted(s, i + 1, m, b);
      }
    }
  }

  /** Inside a dollar-quoted part: plain again right after the closing tag, and still quoted before it. */
  lemma {:induction false} ReadDollar(s: string, i: nat, tag: string, b: nat)
    requires i <= b <= |s| && IsTag(tag)
    requires b <= FindText(s, tag, i) || (FindText(s, tag, i) < |s| && b == FindText(s, tag, i) + |tag|)
    ensures ReadTo(s, i, Dollar(tag), b) == Some(if b <= FindText(s, tag, i) then Dollar(tag) else Plain)
    decreases b - i
  {
    hide *;
    FindTextUnfold(s, tag, i);
    TagNotEmpty(tag);
    if i == b {
      ReadNow(s, i, Dollar(tag));
    } else {
      DollarStep(s, i, tag);
      ReadUnfold(s, i, Dollar(tag), b);
      if StandsAt(s, tag, i) {
        ReadNow(s, b, Plain);
      } else {
        ReadDollar(s, i + 1, tag, b);
      }
    }
  }

  lemma PastUnfold(s: string, i: nat)
    requires i < |s| && !CommentAt(s, i)
    ensures Past(s, i) ==
            if TagAt(s, i) != "" then
              var c := FindText(s, TagAt(s, i), i + |TagAt(s, i)|);
              if c == |s| then |s| else c + |TagAt(s, i)|
            else if (s[i] == '\'' || s[i] == '"') && !Escaped(s, i) then
              var c := FindQuote(s, s[i], i + 1);
              if c == |s| then |s| else c + 1
            else i + 1
  {
    hide TagAt, FindText, FindQuote, Escaped, CommentAt;
  }

  /** Outside comments the scanner agrees with one go of the comment-aware reading. */
  lemma PlainGo(s: string, i: nat)
    requires i < |s| && !CommentAt(s, i) && s[i] != ';'
    ensures ReadTo(s, i, Plain, Past(s, i)).Some?
    ensures Past(s, i) < |s| ==> ReadTo(s, i, Plain, Past(s, i)) == Some(Plain)
  {
    hide *;
    var n := Past(s, i);
    PastUnfold(s, i);
    PlainStep(s, i);
    ReadUnfold(s, i, Plain, n);
    if TagAt(s, i) != "" {
      TagAtIsTag(s, i);
      TagNotEmpty(TagAt(s, i));
      ReadDollar(s, i + |TagAt(s, i)|, TagAt(s, i), n);
    } else if (s[i] == '\'' || s[i] == '"') && !Escaped(s, i) {
      ReadQuoted(s, i + 1, if s[i] == '\'' then Single else Double, n);
    } else {
      ReadNow(s, i + 1, Plain);
    }
  }

  // ---------------------------------------------------------------- quiet comments

  lemma CodedUnfold(s: string, i: nat, start: nat)
    requires start <= i <= |s|
    ensures i == |s| ==> Coded(s, i, start) == [s[start..]]
    ensures i < |s| && s[i] == ';' ==> Coded(s, i, start) == [s[start..i]] + Coded(s, i + 1, i + 1)
    ensures i < |s| && s[i] != ';' ==> Coded(s, i, start) == Coded(s, Past(s, i), start)
  {
    hide Past;
  }

  lemma FirstLoudUnfold(s: string, i: nat)
    requires i < |s| && !(CommentAt(s, i) && !Quiet(s, i))
    ensures s[i] == ';' ==> FirstLoud(s, i) == FirstLoud(s, i + 1)
    ensures s[i] != ';' ==> FirstLoud(s, i) == FirstLoud(s, Past(s, i))
  {
    hide Past, CommentAt, Quiet;
  }

  lemma CommentPast(s: string, i: nat)
    requires CommentAt(s, i)
    ensures s[i] != ';' && Past(s, i) == CommentEnd(s, i)
  {
    hide CommentEnd;
  }

  /** One go of the comment-aware reading, over anything but a loud comment, keeps the two readings together. */
  lemma SameGo(s: string, i: nat, start: nat)
    requires start <= i < |s| && s[i] != ';' && (CommentAt(s, i) ==> Quiet(s, i))
    ensures Past(s, i) < |s| ==> RawSegments(s, i, start, Plain) == RawSegments(s, Past(s, i), start, Plain)
    ensures Past(s, i) == |s| ==> RawSegments(s, i, start, Plain) == [s[start..]]
  {
    hide RawSegments, ReadTo, CommentAt, CommentEnd, Past;
    var n := Past(s, i);
    if CommentAt(s, i) {
      CommentPast(s, i);
    } else {
      PlainGo(s, i);
    }
    CutOn(s, i, start, Plain, n);
    RawUnfold(s, |s|, start, ReadTo(s, i, Plain, n).value);
  }

  lemma SameCut(s: string, i: nat, start: nat)
    requires start <= i < |s| && s[i] == ';'
    ensures RawSegments(s, i, start, Plain) == [s[start..i]] + RawSegments(s, i + 1, i + 1, Plain)
  {
    hide *;
    CutIsSemicolon(s, i, Plain);
    RawUnfold(s, i, start, Plain);
  }

  /** Up to the first loud comment the two readings are one; they agree exactly if they agree from there. */
  lemma {:induction false} UpToLoud(s: string, i: nat, start: nat) returns (at: nat)
    requires start <= i <= |s|
    ensures FirstLoud(s, i).None? ==> RawSegments(s, i, start, Plain) == Coded(s, i, start)
    ensures FirstLoud(s, i).Some? ==>
              var l := FirstLoud(s, i).value;
              && at <= l
              && (RawSegments(s, i, start, Plain) == Coded(s, i, start) <==> RawSegments(s, l, at, Plain) == Coded(s, l, at))
    decreases |s| - i
  {
    hide *;
    at := start;
    CodedUnfold(s, i, start);
    RawUnfold(s, i, start, Plain);
    if i < |s| && !(CommentAt(s, i) && !Quiet(s, i)) {
      FirstLoudUnfold(s, i);
      if s[i] == ';' {
        SameCut(s, i, start);
        at := UpToLoud(s, i + 1, i + 1);
        SameTail([s[start..i]], RawSegments(s, i + 1, i + 1, Plain), Coded(s, i + 1, i + 1));
      } else {
        SameGo(s, i, start);
        at := UpToLoud(s, Past(s, i), start);
        RawUnfold(s, |s|, start, Plain);
      }
    } else if i < |s| {
      LoudHere(s, i);
    } else {
      NoneLoud(s);
    }
  }

  lemma LoudHere(s: string, i: nat)
    requires i < |s| && CommentAt(s, i) && !Quiet(s, i)
    ensures FirstLoud(s, i) == Some(i)
  {
    hide CommentAt, Quiet;
  }

  lemma NoneLoud(s: string)
    ensures FirstLoud(s, |s|) == None
  {
  }

  lemma SameTail(a: seq<string>, b: seq<string>, c: seq<string>)
    ensures a + b == a + c <==> b == c
  {
    if a + b == a + c {
      assert (a + b)[|a|..] == b && (a + c)[|a|..] == c;
    }
  }

  /** Comments that hold no cut and leave no quote open are harmless: the splitter splits as if it knew them. */
  lemma QuietCommentsAreHarmless(s: string)
    requires FirstLoud(s, 0).None?
    ensures Segments(s) == Coded(s, 0, 0)
  {
    var at := UpToLoud(s, 0, 0);
  }

  predicate Ordinary(c: char) {
    c != '\'' && c != '"' && c != '$' && c != ';'
  }

  lemma {:induction false} ReadOrdinary(s: string, i: nat, b: nat)
    requires i <= b <= |s| && forall k :: i <= k < b ==> Ordinary(s[k])
    ensures ReadTo(s, i, Plain, b) == Some(Plain)
    decreases b - i
  {
    hide ReadTo, TagAt, Step;
    if i == b {
      ReadNow(s, i, Plain);
    } else {
      NoTag(s, i);
      PlainStep(s, i);
      ReadUnfold(s, i, Plain, b);
      ReadOrdinary(s, i + 1, b);
    }
  }

  /** A comment without quotes, dollar signs and semicolons is quiet. */
  lemma OrdinaryCommentIsQuiet(s: string, i: nat)
    requires CommentAt(s, i) && forall k :: i <= k < CommentEnd(s, i) ==> Ordinary(s[k])
    ensures Quiet(s, i)
  {
    ReadOrdinary(s, i, CommentEnd(s, i));
  }

  // ---------------------------------------------------------------- the exact condition

  lemma {:induction false} CodedRebuild(s: string, i: nat, start: nat)
    requires start <= i <= |s|
    ensures Join(Coded(s, i, start), ";") == s[start..]
    decreases |s| - i
  {
    hide *;
    CodedUnfold(s, i, start);
    if i == |s| {
      JoinOne(s[start..]);
    } else if s[i] == ';' {
      CodedRebuild(s, i + 1, i + 1);
      JoinCons(s[start..i], Coded(s, i + 1, i + 1));
      CutAround(s, start, i);
    } else {
      CodedRebuild(s, Past(s, i), start);
    }
  }

  /**
   * The splitter is right about a file exactly when it finds no cut in any of the comment-aware
   * segments and finds the quotes closed at the end of each but the last.
   */
  lemma CommentsHarmlessExactly(s: string)
    ensures Segments(s) == Coded(s, 0, 0) <==> Lexical(Coded(s, 0, 0))
  {
    hide Segments, Coded, Lexical;
    CodedRebuild(s, 0, 0);
    assert s[0..] == s;
    SegmentsUnique(Coded(s, 0, 0));
  }

  // ---------------------------------------------------------------- the first loud comment

  lemma {:induction false} CodedToCut(s: string, i: nat, start: nat)
    requires start <= i <= |s|
    ensures var k := NextCut(s, i);
            && (k == |s| ==> Coded(s, i, start) == [s[start..]])
            && (k < |s| ==> Coded(s, i, start) == [s[start..k]] + Coded(s, k + 1, k + 1))
    decreases |s| - i
  {
    hide Past;
    if i < |s| && s[i] != ';' {
      CodedToCut(s, Past(s, i), start);
    }
  }

  /** From any place outside comments and quotes: the readings agree exactly if they agree about the next cut and after it. */
  lemma AgreeToCut(s: string, i: nat, start: nat)
    requires start <= i <= |s|
    ensures var k := NextCut(s, i);
            RawSegments(s, i, start, Plain) == Coded(s, i, start) <==>
            if k == |s| then ReadTo(s, i, Plain, |s|).Some?
            else ReadTo(s, i, Plain, k) == Some(Plain) && RawSegments(s, k + 1, k + 1, Plain) == Coded(s, k + 1, k + 1)
  {
    hide *;
    var k := NextCut(s, i);
    var raw := RawSegments(s, i, start, Plain);
    CodedToCut(s, i, start);
    if k == |s| {
      if ReadTo(s, i, Plain, |s|).Some? {
        CutOn(s, i, start, Plain, |s|);
        RawUnfold(s, |s|, start, ReadTo(s, i, Plain, |s|).value);
      } else if |raw| == 1 {
        NoCutIsRead(s, i, start, Plain);
      }
    } else if ReadTo(s, i, Plain, k) == Some(Plain) {
      CutOn(s, i, start, Plain, k);
      SameCut(s, k, start);
      SameTail([s[start..k]], RawSegments(s, k + 1, k + 1, Plain), Coded(s, k + 1, k + 1));
    } else if |raw| > 1 {
      var c := FirstCut(s, i, start, Plain);
      SliceEnds(s, start, c, k);
    }
  }

  lemma SliceEnds(s: string, start: nat, c: nat, k: nat)
    requires start <= c <= |s| && start <= k <= |s|
    ensures s[start..c] == s[start..k] ==> c == k
  {
    assert |s[start..c]| == c - start && |s[start..k]| == k - start;
  }

  /** A place that no tag can reach over. */
  predicate Fence(s: string, e: nat) {
    e == |s| || (0 < e < |s| && ((!TagChar(s[e]) && s[e] != '$') || (!TagChar(s[e - 1]) && s[e - 1] != '$')))
  }

  lemma StepStops(s: string, i: nat, m: Mode, e: nat)
    requires i < e <= |s| && Fence(s, e)
    ensures Step(s, i, m).Go? ==> Step(s, i, m).next <= e
  {
    hide TagAt, TagChar;
    var tag := TagAt(s, i);
    if tag != "" && i + |tag| > e {
      TagAtIsTag(s, i);
      TagPart(s, i, tag, e);
      TagPart(s, i, tag, e - 1);
    }
  }

  lemma TagPart(s: string, i: nat, tag: string, k: nat)
    requires IsTag(tag) && i <= k < i + |tag| <= |s| && s[i..i + |tag|] == tag
    ensures TagChar(s[k]) || s[k] == '$'
  {
    hide TagChar;
    assert s[k] == tag[k - i];
  }

  /** A cut that is met before a fence is met before everything behind it. */
  lemma {:induction false} CutStays(s: string, i: nat, m: Mode, e: nat, b: nat)
    requires i <= e <= b <= |s| && Fence(s, e) && ReadTo(s, i, m, e).None?
    ensures ReadTo(s, i, m, b).None?
    decreases e - i
  {
    hide Step, Fence;
    StepStops(s, i, m, e);
    match Step(s, i, m)
    case Cut =>
    case Go(n, m') => CutStays(s, n, m', e, b);
  }

  lemma CommentEndIsFence(s: string, i: nat)
    requires CommentAt(s, i)
    ensures Fence(s, CommentEnd(s, i))
  {
    var e := CommentEnd(s, i);
    if e < |s| {
      if s[i] == '-' {
        assert s[e..e + 1][0] == s[e];
      } else {
        assert s[e - 2..e][1] == s[e - 1];
      }
    }
  }

  lemma NextCutPast(s: string, i: nat)
    requires CommentAt(s, i)
    ensures NextCut(s, i) == NextCut(s, CommentEnd(s, i)) >= CommentEnd(s, i)
  {
    hide CommentAt, CommentEnd;
    CommentPast(s, i);
  }

  /** Whether what opened in a comment is still open at a place behind it. */
  predicate StillOpen(s: string, e: nat, m: Mode, k: nat)
    requires e <= |s|
  {
    match m
    case Plain => false
    case Single => k <= FindQuote(s, '\'', e)
    case Double => k <= FindQuote(s, '"', e)
    case Dollar(tag) => IsTag(tag) && k <= FindText(s, tag, e)
  }

  lemma OpenIsRead(s: string, e: nat, m: Mode, k: nat)
    requires e <= k <= |s| && StillOpen(s, e, m, k)
    ensures ReadTo(s, e, m, k) == Some(m) && !m.Plain?
  {
    hide ReadTo, FindQuote, FindText, IsTag;
    match m
    case Single => ReadQuoted(s, e, m, k);
    case Double => ReadQuoted(s, e, m, k);
    case Dollar(tag) => ReadDollar(s, e, tag, k);
  }

  /** What a comment that holds a cut, or whose quote stays open, does to the reading up to a place behind it. */
  lemma LoudReading(s: string, l: nat, k: nat)
    requires CommentAt(s, l) && CommentEnd(s, l) <= k <= |s|
    ensures var e := CommentEnd(s, l);
            && (ReadTo(s, l, Plain, e).None? ==> ReadTo(s, l, Plain, k).None?)
            && (ReadTo(s, l, Plain, e).Some? && StillOpen(s, e, ReadTo(s, l, Plain, e).value, k) ==>
                  ReadTo(s, l, Plain, k).Some? && !ReadTo(s, l, Plain, k).value.Plain?)
  {
    hide *;
    var e := CommentEnd(s, l);
    var at := ReadTo(s, l, Plain, e);
    CommentEndIsFence(s, l);
    if at.None? {
      CutStays(s, l, Plain, e, k);
    } else if StillOpen(s, e, at.value, k) {
      ReadOn(s, l, Plain, e, k);
      OpenIsRead(s, e, at.value, k);
    }
  }

  lemma SegmentsAre(s: string)
    ensures Segments(s) == RawSegments(s, 0, 0, Plain)
  {
  }

  /**
   * The first comment that is not quiet, and the first semicolon outside comments and quotes behind
   * it: the splitter is right exactly if it reads plainly from the one to the other, and is right
   * from there on. So it is wrong whenever the comment holds a cut itself, and whenever what the
   * comment leaves open is still open at that semicolon.
   */
  lemma LoudComment(s: string)
    requires FirstLoud(s, 0).Some?
    ensures var l := FirstLoud(s, 0).value;
            var e := CommentEnd(s, l);
            var k := NextCut(s, e);
            && (Segments(s) == Coded(s, 0, 0) <==>
                  if k == |s| then ReadTo(s, l, Plain, |s|).Some?
                  else ReadTo(s, l, Plain, k) == Some(Plain) && RawSegments(s, k + 1, k + 1, Plain) == Coded(s, k + 1, k + 1))
            && (ReadTo(s, l, Plain, e).None? ==> Segments(s) != Coded(s, 0, 0))
            && (ReadTo(s, l, Plain, e).Some? && k < |s| && StillOpen(s, e, ReadTo(s, l, Plain, e).value, k) ==>
                  Segments(s) != Coded(s, 0, 0))
  {
    hide *;
    var l := FirstLoud(s, 0).value;
    var at := UpToLoud(s, 0, 0);
    SegmentsAre(s);
    AgreeToCut(s, l, at);
    NextCutPast(s, l);
    LoudReading(s, l, NextCut(s, l));
  }

  // ---------------------------------------------------------------- an apostrophe in a comment

  lemma {:induction false} NothingToFind(s: string, from: nat)
    requires from <= |s| && forall k :: from <= k < |s| ==> s[k] != '\''
    ensures FindQuote(s, '\'', from) == |s|
    decreases |s| - from
  {
    if from < |s| { NothingToFind(s, from + 1); }
  }

  lemma OpenFromStart(rest: string, b: nat)
    requires '\'' !in rest && 3 <= b <= |rest| + 3
    ensures ReadTo("--'" + rest, 0, Plain, b) == Some(Single) && FindQuote("--'" + rest, '\'', b) == |rest| + 3
  {
    hide ReadTo, TagAt, FindQuote, Step;
    var s := "--'" + rest;
    PlainStep(s, 0);
    PlainStep(s, 1);
    PlainStep(s, 2);
    NoTag(s, 0);
    NoTag(s, 1);
    NoTag(s, 2);
    ReadUnfold(s, 0, Plain, b);
    ReadUnfold(s, 1, Plain, b);
    ReadUnfold(s, 2, Plain, b);
    NothingToFind(s, 3);
    NothingToFind(s, b);
    ReadQuoted(s, 3, Single, b);
  }

  /**
   * A comment that opens with an apostrophe, in a file that holds no other: the splitter is right
   * exactly when no semicolon stands outside comments and quotes.
   */
  lemma ApostropheInComment(rest: string)
    requires '\'' !in rest
    ensures var s := "--'" + rest;
            CommentAt(s, 0) && (Segments(s) == Coded(s, 0, 0) <==> NextCut(s, CommentEnd(s, 0)) == |s|)
  {
    hide ReadTo, FirstLoud, NextCut, RawSegments, Coded, FindQuote, FindText;
    var s := "--'" + rest;
    var e := CommentEnd(s, 0);
    var k := NextCut(s, e);
    EndsBehind(s);
    OpenFromStart(rest, e);
    OpenFromStart(rest, k);
    OpenFromStart(rest, |s|);
    LoudHere(s, 0);
    LoudComment(s);
  }

  lemma EndsBehind(s: string)
    requires |s| >= 3 && s[..3] == "--'"
    ensures CommentAt(s, 0) && CommentEnd(s, 0) >= 3
  {
    assert s[0] == '-' && s[1] == '-' && s[2] == '\'';
    assert s[2..3][0] != '\n';
  }
}
