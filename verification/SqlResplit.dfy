/**
 * What the statement splitter guarantees about whole files.
 *
 * A segment is read the same way inside a file and on its own, because neither the tag
 * reader nor the one-character look-back can see past a cut. From that follow the
 * uniqueness of the raw segments and the re-split laws.
 */
module SqlResplit {
  import opened Text
  import opened SqlSplit

  // ---------------------------------------------------------------- conservation

  /** Joining the raw segments with ";" rebuilds the file. */
  lemma {:induction false} SegmentsRebuild(s: string, i: nat, start: nat, m: Mode)
    requires start <= i <= |s|
    ensures Join(RawSegments(s, i, start, m), ";") == s[start..]
    decreases |s| - i
  {
    hide Step, Join;
    if i == |s| {
      JoinOne(s[start..]);
    } else {
      match Step(s, i, m)
      case Cut =>
        SegmentsRebuild(s, i + 1, i + 1, Plain);
        CutIsSemicolon(s, i, m);
        JoinCons(s[start..i], RawSegments(s, i + 1, i + 1, Plain));
        CutAround(s, start, i);
      case Go(n, m') =>
        SegmentsRebuild(s, n, start, m');
    }
  }

  lemma CutIsSemicolon(s: string, i: nat, m: Mode)
    requires i < |s|
    ensures Step(s, i, m).Cut? ==> m.Plain? && s[i] == ';'
    ensures m.Plain? && s[i] == ';' ==> Step(s, i, m).Cut?
  {
  }

  lemma CutAround(s: string, start: nat, i: nat)
    requires start <= i < |s| && s[i] == ';'
    ensures s[start..] == s[start..i] + ";" + s[i + 1..]
  {
  }

  lemma JoinOne(seg: string)
    ensures Join([seg], ";") == seg
  {
  }

  lemma JoinCons(seg: string, rest: seq<string>)
    requires rest != []
    ensures Join([seg] + rest, ";") == seg + ";" + Join(rest, ";")
  {
    assert ([seg] + rest)[1..] == rest;
  }

  /** For every migration file: the raw segments joined with ";" are the file with LF line ends. */
  lemma SegmentsConserve(input: string)
    ensures Join(Segments(ReplaceCrLf(input)), ";") == ReplaceCrLf(input)
  {
    var sql := ReplaceCrLf(input);
    SegmentsRebuild(sql, 0, 0, Plain);
    assert sql[0..] == sql;
  }

  // ---------------------------------------------------------------- reading a stretch

  /** The mode reached when the text from `i` up to exactly `b` is read without meeting a cut. */
  function ReadTo(s: string, i: nat, m: Mode, b: nat): Option<Mode>
    requires i <= |s| && b <= |s|
    decreases |s| - i
  {
    if i == b then Some(m)
    else if i > b then None
    else match Step(s, i, m)
      case Cut => None
      case Go(n, m') => ReadTo(s, n, m', b)
  }

  /** How a text reads on its own, from the neutral mode; None when it holds a cut. */
  function Reading(w: string): Option<Mode> {
    ReadTo(w, 0, Plain, |w|)
  }

  /** A list of segments of which each reads without a cut and all but the last close their quotes. */
  predicate Lexical(segs: seq<string>) {
    && (forall k :: 0 <= k < |segs| ==> Reading(segs[k]).Some?)
    && (forall k :: 0 <= k < |segs| - 1 ==> Reading(segs[k]) == Some(Plain))
  }

  // What may stand around a stretch so that it reads as it does alone.
  predicate LeftOk(pre: string) {
    pre != "" ==> pre[|pre| - 1] != '\\'
  }

  predicate RightOk(post: string) {
    post != "" ==> !TagChar(post[0]) && post[0] != '$'
  }

  lemma {:induction false} TagRunLocal(pre: string, w: string, post: string, i: nat)
    requires i <= |w| && RightOk(post)
    ensures TagRun(pre + w + post, |pre| + i) == |pre| + TagRun(w, i)
    decreases |w| - i
  {
    var full := pre + w + post;
    if i < |w| {
      assert full[|pre| + i] == w[i];
      if TagChar(w[i]) {
        TagRunLocal(pre, w, post, i + 1);
      }
    } else if post != "" {
      assert full[|pre| + i] == post[0];
    }
  }

  lemma TagAtFromRun(s: string, i: nat, e: nat)
    requires i < |s| && s[i] == '$' && e == TagRun(s, i + 1)
    ensures TagAt(s, i) == if e < |s| && s[e] == '$' then s[i..e + 1] else ""
  {
    hide TagRun;
  }

  lemma TagAtLocal(pre: string, w: string, post: string, i: nat)
    requires i < |w| && RightOk(post)
    ensures TagAt(pre + w + post, |pre| + i) == TagAt(w, i)
  {
    hide TagRun, TagAt, RightOk;
    var full := pre + w + post;
    InMiddle(pre, w, post, i, i);
    if w[i] == '$' {
      var e := TagRun(w, i + 1);
      TagRunLocal(pre, w, post, i + 1);
      TagAtFromRun(w, i, e);
      TagAtFromRun(full, |pre| + i, |pre| + e);
      if e < |w| {
        InMiddle(pre, w, post, e, e);
        InMiddle(pre, w, post, i, e + 1);
      } else {
        AfterMiddle(pre, w, post);
      }
    } else {
      NoTag(w, i);
      NoTag(full, |pre| + i);
    }
  }

  lemma NoTag(s: string, i: nat)
    requires i < |s| && s[i] != '$'
    ensures TagAt(s, i) == ""
  {
  }

  lemma AfterMiddle(pre: string, w: string, post: string)
    requires RightOk(post)
    ensures post != "" ==> (pre + w + post)[|pre| + |w|] == post[0] != '$'
  {
  }

  lemma InMiddle(pre: string, w: string, post: string, i: nat, j: nat)
    requires i <= j <= |w|
    ensures (pre + w + post)[|pre| + i..|pre| + j] == w[i..j]
    ensures i < |w| ==> (pre + w + post)[|pre| + i] == w[i]
  {
  }

  /** One step reads the same inside a file and alone. */
  lemma StepLocal(pre: string, w: string, post: string, i: nat, m: Mode)
    requires i < |w| && LeftOk(pre) && RightOk(post)
    ensures match Step(w, i, m)
            case Cut => Step(pre + w + post, |pre| + i, m) == Cut
            case Go(n, m') => Step(pre + w + post, |pre| + i, m) == Go(|pre| + n, m')
  {
    hide TagAt;
    var full := pre + w + post;
    TagAtLocal(pre, w, post, i);
    assert full[|pre| + i] == w[i];
    if i > 0 {
      assert full[|pre| + i - 1] == w[i - 1];
    } else if pre != "" {
      assert full[|pre| - 1] == pre[|pre| - 1];
    }
  }

  /** A stretch reads the same inside a file and alone, and reading goes on from the mode it ends in. */
  lemma {:induction false} ReadLocal(pre: string, w: string, post: string, i: nat, m: Mode)
    requires i <= |w| && LeftOk(pre) && RightOk(post)
    ensures var full := pre + w + post;
      && ReadTo(full, |pre| + i, m, |pre| + |w|) == ReadTo(w, i, m, |w|)
      && ReadTo(full, |pre| + i, m, |full|) ==
           match ReadTo(w, i, m, |w|)
           case None => None
           case Some(m') => ReadTo(full, |pre| + |w|, m', |full|)
    decreases |w| - i
  {
    hide Step, LeftOk, RightOk;
    if i < |w| {
      StepLocal(pre, w, post, i, m);
      match Step(w, i, m)
      case Cut =>
      case Go(n, m') => ReadLocal(pre, w, post, n, m');
    }
  }

  /** The cutter passes over a stretch that reads without a cut. */
  lemma {:induction false} CutLocal(pre: string, w: string, post: string, i: nat, start: nat, m: Mode)
    requires i <= |w| && start <= |pre| + i && LeftOk(pre) && RightOk(post) && ReadTo(w, i, m, |w|).Some?
    ensures RawSegments(pre + w + post, |pre| + i, start, m)
         == RawSegments(pre + w + post, |pre| + |w|, start, ReadTo(w, i, m, |w|).value)
    decreases |w| - i
  {
    hide Step, LeftOk, RightOk;
    if i < |w| {
      StepLocal(pre, w, post, i, m);
      match Step(w, i, m)
      case Cut =>
      case Go(n, m') => CutLocal(pre, w, post, n, start, m');
    }
  }

  // ---------------------------------------------------------------- uniqueness of the raw segments

  lemma JoinAround(pre: string, segs: seq<string>) returns (post: string)
    requires segs != []
    ensures RightOk(post)
    ensures pre + Join(segs, ";") == pre + segs[0] + post
    ensures |segs| == 1 ==> post == ""
    ensures |segs| > 1 ==> post == ";" + Join(segs[1..], ";")
  {
    post := if |segs| == 1 then "" else ";" + Join(segs[1..], ";");
  }

  /** Where the segment ends, the cutter puts it out and starts afresh. */
  lemma CutHere(pre: string, w: string, post: string)
    requires post == "" || post[0] == ';'
    ensures var full := pre + w + post;
      RawSegments(full, |pre| + |w|, |pre|, Plain) ==
        if post == "" then [w] else [w] + RawSegments(full, |pre| + |w| + 1, |pre| + |w| + 1, Plain)
  {
    hide Step;
    var full := pre + w + post;
    InMiddle(pre, w, post, 0, |w|);
    if post == "" {
      assert full[|pre|..] == w;
    } else {
      assert full[|pre| + |w|] == post[0];
      CutIsSemicolon(full, |pre| + |w|, Plain);
    }
  }

  lemma LexicalTail(segs: seq<string>)
    requires |segs| > 1 && Lexical(segs)
    ensures Lexical(segs[1..]) && Reading(segs[0]) == Some(Plain)
  {
  }

  /** Cutting a joined list of lexical segments gives the list back. */
  lemma {:induction false} CutJoined(pre: string, segs: seq<string>)
    requires segs != [] && Lexical(segs)
    requires pre != "" ==> pre[|pre| - 1] == ';'
    ensures RawSegments(pre + Join(segs, ";"), |pre|, |pre|, Plain) == segs
    decreases segs
  {
    hide RawSegments, Join, ReadTo, RightOk;
    var w := segs[0];
    var post := JoinAround(pre, segs);
    CutLocal(pre, w, post, 0, |pre|, Plain);
    if |segs| == 1 {
      LastHere(pre, w, ReadTo(w, 0, Plain, |w|).value);
    } else {
      LexicalTail(segs);
      CutHere(pre, w, post);
      CutJoined(pre + w + ";", segs[1..]);
      Regroup(pre, w, Join(segs[1..], ";"));
    }
  }

  lemma LastHere(pre: string, w: string, m: Mode)
    ensures RawSegments(pre + w + "", |pre| + |w|, |pre|, m) == [w]
  {
    assert (pre + w + "")[|pre|..] == w;
  }

  lemma Regroup(pre: string, w: string, rest: string)
    ensures pre + w + (";" + rest) == pre + w + ";" + rest
  {
  }

  lemma {:induction false} ReadOn(s: string, i: nat, m: Mode, b: nat, c: nat)
    requires i <= |s| && b <= c <= |s| && ReadTo(s, i, m, b).Some?
    ensures ReadTo(s, i, m, c) == ReadTo(s, b, ReadTo(s, i, m, b).value, c)
    decreases |s| - i
  {
    hide Step;
    if i < b {
      match Step(s, i, m)
      case Cut =>
      case Go(n, m') => ReadOn(s, n, m', b, c);
    }
  }

  /** Every list the cutter produces is lexical. */
  lemma {:induction false} CutterIsLexical(s: string, i: nat, start: nat, m: Mode)
    requires start <= i <= |s| && ReadTo(s, start, Plain, i) == Some(m)
    requires start > 0 ==> s[start - 1] == ';'
    ensures Lexical(RawSegments(s, i, start, m))
    decreases |s| - i
  {
    hide Step, ReadTo;
    if i == |s| {
      SegmentReading(s, start, i);
      assert s[start..] == s[start..i];
    } else {
      match Step(s, i, m)
      case Cut =>
        CutIsSemicolon(s, i, m);
        SegmentReading(s, start, i);
        ReadNothing(s, i + 1);
        CutterIsLexical(s, i + 1, i + 1, Plain);
        LexicalCons(s[start..i], RawSegments(s, i + 1, i + 1, Plain));
      case Go(n, m') =>
        ReadStep(s, i, m);
        ReadOn(s, start, Plain, i, n);
        CutterIsLexical(s, n, start, m');
    }
  }

  lemma ReadNothing(s: string, i: nat)
    requires i <= |s|
    ensures ReadTo(s, i, Plain, i) == Some(Plain)
  {
  }

  lemma ReadStep(s: string, i: nat, m: Mode)
    requires i < |s|
    ensures Step(s, i, m).Go? ==> ReadTo(s, i, m, Step(s, i, m).next) == Some(Step(s, i, m).mode)
  {
  }

  lemma LexicalCons(seg: string, rest: seq<string>)
    requires Reading(seg) == Some(Plain) && Lexical(rest)
    ensures Lexical([seg] + rest)
  {
  }

  lemma SegmentReading(s: string, start: nat, i: nat)
    requires start <= i <= |s|
    requires start > 0 ==> s[start - 1] == ';'
    requires i < |s| ==> s[i] == ';'
    ensures Reading(s[start..i]) == ReadTo(s, start, Plain, i)
  {
    var pre, w, post := s[..start], s[start..i], s[i..];
    assert s == pre + w + post;
    ReadLocal(pre, w, post, 0, Plain);
  }

  /**
   * The raw segments are the only reading: a non-empty list comes back from its own join
   * exactly when no segment holds a cut and every segment but the last closes its quotes.
   */
  lemma SegmentsUnique(segs: seq<string>)
    requires segs != []
    ensures Segments(Join(segs, ";")) == segs <==> Lexical(segs)
  {
    var sql := Join(segs, ";");
    ReadNothing(sql, 0);
    CutterIsLexical(sql, 0, 0, Plain);
    if Lexical(segs) {
      CutJoined("", segs);
      assert "" + sql == sql;
    }
  }

  // ---------------------------------------------------------------- trimming

  lemma {:induction false} ReadSpace(s: string, i: nat, m: Mode, b: nat)
    requires i <= b <= |s| && forall k :: i <= k < b ==> IsSpace(s[k])
    ensures ReadTo(s, i, m, b) == Some(m)
    decreases b - i
  {
    if i < b {
      assert !TagChar(s[i]) && s[i] != '$' && s[i] != '\'' && s[i] != '"' && s[i] != ';';
      assert Step(s, i, m) == Go(i + 1, m);
      ReadSpace(s, i + 1, m, b);
    }
  }

  /** Trimming a segment does not change how it reads. */
  lemma TrimReading(seg: string)
    requires Reading(seg).Some?
    ensures Reading(Trim(seg)) == Reading(seg)
  {
    hide Step, Trim, ReadTo;
    var left, right := TrimParts(seg);
    var w := Trim(seg);
    assert LeftOk(left) by { if left != "" { assert left[|left| - 1] in left; } }
    assert RightOk(right) by { if right != "" { assert right[0] in right; } }
    SpaceAround(left, w, right);
    ReadSpace(seg, 0, Plain, |left|);
    ReadOn(seg, 0, Plain, |left|, |seg|);
    ReadLocal(left, w, right, 0, Plain);
    if Reading(w).Some? {
      ReadSpace(seg, |left| + |w|, Reading(w).value, |seg|);
    }
  }

  lemma SpaceAround(left: string, w: string, right: string)
    requires AllSpace(left) && AllSpace(right)
    ensures var s := left + w + right;
      && (forall k :: 0 <= k < |left| ==> IsSpace(s[k]))
      && (forall k :: |left| + |w| <= k < |s| ==> IsSpace(s[k]))
  {
  }

  // ---------------------------------------------------------------- re-splitting

  predicate Clean(stmts: seq<string>) {
    Lexical(stmts) && forall k :: 0 <= k < |stmts| ==> stmts[k] != "" && Trimmed(stmts[k])
  }

  lemma {:induction false} KeptIsClean(segs: seq<string>)
    requires Lexical(segs)
    ensures Clean(TrimmedNonBlank(segs))
  {
    hide Reading, Trim, Trimmed;
    if segs != [] {
      TrimmedCons(segs[0], segs[1..]);
      assert segs == [segs[0]] + segs[1..];
      var left, right := TrimParts(segs[0]);
      TrimReading(segs[0]);
      KeptIsClean(segs[1..]);
    }
  }

  lemma {:induction false} CleanIsKept(stmts: seq<string>)
    requires forall k :: 0 <= k < |stmts| ==> stmts[k] != "" && Trimmed(stmts[k])
    ensures TrimmedNonBlank(stmts) == stmts
  {
    hide Trim, Trimmed;
    if stmts != [] {
      TrimmedCons(stmts[0], stmts[1..]);
      assert stmts == [stmts[0]] + stmts[1..];
      TrimOfTrimmed(stmts[0]);
      CleanIsKept(stmts[1..]);
    }
  }

  lemma SplitIsClean(input: string)
    ensures Clean(Split(input))
  {
    var sql := ReplaceCrLf(input);
    ReadNothing(sql, 0);
    CutterIsLexical(sql, 0, 0, Plain);
    KeptIsClean(Segments(sql));
  }

  lemma KeptCons(seg: string, rest: seq<string>)
    ensures var kept := TrimmedNonBlank(rest);
      TrimmedNonBlank([seg] + rest) == if Trim(seg) == "" then kept else [Trim(seg)] + kept
    ensures rest == [] ==> TrimmedNonBlank(rest) == []
    ensures Join([], ";") == ""
  {
    hide Trim;
    TrimmedCons(seg, rest);
  }

  lemma NoCrLfInNothing()
    ensures !HasCrLf("")
  {
  }

  lemma {:induction false} KeptIsShorter(segs: seq<string>)
    ensures |Join(TrimmedNonBlank(segs), ";")| <= |Join(segs, ";")|
  {
    hide Trim, Join;
    if segs == [] {
    } else {
      TrimmedCons(segs[0], segs[1..]);
      assert segs == [segs[0]] + segs[1..];
      var left, right := TrimParts(segs[0]);
      KeptIsShorter(segs[1..]);
      JoinConsLength(segs[0], segs[1..]);
      JoinConsLength(Trim(segs[0]), TrimmedNonBlank(segs[1..]));
      KeptCons(segs[0], segs[1..]);
    }
  }

  lemma JoinConsLength(seg: string, rest: seq<string>)
    ensures |Join([seg] + rest, ";")| == |seg| + if rest == [] then 0 else 1 + |Join(rest, ";")|
  {
    assert ([seg] + rest)[1..] == rest;
  }

  /** A clean list comes back from its join exactly when the join holds no CR LF pair. */
  lemma CleanResplit(stmts: seq<string>)
    requires Clean(stmts)
    ensures Split(Join(stmts, ";")) == stmts <==> !HasCrLf(Join(stmts, ";"))
  {
    hide Lexical, HasCrLf;
    var text := Join(stmts, ";");
    ReplaceCrLfFixed(text);
    if HasCrLf(text) {
      SegmentsConserve(text);
      KeptIsShorter(Segments(ReplaceCrLf(text)));
    } else {
      CleanIsKept(stmts);
      if stmts == [] {
        TrimmedCons("", []);
        assert Segments("") == [""];
      } else {
        SegmentsUnique(stmts);
      }
    }
  }

  /**
   * Splitting the statements of a file again, joined with ";", gives the same statements
   * exactly when the joined text holds no CR LF pair.
   */
  lemma Resplit(input: string)
    ensures Split(Join(Split(input), ";")) == Split(input) <==> !HasCrLf(Join(Split(input), ";"))
  {
    SplitIsClean(input);
    CleanResplit(Split(input));
  }

  /** So does splitting one output statement alone. */
  lemma ResplitOne(input: string, k: nat)
    requires k < |Split(input)|
    ensures Split(Split(input)[k]) == [Split(input)[k]] <==> !HasCrLf(Split(input)[k])
  {
    SplitIsClean(input);
    CleanResplit([Split(input)[k]]);
    JoinOne(Split(input)[k]);
  }

  // ---------------------------------------------------------------- which inputs keep a CR LF pair

  predicate HasCrCrLf(s: string) {
    exists k :: 0 <= k < |s| - 2 && s[k] == '\r' && s[k + 1] == '\r' && s[k + 2] == '\n'
  }

  /** Only a CR CR LF triple survives the line-end normalisation as a CR LF pair. */
  lemma {:induction false} NormalisedHasCrLf(s: string)
    ensures HasCrLf(ReplaceCrLf(s)) <==> HasCrCrLf(s)
  {
    if |s| < 2 {
    } else if s[0] == '\r' && s[1] == '\n' {
      NormalisedHasCrLf(s[2..]);
      HasCrLfCons('\n', ReplaceCrLf(s[2..]));
      HasCrCrLfDrop(s, 2);
    } else {
      NormalisedHasCrLf(s[1..]);
      HasCrLfCons(s[0], ReplaceCrLf(s[1..]));
      HasCrCrLfDrop(s, 1);
      if |s| >= 3 && s[1] == '\r' && s[2] == '\n' {
        assert s[1..][0] == '\r' && s[1..][1] == '\n';
        assert ReplaceCrLf(s[1..])[0] == '\n';
      } else {
        assert ReplaceCrLf(s[1..])[0] == s[1];
      }
    }
  }

  lemma HasCrLfCons(c: char, s: string)
    ensures HasCrLf([c] + s) <==> (c == '\r' && s != "" && s[0] == '\n') || HasCrLf(s)
  {
    var t := [c] + s;
    if c == '\r' && s != "" && s[0] == '\n' {
      assert t[0] == '\r' && t[1] == '\n';
    }
    if HasCrLf(s) {
      var k :| 0 <= k < |s| - 1 && s[k] == '\r' && s[k + 1] == '\n';
      assert t[k + 1] == '\r' && t[k + 2] == '\n';
    }
    if HasCrLf(t) && !(c == '\r' && s != "" && s[0] == '\n') {
      var k :| 0 <= k < |t| - 1 && t[k] == '\r' && t[k + 1] == '\n';
      assert s[k - 1] == '\r' && s[k] == '\n';
    }
  }

  lemma HasCrCrLfDrop(s: string, n: nat)
    requires n <= 2 && n <= |s|
    requires n == 1 || (n == 2 && s[0] == '\r' && s[1] == '\n')
    ensures HasCrCrLf(s) <==> (n == 1 && |s| >= 3 && s[0] == '\r' && s[1] == '\r' && s[2] == '\n') || HasCrCrLf(s[n..])
  {
    if HasCrCrLf(s[n..]) {
      var k :| 0 <= k < |s[n..]| - 2 && s[n..][k] == '\r' && s[n..][k + 1] == '\r' && s[n..][k + 2] == '\n';
      assert s[k + n] == '\r' && s[k + n + 1] == '\r' && s[k + n + 2] == '\n';
    }
    if HasCrCrLf(s) && !(n == 1 && |s| >= 3 && s[0] == '\r' && s[1] == '\r' && s[2] == '\n') {
      var k :| 0 <= k < |s| - 2 && s[k] == '\r' && s[k + 1] == '\r' && s[k + 2] == '\n';
      assert k >= n;
      assert s[n..][k - n] == '\r' && s[n..][k - n + 1] == '\r' && s[n..][k - n + 2] == '\n';
    }
  }

  lemma HasCrLfConcat(a: string, b: string)
    ensures HasCrLf(a) || HasCrLf(b) ==> HasCrLf(a + b)
    ensures HasCrLf(a + ";" + b) ==> HasCrLf(a) || HasCrLf(b)
  {
    if HasCrLf(a) {
      var k :| 0 <= k < |a| - 1 && a[k] == '\r' && a[k + 1] == '\n';
      assert (a + b)[k] == '\r' && (a + b)[k + 1] == '\n';
    } else if HasCrLf(b) {
      var k :| 0 <= k < |b| - 1 && b[k] == '\r' && b[k + 1] == '\n';
      assert (a + b)[|a| + k] == '\r' && (a + b)[|a| + k + 1] == '\n';
    }
    var t := a + ";" + b;
    if HasCrLf(t) {
      var k :| 0 <= k < |t| - 1 && t[k] == '\r' && t[k + 1] == '\n';
      if k < |a| {
        assert a[k] == '\r' && a[k + 1] == '\n';
      } else {
        assert b[k - |a| - 1] == '\r' && b[k - |a|] == '\n';
      }
    }
  }

  lemma {:induction false} KeptHasCrLf(segs: seq<string>)
    ensures HasCrLf(Join(TrimmedNonBlank(segs), ";")) ==> HasCrLf(Join(segs, ";"))
  {
    hide HasCrLf, Trim, Join;
    if segs == [] {
    } else {
      var seg, rest := segs[0], segs[1..];
      assert segs == [seg] + rest;
      TrimmedCons(seg, rest);
      KeptHasCrLf(rest);
      var left, right := TrimParts(seg);
      HasCrLfConcat(left, Trim(seg));
      HasCrLfConcat(left + Trim(seg), right);
      JoinHasCrLf(seg, rest);
      JoinHasCrLf(Trim(seg), TrimmedNonBlank(rest));
      KeptCons(seg, rest);
      NoCrLfInNothing();
    }
  }

  lemma JoinHasCrLf(seg: string, rest: seq<string>)
    ensures HasCrLf(Join([seg] + rest, ";")) <==> HasCrLf(seg) || (rest != [] && HasCrLf(Join(rest, ";")))
  {
    hide HasCrLf;
    if rest == [] {
      assert [seg] + rest == [seg];
      JoinOne(seg);
    } else {
      JoinCons(seg, rest);
      HasCrLfConcat(seg, Join(rest, ";"));
      HasCrLfConcat(seg, ";");
      HasCrLfConcat(seg + ";", Join(rest, ";"));
    }
  }

  /** Every file without a CR CR LF triple re-splits to the same statements. */
  lemma ResplitOrdinary(input: string)
    requires !HasCrCrLf(input)
    ensures Split(Join(Split(input), ";")) == Split(input)
  {
    hide *;
    var sql := ReplaceCrLf(input);
    NormalisedHasCrLf(input);
    SegmentsConserve(input);
    KeptHasCrLf(Segments(sql));
    SplitIsKept(input);
    Resplit(input);
  }

  lemma SplitIsKept(input: string)
    ensures Split(input) == TrimmedNonBlank(Segments(ReplaceCrLf(input)))
  {
  }

  /** A CR CR LF inside a statement does not survive a second splitting. */
  lemma ResplitCounterexample()
    ensures var input := "a\r\r\nb";
      Split(input) == ["a\r\nb"] && Split(Join(Split(input), ";")) != Split(input)
  {
    hide TagRun, TagChar, RawSegments, Trim;
    var w := "a\r\nb";
    assert ReplaceCrLf("a\r\r\nb") == w;
    assert ReadTo(w, 3, Plain, 4) == Some(Plain);
    assert ReadTo(w, 2, Plain, 4) == Some(Plain);
    assert ReadTo(w, 1, Plain, 4) == Some(Plain);
    SegmentsUnique([w]);
    JoinOne(w);
    TrimmedCons(w, []);
    TrimOfTrimmed(w);
    assert w[1] == '\r' && w[2] == '\n';
    Resplit("a\r\r\nb");
  }
}
