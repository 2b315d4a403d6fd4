/**
 * Line ends and re-splitting, on the file as it is read.
 *
 * Normalising line ends and splitting commute, so the files whose statements do not survive a
 * second splitting can be told from their own segments: some segment has a CR CR LF with text on
 * both sides.
 */
module SqlLineEnds {
  import opened Text
  import opened SqlSplit
  import opened SqlResplit

  // ---------------------------------------------------------------- normalising a concatenation

  predicate SplitsPair(a: string, b: string) {
    a != "" && b != "" && a[|a| - 1] == '\r' && b[0] == '\n'
  }

  lemma {:induction false} NormalConcat(a: string, b: string)
    requires !SplitsPair(a, b)
    ensures ReplaceCrLf(a + b) == ReplaceCrLf(a) + ReplaceCrLf(b)
    decreases |a|
  {
    if a == "" {
      assert a + b == b;
    } else if |a| == 1 {
      assert (a + b)[1..] == b;
    } else if a[0] == '\r' && a[1] == '\n' {
      assert (a + b)[2..] == a[2..] + b;
      NormalConcat(a[2..], b);
    } else {
      assert (a + b)[1..] == a[1..] + b;
      NormalConcat(a[1..], b);
    }
  }

  lemma {:induction false} NormalLast(a: string)
    requires a != ""
    ensures ReplaceCrLf(a) != "" && ReplaceCrLf(a)[|ReplaceCrLf(a)| - 1] == a[|a| - 1]
  {
    if |a| >= 2 {
      if a[0] == '\r' && a[1] == '\n' {
        if |a| > 2 { NormalLast(a[2..]); }
      } else {
        NormalLast(a[1..]);
      }
    }
  }

  lemma {:induction false} NormalStays(a: string)
    requires '\r' !in a || '\n' !in a
    ensures ReplaceCrLf(a) == a
  {
    ReplaceCrLfFixed(a);
  }

  /** What the normalised text begins with, if it holds no line end, the text begins with. */
  lemma {:induction false} NormalPrefix(b: string, t: string)
    requires '\r' !in t && '\n' !in t && t <= ReplaceCrLf(b)
    ensures t <= b
    decreases |t|
  {
    if t != "" && |b| >= 2 {
      assert ReplaceCrLf(b)[0] == t[0] && t[0] in t;
      var rest := ReplaceCrLf(b[1..]);
      assert ReplaceCrLf(b) == [b[0]] + rest;
      forall i | 0 <= i < |t| - 1 ensures t[1..][i] == rest[i] {
        assert t[i + 1] == ReplaceCrLf(b)[i + 1];
      }
      assert t[1..] <= rest;
      NormalPrefix(b[1..], t[1..]);
      assert b == [b[0]] + b[1..] && t == [t[0]] + t[1..];
    }
  }

  // ---------------------------------------------------------------- the scanner does not see line ends

  lemma TagHasNoLineEnd(t: string)
    requires IsTag(t)
    ensures '\r' !in t && '\n' !in t && ReplaceCrLf(t) == t
  {
    hide ReplaceCrLf;
    NormalStays(t);
  }

  predicate StartsPair(b: string) {
    |b| >= 2 && b[0] == '\r' && b[1] == '\n'
  }

  lemma NormalFirst(b: string)
    requires b != "" && !StartsPair(b)
    ensures ReplaceCrLf(b) != "" && ReplaceCrLf(b)[0] == b[0]
  {
  }

  lemma NormalTag(b: string)
    requires b != "" && !StartsPair(b)
    ensures ReplaceCrLf(b) != "" && TagAt(ReplaceCrLf(b), 0) == TagAt(b, 0)
  {
    hide TagAt, ReplaceCrLf, IsTag;
    NormalFirst(b);
    var r := ReplaceCrLf(b);
    var t, u := TagAt(b, 0), TagAt(r, 0);
    if t != "" {
      TagAtIsTag(b, 0);
      TagHasNoLineEnd(t);
      var c := b[|t|..];
      assert b == t + c && t[|t| - 1] in t;
      NormalConcat(t, c);
      assert r[0..|t|] == t;
      TagAtIsText(r, 0, t);
    }
    if u != "" {
      TagAtIsTag(r, 0);
      TagHasNoLineEnd(u);
      NormalPrefix(b, u);
      assert b[0..|u|] == u;
      TagAtIsText(b, 0, u);
    }
  }

  lemma StepSame(s: string, i: nat, t: string, j: nat, m: Mode)
    requires i < |s| && j < |t| && s[i] == t[j] && Escaped(s, i) == Escaped(t, j) && TagAt(s, i) == TagAt(t, j)
    ensures Step(s, i, m).Cut? <==> Step(t, j, m).Cut?
    ensures Step(s, i, m).Go? ==>
              && Step(t, j, m) == Go(j + (Step(s, i, m).next - i), Step(s, i, m).mode)
              && (Step(s, i, m).next == i + 1 || (TagAt(s, i) != "" && Step(s, i, m).next == i + |TagAt(s, i)|))
  {
    hide TagAt, Escaped;
  }

  lemma LineEndStep(s: string, i: nat, m: Mode)
    requires i < |s| && (s[i] == '\r' || s[i] == '\n')
    ensures Step(s, i, m) == Go(i + 1, m)
  {
  }

  lemma ReadGo(s: string, i: nat, m: Mode, b: nat)
    requires i < b <= |s|
    ensures ReadTo(s, i, m, b) ==
            match Step(s, i, m)
            case Cut => None
            case Go(n, m') => ReadTo(s, n, m', b)
  {
    hide Step;
  }

  lemma ReadAll(s: string, m: Mode)
    ensures ReadTo(s, |s|, m, |s|) == Some(m)
  {
  }

  /** The place after a stretch, in the text and in the normalised text. */
  lemma SamePlace(a: string, b: string)
    requires b != "" && !SplitsPair(a, b) && !StartsPair(b)
    ensures var s, t := a + b, ReplaceCrLf(a) + ReplaceCrLf(b);
            var i, j := |a|, |ReplaceCrLf(a)|;
            && i < |s| && j < |t| && s[i] == t[j] && Escaped(s, i) == Escaped(t, j) && TagAt(s, i) == TagAt(t, j)
  {
    hide TagAt, ReplaceCrLf;
    if a != "" { NormalLast(a); }
    EmptyStays();
    NormalFirst(b);
    NormalTag(b);
    var r := ReplaceCrLf(b);
    TagAtLocal(a, b, "", 0);
    TagAtLocal(ReplaceCrLf(a), r, "", 0);
    assert a + b + "" == a + b && ReplaceCrLf(a) + r + "" == ReplaceCrLf(a) + r;
  }

  lemma EmptyStays()
    ensures ReplaceCrLf("") == ""
  {
  }

  lemma NormalHead(b: string, n: nat)
    requires 1 <= n <= |b| && !StartsPair(b) && (n == 1 || IsTag(b[..n]))
    ensures ReplaceCrLf(b[..n]) == b[..n] && !SplitsPair(b[..n], b[n..])
  {
    if n > 1 { TagHasNoLineEnd(b[..n]); }
  }

  /** Normalised or not, the rest of a text reads the same. */
  lemma {:induction false} NormalReading(a: string, b: string, m: Mode)
    requires !SplitsPair(a, b)
    ensures var t := ReplaceCrLf(a) + ReplaceCrLf(b);
            ReadTo(t, |ReplaceCrLf(a)|, m, |t|) == ReadTo(a + b, |a|, m, |a + b|)
    decreases |b|
  {
    hide *;
    var s, t := a + b, ReplaceCrLf(a) + ReplaceCrLf(b);
    var j := |ReplaceCrLf(a)|;
    if b == "" {
      EmptyStays();
      ReadAll(s, m);
      ReadAll(t, m);
    } else if StartsPair(b) {
      NormalPair(a, b);
      LineEndStep(s, |a|, m);
      LineEndStep(s, |a| + 1, m);
      LineEndStep(t, j, m);
      ReadGo(s, |a|, m, |s|);
      ReadGo(s, |a| + 1, m, |s|);
      ReadGo(t, j, m, |t|);
      NormalReading(a + "\r\n", b[2..], m);
    } else {
      SamePlace(a, b);
      StepSame(s, |a|, t, j, m);
      ReadGo(s, |a|, m, |s|);
      ReadGo(t, j, m, |t|);
      if Step(s, |a|, m).Go? {
        var n := Step(s, |a|, m).next - |a|;
        if n > 1 {
          TagAtIsTag(s, |a|);
          assert b[..n] == s[|a|..|a| + n];
        }
        NormalHead(b, n);
        Advance(a, b, n);
        NormalReading(a + b[..n], b[n..], Step(s, |a|, m).mode);
      }
    }
  }

  lemma NormalPair(a: string, b: string)
    requires StartsPair(b) && !SplitsPair(a, b)
    ensures var s, t := a + b, ReplaceCrLf(a) + ReplaceCrLf(b);
            && |a| + 1 < |s| && s[|a|] == '\r' && s[|a| + 1] == '\n'
            && |ReplaceCrLf(a)| < |t| && t[|ReplaceCrLf(a)|] == '\n'
            && s == (a + "\r\n") + b[2..] && t == ReplaceCrLf(a + "\r\n") + ReplaceCrLf(b[2..])
            && |ReplaceCrLf(a + "\r\n")| == |ReplaceCrLf(a)| + 1
            && !SplitsPair(a + "\r\n", b[2..])
  {
    hide ReplaceCrLf;
    NormalConcat(a, "\r\n");
    PairIsOne();
    NormalCons(b);
  }

  lemma PairIsOne()
    ensures ReplaceCrLf("\r\n") == "\n"
  {
    assert ReplaceCrLf("\r\n") == "\n" + ReplaceCrLf("\r\n"[2..]);
  }

  lemma Advance(a: string, b: string, n: nat)
    requires 1 <= n <= |b| && !SplitsPair(a, b) && ReplaceCrLf(b[..n]) == b[..n] && !SplitsPair(b[..n], b[n..])
    ensures !SplitsPair(a + b[..n], b[n..])
    ensures a + b == (a + b[..n]) + b[n..]
    ensures ReplaceCrLf(a + b[..n]) == ReplaceCrLf(a) + b[..n]
    ensures ReplaceCrLf(a) + ReplaceCrLf(b) == ReplaceCrLf(a + b[..n]) + ReplaceCrLf(b[n..])
  {
    hide ReplaceCrLf;
    NormalConcat(a, b[..n]);
    assert b == b[..n] + b[n..];
    NormalConcat(b[..n], b[n..]);
  }

  // ---------------------------------------------------------------- splitting and normalising commute

  function Normal(segs: seq<string>): seq<string> {
    seq(|segs|, i requires 0 <= i < |segs| => ReplaceCrLf(segs[i]))
  }

  lemma {:induction false} NormalJoin(segs: seq<string>)
    requires segs != []
    ensures ReplaceCrLf(Join(segs, ";")) == Join(Normal(segs), ";")
  {
    hide ReplaceCrLf, Join;
    if |segs| == 1 {
      assert segs == [segs[0]] && Normal(segs) == [ReplaceCrLf(segs[0])];
      JoinOne(segs[0]);
      JoinOne(ReplaceCrLf(segs[0]));
    } else {
      var rest := Join(segs[1..], ";");
      NormalJoin(segs[1..]);
      assert segs == [segs[0]] + segs[1..] && Normal(segs) == [ReplaceCrLf(segs[0])] + Normal(segs[1..]);
      JoinCons(segs[0], segs[1..]);
      JoinCons(ReplaceCrLf(segs[0]), Normal(segs[1..]));
      NormalConcat(segs[0] + ";", rest);
      NormalConcat(segs[0], ";");
      NormalStays(";");
    }
  }

  lemma NormalIsLexical(segs: seq<string>)
    requires Lexical(segs)
    ensures Lexical(Normal(segs))
  {
    hide ReplaceCrLf, ReadTo;
    forall k | 0 <= k < |segs| ensures Reading(Normal(segs)[k]) == Reading(segs[k]) {
      NormalReading("", segs[k], Plain);
      EmptyStays();
      assert "" + segs[k] == segs[k] && "" + ReplaceCrLf(segs[k]) == ReplaceCrLf(segs[k]);
    }
  }

  /** Normalising line ends first and splitting gives what splitting first and normalising gives. */
  lemma SegmentsOfNormal(s: string)
    ensures Segments(ReplaceCrLf(s)) == Normal(Segments(s))
  {
    hide ReplaceCrLf, Lexical, RawSegments, Join, Normal;
    ReadNothing(s, 0);
    CutterIsLexical(s, 0, 0, Plain);
    SegmentsRebuild(s, 0, 0, Plain);
    assert s[0..] == s;
    var segs := Segments(s);
    NormalJoin(segs);
    NormalIsLexical(segs);
    NormalSize(segs);
    SegmentsUnique(Normal(segs));
  }

  lemma NormalSize(segs: seq<string>)
    ensures |Normal(segs)| == |segs|
  {
  }

  // ---------------------------------------------------------------- which pairs survive trimming

  predicate InnerPair(w: string) {
    exists k :: 0 <= k < |w| - 1 && w[k] == '\r' && w[k + 1] == '\n' && !AllSpace(w[..k]) && !AllSpace(w[k + 2..])
  }

  /** A CR CR LF with text before it and text behind it. */
  predicate InnerTriple(w: string) {
    exists k :: 0 <= k < |w| - 2 && w[k] == '\r' && w[k + 1] == '\r' && w[k + 2] == '\n'
                && !AllSpace(w[..k]) && !AllSpace(w[k + 3..])
  }

  lemma TrimmedPair(w: string)
    ensures HasCrLf(Trim(w)) <==> InnerPair(w)
  {
    hide Trim;
    var left, right := TrimParts(w);
    var t := Trim(w);
    if HasCrLf(t) {
      var k :| 0 <= k < |t| - 1 && t[k] == '\r' && t[k + 1] == '\n';
      PairInside(left, t, right, k);
    }
    if InnerPair(w) {
      var k :| 0 <= k < |w| - 1 && w[k] == '\r' && w[k + 1] == '\n' && !AllSpace(w[..k]) && !AllSpace(w[k + 2..]);
      PairIsKept(left, t, right, k);
    }
  }

  lemma PairInside(left: string, t: string, right: string, k: nat)
    requires Trimmed(t) && k < |t| - 1 && t[k] == '\r' && t[k + 1] == '\n'
    ensures InnerPair(left + t + right)
  {
    var w := left + t + right;
    var at := |left| + k;
    assert w[at] == '\r' && w[at + 1] == '\n';
    assert t[0] == w[..at][|left|] && w[at + 2..][|t| - 3 - k] == t[|t| - 1];
    assert t[0] in w[..at] && t[|t| - 1] in w[at + 2..];
  }

  lemma PairIsKept(left: string, t: string, right: string, k: nat)
    requires var w := left + t + right;
             k < |w| - 1 && w[k] == '\r' && w[k + 1] == '\n' && !AllSpace(w[..k]) && !AllSpace(w[k + 2..])
    requires AllSpace(left) && AllSpace(right)
    ensures HasCrLf(t)
  {
    hide IsSpace;
    var w := left + t + right;
    var c :| c in w[..k] && !IsSpace(c);
    var p :| 0 <= p < k && w[..k][p] == c;
    var d :| d in w[k + 2..] && !IsSpace(d);
    var q :| 0 <= q < |w| - k - 2 && w[k + 2..][q] == d;
    assert w[k + 2 + q] == d && w[p] == c;
    SpaceAround(left, t, right);
    assert t[k - |left|] == '\r' && t[k - |left| + 1] == '\n';
  }

  lemma {:induction false} KeptPair(segs: seq<string>)
    ensures HasCrLf(Join(TrimmedNonBlank(segs), ";")) <==> exists j :: 0 <= j < |segs| && InnerPair(segs[j])
  {
    hide HasCrLf, Trim, Join, InnerPair;
    if segs == [] {
      NoCrLfInNothing();
      KeptCons("", []);
    } else {
      var rest := segs[1..];
      assert segs == [segs[0]] + rest;
      KeptPair(rest);
      TrimmedPair(segs[0]);
      KeptCons(segs[0], rest);
      JoinHasCrLf(Trim(segs[0]), TrimmedNonBlank(rest));
      NoCrLfInNothing();
      if exists j :: 0 <= j < |segs| && InnerPair(segs[j]) {
        var j :| 0 <= j < |segs| && InnerPair(segs[j]);
        assert j > 0 ==> InnerPair(rest[j - 1]);
      }
      if exists j :: 0 <= j < |rest| && InnerPair(rest[j]) {
        var j :| 0 <= j < |rest| && InnerPair(rest[j]);
        assert InnerPair(segs[j + 1]);
      }
    }
  }

  lemma {:induction false} NormalSpace(s: string)
    ensures AllSpace(ReplaceCrLf(s)) <==> AllSpace(s)
  {
    if |s| >= 2 {
      if s[0] == '\r' && s[1] == '\n' {
        NormalSpace(s[2..]);
        SpaceJoin("\r\n", s[2..]);
        SpaceJoin("\n", ReplaceCrLf(s[2..]));
        assert s == "\r\n" + s[2..];
      } else {
        NormalSpace(s[1..]);
        SpaceJoin([s[0]], s[1..]);
        SpaceJoin([s[0]], ReplaceCrLf(s[1..]));
        assert s == [s[0]] + s[1..];
      }
    }
  }

  lemma SpaceJoin(a: string, b: string)
    ensures AllSpace(a + b) <==> AllSpace(a) && AllSpace(b)
  {
    hide IsSpace;
    assert forall c :: c in a + b <==> c in a || c in b;
  }

  lemma HeadOfPair(c: char, rest: string, u: string, v: string)
    requires [c] + rest == u + "\r\n" + v
    ensures u == "" ==> c == '\r' && rest == "\n" + v
    ensures u != "" ==> u[0] == c && rest == u[1..] + "\r\n" + v
  {
    var s := [c] + rest;
    assert s[0] == c && s[1..] == rest;
    if u == "" {
      assert u + "\r\n" + v == "\r\n" + v;
      assert s[1..] == "\n" + v;
    } else {
      assert s[1..] == u[1..] + "\r\n" + v;
    }
  }

  lemma NormalCons(w: string)
    requires |w| >= 2
    ensures StartsPair(w) ==> ReplaceCrLf(w) == ['\n'] + ReplaceCrLf(w[2..]) && w == "\r\n" + w[2..]
    ensures !StartsPair(w) ==> ReplaceCrLf(w) == [w[0]] + ReplaceCrLf(w[1..]) && w == [w[0]] + w[1..]
  {
    if StartsPair(w) { assert w == "\r\n" + w[2..]; }
  }

  lemma Prepend(p: string, x: string, y: string)
    ensures p + (x + "\r\r\n" + y) == (p + x) + "\r\r\n" + y
  {
  }

  /** A CR LF pair in the normalised text was a CR CR LF. */
  lemma {:induction false} PairWasTriple(w: string, u: string, v: string) returns (x: string, y: string)
    requires ReplaceCrLf(w) == u + "\r\n" + v
    ensures w == x + "\r\r\n" + y && ReplaceCrLf(x) == u && ReplaceCrLf(y) == v
    decreases |w|
  {
    hide ReplaceCrLf;
    AtLeastTwo(w, u, v);
    NormalCons(w);
    if StartsPair(w) {
      HeadOfPair('\n', ReplaceCrLf(w[2..]), u, v);
      x, y := PairWasTriple(w[2..], u[1..], v);
      Prepend("\r\n", x, y);
      x := "\r\n" + x;
      NormalCons(x);
      assert x[2..] + "\r\r\n" + y == w[2..] && u == ['\n'] + u[1..];
    } else {
      HeadOfPair(w[0], ReplaceCrLf(w[1..]), u, v);
      if u == "" {
        x, y := TripleAtStart(w, v);
      } else {
        x, y := PairWasTriple(w[1..], u[1..], v);
        Prepend([w[0]], x, y);
        if x != "" { assert (x + "\r\r\n" + y)[0] == x[0] == w[1..][0]; }
        NormalConcat([w[0]], x);
        NormalOne(w[0]);
        x := [w[0]] + x;
        assert u == [u[0]] + u[1..];
      }
    }
  }

  lemma NormalOne(c: char)
    ensures ReplaceCrLf([c]) == [c]
  {
  }

  lemma AtLeastTwo(w: string, u: string, v: string)
    requires ReplaceCrLf(w) == u + "\r\n" + v
    ensures |w| >= 2
  {
    ReplaceCrLfFixed(w);
  }

  lemma TripleAtStart(w: string, v: string) returns (x: string, y: string)
    requires |w| >= 2 && w[0] == '\r' && !StartsPair(w) && ReplaceCrLf(w[1..]) == "\n" + v
    ensures w == x + "\r\r\n" + y && ReplaceCrLf(y) == v && ReplaceCrLf(x) == ""
  {
    hide ReplaceCrLf;
    var t := w[1..];
    FirstIsLineEnd(t, v);
    NormalCons(t);
    EmptyStays();
    x, y := "", t[2..];
    assert ReplaceCrLf(t)[1..] == ReplaceCrLf(y) && ("\n" + v)[1..] == v;
    assert w == [w[0]] + t;
  }

  lemma FirstIsLineEnd(t: string, v: string)
    requires t != "" && t[0] != '\n' && ReplaceCrLf(t) == "\n" + v
    ensures StartsPair(t)
  {
    hide ReplaceCrLf;
    if !StartsPair(t) { NormalFirst(t); }
  }

  lemma TripleIsPair(x: string, y: string)
    ensures ReplaceCrLf(x + "\r\r\n" + y) == ReplaceCrLf(x) + "\r\n" + ReplaceCrLf(y)
  {
    hide ReplaceCrLf;
    var t := "\r\r\n" + y;
    Reassoc(x, y);
    NormalConcat(x, t);
    NormalCons(t);
    NormalCons(t[1..]);
    assert t[1..] == "\r\n" + y && t[1..][2..] == y;
  }

  lemma Reassoc(x: string, y: string)
    ensures x + "\r\r\n" + y == x + ("\r\r\n" + y)
  {
  }

  lemma PairGivesTriple(w: string)
    requires InnerPair(ReplaceCrLf(w))
    ensures InnerTriple(w)
  {
    hide ReplaceCrLf, AllSpace, InnerTriple;
    var r := ReplaceCrLf(w);
    var k :| 0 <= k < |r| - 1 && r[k] == '\r' && r[k + 1] == '\n' && !AllSpace(r[..k]) && !AllSpace(r[k + 2..]);
    assert r == r[..k] + "\r\n" + r[k + 2..];
    var x, y := PairWasTriple(w, r[..k], r[k + 2..]);
    NormalSpace(x);
    NormalSpace(y);
    TripleAt(x, y);
  }

  lemma TripleGivesPair(w: string)
    requires InnerTriple(w)
    ensures InnerPair(ReplaceCrLf(w))
  {
    hide ReplaceCrLf, AllSpace, InnerPair;
    var k :| 0 <= k < |w| - 2 && w[k] == '\r' && w[k + 1] == '\r' && w[k + 2] == '\n'
             && !AllSpace(w[..k]) && !AllSpace(w[k + 3..]);
    var x, y := w[..k], w[k + 3..];
    assert w == x + "\r\r\n" + y;
    TripleIsPair(x, y);
    NormalSpace(x);
    NormalSpace(y);
    PairAt(ReplaceCrLf(x), ReplaceCrLf(y));
  }

  lemma NormalPairExactly(w: string)
    ensures InnerPair(ReplaceCrLf(w)) <==> InnerTriple(w)
  {
    hide *;
    if InnerPair(ReplaceCrLf(w)) { PairGivesTriple(w); }
    if InnerTriple(w) { TripleGivesPair(w); }
  }

  lemma TripleAt(x: string, y: string)
    requires !AllSpace(x) && !AllSpace(y)
    ensures InnerTriple(x + "\r\r\n" + y)
  {
    hide AllSpace;
    var w := x + "\r\r\n" + y;
    assert w[|x|] == '\r' && w[|x| + 1] == '\r' && w[|x| + 2] == '\n' && w[..|x|] == x && w[|x| + 3..] == y;
  }

  lemma PairAt(x: string, y: string)
    requires !AllSpace(x) && !AllSpace(y)
    ensures InnerPair(x + "\r\n" + y)
  {
    hide AllSpace;
    var w := x + "\r\n" + y;
    assert w[|x|] == '\r' && w[|x| + 1] == '\n' && w[..|x|] == x && w[|x| + 2..] == y;
  }

  /**
   * Splitting the statements of a file again, joined with ";", gives the same statements exactly
   * when no segment of the file has a CR CR LF with text before it and text behind it.
   */
  lemma ResplitExactly(input: string)
    ensures Split(Join(Split(input), ";")) == Split(input)
            <==> forall j :: 0 <= j < |Segments(input)| ==> !InnerTriple(Segments(input)[j])
  {
    hide *;
    var segs := Segments(input);
    Resplit(input);
    SplitIsKept(input);
    SegmentsOfNormal(input);
    KeptPair(Normal(segs));
    NormalAt(segs);
    if j :| 0 <= j < |segs| && InnerTriple(segs[j]) {
      assert InnerPair(Normal(segs)[j]);
    }
    if j :| 0 <= j < |Normal(segs)| && InnerPair(Normal(segs)[j]) {
      assert InnerTriple(segs[j]);
    }
  }

  lemma NormalAt(segs: seq<string>)
    ensures |Normal(segs)| == |segs|
    ensures forall j :: 0 <= j < |segs| ==> (InnerPair(Normal(segs)[j]) <==> InnerTriple(segs[j]))
  {
    hide InnerPair, InnerTriple, ReplaceCrLf;
    forall j | 0 <= j < |segs| ensures InnerPair(Normal(segs)[j]) <==> InnerTriple(segs[j]) {
      NormalPairExactly(segs[j]);
    }
  }
}
