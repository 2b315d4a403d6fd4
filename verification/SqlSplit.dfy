/**
 * Splitting a migration file into statements.
 *
 * `SplitSqlStatements` is the scanner with its flags, buffer and jumping index.
 * `RawSegments` is the same reading as one state machine over exclusive modes, and
 * `Lexed` is an independent reading that jumps over a whole quoted part at a time.
 */
module SqlSplit {
  import opened Text

  // ---------------------------------------------------------------- line endings

  function ReplaceCrLf(s: string): string {
    if |s| < 2 then s
    else if s[0] == '\r' && s[1] == '\n' then "\n" + ReplaceCrLf(s[2..])
    else [s[0]] + ReplaceCrLf(s[1..])
  }

  predicate HasCrLf(s: string) {
    exists k :: 0 <= k < |s| - 1 && s[k] == '\r' && s[k + 1] == '\n'
  }

  /** Normalising leaves a text alone exactly when it holds no CR LF pair; otherwise the text gets shorter. */
  lemma {:induction false} ReplaceCrLfFixed(s: string)
    ensures |ReplaceCrLf(s)| <= |s|
    ensures !HasCrLf(s) ==> ReplaceCrLf(s) == s
    ensures HasCrLf(s) ==> |ReplaceCrLf(s)| < |s|
  {
    if |s| < 2 {
    } else if s[0] == '\r' && s[1] == '\n' {
      assert HasCrLf(s);
      ReplaceCrLfFixed(s[2..]);
    } else {
      ReplaceCrLfFixed(s[1..]);
      if HasCrLf(s) {
        var k :| 0 <= k < |s| - 1 && s[k] == '\r' && s[k + 1] == '\n';
        assert s[1..][k - 1] == '\r' && s[1..][k] == '\n';
      }
      if HasCrLf(s[1..]) {
        var k :| 0 <= k < |s[1..]| - 1 && s[1..][k] == '\r' && s[1..][k + 1] == '\n';
        assert s[k + 1] == '\r' && s[k + 2] == '\n';
      }
    }
  }

  // ---------------------------------------------------------------- dollar tags

  predicate TagChar(c: char) {
    'A' <= c <= 'Z' || 'a' <= c <= 'z' || '0' <= c <= '9' || c == '_'
  }

  /** Where the run of tag characters that starts at `i` stops. */
  function TagRun(s: string, i: nat): (e: nat)
    requires i <= |s|
    ensures i <= e <= |s|
    decreases |s| - i
  {
    if i < |s| && TagChar(s[i]) then TagRun(s, i + 1) else i
  }

  lemma {:induction false} TagRunStops(s: string, i: nat, e: nat)
    requires i <= e <= |s|
    requires forall k :: i <= k < e ==> TagChar(s[k])
    requires e < |s| ==> !TagChar(s[e])
    ensures TagRun(s, i) == e
    decreases e - i
  {
    if i < e {
      TagRunStops(s, i + 1, e);
    }
  }

  lemma {:induction false} TagRunChars(s: string, i: nat)
    requires i <= |s|
    ensures forall k :: i <= k < TagRun(s, i) ==> TagChar(s[k])
    ensures TagRun(s, i) < |s| ==> !TagChar(s[TagRun(s, i)])
    decreases |s| - i
  {
    if i < |s| && TagChar(s[i]) {
      TagRunChars(s, i + 1);
    }
  }

  /** The dollar tag that starts at `i`, or "" when none does. */
  function TagAt(s: string, i: nat): (tag: string)
    requires i < |s|
    ensures i + |tag| <= |s|
  {
    if s[i] != '$' then "" else
    var e := TagRun(s, i + 1);
    if e < |s| && s[e] == '$' then s[i..e + 1] else ""
  }

  predicate IsTag(t: string) {
    && |t| >= 2 && t[0] == '$' && t[|t| - 1] == '$'
    && forall k :: 0 < k < |t| - 1 ==> TagChar(t[k])
  }

  /** Which texts are tags: letters, digits and underscores between two dollar signs. */
  lemma IsTagSpelled(t: string)
    ensures IsTag(t) <==>
            |t| >= 2 && t[0] == '$' && t[|t| - 1] == '$'
            && forall k :: 0 < k < |t| - 1 ==>
                 'a' <= t[k] <= 'z' || 'A' <= t[k] <= 'Z' || '0' <= t[k] <= '9' || t[k] == '_'
  {
  }

  lemma TagAtIsTag(s: string, i: nat)
    requires i < |s| && TagAt(s, i) != ""
    ensures IsTag(TagAt(s, i)) && s[i..i + |TagAt(s, i)|] == TagAt(s, i)
  {
    TagRunChars(s, i + 1);
  }

  /** A tag is recognised at a place exactly when its text stands there. */
  lemma TagAtIsText(s: string, i: nat, tag: string)
    requires i < |s| && IsTag(tag)
    ensures TagAt(s, i) == tag <==> i + |tag| <= |s| && s[i..i + |tag|] == tag
  {
    if i + |tag| <= |s| && s[i..i + |tag|] == tag {
      var last := i + |tag| - 1;
      assert s[i] == tag[0] && s[last] == tag[|tag| - 1];
      forall k | i < k < last ensures TagChar(s[k]) {
        assert s[k] == tag[k - i];
      }
      TagRunStops(s, i + 1, last);
    }
  }

  // ---------------------------------------------------------------- one step

  datatype Mode = Plain | Single | Double | Dollar(tag: string)

  datatype Move = Cut | Go(next: nat, mode: Mode)

  predicate Escaped(s: string, i: nat)
    requires i <= |s|
  {
    i > 0 && s[i - 1] == '\\'
  }

  function Step(s: string, i: nat, m: Mode): (r: Move)
    requires i < |s|
    ensures r.Go? ==> i < r.next <= |s|
  {
    var tag := if m.Single? || m.Double? then "" else TagAt(s, i);
    if tag != "" && m.Plain? then Go(i + |tag|, Dollar(tag))
    else if tag != "" && m == Dollar(tag) then Go(i + |tag|, Plain)
    else if m.Dollar? then Go(i + 1, m)
    else if s[i] == '\'' && !m.Double? && !Escaped(s, i) then Go(i + 1, if m.Single? then Plain else Single)
    else if s[i] == '"' && !m.Single? && !Escaped(s, i) then Go(i + 1, if m.Double? then Plain else Double)
    else if s[i] == ';' && m.Plain? then Cut
    else Go(i + 1, m)
  }

  /** The texts between the cuts, from a segment that began at `start` and is read up to `i`. */
  function RawSegments(s: string, i: nat, start: nat, m: Mode): (segs: seq<string>)
    requires start <= i <= |s|
    ensures segs != []
    decreases |s| - i
  {
    if i == |s| then [s[start..]]
    else match Step(s, i, m)
      case Cut => [s[start..i]] + RawSegments(s, i + 1, i + 1, Plain)
      case Go(n, m') => RawSegments(s, n, start, m')
  }

  function Segments(sql: string): seq<string> {
    RawSegments(sql, 0, 0, Plain)
  }

  function Split(input: string): seq<string> {
    TrimmedNonBlank(Segments(ReplaceCrLf(input)))
  }

  // ---------------------------------------------------------------- the scanner

  /** The tag reader as it is written: find the next '$', then test every character in between. */
  method TryReadDollarTag(s: string, idx: nat) returns (tag: string, end: nat)
    requires idx < |s|
    ensures tag == TagAt(s, idx)
    ensures tag != "" ==> end == idx + |tag| - 1 && tag == s[idx..end + 1]
  {
    if s[idx] != '$' {
      return "", 0;
    }
    var next := idx + 1;
    while next < |s| && s[next] != '$'
      invariant idx < next <= |s|
      invariant forall k :: idx < k < next ==> s[k] != '$'
    {
      next := next + 1;
    }
    if next == |s| {
      TagRunChars(s, idx + 1);
      return "", 0;
    }
    var k := idx + 1;
    while k < next
      invariant idx < k <= next
      invariant forall j :: idx < j < k ==> TagChar(s[j])
    {
      if !TagChar(s[k]) {
        TagRunStops(s, idx + 1, k);
        return "", 0;
      }
      k := k + 1;
    }
    TagRunStops(s, idx + 1, next);
    return s[idx..next + 1], next;
  }

  /** What is still to be output when a segment that began at `start` has been read up to `i`. */
  function Pending(sql: string, i: nat, start: nat, m: Mode): seq<string>
    requires start <= i <= |sql|
    decreases |sql| - i
  {
    if i == |sql| then Emit(sql[start..])
    else match Step(sql, i, m)
      case Cut => Emit(sql[start..i]) + Pending(sql, i + 1, i + 1, Plain)
      case Go(n, m') => Pending(sql, n, start, m')
  }

  lemma TrimmedCons(seg: string, segs: seq<string>)
    ensures TrimmedNonBlank([seg] + segs) == Emit(seg) + TrimmedNonBlank(segs)
    ensures TrimmedNonBlank([seg]) == Emit(seg)
  {
    assert ([seg] + segs)[1..] == segs;
    assert [seg][1..] == [];
  }

  lemma {:induction false} PendingIsSplit(sql: string, i: nat, start: nat, m: Mode)
    requires start <= i <= |sql|
    ensures Pending(sql, i, start, m) == TrimmedNonBlank(RawSegments(sql, i, start, m))
    decreases |sql| - i
  {
    hide Step, TrimmedNonBlank, Emit;
    if i == |sql| {
      TrimmedCons(sql[start..], []);
    } else {
      match Step(sql, i, m)
      case Cut =>
        TrimmedCons(sql[start..i], RawSegments(sql, i + 1, i + 1, Plain));
        PendingIsSplit(sql, i + 1, i + 1, Plain);
      case Go(n, m') =>
        PendingIsSplit(sql, n, start, m');
    }
  }

  lemma SplitIsPending(input: string)
    ensures Split(input) == Pending(ReplaceCrLf(input), 0, 0, Plain)
  {
    PendingIsSplit(ReplaceCrLf(input), 0, 0, Plain);
  }

  lemma PendingEnd(sql: string, start: nat, m: Mode)
    requires start <= |sql|
    ensures Pending(sql, |sql|, start, m) == Emit(sql[start..|sql|])
  {
    assert sql[start..] == sql[start..|sql|];
  }

  function Emit(segment: string): (out: seq<string>)
    ensures out == if Trim(segment) == "" then [] else [Trim(segment)]
  {
    if Trim(segment) == "" then [] else [Trim(segment)]
  }

  lemma SliceConcat(s: string, a: nat, b: nat, c: nat)
    requires a <= b <= c <= |s|
    ensures s[a..b] + s[b..c] == s[a..c]
  {
  }

  lemma SliceSnoc(s: string, a: nat, b: nat)
    requires a <= b < |s|
    ensures s[a..b] + [s[b]] == s[a..b + 1]
  {
  }

  lemma AppendAssoc<T>(a: seq<T>, b: seq<T>, c: seq<T>)
    ensures a + (b + c) == (a + b) + c
    ensures a + [] == a
  {
  }

  /** One turn of the loop at a tag that opens or closes a quoted part. */
  lemma TagTurn(s: string, i: nat, start: nat, m: Mode, next: nat, m': Mode)
    requires start <= i < |s| && TagAt(s, i) != "" && next == i + |TagAt(s, i)|
    requires (m.Plain? && m' == Dollar(TagAt(s, i))) || (m == Dollar(TagAt(s, i)) && m' == Plain)
    ensures Pending(s, i, start, m) == Pending(s, next, start, m')
  {
    assert Step(s, i, m) == Go(next, m');
  }

  /** One turn of the loop at any other place, on the flags. */
  lemma CharTurn(s: string, i: nat, start: nat, m: Mode, m': Mode)
    requires start <= i < |s|
    requires (m.Plain? || m.Dollar?) && TagAt(s, i) != "" ==> m.Dollar? && m.tag != TagAt(s, i)
    requires
      var single := !m.Dollar? && !m.Double? && s[i] == '\'' && !(i > 0 && s[i - 1] == '\\');
      var double := !m.Dollar? && !single && !m.Single? && s[i] == '"' && !(i > 0 && s[i - 1] == '\\');
      m' == if single then (if m.Single? then Plain else Single)
            else if double then (if m.Double? then Plain else Double) else m
    ensures m'.Plain? && s[i] == ';' ==> Pending(s, i, start, m) == Emit(s[start..i]) + Pending(s, i + 1, i + 1, Plain)
    ensures !(m'.Plain? && s[i] == ';') ==> Pending(s, i, start, m) == Pending(s, i + 1, start, m')
  {
    if m'.Plain? && s[i] == ';' {
      assert Step(s, i, m) == Cut;
    } else {
      assert Step(s, i, m) == Go(i + 1, m');
    }
  }

  lemma {:induction false} KeptIsTrimmed(segs: seq<string>, k: nat)
    requires k < |TrimmedNonBlank(segs)|
    ensures TrimmedNonBlank(segs)[k] != "" && Trimmed(TrimmedNonBlank(segs)[k])
  {
    hide Trim, Trimmed;
    TrimmedCons(segs[0], segs[1..]);
    assert segs == [segs[0]] + segs[1..];
    var left, right := TrimParts(segs[0]);
    var n := |Emit(segs[0])|;
    if k >= n { KeptIsTrimmed(segs[1..], k - n); }
  }

  /** No statement is empty, or begins or ends with white space. */
  lemma StatementsAreBare(input: string)
    ensures forall k :: 0 <= k < |Split(input)| ==> Bare(Split(input)[k])
  {
    hide TrimmedNonBlank, Segments, ReplaceCrLf, Trim;
    forall k | 0 <= k < |Split(input)| ensures Bare(Split(input)[k]) {
      KeptIsTrimmed(Segments(ReplaceCrLf(input)), k);
    }
  }

  predicate Bare(s: string) {
    && s != ""
    && s[0] != ' ' && s[0] != '\t' && s[0] != '\n' && s[0] != '\r'
    && s[|s| - 1] != ' ' && s[|s| - 1] != '\t' && s[|s| - 1] != '\n' && s[|s| - 1] != '\r'
  }

  method SplitSqlStatements(input: string) returns (out: seq<string>)
    ensures out == Split(input)
    ensures forall k :: 0 <= k < |out| ==> Bare(out[k])
  {
    hide *;
    var sql := ReplaceCrLf(input);
    out := [];
    var buf := "";
    var inSingle, inDouble := false, false;
    var dollarTag: Option<string> := None;
    var i := 0;
    ghost var start, m, rest := 0, Plain, Pending(sql, 0, 0, Plain);
    SplitIsPending(input);
    while i < |sql|
      invariant start <= i <= |sql| && buf == sql[start..i]
      invariant inSingle == m.Single? && inDouble == m.Double? && dollarTag.Some? == m.Dollar?
      invariant m.Dollar? ==> dollarTag.value == m.tag
      invariant rest == Pending(sql, i, start, m)
      invariant out + rest == Split(input)
      decreases |sql| - i
    {
      var ch := sql[i];
      var prev := if i > 0 then sql[i - 1] else ' ';
      var tag, end := "", 0;
      if !inSingle && !inDouble {
        tag, end := TryReadDollarTag(sql, i);
      }
      if tag != "" && (dollarTag.None? || dollarTag.value == tag) {
        ghost var m' := if dollarTag.None? then Dollar(tag) else Plain;
        TagTurn(sql, i, start, m, end + 1, m');
        m := m';
        dollarTag := if dollarTag.None? then Some(tag) else None;
        buf := buf + tag;
        SliceConcat(sql, start, i, end + 1);
        i := end + 1;
      } else {
        if dollarTag.None? {
          if !inDouble && ch == '\'' && prev != '\\' {
            inSingle := !inSingle;
          } else if !inSingle && ch == '"' && prev != '\\' {
            inDouble := !inDouble;
          }
        }
        ghost var m' := if inSingle then Single else if inDouble then Double else if dollarTag.None? then Plain else m;
        CharTurn(sql, i, start, m, m');
        m := m';
        if !inSingle && !inDouble && dollarTag.None? && ch == ';' {
          var stmt := Trim(buf);
          AppendAssoc(out, Emit(buf), Pending(sql, i + 1, i + 1, Plain));
          rest := Pending(sql, i + 1, i + 1, Plain);
          if stmt != "" {
            out := out + [stmt];
          }
          buf := "";
          start := i + 1;
          assert buf == sql[start..start];
        } else {
          buf := buf + [ch];
          SliceSnoc(sql, start, i);
        }
        i := i + 1;
      }
    }
    var last := Trim(buf);
    if last != "" {
      out := out + [last];
    }
    PendingEnd(sql, start, m);
    StatementsAreBare(input);
  }
}
