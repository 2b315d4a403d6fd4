/** Text operations of the JavaScript runtime that several components share. */
module Text {

  datatype Option<+T> = None | Some(value: T)

  /** The white space and line terminators that `String.prototype.trim` removes. */
  predicate IsSpace(c: char) {
    || '\t' <= c <= '\r' || c == ' ' || c == '\U{A0}' || c == '\U{1680}'
    || '\U{2000}' <= c <= '\U{200A}' || c == '\U{2028}' || c == '\U{2029}'
    || c == '\U{202F}' || c == '\U{205F}' || c == '\U{3000}' || c == '\U{FEFF}'
  }

  /** The same, one by one: `WhiteSpace` and `LineTerminator` of ECMA-262, sections 12.2 and 12.3. */
  lemma IsSpaceSpelled(c: char)
    ensures IsSpace(c) <==>
            c in "\t\n\U{0B}\U{0C}\r \U{A0}\U{1680}\U{2000}\U{2001}\U{2002}\U{2003}\U{2004}\U{2005}\U{2006}\U{2007}\U{2008}\U{2009}\U{200A}\U{2028}\U{2029}\U{202F}\U{205F}\U{3000}\U{FEFF}"
  {
  }

  predicate AllSpace(s: string) {
    forall c :: c in s ==> IsSpace(c)
  }

  /** The first place at or after `i` that holds no white space. */
  function Lead(s: string, i: nat): (r: nat)
    requires i <= |s|
    ensures i <= r <= |s|
    decreases |s| - i
  {
    if i < |s| && IsSpace(s[i]) then Lead(s, i + 1) else i
  }

  /** The end of what is left of the first `j` characters without their trailing white space. */
  function Trail(s: string, j: nat): (r: nat)
    requires j <= |s|
    ensures r <= j
  {
    if j > 0 && IsSpace(s[j - 1]) then Trail(s, j - 1) else j
  }

  function Trim(s: string): string {
    if Lead(s, 0) < Trail(s, |s|) then s[Lead(s, 0)..Trail(s, |s|)] else ""
  }

  /** The texts of a list, trimmed, without the blank ones. */
  function TrimmedNonBlank(segs: seq<string>): seq<string> {
    if segs == [] then []
    else (if Trim(segs[0]) == "" then [] else [Trim(segs[0])]) + TrimmedNonBlank(segs[1..])
  }

  predicate Trimmed(s: string) {
    s != "" ==> !IsSpace(s[0]) && !IsSpace(s[|s| - 1])
  }

  lemma {:induction false} LeadSkipsSpace(s: string, i: nat)
    requires i <= |s|
    ensures forall k :: i <= k < Lead(s, i) ==> IsSpace(s[k])
    ensures Lead(s, i) < |s| ==> !IsSpace(s[Lead(s, i)])
    decreases |s| - i
  {
    if i < |s| && IsSpace(s[i]) {
      LeadSkipsSpace(s, i + 1);
    }
  }

  lemma {:induction false} TrailSkipsSpace(s: string, j: nat)
    requires j <= |s|
    ensures forall k :: Trail(s, j) <= k < j ==> IsSpace(s[k])
    ensures Trail(s, j) > 0 ==> !IsSpace(s[Trail(s, j) - 1])
  {
    if j > 0 && IsSpace(s[j - 1]) {
      TrailSkipsSpace(s, j - 1);
    }
  }

  /** Trimming cuts white space off both ends and nothing else. */
  lemma TrimParts(s: string) returns (left: string, right: string)
    ensures s == left + Trim(s) + right
    ensures AllSpace(left) && AllSpace(right)
    ensures Trimmed(Trim(s))
  {
    hide IsSpace, Lead, Trail;
    var lo, hi := Lead(s, 0), Trail(s, |s|);
    if lo < hi {
      left, right := s[..lo], s[hi..];
      CutThree(s, lo, hi);
    } else {
      left, right := s, "";
    }
    TrimEnds(s, lo, hi);
  }

  lemma CutThree(s: string, lo: nat, hi: nat)
    requires lo <= hi <= |s|
    ensures s == s[..lo] + s[lo..hi] + s[hi..]
  {
  }

  lemma TrimEnds(s: string, lo: nat, hi: nat)
    requires lo == Lead(s, 0) && hi == Trail(s, |s|)
    ensures AllSpace(s[..lo]) && AllSpace(s[hi..])
    ensures lo < hi ==> !IsSpace(s[lo]) && !IsSpace(s[hi - 1])
    ensures lo >= hi ==> AllSpace(s)
  {
    hide IsSpace, Lead, Trail;
    LeadSkipsSpace(s, 0);
    TrailSkipsSpace(s, |s|);
  }

  lemma TrimOfTrimmed(s: string)
    requires Trimmed(s)
    ensures Trim(s) == s
  {
  }

  function Join(parts: seq<string>, sep: string): string {
    if parts == [] then "" else
    if |parts| == 1 then parts[0] else parts[0] + sep + Join(parts[1..], sep)
  }

  /** `s.split(c)`. */
  function SplitOn(s: string, c: char): (r: seq<string>)
    ensures r != []
  {
    if s == "" then [""]
    else
      var rest := SplitOn(s[1..], c);
      if s[0] == c then [""] + rest else [[s[0]] + rest[0]] + rest[1..]
  }

  lemma {:induction false} SplitNone(s: string, c: char)
    requires c !in s
    ensures SplitOn(s, c) == [s]
  {
    if s != "" {
      SplitNone(s[1..], c);
      assert [s[0]] + s[1..] == s;
    }
  }

  lemma {:induction false} SplitFirst(a: string, b: string, c: char)
    requires c !in a
    ensures SplitOn(a + [c] + b, c) == [a] + SplitOn(b, c)
  {
    if a == "" {
      assert (a + [c] + b)[1..] == b;
    } else {
      assert (a + [c] + b)[1..] == a[1..] + [c] + b;
      SplitFirst(a[1..], b, c);
      assert [a[0]] + a[1..] == a;
    }
  }

  lemma {:induction false} SplitParts(s: string, c: char)
    ensures var r := SplitOn(s, c);
            && (forall i :: 0 <= i < |r| ==> c !in r[i])
            && (|r| == 1 ==> s == r[0])
            && (|r| == 2 ==> s == r[0] + [c] + r[1])
  {
    if s != "" {
      SplitParts(s[1..], c);
      assert s == [s[0]] + s[1..];
    }
  }

  /** Splitting undoes joining, when no part holds the separator. */
  lemma {:induction false} SplitJoin(parts: seq<string>, c: char)
    requires parts != [] && forall i :: 0 <= i < |parts| ==> c !in parts[i]
    ensures SplitOn(Join(parts, [c]), c) == parts
  {
    hide SplitOn;
    if |parts| == 1 {
      SplitNone(parts[0], c);
      assert parts == [parts[0]];
    } else {
      SplitJoin(parts[1..], c);
      SplitFirst(parts[0], Join(parts[1..], [c]), c);
      assert parts == [parts[0]] + parts[1..];
    }
  }
}
