/** Command output, cut into lines as it arrives in chunks. */
module LineBuffer {
  import opened Text

  /** One trailing carriage return is not part of a line. */
  function StripCr(s: string): string {
    if s != "" && s[|s| - 1] == '\r' then s[..|s| - 1] else s
  }

  function StripAll(lines: seq<string>): seq<string> {
    seq(|lines|, i requires 0 <= i < |lines| => StripCr(lines[i]))
  }

  /** The complete lines of a text, and what is left after its last line feed. */
  function Complete(text: string): seq<string> {
    var parts := SplitOn(text, '\n');
    StripAll(parts[..|parts| - 1])
  }

  function Rest(text: string): string {
    var parts := SplitOn(text, '\n');
    parts[|parts| - 1]
  }

  /** The lines of a whole text: the complete ones, and a last one that does not end in a line feed. */
  function LinesOf(text: string): seq<string> {
    Complete(text) + (if Rest(text) == "" then [] else [StripCr(Rest(text))])
  }

  function IndexOf(s: string, c: char): (k: Option<nat>)
    ensures k.Some? ==> k.value < |s| && s[k.value] == c && c !in s[..k.value]
    ensures k.None? ==> c !in s
  {
    if s == "" then None
    else if s[0] == c then Some(0)
    else
      var k := IndexOf(s[1..], c);
      if k.None? then None
      else
        assert s[..k.value + 1] == [s[0]] + s[1..][..k.value];
        Some(k.value + 1)
  }

  class Buffer {
    var buffer: string
    var lines: seq<string>

    constructor ()
      ensures buffer == "" && lines == []
    {
      buffer, lines := "", [];
    }

    /** Hands on every line that the new data completes. */
    method Push(data: string)
      modifies this
      ensures lines == old(lines) + Complete(old(buffer) + data)
      ensures buffer == Rest(old(buffer) + data)
    {
      hide Complete, Rest, IndexOf;
      buffer := buffer + data;
      ghost var whole := buffer;
      ghost var before := lines;
      var idx := IndexOf(buffer, '\n');
      assert before + [] == before;
      NothingCut(whole);
      while idx.Some?
        invariant idx == IndexOf(buffer, '\n')
        invariant exists cut :: lines == before + cut && Complete(whole) == cut + Complete(buffer)
        invariant Rest(whole) == Rest(buffer)
        decreases |buffer|
      {
        ghost var cut :| lines == before + cut && Complete(whole) == cut + Complete(buffer);
        var rawLine := StripCr(buffer[..idx.value]);
        OneLineMore(buffer, idx.value);
        assert cut + ([rawLine] + Complete(buffer[idx.value + 1..])) == (cut + [rawLine]) + Complete(buffer[idx.value + 1..]);
        buffer := buffer[idx.value + 1..];
        lines := lines + [rawLine];
        assert lines == before + (cut + [rawLine]);
        idx := IndexOf(buffer, '\n');
      }
      NoLine(buffer);
    }

    method Flush()
      modifies this
      ensures lines == old(lines) + (if old(buffer) == "" then [] else [StripCr(old(buffer))])
      ensures buffer == ""
    {
      if buffer == "" {
        return;
      }
      lines := lines + [StripCr(buffer)];
      buffer := "";
    }
  }

  lemma NothingCut(whole: string)
    ensures Complete(whole) == [] + Complete(whole)
  {
  }

  lemma OneLineMore(buffer: string, k: nat)
    requires k < |buffer| && buffer[k] == '\n' && '\n' !in buffer[..k]
    ensures Complete(buffer) == [StripCr(buffer[..k])] + Complete(buffer[k + 1..])
    ensures Rest(buffer) == Rest(buffer[k + 1..])
  {
    hide SplitOn, StripCr;
    assert buffer == buffer[..k] + ['\n'] + buffer[k + 1..];
    SplitFirst(buffer[..k], buffer[k + 1..], '\n');
  }

  lemma NoLine(buffer: string)
    requires '\n' !in buffer
    ensures Complete(buffer) == [] && Rest(buffer) == buffer
  {
    hide SplitOn;
    SplitNone(buffer, '\n');
  }

  // ---------------------------------------------------------------- streaming is batch

  /** What has been handed on, and what is buffered, after a list of chunks. */
  function Pushed(chunks: seq<string>): (r: (seq<string>, string)) {
    if chunks == [] then ([], "")
    else
      var (lines, buffer) := Pushed(chunks[..|chunks| - 1]);
      var text := buffer + chunks[|chunks| - 1];
      (lines + Complete(text), Rest(text))
  }

  function Concat(chunks: seq<string>): string {
    if chunks == [] then "" else Concat(chunks[..|chunks| - 1]) + chunks[|chunks| - 1]
  }

  /** Splitting goes on from the last piece. */
  lemma {:induction false} SplitContinues(a: string, b: string, c: char)
    ensures var parts := SplitOn(a, c);
            SplitOn(a + b, c) == parts[..|parts| - 1] + SplitOn(parts[|parts| - 1] + b, c)
    decreases |a|
  {
    hide SplitOn, IndexOf;
    var k := IndexOf(a, c);
    if k.None? {
      SplitNone(a, c);
      assert [a][..0] + SplitOn(a + b, c) == SplitOn(a + b, c);
    } else {
      var x, y := a[..k.value], a[k.value + 1..];
      assert a == x + [c] + y && a + b == x + [c] + (y + b);
      SplitFirst(x, y, c);
      SplitFirst(x, y + b, c);
      SplitContinues(y, b, c);
      var parts := SplitOn(y, c);
      assert ([x] + parts)[..|parts|] == [x] + parts[..|parts| - 1];
    }
  }

  lemma CompleteContinues(a: string, b: string)
    ensures Complete(a + b) == Complete(a) + Complete(Rest(a) + b)
    ensures Rest(a + b) == Rest(Rest(a) + b)
  {
    hide SplitOn, StripCr;
    SplitContinues(a, b, '\n');
  }

  lemma {:induction false} PushedIsWhole(chunks: seq<string>)
    ensures Pushed(chunks) == (Complete(Concat(chunks)), Rest(Concat(chunks)))
  {
    hide Complete, Rest;
    if chunks == [] {
      NoLine("");
    } else {
      var n := |chunks| - 1;
      PushedIsWhole(chunks[..n]);
      CompleteContinues(Concat(chunks[..n]), chunks[n]);
    }
  }

  /** However a text is cut into chunks, pushing them all and flushing gives the lines of the whole text. */
  method StreamIsBatch(chunks: seq<string>) returns (lines: seq<string>)
    ensures lines == LinesOf(Concat(chunks))
  {
    hide Complete, Rest, Concat;
    var b := new Buffer();
    for i := 0 to |chunks|
      invariant fresh(b)
      invariant (b.lines, b.buffer) == Pushed(chunks[..i])
    {
      assert chunks[..i + 1][..i] == chunks[..i];
      b.Push(chunks[i]);
    }
    assert chunks[..|chunks|] == chunks;
    PushedIsWhole(chunks);
    b.Flush();
    lines := b.lines;
  }

  // ---------------------------------------------------------------- what the lines are

  predicate IsLineEnd(s: string) {
    s == "\n" || s == "\r\n"
  }

  /** Lines with the line ends that followed them. */
  function Glue(lines: seq<string>, ends: seq<string>): string
    requires |lines| == |ends|
  {
    if lines == [] then "" else lines[0] + ends[0] + Glue(lines[1..], ends[1..])
  }

  lemma {:induction false} SplitEnds(text: string) returns (ends: seq<string>)
    ensures |ends| == |Complete(text)| && text == Glue(Complete(text), ends) + Rest(text)
    ensures forall i :: 0 <= i < |ends| ==> IsLineEnd(ends[i])
    ensures forall i :: 0 <= i < |ends| && ends[i] == "\n" ==> !EndsInCr(Complete(text)[i])
    ensures forall i :: 0 <= i < |ends| ==> '\n' !in Complete(text)[i]
    ensures '\n' !in Rest(text)
    decreases |text|
  {
    hide Complete, Rest, IndexOf, StripCr;
    var k := IndexOf(text, '\n');
    if k.None? {
      NoLine(text);
      ends := [];
    } else {
      hide Glue, EndsInCr;
      var line, rest := text[..k.value], text[k.value + 1..];
      OneLineMore(text, k.value);
      assert text == line + "\n" + rest;
      var more := SplitEnds(rest);
      var end := OneEnd(line);
      ends := [end] + more;
      assert Complete(text)[1..] == Complete(rest) && ends[1..] == more;
      GlueMore(StripCr(line), end, Complete(rest), more, Rest(rest), line, rest, text);
    }
  }

  lemma GlueMore(kept: string, end: string, lines: seq<string>, ends: seq<string>, last: string,
                 line: string, rest: string, text: string)
    requires |lines| == |ends| && rest == Glue(lines, ends) + last && kept + end == line + "\n" && text == line + "\n" + rest
    ensures text == Glue([kept] + lines, [end] + ends) + last
  {
    hide Glue;
    var head, tail := kept + end, Glue(lines, ends);
    GlueUnfolds(kept, end, lines, ends);
    AppendIsAssociative(head, tail, last);
  }

  lemma GlueUnfolds(kept: string, end: string, lines: seq<string>, ends: seq<string>)
    requires |lines| == |ends|
    ensures Glue([kept] + lines, [end] + ends) == kept + end + Glue(lines, ends)
  {
    assert ([kept] + lines)[1..] == lines && ([end] + ends)[1..] == ends;
  }

  lemma AppendIsAssociative(a: string, b: string, c: string)
    ensures a + (b + c) == (a + b) + c
  {
  }

  lemma OneEnd(line: string) returns (end: string)
    requires '\n' !in line
    ensures IsLineEnd(end) && StripCr(line) + end == line + "\n" && '\n' !in StripCr(line)
    ensures end == "\n" ==> !EndsInCr(StripCr(line))
  {
    hide StripCr;
    CrIsStripped(line);
    end := if EndsInCr(line) then "\r\n" else "\n";
  }

  predicate EndsInCr(s: string) {
    s != "" && s[|s| - 1] == '\r'
  }

  lemma CrIsStripped(line: string)
    ensures EndsInCr(line) ==> line == StripCr(line) + "\r"
    ensures !EndsInCr(line) ==> StripCr(line) == line
    ensures forall c :: c in StripCr(line) ==> c in line
  {
  }

  /**
   * The lines of a text, with an LF or a CR LF after each, are the text: none holds an LF, only a
   * whole CR LF is dropped with its CR, and what has no line end after it is the last line, less one CR.
   */
  lemma LinesAre(text: string) returns (ends: seq<string>, rest: string)
    ensures |ends| <= |LinesOf(text)|
    ensures text == Glue(LinesOf(text)[..|ends|], ends) + rest && '\n' !in rest
    ensures forall i :: 0 <= i < |ends| ==> ends[i] == "\n" || ends[i] == "\r\n"
    ensures forall i :: 0 <= i < |ends| && ends[i] == "\n" ==> !EndsInCr(LinesOf(text)[i])
    ensures forall i :: 0 <= i < |ends| ==> '\n' !in LinesOf(text)[i]
    ensures rest == "" ==> |LinesOf(text)| == |ends|
    ensures rest != "" ==> |LinesOf(text)| == |ends| + 1
                           && rest == LinesOf(text)[|ends|] + (if rest[|rest| - 1] == '\r' then "\r" else "")
  {
    hide Complete, Rest, StripCr;
    ends := SplitEnds(text);
    rest := Rest(text);
    CrIsStripped(rest);
    assert LinesOf(text)[..|ends|] == Complete(text);
  }
}
