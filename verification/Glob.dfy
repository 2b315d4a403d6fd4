/**
 * Branch filters: globs with `*` and `?`, compiled to regular expressions.
 *
 * The compiler pastes a pattern text together with three replacements. What that text means is
 * decided by reading it back with `Regex.Parse`; the reference is `Matches`, which knows nothing
 * of regular expressions.
 */
module Glob {
  import opened Text
  import opened Regex

  // ---------------------------------------------------------------- the compiler

  /** What the compiler escapes: every syntax character but the two that a glob gives a meaning. */
  const SPECIAL := ".+^${}()|[]\\"

  function ReplaceChar(s: string, c: char, text: string): string {
    if s == "" then "" else (if s[0] == c then text else [s[0]]) + ReplaceChar(s[1..], c, text)
  }

  function Compile(pattern: string): string {
    "^" + ReplaceChar(ReplaceChar(Escape(pattern, SPECIAL), '*', ".*"), '?', ".") + "$"
  }

  // ---------------------------------------------------------------- what a glob means

  /** One character of a glob against a piece of the subject. `wild` says what the wildcards range over. */
  predicate PieceFits(p: char, piece: string, wild: char -> bool, fold: char -> char) {
    if p == '*' then forall c :: c in piece ==> wild(c)
    else if p == '?' then |piece| == 1 && wild(piece[0])
    else |piece| == 1 && fold(p) == fold(piece[0])
  }

  function Concat(pieces: seq<string>): string {
    if pieces == [] then "" else pieces[0] + Concat(pieces[1..])
  }

  /** The subject can be cut into one piece for each character of the glob. */
  ghost predicate Matches(glob: string, subject: string, wild: char -> bool, fold: char -> char) {
    exists pieces: seq<string> ::
      && |pieces| == |glob| && Concat(pieces) == subject
      && forall i :: 0 <= i < |glob| ==> PieceFits(glob[i], pieces[i], wild, fold)
  }

  // ---------------------------------------------------------------- the text and its reading

  /** The text that stands for one character of the glob. */
  function Piece(c: char): string {
    if c == '*' then ".*" else if c == '?' then "." else if c in SPECIAL then ['\\', c] else [c]
  }

  function Body(glob: string): string {
    if glob == "" then "" else Piece(glob[0]) + Body(glob[1..])
  }

  function TermOf(c: char): Term {
    if c == '*' then Star(Dot) else if c == '?' then One(Dot) else One(Char(c))
  }

  function Terms(glob: string): seq<Term> {
    seq(|glob|, i requires 0 <= i < |glob| => TermOf(glob[i]))
  }

  lemma {:induction false} ReplaceCharJoin(a: string, b: string, c: char, text: string)
    ensures ReplaceChar(a + b, c, text) == ReplaceChar(a, c, text) + ReplaceChar(b, c, text)
  {
    if a == "" {
      assert a + b == b;
    } else {
      assert (a + b)[1..] == a[1..] + b;
      ReplaceCharJoin(a[1..], b, c, text);
    }
  }

  lemma ReplaceOne(x: char, c: char, text: string)
    ensures ReplaceChar([x], c, text) == if x == c then text else [x]
  {
    assert [x][1..] == "";
  }

  lemma ReplaceTwo(x: char, y: char, c: char, text: string)
    requires x != c && y != c
    ensures ReplaceChar([x, y], c, text) == [x, y]
  {
    assert [x, y][1..] == [y];
    ReplaceOne(y, c, text);
  }

  /** The replacements do not disturb one another: none of them touches what another has written. */
  lemma ReplacePiece(c: char)
    ensures ReplaceChar(ReplaceChar(Escaped(c, SPECIAL), '*', ".*"), '?', ".") == Piece(c)
  {
    if c in SPECIAL {
      ReplaceTwo('\\', c, '*', ".*");
      ReplaceTwo('\\', c, '?', ".");
    } else {
      ReplaceOne(c, '*', ".*");
      ReplaceOne(c, '?', ".");
      ReplaceTwo('.', '*', '?', ".");
    }
  }

  lemma {:induction false} CompileIsBody(glob: string)
    ensures ReplaceChar(ReplaceChar(Escape(glob, SPECIAL), '*', ".*"), '?', ".") == Body(glob)
  {
    if glob != "" {
      var head := Escaped(glob[0], SPECIAL);
      var rest := Escape(glob[1..], SPECIAL);
      CompileIsBody(glob[1..]);
      ReplacePiece(glob[0]);
      ReplaceCharJoin(head, rest, '*', ".*");
      ReplaceCharJoin(ReplaceChar(head, '*', ".*"), ReplaceChar(rest, '*', ".*"), '?', ".");
    }
  }

  lemma ParsePiece(c: char, rest: string)
    requires rest == "" || rest[0] != '*'
    ensures Parse(Piece(c) + rest) == Cons(TermOf(c), Parse(rest))
  {
    if c == '*' {
      var text := ".*" + rest;
      assert text[1..] == "*" + rest;
      assert (text[1..])[1..] == rest;
    } else {
      SpecialIsSyntax(c);
      assert (Piece(c) + rest)[|Piece(c)|..] == rest;
      ParseAtom(Piece(c), TermOf(c).atom, rest);
    }
  }

  lemma SpecialIsSyntax(c: char)
    ensures c in SPECIAL || c == '*' || c == '?' <==> IsSyntax(c)
  {
  }

  lemma {:induction false} BodyParses(glob: string)
    ensures Parse(Body(glob) + "$") == Some(Terms(glob) + [End])
    ensures (Body(glob) + "$")[0] != '*'
  {
    if glob == "" {
      ParseEnd();
      assert "" + "$" == "$" && Terms("") + [End] == [End];
    } else {
      var rest := Body(glob[1..]) + "$";
      BodyParses(glob[1..]);
      ParsePiece(glob[0], rest);
      assert Body(glob) + "$" == Piece(glob[0]) + rest;
      assert Terms(glob) + [End] == [TermOf(glob[0])] + (Terms(glob[1..]) + [End]);
    }
  }

  lemma CompileParses(glob: string)
    ensures Parse(Compile(glob)) == Some([Start] + (Terms(glob) + [End]))
  {
    hide Parse, Body, ReplaceChar, Escape, Terms;
    CompileIsBody(glob);
    BodyParses(glob);
    assert Compile(glob) == "^" + (Body(glob) + "$");
    AnchoredParse(Body(glob) + "$", Terms(glob) + [End]);
  }

  // ---------------------------------------------------------------- the two meanings agree

  /** A star either matches nothing more or eats one more character. */
  lemma MatchesStar(glob: string, subject: string, wild: char -> bool, fold: char -> char)
    requires glob != "" && glob[0] == '*'
    ensures Matches(glob, subject, wild, fold) <==>
            || Matches(glob[1..], subject, wild, fold)
            || (subject != "" && wild(subject[0]) && Matches(glob, subject[1..], wild, fold))
  {
    if Matches(glob, subject, wild, fold) {
      var pieces :| |pieces| == |glob| && Concat(pieces) == subject
                    && forall i :: 0 <= i < |glob| ==> PieceFits(glob[i], pieces[i], wild, fold);
      if pieces[0] == "" {
        FitsRest(glob, pieces, wild, fold);
        assert Concat(pieces[1..]) == subject;
      } else {
        var fewer := pieces[0 := pieces[0][1..]];
        assert fewer[1..] == pieces[1..];
        assert subject[1..] == pieces[0][1..] + Concat(pieces[1..]);
        assert Concat(fewer) == subject[1..];
        assert Matches(glob, subject[1..], wild, fold);
      }
    }
    if Matches(glob[1..], subject, wild, fold) {
      MatchesCons(glob, "", subject, wild, fold);
      assert "" + subject == subject;
    }
    if subject != "" && wild(subject[0]) && Matches(glob, subject[1..], wild, fold) {
      StarGrows(glob, subject, wild, fold);
    }
  }

  lemma StarGrows(glob: string, subject: string, wild: char -> bool, fold: char -> char)
    requires glob != "" && glob[0] == '*'
    requires subject != "" && wild(subject[0]) && Matches(glob, subject[1..], wild, fold)
    ensures Matches(glob, subject, wild, fold)
  {
    var pieces :| |pieces| == |glob| && Concat(pieces) == subject[1..]
                  && forall i :: 0 <= i < |glob| ==> PieceFits(glob[i], pieces[i], wild, fold);
    var more := pieces[0 := [subject[0]] + pieces[0]];
    assert more[1..] == pieces[1..];
    assert Concat(more) == [subject[0]] + Concat(pieces);
    assert Concat(more) == subject;
  }

  /** Any other character of a glob takes exactly one character of the subject. */
  lemma MatchesOne(glob: string, subject: string, wild: char -> bool, fold: char -> char)
    requires glob != "" && glob[0] != '*'
    ensures Matches(glob, subject, wild, fold) <==>
            subject != "" && PieceFits(glob[0], subject[..1], wild, fold) && Matches(glob[1..], subject[1..], wild, fold)
  {
    if Matches(glob, subject, wild, fold) {
      var pieces :| |pieces| == |glob| && Concat(pieces) == subject
                    && forall i :: 0 <= i < |glob| ==> PieceFits(glob[i], pieces[i], wild, fold);
      FitsRest(glob, pieces, wild, fold);
      assert subject[..1] == pieces[0] && subject[1..] == Concat(pieces[1..]);
    }
    if subject != "" && PieceFits(glob[0], subject[..1], wild, fold) && Matches(glob[1..], subject[1..], wild, fold) {
      MatchesCons(glob, subject[..1], subject[1..], wild, fold);
      assert subject[..1] + subject[1..] == subject;
    }
  }

  lemma FitsRest(glob: string, pieces: seq<string>, wild: char -> bool, fold: char -> char)
    requires glob != "" && |pieces| == |glob|
    requires forall i :: 0 <= i < |glob| ==> PieceFits(glob[i], pieces[i], wild, fold)
    ensures Matches(glob[1..], Concat(pieces[1..]), wild, fold)
  {
    hide PieceFits, Concat;
    var rest := pieces[1..];
    assert forall i :: 0 <= i < |rest| ==> PieceFits(glob[1..][i], rest[i], wild, fold);
  }

  lemma MatchesCons(glob: string, piece: string, subject: string, wild: char -> bool, fold: char -> char)
    requires glob != "" && PieceFits(glob[0], piece, wild, fold)
    requires Matches(glob[1..], subject, wild, fold)
    ensures Matches(glob, piece + subject, wild, fold)
  {
    hide PieceFits;
    var rest :| |rest| == |glob[1..]| && Concat(rest) == subject
                && forall i :: 0 <= i < |glob[1..]| ==> PieceFits(glob[1..][i], rest[i], wild, fold);
    var pieces := [piece] + rest;
    assert pieces[1..] == rest;
    forall i | 0 <= i < |glob| ensures PieceFits(glob[i], pieces[i], wild, fold) {
      if i > 0 { assert glob[i] == glob[1..][i - 1] && pieces[i] == rest[i - 1]; }
    }
  }

  lemma MatchesEmpty(subject: string, wild: char -> bool, fold: char -> char)
    ensures Matches("", subject, wild, fold) <==> subject == ""
  {
    var none: seq<string> := [];
    assert Concat(none) == "";
  }

  function NoLineTerminator(): char -> bool {
    c => !IsLineTerminator(c)
  }

  lemma TermsUnfold(glob: string, s: string, i: nat, fold: char -> char)
    requires i <= |s|
    ensures var terms := Terms(glob) + [End];
            && (glob == "" ==> (Accepts(terms, s, i, fold) <==> i == |s|))
            && (glob != "" && glob[0] == '*' ==>
                  (Accepts(terms, s, i, fold) <==>
                    || Accepts(Terms(glob[1..]) + [End], s, i, fold)
                    || (i < |s| && !IsLineTerminator(s[i]) && Accepts(terms, s, i + 1, fold))))
            && (glob != "" && glob[0] != '*' ==>
                  (Accepts(terms, s, i, fold) <==>
                    && i < |s| && Eats(TermOf(glob[0]).atom, s[i], fold)
                    && Accepts(Terms(glob[1..]) + [End], s, i + 1, fold)))
  {
    var terms := Terms(glob) + [End];
    if glob == "" {
      assert terms == [End];
      assert terms[1..] == [];
    } else {
      assert terms[0] == TermOf(glob[0]);
      assert terms[1..] == Terms(glob[1..]) + [End];
    }
  }

  lemma {:induction false} TermsMeanTheGlob(glob: string, s: string, i: nat, fold: char -> char)
    requires i <= |s|
    ensures Accepts(Terms(glob) + [End], s, i, fold) <==> Matches(glob, s[i..], NoLineTerminator(), fold)
    decreases |glob|, |s| - i
  {
    hide Accepts, Matches, Terms;
    var wild := NoLineTerminator();
    TermsUnfold(glob, s, i, fold);
    if i < |s| {
      assert s[i..][1..] == s[i + 1..];
      assert s[i..][..1] == [s[i]];
    }
    if glob == "" {
      MatchesEmpty(s[i..], wild, fold);
    } else if glob[0] == '*' {
      MatchesStar(glob, s[i..], wild, fold);
      TermsMeanTheGlob(glob[1..], s, i, fold);
      if i < |s| { TermsMeanTheGlob(glob, s, i + 1, fold); }
    } else {
      MatchesOne(glob, s[i..], wild, fold);
      if i < |s| { TermsMeanTheGlob(glob[1..], s, i + 1, fold); }
    }
  }

  /** The compiled text, read back, is the glob whose wildcards stay on one line. */
  lemma CompiledMeansGlob(glob: string, subject: string, fold: char -> char)
    ensures Test(Compile(glob), subject, fold) <==> Matches(glob, subject, NoLineTerminator(), fold)
  {
    hide Accepts, Matches, Terms, Parse, Compile;
    CompileParses(glob);
    AnchoredTest(Compile(glob), Terms(glob) + [End], subject, fold);
    TermsMeanTheGlob(glob, subject, 0, fold);
    assert subject[0..] == subject;
  }

  // ---------------------------------------------------------------- how far that is from a plain glob

  function Anything(): char -> bool {
    c => true
  }

  predicate OneLine(s: string) {
    forall c :: c in s ==> !IsLineTerminator(c)
  }

  lemma {:induction false} PiecesOnOneLine(pieces: seq<string>)
    requires OneLine(Concat(pieces))
    ensures forall i :: 0 <= i < |pieces| ==> OneLine(pieces[i])
  {
    if pieces != [] {
      var all := Concat(pieces);
      assert forall c :: c in pieces[0] ==> c in all;
      assert forall c :: c in Concat(pieces[1..]) ==> c in all;
      PiecesOnOneLine(pieces[1..]);
      assert pieces == [pieces[0]] + pieces[1..];
    }
  }

  /** On a subject of one line the compiled text is the plain glob. */
  lemma OneLineIsPlain(glob: string, subject: string, fold: char -> char)
    requires OneLine(subject)
    ensures Matches(glob, subject, NoLineTerminator(), fold) <==> Matches(glob, subject, Anything(), fold)
  {
    hide Concat;
    forall pieces: seq<string> | |pieces| == |glob| && Concat(pieces) == subject
      ensures forall i :: 0 <= i < |glob| ==>
                (PieceFits(glob[i], pieces[i], NoLineTerminator(), fold) <==> PieceFits(glob[i], pieces[i], Anything(), fold))
    {
      PiecesOnOneLine(pieces);
    }
  }

  /** A lone star is the whole subject as one piece. */
  lemma StarMatches(subject: string, wild: char -> bool, fold: char -> char)
    ensures Matches("*", subject, wild, fold) <==> forall c :: c in subject ==> wild(c)
  {
    var whole := [subject];
    assert whole[1..] == [];
    assert Concat(whole) == subject + "";
    if Matches("*", subject, wild, fold) {
      var pieces :| |pieces| == 1 && Concat(pieces) == subject && PieceFits('*', pieces[0], wild, fold);
      assert pieces[1..] == [];
      assert pieces[0] + "" == pieces[0];
    } else {
      assert "*"[0] == '*';
    }
  }

  /**
   * For which subjects the compiled filters are globs: exactly those without a line terminator.
   * With one, the filter `*`, meant to accept every name, accepts nothing.
   */
  lemma PlainGlobExactly(subject: string, fold: char -> char)
    ensures (forall glob :: Test(Compile(glob), subject, fold) <==> Matches(glob, subject, Anything(), fold))
            <==> OneLine(subject)
  {
    hide Test, Compile, Matches;
    forall glob ensures Test(Compile(glob), subject, fold) <==> Matches(glob, subject, NoLineTerminator(), fold) {
      CompiledMeansGlob(glob, subject, fold);
    }
    if OneLine(subject) {
      forall glob ensures Test(Compile(glob), subject, fold) <==> Matches(glob, subject, Anything(), fold) {
        OneLineIsPlain(glob, subject, fold);
      }
    } else {
      StarMatches(subject, NoLineTerminator(), fold);
      StarMatches(subject, Anything(), fold);
      assert Test(Compile("*"), subject, fold) <==> Matches("*", subject, NoLineTerminator(), fold);
    }
  }

  // ---------------------------------------------------------------- the filter clause

  /** The patterns of a clause: trimmed, the blank ones left out. */
  function Patterns(values: seq<string>): seq<string> {
    if values == [] then []
    else (if Trim(values[0]) == "" then [] else [Trim(values[0])]) + Patterns(values[1..])
  }

  predicate SomeMatches(patterns: seq<string>, subject: string, fold: char -> char) {
    patterns != [] && (Test(Compile(patterns[0]), subject, fold) || SomeMatches(patterns[1..], subject, fold))
  }

  /** The `matchesAny` clause; `value` is absent when the event has no such field. */
  predicate MatchesAny(values: seq<string>, value: Option<string>, negate: bool, fold: char -> char) {
    negate != (value.Some? && SomeMatches(Patterns(values), Trim(value.value), fold))
  }

  /** A non-blank glob of the clause accepts the subject. */
  ghost predicate Hit(value: string, subject: string, fold: char -> char) {
    Trim(value) != "" && Matches(Trim(value), subject, NoLineTerminator(), fold)
  }

  lemma SomeMatchesUnfolds(values: seq<string>, subject: string, fold: char -> char)
    requires values != []
    ensures SomeMatches(Patterns(values), subject, fold) <==>
            || (Trim(values[0]) != "" && Test(Compile(Trim(values[0])), subject, fold))
            || SomeMatches(Patterns(values[1..]), subject, fold)
  {
    hide Test, Compile, Trim;
    var v := Trim(values[0]);
    var rest := Patterns(values[1..]);
    if v == "" {
      assert Patterns(values) == rest;
    } else {
      assert Patterns(values) == [v] + rest;
      assert Patterns(values)[1..] == rest;
    }
  }

  lemma {:induction false} SomeMatchesIsHit(values: seq<string>, subject: string, fold: char -> char)
    ensures SomeMatches(Patterns(values), subject, fold) <==> exists v :: v in values && Hit(v, subject, fold)
  {
    hide Matches, Test, Compile, Trim;
    if values != [] {
      hide SomeMatches, Patterns;
      SomeMatchesUnfolds(values, subject, fold);
      SomeMatchesIsHit(values[1..], subject, fold);
      CompiledMeansGlob(Trim(values[0]), subject, fold);
      assert values == [values[0]] + values[1..];
      if Hit(values[0], subject, fold) {
        assert values[0] in values;
      }
    }
  }

  /** A clause without negation holds exactly when the field is there and some non-blank glob accepts it. */
  lemma ClauseMeansGlobs(values: seq<string>, value: Option<string>, negate: bool, fold: char -> char)
    ensures MatchesAny(values, value, negate, fold) <==>
            (negate != (value.Some? && exists v :: v in values && Trim(v) != ""
                                                     && Matches(Trim(v), Trim(value.value), NoLineTerminator(), fold)))
  {
    hide Trim, SomeMatches, Patterns, Matches;
    if value.Some? {
      SomeMatchesIsHit(values, Trim(value.value), fold);
      forall v | v in values
        ensures Hit(v, Trim(value.value), fold) <==>
                Trim(v) != "" && Matches(Trim(v), Trim(value.value), NoLineTerminator(), fold)
      {
      }
    }
  }

  // ---------------------------------------------------------------- the texts themselves

  /** The compiled text of every glob, character by character. */
  lemma CompileIs(glob: string) returns (pieces: seq<string>)
    ensures Compile(glob) == "^" + Concat(pieces) + "$" && |pieces| == |glob|
    ensures forall i :: 0 <= i < |glob| ==>
              var c := glob[i];
              pieces[i] == if c == '*' then ".*" else if c == '?' then "."
                           else if c == '.' || c == '+' || c == '^' || c == '$' || c == '{' || c == '}' || c == '(' || c == ')'
                                   || c == '|' || c == '[' || c == ']' || c == '\\' then "\\" + [c]
                           else [c]
  {
    hide Escape, ReplaceChar, Piece;
    CompileIsBody(glob);
    pieces := seq(|glob|, i requires 0 <= i < |glob| => Piece(glob[i]));
    BodyIsConcat(glob);
    forall i | 0 <= i < |glob| { PieceIs(glob[i]); }
  }

  lemma {:induction false} BodyIsConcat(glob: string)
    ensures Body(glob) == Concat(seq(|glob|, i requires 0 <= i < |glob| => Piece(glob[i])))
  {
    hide Piece;
    if glob != "" {
      BodyIsConcat(glob[1..]);
      var pieces := seq(|glob|, i requires 0 <= i < |glob| => Piece(glob[i]));
      assert pieces[1..] == seq(|glob[1..]|, i requires 0 <= i < |glob[1..]| => Piece(glob[1..][i]));
    }
  }

  lemma PieceIs(c: char)
    ensures Piece(c) == if c == '*' then ".*" else if c == '?' then "."
                        else if c == '.' || c == '+' || c == '^' || c == '$' || c == '{' || c == '}' || c == '(' || c == ')'
                                || c == '|' || c == '[' || c == ']' || c == '\\' then "\\" + [c]
                        else [c]
  {
    SpecialIsSyntax(c);
    SyntaxCharIs(c);
  }
}
