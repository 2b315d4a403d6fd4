/**
 * Regular expressions as the repository builds them: by pasting text together.
 *
 * `Parse` reads a pattern text back by the ECMAScript grammar (section 22.2.1 of ECMA-262),
 * restricted to assertions, atoms and the greedy star; texts outside that subset give None.
 * `Test` is the matcher without the `m`, `s` and `u` flags; case folding is a parameter.
 */
module Regex {
  import opened Text

  datatype Atom = Dot | Char(c: char)

  datatype Term = Start | End | One(atom: Atom) | Star(atom: Atom)

  predicate IsSyntax(c: char) {
    c in "^$\\.*+?()[]{}|"
  }

  predicate IsLineTerminator(c: char) {
    c == '\n' || c == '\r' || c == '\U{2028}' || c == '\U{2029}'
  }

  // ---------------------------------------------------------------- reading a pattern text

  /** One atom and the rest of the text. */
  function ReadAtom(s: string): (r: Option<(Atom, string)>)
    ensures r.Some? ==> |r.value.1| < |s|
  {
    if s == "" then None
    else if s[0] == '\\' then
      if |s| >= 2 && IsSyntax(s[1]) then Some((Char(s[1]), s[2..])) else None
    else if s[0] == '.' then Some((Dot, s[1..]))
    else if IsSyntax(s[0]) then None
    else Some((Char(s[0]), s[1..]))
  }

  function Cons(t: Term, terms: Option<seq<Term>>): Option<seq<Term>> {
    if terms.None? then None else Some([t] + terms.value)
  }

  function Parse(s: string): Option<seq<Term>>
    decreases |s|
  {
    if s == "" then Some([])
    else if s[0] == '^' then Cons(Start, Parse(s[1..]))
    else if s[0] == '$' then Cons(End, Parse(s[1..]))
    else
      match ReadAtom(s)
      case None => None
      case Some((atom, rest)) =>
        if rest != "" && rest[0] == '*' then Cons(Star(atom), Parse(rest[1..])) else Cons(One(atom), Parse(rest))
  }

  // ---------------------------------------------------------------- matching

  predicate Eats(atom: Atom, c: char, fold: char -> char) {
    match atom
    case Dot => !IsLineTerminator(c)
    case Char(p) => fold(p) == fold(c)
  }

  /** Some match of the terms starts at place i. */
  predicate Accepts(terms: seq<Term>, s: string, i: nat, fold: char -> char)
    requires i <= |s|
    decreases |terms|, |s| - i
  {
    if terms == [] then true
    else
      match terms[0]
      case Start => i == 0 && Accepts(terms[1..], s, i, fold)
      case End => i == |s| && Accepts(terms[1..], s, i, fold)
      case One(atom) => i < |s| && Eats(atom, s[i], fold) && Accepts(terms[1..], s, i + 1, fold)
      case Star(atom) =>
        || Accepts(terms[1..], s, i, fold)
        || (i < |s| && Eats(atom, s[i], fold) && Accepts(terms, s, i + 1, fold))
  }

  /** `new RegExp(pattern, 'i').test(s)`; a pattern that is not understood matches nothing. */
  predicate Test(pattern: string, s: string, fold: char -> char) {
    Parse(pattern).Some? && exists i :: 0 <= i <= |s| && Accepts(Parse(pattern).value, s, i, fold)
  }

  lemma ParseAtom(atom: string, a: Atom, rest: string)
    requires ReadAtom(atom + rest) == Some((a, rest))
    requires atom != "" && atom[0] != '^' && atom[0] != '$'
    requires rest == "" || rest[0] != '*'
    ensures Parse(atom + rest) == Cons(One(a), Parse(rest))
  {
  }

  // ---------------------------------------------------------------- escaping

  function Escaped(c: char, special: string): string {
    if c in special then ['\\', c] else [c]
  }

  /** Puts a backslash before each character of `special`. */
  function Escape(s: string, special: string): string {
    if s == "" then "" else Escaped(s[0], special) + Escape(s[1..], special)
  }

  /** The characters that `escapeRegex` escapes. */
  const ALL_SYNTAX := ".*+?^${}()|[]\\"

  function LiteralPattern(s: string): string {
    "^" + Escape(s, ALL_SYNTAX) + "$"
  }

  function Literals(s: string): seq<Term> {
    seq(|s|, i requires 0 <= i < |s| => One(Char(s[i])))
  }

  lemma AllSyntaxIsSyntax(c: char)
    ensures c in ALL_SYNTAX <==> IsSyntax(c)
  {
  }

  lemma ParseEscaped(c: char, rest: string)
    requires rest == "" || rest[0] != '*'
    ensures Parse(Escaped(c, ALL_SYNTAX) + rest) == Cons(One(Char(c)), Parse(rest))
  {
    AllSyntaxIsSyntax(c);
    var atom := Escaped(c, ALL_SYNTAX);
    assert (atom + rest)[|atom|..] == rest;
    ParseAtom(atom, Char(c), rest);
  }

  lemma {:induction false} EscapeParses(s: string)
    ensures Parse(Escape(s, ALL_SYNTAX) + "$") == Some(Literals(s) + [End])
    ensures Escape(s, ALL_SYNTAX) == "" || Escape(s, ALL_SYNTAX)[0] != '*'
  {
    if s == "" {
      ParseEnd();
      assert "" + "$" == "$" && Literals("") + [End] == [End];
    } else {
      var rest := Escape(s[1..], ALL_SYNTAX) + "$";
      EscapeParses(s[1..]);
      ParseEscaped(s[0], rest);
      assert Escape(s, ALL_SYNTAX) + "$" == Escaped(s[0], ALL_SYNTAX) + rest;
      assert Literals(s) + [End] == [One(Char(s[0]))] + (Literals(s[1..]) + [End]);
    }
  }

  lemma ParseEnd()
    ensures Parse("$") == Some([End])
  {
    var text := "$";
    assert text[1..] == "";
    assert Parse(text) == Cons(End, Parse(""));
    assert [End] + [] == [End];
  }

  /** Equal up to the case folding, character by character. */
  predicate SameFolded(a: string, b: string, fold: char -> char) {
    |a| == |b| && forall i :: 0 <= i < |a| ==> fold(a[i]) == fold(b[i])
  }

  lemma {:induction false} LiteralsAccept(p: string, s: string, i: nat, fold: char -> char)
    requires i <= |s|
    ensures Accepts(Literals(p) + [End], s, i, fold) <==> SameFolded(p, s[i..], fold)
    decreases |p|
  {
    var terms := Literals(p) + [End];
    if p == "" {
      assert terms == [End];
      assert terms[1..] == [];
    } else {
      assert terms[0] == One(Char(p[0]));
      assert terms[1..] == Literals(p[1..]) + [End];
      if i < |s| {
        LiteralsAccept(p[1..], s, i + 1, fold);
        assert s[i..] == [s[i]] + s[i + 1..];
        assert p == [p[0]] + p[1..];
      }
    }
  }

  /** An escaped text, anchored at both ends, matches exactly itself, up to case. */
  lemma LiteralPatternMatchesItself(p: string, s: string, fold: char -> char)
    ensures Test(LiteralPattern(p), s, fold) <==> SameFolded(p, s, fold)
  {
    hide Escape, Accepts, SameFolded;
    var tail := Literals(p) + [End];
    EscapeParses(p);
    assert LiteralPattern(p) == "^" + (Escape(p, ALL_SYNTAX) + "$");
    AnchoredParse(Escape(p, ALL_SYNTAX) + "$", tail);
    AnchoredTest(LiteralPattern(p), tail, s, fold);
    LiteralsAccept(p, s, 0, fold);
    assert s[0..] == s;
  }

  lemma AnchoredParse(text: string, tail: seq<Term>)
    requires Parse(text) == Some(tail)
    ensures Parse("^" + text) == Some([Start] + tail)
  {
    assert ("^" + text)[1..] == text;
  }

  lemma AnchoredTest(pattern: string, tail: seq<Term>, s: string, fold: char -> char)
    requires Parse(pattern) == Some([Start] + tail)
    ensures Test(pattern, s, fold) <==> Accepts(tail, s, 0, fold)
  {
    hide Parse;
    assert ([Start] + tail)[1..] == tail;
    forall i: nat | i <= |s| ensures Accepts([Start] + tail, s, i, fold) <==> i == 0 && Accepts(tail, s, i, fold) {
    }
    assert Accepts([Start] + tail, s, 0, fold) <==> Accepts(tail, s, 0, fold);
  }

  // ---------------------------------------------------------------- the characters themselves

  lemma SyntaxCharIs(c: char)
    ensures IsSyntax(c) <==>
            || c == '^' || c == '$' || c == '\\' || c == '.' || c == '*' || c == '+' || c == '?' || c == '(' || c == ')'
            || c == '[' || c == ']' || c == '{' || c == '}' || c == '|'
  {
  }

  lemma LineTerminatorIs(c: char)
    ensures IsLineTerminator(c) <==> c as int == 10 || c as int == 13 || c as int == 0x2028 || c as int == 0x2029
  {
  }

  /** What is escaped, and how. */
  lemma EscapedIs(c: char)
    ensures Escaped(c, ALL_SYNTAX) ==
            if c == '^' || c == '$' || c == '\\' || c == '.' || c == '*' || c == '+' || c == '?' || c == '(' || c == ')'
               || c == '[' || c == ']' || c == '{' || c == '}' || c == '|' then "\\" + [c] else [c]
  {
    AllSyntaxIsSyntax(c);
    SyntaxCharIs(c);
  }

  lemma LiteralPatternIs(s: string)
    ensures LiteralPattern(s) == "^" + Escape(s, ALL_SYNTAX) + "$"
    ensures s != "" ==> Escape(s, ALL_SYNTAX) == Escaped(s[0], ALL_SYNTAX) + Escape(s[1..], ALL_SYNTAX)
  {
  }
}
