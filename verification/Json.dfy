/**
 * JSON texts: the printer that the cache keys and tokens rely on, and a reader that undoes it.
 *
 * Strings are quoted as section 7 of RFC 8259 requires, with the escapes that `JSON.stringify`
 * chooses. Characters are UTF-16 code units without lone surrogates.
 */
module Json {
  import opened Text

  /** A number is the text that `JSON.stringify` gives it; fields are in the order of their insertion. */
  datatype Value =
    | Null
    | Undefined
    | Bool(b: bool)
    | Num(text: string)
    | Str(s: string)
    | Arr(items: seq<Value>)
    | Obj(fields: seq<Field>)

  datatype Pair<+T> = Pair(key: string, value: T)

  type Field = Pair<Value>

  // ---------------------------------------------------------------- strings

  function HexDigit(n: nat): char
    requires n < 16
  {
    "0123456789abcdef"[n]
  }

  function HexValue(c: char): Option<nat> {
    if '0' <= c <= '9' then Some(c as nat - '0' as nat)
    else if 'a' <= c <= 'f' then Some(c as nat - 'a' as nat + 10)
    else if 'A' <= c <= 'F' then Some(c as nat - 'A' as nat + 10)
    else None
  }

  function EscapeChar(c: char): string {
    if c == '"' then "\\\""
    else if c == '\\' then "\\\\"
    else if c == '\U{08}' then "\\b"
    else if c == '\U{0C}' then "\\f"
    else if c == '\n' then "\\n"
    else if c == '\r' then "\\r"
    else if c == '\t' then "\\t"
    else if c < ' ' then ['\\', 'u', '0', '0', HexDigit(c as nat / 16), HexDigit(c as nat % 16)]
    else [c]
  }

  function EscapeBody(s: string): string {
    if s == "" then "" else EscapeChar(s[0]) + EscapeBody(s[1..])
  }

  function Quote(s: string): string {
    "\"" + EscapeBody(s) + "\""
  }

  /** The character that a text starts with, escaped or not, and the rest. */
  function ReadChar(s: string): (r: Option<(char, string)>)
    ensures r.Some? ==> |r.value.1| < |s|
  {
    if s == "" || s[0] == '"' || s[0] < ' ' then None
    else if s[0] != '\\' then Some((s[0], s[1..]))
    else if |s| < 2 then None
    else if s[1] == '"' || s[1] == '\\' || s[1] == '/' then Some((s[1], s[2..]))
    else if s[1] == 'b' then Some(('\U{08}', s[2..]))
    else if s[1] == 'f' then Some(('\U{0C}', s[2..]))
    else if s[1] == 'n' then Some(('\n', s[2..]))
    else if s[1] == 'r' then Some(('\r', s[2..]))
    else if s[1] == 't' then Some(('\t', s[2..]))
    else if s[1] == 'u' && |s| >= 6 then
      var a, b, c, d := HexValue(s[2]), HexValue(s[3]), HexValue(s[4]), HexValue(s[5]);
      if a.None? || b.None? || c.None? || d.None? then None
      else
        var code := ((a.value * 16 + b.value) * 16 + c.value) * 16 + d.value;
        if 0xD800 <= code < 0xE000 || code >= 0x10000 then None else Some((code as char, s[6..]))
    else None
  }

  /** The rest of a string after its opening quote. */
  function ReadBody(s: string): (r: Option<(string, string)>)
    ensures r.Some? ==> |r.value.1| < |s|
    decreases |s|
  {
    if s != "" && s[0] == '"' then Some(("", s[1..]))
    else if ReadChar(s).None? then None
    else
      var (c, rest) := ReadChar(s).value;
      match ReadBody(rest)
      case None => None
      case Some((tail, end)) => Some(([c] + tail, end))
  }

  lemma HexRoundTrip(n: nat)
    requires n < 16
    ensures HexValue(HexDigit(n)) == Some(n)
  {
  }

  lemma ReadEscapedChar(c: char, rest: string)
    ensures ReadChar(EscapeChar(c) + rest) == Some((c, rest))
  {
    if c < ' ' && c !in "\U{08}\U{0C}\n\r\t" {
      ReadControl(c, rest);
    } else {
      var text := EscapeChar(c) + rest;
      assert text[|EscapeChar(c)|..] == rest;
    }
  }

  lemma ReadControl(c: char, rest: string)
    requires c < ' '
    ensures ReadChar(['\\', 'u', '0', '0', HexDigit(c as nat / 16), HexDigit(c as nat % 16)] + rest) == Some((c, rest))
  {
    hide HexDigit, HexValue;
    var text := ['\\', 'u', '0', '0', HexDigit(c as nat / 16), HexDigit(c as nat % 16)] + rest;
    assert text[6..] == rest;
    ZeroIsZero();
    HexRoundTrip(c as nat / 16);
    HexRoundTrip(c as nat % 16);
  }

  lemma ZeroIsZero()
    ensures HexValue('0') == Some(0)
  {
  }

  lemma EscapedStart(c: char, rest: string)
    ensures EscapeChar(c) != "" && (EscapeChar(c) + rest)[0] != '"'
  {
  }

  /** Reading undoes quoting, and stops at the closing quote. */
  lemma {:induction false} ReadEscapedBody(s: string, rest: string)
    ensures ReadBody(EscapeBody(s) + "\"" + rest) == Some((s, rest))
  {
    hide ReadChar, EscapeChar;
    if s == "" {
      assert (EscapeBody(s) + "\"" + rest)[1..] == rest;
    } else {
      var tail := EscapeBody(s[1..]) + "\"" + rest;
      assert EscapeBody(s) + "\"" + rest == EscapeChar(s[0]) + tail;
      ReadEscapedChar(s[0], tail);
      EscapedStart(s[0], tail);
      ReadEscapedBody(s[1..], rest);
      assert [s[0]] + s[1..] == s;
    }
  }

  // ---------------------------------------------------------------- values

  predicate IsNumText(t: string) {
    t != "" && forall c :: c in t ==> c in "0123456789+-.eE"
  }

  predicate Wf(v: Value) {
    match v
    case Num(t) => IsNumText(t)
    case Arr(items) => forall i :: 0 <= i < |items| ==> Wf(items[i])
    case Obj(fields) => forall i :: 0 <= i < |fields| ==> Wf(fields[i].value)
    case _ => true
  }

  function Print(v: Value): string
    decreases v
  {
    match v
    case Null => "null"
    case Undefined => "undefined"
    case Bool(b) => if b then "true" else "false"
    case Num(t) => t
    case Str(s) => Quote(s)
    case Arr(items) => "[" + PrintItems(items) + "]"
    case Obj(fields) => "{" + PrintFields(fields) + "}"
  }

  function PrintItems(items: seq<Value>): string
    decreases items
  {
    if items == [] then ""
    else if |items| == 1 then Print(items[0])
    else Print(items[0]) + "," + PrintItems(items[1..])
  }

  function PrintField(f: Field): string
    decreases f
  {
    Quote(f.key) + ":" + Print(f.value)
  }

  function PrintFields(fields: seq<Field>): string
    decreases fields
  {
    if fields == [] then ""
    else if |fields| == 1 then PrintField(fields[0])
    else PrintField(fields[0]) + "," + PrintFields(fields[1..])
  }

  predicate IsEnd(c: char) {
    c == ',' || c == ']' || c == '}'
  }

  /** The text up to the next place where a value can end. */
  function Word(s: string): (w: string)
    ensures w <= s
  {
    if s == "" || IsEnd(s[0]) then "" else [s[0]] + Word(s[1..])
  }

  function WordValue(w: string): Option<Value> {
    if w == "null" then Some(Null)
    else if w == "undefined" then Some(Undefined)
    else if w == "true" then Some(Bool(true))
    else if w == "false" then Some(Bool(false))
    else if IsNumText(w) then Some(Num(w))
    else None
  }

  function ReadValue(s: string): (r: Option<(Value, string)>)
    ensures r.Some? ==> |r.value.1| < |s|
    decreases |s|, 0
  {
    if s == "" then None
    else if s[0] == '"' then
      match ReadBody(s[1..])
      case None => None
      case Some((text, rest)) => Some((Str(text), rest))
    else if s[0] == '[' then
      if |s| >= 2 && s[1] == ']' then Some((Arr([]), s[2..]))
      else
        match ReadItems(s[1..])
        case None => None
        case Some((items, rest)) => Some((Arr(items), rest))
    else if s[0] == '{' then
      if |s| >= 2 && s[1] == '}' then Some((Obj([]), s[2..]))
      else
        match ReadFields(s[1..])
        case None => None
        case Some((fields, rest)) => Some((Obj(fields), rest))
    else
      var w := Word(s);
      if WordValue(w).None? then None else Some((WordValue(w).value, s[|w|..]))
  }

  /** Values up to the closing bracket, at least one. */
  function ReadItems(s: string): (r: Option<(seq<Value>, string)>)
    ensures r.Some? ==> |r.value.1| < |s|
    decreases |s|, 1
  {
    match ReadValue(s)
    case None => None
    case Some((v, rest)) =>
      if rest == "" then None
      else if rest[0] == ']' then Some(([v], rest[1..]))
      else if rest[0] != ',' then None
      else
        match ReadItems(rest[1..])
        case None => None
        case Some((more, end)) => Some(([v] + more, end))
  }

  function ReadField(s: string): (r: Option<(Field, string)>)
    ensures r.Some? ==> |r.value.1| < |s|
    decreases |s|, 1
  {
    if s == "" || s[0] != '"' then None
    else
      match ReadBody(s[1..])
      case None => None
      case Some((key, rest)) =>
        if rest == "" || rest[0] != ':' then None
        else
          match ReadValue(rest[1..])
          case None => None
          case Some((v, end)) => Some((Pair(key, v), end))
  }

  /** Fields up to the closing brace, at least one. */
  function ReadFields(s: string): (r: Option<(seq<Field>, string)>)
    ensures r.Some? ==> |r.value.1| < |s|
    decreases |s|, 2
  {
    match ReadField(s)
    case None => None
    case Some((f, rest)) =>
      if rest == "" then None
      else if rest[0] == '}' then Some(([f], rest[1..]))
      else if rest[0] != ',' then None
      else
        match ReadFields(rest[1..])
        case None => None
        case Some((more, end)) => Some(([f] + more, end))
  }

  // ---------------------------------------------------------------- reading undoes printing

  /** What may follow a value: nothing, or a character that ends it. */
  predicate Ended(rest: string) {
    rest == "" || IsEnd(rest[0])
  }

  predicate NoEnd(w: string) {
    forall c :: c in w ==> !IsEnd(c)
  }

  lemma {:induction false} WordStops(w: string, rest: string)
    requires NoEnd(w) && Ended(rest)
    ensures Word(w + rest) == w
  {
    if w == "" {
      assert w + rest == rest;
    } else {
      assert (w + rest)[1..] == w[1..] + rest;
      WordStops(w[1..], rest);
    }
  }

  lemma ReadWord(w: string, v: Value, rest: string)
    requires w != "" && w[0] !in "\"[{" && NoEnd(w) && Ended(rest) && WordValue(w) == Some(v)
    ensures ReadValue(w + rest) == Some((v, rest))
  {
    hide WordValue, Word;
    WordStops(w, rest);
    assert (w + rest)[|w|..] == rest;
  }

  lemma NumIsWord(t: string)
    requires IsNumText(t)
    ensures t[0] !in "\"[{" && NoEnd(t) && WordValue(t) == Some(Num(t))
  {
    assert t[0] in t;
  }

  lemma ReadStr(s: string, rest: string)
    ensures ReadValue(Quote(s) + rest) == Some((Str(s), rest))
  {
    hide ReadBody, EscapeBody, ReadItems, ReadFields;
    var text := Quote(s) + rest;
    assert text[1..] == EscapeBody(s) + "\"" + rest;
    ReadEscapedBody(s, rest);
  }

  /** A printed value never starts with what would close an empty list or object. */
  lemma PrintStart(v: Value, rest: string)
    requires Wf(v)
    ensures Print(v) != "" && !IsEnd((Print(v) + rest)[0]) && (Print(v) + rest)[0] == Print(v)[0]
  {
    match v
    case Num(t) => assert t[0] in t;
    case _ =>
  }

  lemma ReadArr(items: seq<Value>, text: string, rest: string)
    requires text != "" && text[0] != ']' && ReadItems(text) == Some((items, rest))
    ensures ReadValue("[" + text) == Some((Arr(items), rest))
  {
    hide ReadItems, ReadFields;
    assert ("[" + text)[1..] == text;
  }

  lemma ReadObj(fields: seq<Field>, text: string, rest: string)
    requires text != "" && text[0] != '}' && ReadFields(text) == Some((fields, rest))
    ensures ReadValue("{" + text) == Some((Obj(fields), rest))
  {
    hide ReadItems, ReadFields;
    assert ("{" + text)[1..] == text;
  }

  lemma ReadEmptyArr(rest: string)
    ensures ReadValue("[" + "" + "]" + rest) == Some((Arr([]), rest))
    ensures ReadValue("{" + "" + "}" + rest) == Some((Obj([]), rest))
  {
    assert ("[" + "" + "]" + rest)[2..] == rest;
    assert ("{" + "" + "}" + rest)[2..] == rest;
  }

  /** Every printed value is read back whole, and nothing after it is touched. */
  lemma {:induction false} ReadPrint(v: Value, rest: string)
    requires Wf(v) && Ended(rest)
    ensures ReadValue(Print(v) + rest) == Some((v, rest))
    decreases v
  {
    hide ReadValue, Word, WordValue, Quote, PrintItems, PrintFields;
    match v
    case Null => NullIsWord(); ReadWord("null", Null, rest);
    case Undefined => NullIsWord(); ReadWord("undefined", Undefined, rest);
    case Bool(b) => BoolIsWord(b); ReadWord(Print(v), v, rest);
    case Num(t) => NumIsWord(t); ReadWord(t, v, rest);
    case Str(s) => ReadStr(s, rest);
    case Arr(items) => ReadPrintArr(items, rest);
    case Obj(fields) => ReadPrintObj(fields, rest);
  }

  lemma NullIsWord()
    ensures NoEnd("null") && NoEnd("undefined") && WordValue("null") == Some(Null) && WordValue("undefined") == Some(Undefined)
  {
  }

  lemma BoolIsWord(b: bool)
    ensures NoEnd(Print(Bool(b))) && WordValue(Print(Bool(b))) == Some(Bool(b))
  {
  }

  lemma {:induction false} ReadPrintArr(items: seq<Value>, rest: string)
    requires Wf(Arr(items)) && Ended(rest)
    ensures ReadValue(Print(Arr(items)) + rest) == Some((Arr(items), rest))
    decreases items, 1
  {
    hide ReadValue, ReadItems, Ended;
    if items == [] {
      ReadEmptyArr(rest);
    } else {
      var text := PrintItems(items) + "]" + rest;
      ReadPrintItems(items, rest);
      assert text[0] != ']' by { ItemsStart(items, rest); }
      ReadArr(items, text, rest);
      assert Print(Arr(items)) + rest == "[" + text;
    }
  }

  lemma ItemsStart(items: seq<Value>, rest: string)
    requires Wf(Arr(items)) && items != []
    ensures var text := PrintItems(items) + "]" + rest; text != "" && text[0] != ']'
  {
    PrintStart(items[0], "");
  }

  lemma {:induction false} ReadPrintItems(items: seq<Value>, rest: string)
    requires Wf(Arr(items)) && items != []
    ensures ReadItems(PrintItems(items) + "]" + rest) == Some((items, rest))
    decreases items, 0
  {
    hide ReadValue, Print;
    if |items| == 1 {
      var tail := "]" + rest;
      assert PrintItems(items) + "]" + rest == Print(items[0]) + tail;
      ReadPrint(items[0], tail);
      assert tail[1..] == rest && items == [items[0]];
    } else {
      var more := PrintItems(items[1..]) + "]" + rest;
      var tail := "," + more;
      assert PrintItems(items) + "]" + rest == Print(items[0]) + tail;
      ReadPrint(items[0], tail);
      assert tail[1..] == more;
      ReadPrintItems(items[1..], rest);
      assert items == [items[0]] + items[1..];
    }
  }

  lemma {:induction false} ReadPrintObj(fields: seq<Field>, rest: string)
    requires Wf(Obj(fields)) && Ended(rest)
    ensures ReadValue(Print(Obj(fields)) + rest) == Some((Obj(fields), rest))
    decreases fields, 1
  {
    hide ReadValue, ReadFields, Ended, PrintField;
    if fields == [] {
      ReadEmptyArr(rest);
    } else {
      var text := PrintFields(fields) + "}" + rest;
      ReadPrintFields(fields, rest);
      assert text != "" && text[0] != '}' by { FieldsStart(fields, rest); }
      ReadObj(fields, text, rest);
      assert Print(Obj(fields)) + rest == "{" + text;
    }
  }

  lemma FieldsStart(fields: seq<Field>, rest: string)
    requires fields != []
    ensures var text := PrintFields(fields) + "}" + rest; text != "" && text[0] != '}'
  {
    hide EscapeBody, Print;
  }

  lemma {:induction false} ReadPrintFields(fields: seq<Field>, rest: string)
    requires Wf(Obj(fields)) && fields != []
    ensures ReadFields(PrintFields(fields) + "}" + rest) == Some((fields, rest))
    decreases fields, 0
  {
    hide ReadField, PrintField;
    if |fields| == 1 {
      var tail := "}" + rest;
      assert PrintFields(fields) + "}" + rest == PrintField(fields[0]) + tail;
      ReadPrintField(fields[0], tail);
      assert tail[1..] == rest && fields == [fields[0]];
    } else {
      var more := PrintFields(fields[1..]) + "}" + rest;
      var tail := "," + more;
      assert PrintFields(fields) + "}" + rest == PrintField(fields[0]) + tail;
      ReadPrintField(fields[0], tail);
      assert tail[1..] == more;
      ReadPrintFields(fields[1..], rest);
      assert fields == [fields[0]] + fields[1..];
    }
  }

  lemma {:induction false} ReadPrintField(f: Field, rest: string)
    requires Wf(f.value) && Ended(rest)
    ensures ReadField(PrintField(f) + rest) == Some((f, rest))
    decreases f
  {
    hide ReadValue, ReadBody, EscapeBody, Print, Ended;
    var tail := ":" + Print(f.value) + rest;
    var text := PrintField(f) + rest;
    assert text[1..] == EscapeBody(f.key) + "\"" + tail;
    ReadEscapedBody(f.key, tail);
    assert tail[1..] == Print(f.value) + rest;
    ReadPrint(f.value, rest);
  }

  /** Different values have different texts, and no text of a value begins another one's. */
  lemma PrintIsInjective(v: Value, w: Value, r: string, s: string)
    requires Wf(v) && Wf(w) && Ended(r) && Ended(s)
    ensures Print(v) + r == Print(w) + s <==> v == w && r == s
  {
    hide *;
    ReadPrint(v, r);
    ReadPrint(w, s);
  }

  // ---------------------------------------------------------------- the texts themselves

  /** Which character is escaped, and how: section 7 of RFC 8259 as `JSON.stringify` applies it. */
  lemma EscapeCharIs(c: char)
    ensures var n := c as int;
            && (n == 0x22 ==> EscapeChar(c) == "\\\"") && (n == 0x5C ==> EscapeChar(c) == "\\\\")
            && (n == 8 ==> EscapeChar(c) == "\\b") && (n == 9 ==> EscapeChar(c) == "\\t") && (n == 10 ==> EscapeChar(c) == "\\n")
            && (n == 12 ==> EscapeChar(c) == "\\f") && (n == 13 ==> EscapeChar(c) == "\\r")
            && (n < 0x20 && n !in {8, 9, 10, 12, 13} ==>
                  EscapeChar(c) == "\\u00" + ["0123456789abcdef"[n / 16], "0123456789abcdef"[n % 16]])
            && (n >= 0x20 && n !in {0x22, 0x5C} ==> EscapeChar(c) == [c])
  {
  }

  function Each<T>(items: seq<T>, text: T -> string): (r: seq<string>) {
    seq(|items|, i requires 0 <= i < |items| => text(items[i]))
  }

  lemma {:induction false} PrintItemsIs(items: seq<Value>)
    ensures PrintItems(items) == Join(Each(items, Print), ",")
  {
    hide Print;
    var texts := Each(items, Print);
    if |items| > 1 {
      PrintItemsIs(items[1..]);
      assert texts[1..] == Each(items[1..], Print);
    }
  }

  lemma {:induction false} PrintFieldsIs(fields: seq<Field>)
    ensures PrintFields(fields) == Join(Each(fields, PrintField), ",")
  {
    hide PrintField;
    var texts := Each(fields, PrintField);
    if |fields| > 1 {
      PrintFieldsIs(fields[1..]);
      assert texts[1..] == Each(fields[1..], PrintField);
    }
  }

  lemma PrintLeaf(v: Value)
    ensures v.Num? ==> Print(v) == v.text
    ensures v.Str? ==> Print(v) == Quote(v.s)
  {
  }

  /** The text of each kind of value. */
  lemma PrintIs(v: Value)
    ensures v.Null? ==> Print(v) == "null"
    ensures v.Undefined? ==> Print(v) == "undefined"
    ensures v.Bool? ==> Print(v) == if v.b then "true" else "false"
    ensures v.Num? ==> Print(v) == v.text
    ensures v.Str? ==> Print(v) == "\"" + EscapeBody(v.s) + "\""
    ensures v.Arr? ==> Print(v) == "[" + Join(Each(v.items, Print), ",") + "]"
    ensures v.Obj? ==>
              Print(v) == "{" + Join(Each(v.fields, (f: Field) => "\"" + EscapeBody(f.key) + "\":" + Print(f.value)), ",") + "}"
  {
    hide EscapeBody;
    match v
    case Arr(items) => PrintItemsIs(items);
    case Obj(fields) =>
      PrintFieldsIs(fields);
      FieldTexts(fields);
    case _ =>
  }

  lemma FieldTexts(fields: seq<Field>)
    ensures Each(fields, PrintField)
            == Each(fields, (f: Field) => "\"" + EscapeBody(f.key) + "\":" + Print(f.value))
  {
    hide Print, EscapeBody;
    forall i | 0 <= i < |fields|
      ensures PrintField(fields[i]) == "\"" + EscapeBody(fields[i].key) + "\":" + Print(fields[i].value)
    {
    }
  }

  predicate IsPlain(key: string) {
    forall i :: 0 <= i < |key| ==> 'A' <= key[i] <= 'z' && key[i] != '\\'
  }

  lemma {:induction false} PlainBody(key: string)
    requires IsPlain(key)
    ensures EscapeBody(key) == key
  {
    if key != "" { PlainBody(key[1..]); }
  }

  /** A key of letters stands before its value as it is. */
  lemma PlainField(key: string, v: Value, lead: string)
    requires IsPlain(key) && lead == "\"" + key + "\":"
    ensures PrintField(Pair(key, v)) == lead + Print(v)
  {
    hide Print, EscapeBody, IsPlain;
    PlainBody(key);
  }

  lemma {:induction false} EscapeBodyIs(s: string)
    ensures EscapeBody(s) == Join(Each(s, EscapeChar), "")
  {
    hide EscapeChar;
    var texts := Each(s, EscapeChar);
    if s != "" {
      EscapeBodyIs(s[1..]);
      assert texts[1..] == Each(s[1..], EscapeChar);
      if |s| == 1 { assert texts[0] + "" == texts[0]; }
    }
  }
}
