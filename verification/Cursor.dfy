/**
 * Page cursors on the wire: a JSON record in base64url, checked when it comes back.
 *
 * How a time is written and read is a parameter (`Date.toISOString` and `new Date`).
 */
module Cursor {
  import opened Text
  import opened Utf8
  import opened Base64Url
  import opened Json
  import opened Token

  datatype CreatedAt = CreatedAt(id: string, createdAt: int)

  predicate IsHex(c: char) {
    '0' <= c <= '9' || 'a' <= c <= 'f' || 'A' <= c <= 'F'
  }

  /** Groups of 8, 4, 4, 4 and 12 hexadecimal digits between dashes. */
  predicate IsUuidLike(s: string) {
    |s| == 36 && forall i :: 0 <= i < 36 ==> if i in {8, 13, 18, 23} then s[i] == '-' else IsHex(s[i])
  }

  function CursorRecord(id: string, time: string): Value {
    Obj([Pair("id", Str(id)), Pair("createdAt", Str(time))])
  }

  function EncodeCursor(c: CreatedAt, toIso: int -> string): string {
    EncodeUrl(Encode(Print(CursorRecord(c.id, toIso(c.createdAt)))))
  }

  function FieldsOf(v: Value): seq<Field> {
    if v.Obj? then v.fields else []
  }

  function CheckCursor(v: Value, fromIso: string -> Option<int>): Option<CreatedAt> {
    var id, time := Trim(TextOf(Get(FieldsOf(v), "id"))), Trim(TextOf(Get(FieldsOf(v), "createdAt")));
    if id == "" || time == "" || !IsUuidLike(id) || fromIso(time).None? then None
    else Some(CreatedAt(id, fromIso(time).value))
  }

  function DecodeCursor(raw: string, fromIso: string -> Option<int>): Option<CreatedAt> {
    var bytes := DecodeUrl(Trim(raw));
    if Trim(raw) == "" || bytes.None? then None
    else
      var text := Decode(bytes.value);
      if text.None? || ParseJson(text.value).None? then None else CheckCursor(ParseJson(text.value).value, fromIso)
  }

  lemma UuidIsTrimmed(s: string)
    requires IsUuidLike(s)
    ensures s != "" && Trim(s) == s
  {
    hide Trim;
    assert IsHex(s[0]) && IsHex(s[35]);
    HexIsNotSpace(s[0]);
    HexIsNotSpace(s[35]);
    TrimOfTrimmed(s);
  }

  lemma HexIsNotSpace(c: char)
    requires IsHex(c)
    ensures !IsSpace(c)
  {
  }

  lemma EncodedIsTrimmed(b: seq<Byte>)
    requires b != []
    ensures EncodeUrl(b) != "" && Trim(EncodeUrl(b)) == EncodeUrl(b)
  {
    hide EncodeUrl, DecodeUrl, Trim;
    var s := EncodeUrl(b);
    DecodeUrlEncodeUrl(b);
    DecodeNothing();
    EncodeUrlAlphabet(b);
    UrlCharIsNotSpace(s[0]);
    UrlCharIsNotSpace(s[|s| - 1]);
    TrimOfTrimmed(s);
  }

  lemma DecodeNothing()
    ensures DecodeUrl("") == Some([])
  {
    var normalized := Swap(Swap("", '-', '+'), '_', '/');
    assert normalized + Padding(0) == "";
  }

  lemma UrlCharIsNotSpace(c: char)
    ensures IsUrlChar(c) ==> !IsSpace(c)
  {
  }

  lemma RecordFields(id: string, time: string)
    ensures var f := FieldsOf(CursorRecord(id, time)); Get(f, "id") == Some(Str(id)) && Get(f, "createdAt") == Some(Str(time))
    ensures Wf(CursorRecord(id, time)) && Encode(Print(CursorRecord(id, time))) != []
  {
    var f := FieldsOf(CursorRecord(id, time));
    assert f[..1] == [Pair("id", Str(id))];
    assert Print(CursorRecord(id, time))[0] == '{';
  }

  /** A cursor comes back, with its id trimmed, exactly when that looks like a UUID; else it is refused. */
  lemma CursorRoundTrip(c: CreatedAt, toIso: int -> string, fromIso: string -> Option<int>)
    requires fromIso(toIso(c.createdAt)) == Some(c.createdAt)
    requires toIso(c.createdAt) != "" && Trimmed(toIso(c.createdAt))
    ensures DecodeCursor(EncodeCursor(c, toIso), fromIso) == if IsUuidLike(Trim(c.id)) then Some(c.(id := Trim(c.id))) else None
    ensures DecodeCursor(EncodeCursor(c, toIso), fromIso) == Some(c) <==> IsUuidLike(c.id)
  {
    hide EncodeUrl, DecodeUrl, Encode, Decode, Print, Trim, ParseJson, Get, IsUuidLike, CursorRecord, Wf;
    var time := toIso(c.createdAt);
    var v := CursorRecord(c.id, time);
    var bytes := Encode(Print(v));
    RecordFields(c.id, time);
    EncodedIsTrimmed(bytes);
    DecodeUrlEncodeUrl(bytes);
    RoundTrip(Print(v));
    PayloadParses(v);
    TrimOfTrimmed(time);
    if IsUuidLike(c.id) { UuidIsTrimmed(c.id); }
    if IsUuidLike(Trim(c.id)) { UuidIsTrimmed(Trim(c.id)); }
  }

  /** What goes on the wire. */
  lemma EncodeCursorIs(c: CreatedAt, toIso: int -> string)
    ensures EncodeCursor(c, toIso) ==
            EncodeUrl(Encode("{" + Join(["\"id\":" + Quote(c.id), "\"createdAt\":" + Quote(toIso(c.createdAt))], ",") + "}"))
  {
    hide EncodeUrl, Encode, PrintField, Print, Quote, IsPlain;
    var f := CursorRecord(c.id, toIso(c.createdAt)).fields;
    CursorLabels();
    PlainField("id", Str(c.id), "\"id\":");
    PlainField("createdAt", Str(toIso(c.createdAt)), "\"createdAt\":");
    PrintLeaf(f[0].value);
    PrintLeaf(f[1].value);
    PrintTwo(f);
  }

  lemma CursorLabels()
    ensures IsPlain("id") && "\"id\":" == "\"" + "id" + "\":"
    ensures IsPlain("createdAt") && "\"createdAt\":" == "\"" + "createdAt" + "\":"
  {
  }

  lemma PrintTwo(f: seq<Field>)
    requires |f| == 2
    ensures Print(Obj(f)) == "{" + Join([PrintField(f[0]), PrintField(f[1])], ",") + "}"
  {
    hide PrintField, Join;
    PrintFieldsIs(f);
    assert Each(f, PrintField) == [PrintField(f[0]), PrintField(f[1])];
  }

  const HEX_DIGITS := "0123456789abcdefABCDEF"

  lemma HexIs(c: char)
    ensures IsHex(c) <==> c in HEX_DIGITS
  {
  }

  /** Which ids look like a UUID. */
  lemma UuidLikeIs(s: string)
    ensures IsUuidLike(s) <==>
            && |s| == 36 && s[8] == s[13] == s[18] == s[23] == '-'
            && (forall i :: 0 <= i < 8 || 9 <= i < 13 || 14 <= i < 18 || 19 <= i < 23 || 24 <= i < 36 ==> s[i] in HEX_DIGITS)
  {
    hide HEX_DIGITS;
    forall c { HexIs(c); }
  }
}
