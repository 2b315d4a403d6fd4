/**
 * Login tokens: a signed JSON payload, both parts in base64url.
 *
 * The keyed hash is a parameter; the payload goes through the real printer, UTF-8, base64url and
 * the readers that undo them.
 */
module Token {
  import opened Text
  import opened Utf8
  import opened Base64Url
  import opened Json

  datatype Claims = Claims(sub: string, username: Option<string>, iat: nat, exp: nat)

  datatype Verdict = Accepted(claims: Claims) | BadFormat | BadSignature | BadPayload | BadExp | Expired | BadSubject

  // ---------------------------------------------------------------- whole numbers in JSON

  function DecimalDigit(n: nat): char
    requires n < 10
  {
    (n + '0' as int) as char
  }

  function Decimal(n: nat): string {
    if n < 10 then [DecimalDigit(n)] else Decimal(n / 10) + [DecimalDigit(n % 10)]
  }

  /** The value of a text of digits; other number texts do not occur in tokens. */
  function DecimalValue(s: string): Option<nat> {
    if s == "" then None
    else
      var last := s[|s| - 1];
      if !('0' <= last <= '9') then None
      else if |s| == 1 then Some(last as int - '0' as int)
      else
        var front := DecimalValue(s[..|s| - 1]);
        if front.None? then None else Some(front.value * 10 + (last as int - '0' as int))
  }

  lemma {:induction false} DecimalRoundTrip(n: nat)
    ensures DecimalValue(Decimal(n)) == Some(n) && IsNumText(Decimal(n))
  {
    if n >= 10 {
      DecimalRoundTrip(n / 10);
      assert Decimal(n)[..|Decimal(n)| - 1] == Decimal(n / 10);
    }
  }

  /** Which texts are read as numbers. */
  lemma {:induction false} DecimalReads(s: string)
    ensures DecimalValue(s).Some? <==> s != "" && forall i :: 0 <= i < |s| ==> '0' <= s[i] <= '9'
  {
    if |s| > 1 { DecimalReads(s[..|s| - 1]); }
  }

  // ---------------------------------------------------------------- issuing and verifying

  /** The URL form of the keyed hash of a payload part. */
  function Sign(hmac: string -> seq<Byte>, payload: string): string {
    EncodeUrl(hmac(payload))
  }

  function Payload(id: string, username: string, now: nat, ttl: nat): Value {
    Obj([Pair("sub", Str(id)), Pair("username", Str(username)),
         Pair("iat", Num(Decimal(now))), Pair("exp", Num(Decimal(now + ttl)))])
  }

  function Issue(hmac: string -> seq<Byte>, id: string, username: string, now: nat, ttl: nat): string {
    var payload := EncodeUrl(Encode(Print(Payload(id, username, now, ttl))));
    payload + "." + Sign(hmac, payload)
  }

  /** `JSON.parse` of a text of one value. */
  function ParseJson(s: string): Option<Value> {
    match ReadValue(s)
    case None => None
    case Some((v, rest)) => if rest == "" then Some(v) else None
  }

  /** The value of a key; a later field of the same key would win. */
  function Get(fields: seq<Field>, key: string): Option<Value> {
    if fields == [] then None
    else if fields[|fields| - 1].key == key then Some(fields[|fields| - 1].value)
    else Get(fields[..|fields| - 1], key)
  }

  function TextOf(v: Option<Value>): string {
    if v.Some? && v.value.Str? then v.value.s else ""
  }

  function NumberOf(v: Option<Value>): Option<nat> {
    if v.Some? && v.value.Num? then DecimalValue(v.value.text) else None
  }

  function CheckClaims(v: Value, now: nat): Verdict {
    if !v.Obj? then BadPayload
    else
      var exp := NumberOf(Get(v.fields, "exp"));
      if exp.None? || exp.value == 0 then BadExp
      else if now >= exp.value then Expired
      else
        var username, sub := TextOf(Get(v.fields, "username")), TextOf(Get(v.fields, "sub"));
        var iat := NumberOf(Get(v.fields, "iat"));
        if sub == "" then BadSubject
        else Accepted(Claims(sub, if username == "" then None else Some(username),
                             if iat.None? then 0 else iat.value, exp.value))
  }

  function CheckPayload(part: string, now: nat): Verdict {
    var bytes := DecodeUrl(part);
    if bytes.None? then BadPayload
    else
      var text := Decode(bytes.value);
      if text.None? || ParseJson(text.value).None? then BadPayload else CheckClaims(ParseJson(text.value).value, now)
  }

  function Verify(hmac: string -> seq<Byte>, token: string, now: nat): Verdict {
    var parts := SplitOn(token, '.');
    if |parts| != 2 then BadFormat
    else if Sign(hmac, parts[0]) != parts[1] then BadSignature
    else CheckPayload(parts[0], now)
  }

  // ---------------------------------------------------------------- what gets past the signature

  /** Exactly the payload parts that carry their own signature get past it. */
  lemma OnlySignedTokensPass(hmac: string -> seq<Byte>, token: string, now: nat)
    ensures (!Verify(hmac, token, now).BadFormat? && !Verify(hmac, token, now).BadSignature?)
            <==> exists p :: '.' !in p && token == p + "." + Sign(hmac, p)
  {
    hide CheckPayload, SplitOn, Sign;
    var parts := SplitOn(token, '.');
    SplitParts(token, '.');
    if |parts| == 2 && Sign(hmac, parts[0]) == parts[1] {
      assert token == parts[0] + "." + Sign(hmac, parts[0]);
      NotRejected(parts[0], now);
    }
    if p :| '.' !in p && token == p + "." + Sign(hmac, p) {
      SplitSigned(hmac, p);
      NotRejected(p, now);
    }
  }

  lemma NotRejected(p: string, now: nat)
    ensures !CheckPayload(p, now).BadFormat? && !CheckPayload(p, now).BadSignature?
  {
  }

  lemma SplitSigned(hmac: string -> seq<Byte>, p: string)
    requires '.' !in p
    ensures SplitOn(p + "." + Sign(hmac, p), '.') == [p, Sign(hmac, p)]
  {
    hide SplitOn, EncodeUrl;
    EncodeUrlAlphabet(hmac(p));
    SplitFirst(p, Sign(hmac, p), '.');
    SplitNone(Sign(hmac, p), '.');
  }

  // ---------------------------------------------------------------- issued tokens

  lemma PayloadIsWf(id: string, username: string, now: nat, ttl: nat)
    ensures Wf(Payload(id, username, now, ttl))
  {
    hide Decimal, DecimalValue;
    DecimalRoundTrip(now);
    DecimalRoundTrip(now + ttl);
  }

  lemma PayloadParses(v: Value)
    requires Wf(v)
    ensures ParseJson(Print(v)) == Some(v)
  {
    hide ReadValue, Print, Wf;
    ReadPrint(v, "");
    assert Print(v) + "" == Print(v);
  }

  lemma PayloadFields(id: string, username: string, now: nat, ttl: nat)
    ensures var f := Payload(id, username, now, ttl).fields;
            && Get(f, "sub") == Some(Str(id)) && Get(f, "username") == Some(Str(username))
            && Get(f, "iat") == Some(Num(Decimal(now))) && Get(f, "exp") == Some(Num(Decimal(now + ttl)))
  {
    hide Decimal;
    var f := Payload(id, username, now, ttl).fields;
    var three, two, one := f[..3], f[..2], f[..1];
    assert three[..2] == two && two[..1] == one;
    assert Get(one, "sub") == Some(Str(id));
    assert Get(two, "sub") == Some(Str(id)) && Get(two, "username") == Some(Str(username));
    assert Get(three, "sub") == Some(Str(id)) && Get(three, "username") == Some(Str(username));
  }

  /**
   * Verifying an issued token gives back what was put in, precisely while it has not expired and
   * names a user; an empty user name comes back as none.
   */
  lemma VerifyIssued(hmac: string -> seq<Byte>, id: string, username: string, issuedAt: nat, ttl: nat, now: nat)
    ensures var verdict := Verify(hmac, Issue(hmac, id, username, issuedAt, ttl), now);
            && (verdict.Accepted? <==> now < issuedAt + ttl && id != "")
            && (verdict.Accepted? ==>
                  verdict.claims == Claims(id, if username == "" then None else Some(username), issuedAt, issuedAt + ttl))
            && (issuedAt + ttl == 0 ==> verdict == BadExp)
            && (0 < issuedAt + ttl <= now ==> verdict == Expired)
            && (now < issuedAt + ttl && id == "" ==> verdict == BadSubject)
  {
    hide SplitOn, EncodeUrl, DecodeUrl, Encode, Decode, Print, Wf, Sign, ParseJson, Get, Decimal, DecimalValue, Payload;
    var v := Payload(id, username, issuedAt, ttl);
    var bytes := Encode(Print(v));
    var part := EncodeUrl(bytes);
    EncodeUrlAlphabet(bytes);
    SplitSigned(hmac, part);
    DecodeUrlEncodeUrl(bytes);
    RoundTrip(Print(v));
    PayloadIsWf(id, username, issuedAt, ttl);
    PayloadParses(v);
    PayloadFields(id, username, issuedAt, ttl);
    DecimalRoundTrip(issuedAt);
    DecimalRoundTrip(issuedAt + ttl);
    PayloadIsObj(id, username, issuedAt, ttl);
  }

  lemma PayloadIsObj(id: string, username: string, now: nat, ttl: nat)
    ensures Payload(id, username, now, ttl).Obj?
  {
  }

  /** What is signed: the text of the payload. */
  lemma PayloadText(id: string, username: string, now: nat, ttl: nat)
    ensures Print(Payload(id, username, now, ttl)) ==
            "{" + Join(["\"sub\":" + Quote(id), "\"username\":" + Quote(username), "\"iat\":" + Decimal(now),
                        "\"exp\":" + Decimal(now + ttl)], ",") + "}"
  {
    hide PrintField, Print, Quote, Decimal, IsPlain;
    var f := Payload(id, username, now, ttl).fields;
    ClaimLabels();
    PlainField("sub", Str(id), "\"sub\":");
    PlainField("username", Str(username), "\"username\":");
    PlainField("iat", Num(Decimal(now)), "\"iat\":");
    PlainField("exp", Num(Decimal(now + ttl)), "\"exp\":");
    PrintLeaf(f[0].value);
    PrintLeaf(f[1].value);
    PrintLeaf(f[2].value);
    PrintLeaf(f[3].value);
    PrintFour(f);
  }

  lemma ClaimLabels()
    ensures IsPlain("sub") && "\"sub\":" == "\"" + "sub" + "\":"
    ensures IsPlain("username") && "\"username\":" == "\"" + "username" + "\":"
    ensures IsPlain("iat") && "\"iat\":" == "\"" + "iat" + "\":"
    ensures IsPlain("exp") && "\"exp\":" == "\"" + "exp" + "\":"
  {
  }

  lemma PrintFour(f: seq<Field>)
    requires |f| == 4
    ensures Print(Obj(f)) == "{" + Join([PrintField(f[0]), PrintField(f[1]), PrintField(f[2]), PrintField(f[3])], ",") + "}"
  {
    hide PrintField, Join;
    PrintFieldsIs(f);
    assert Each(f, PrintField) == [PrintField(f[0]), PrintField(f[1]), PrintField(f[2]), PrintField(f[3])];
  }

  /** A payload that names only its subject and its end: no user name, and issued at zero. */
  lemma VerifyBare(hmac: string -> seq<Byte>, id: string, exp: nat, now: nat)
    ensures var v := Obj([Pair("sub", Str(id)), Pair("exp", Num(Decimal(exp)))]);
            var part := EncodeUrl(Encode(Print(v)));
            var verdict := Verify(hmac, part + "." + Sign(hmac, part), now);
            && (verdict.Accepted? <==> now < exp && id != "")
            && (verdict.Accepted? ==> verdict.claims == Claims(id, None, 0, exp))
  {
    hide SplitOn, EncodeUrl, DecodeUrl, Encode, Decode, Print, Wf, Sign, ParseJson, Get, Decimal, DecimalValue;
    var v := Obj([Pair("sub", Str(id)), Pair("exp", Num(Decimal(exp)))]);
    var bytes := Encode(Print(v));
    var part := EncodeUrl(bytes);
    EncodeUrlAlphabet(bytes);
    SplitSigned(hmac, part);
    DecodeUrlEncodeUrl(bytes);
    RoundTrip(Print(v));
    DecimalRoundTrip(exp);
    BareFields(id, exp);
    PayloadParses(v);
  }

  lemma BareFields(id: string, exp: nat)
    requires IsNumText(Decimal(exp))
    ensures var f := [Pair("sub", Str(id)), Pair("exp", Num(Decimal(exp)))];
            && Wf(Obj(f)) && Get(f, "sub") == Some(Str(id)) && Get(f, "exp") == Some(Num(Decimal(exp)))
            && Get(f, "username") == None && Get(f, "iat") == None
  {
    hide Decimal, IsNumText;
    var f := [Pair("sub", Str(id)), Pair("exp", Num(Decimal(exp)))];
    assert f[..1] == [f[0]] && f[..1][..0] == [];
    assert Get(f[..1], "username") == Get(f[..1][..0], "username") && Get(f[..1], "iat") == Get(f[..1][..0], "iat");
  }
}
