/**
 * The front end's hash routes: builders that write them and the parser that reads them.
 *
 * Percent-encoding is that of section 2.1 of RFC 3986 over UTF-8, with the characters that
 * `encodeURIComponent` leaves alone.
 */
module Router {
  import opened Text
  import opened Utf8

  datatype Route =
    | Home
    | Tasks(status: Option<string>, tasksRepoId: Option<string>)
    | TaskPage(taskId: string)
    | TaskGroups(groupsRepoId: Option<string>)
    | TaskGroupPage(groupId: string)
    | Repos
    | Repo(repoId: string, repoTab: Option<string>)
    | Archive(archiveTab: Option<string>)
    | Skills(skillsTab: Option<string>)
    | Settings(settingsTab: Option<string>)
    | Login
    | Register
    | VerifyEmail(email: Option<string>, token: Option<string>)
    | AcceptInvite(inviteEmail: Option<string>, inviteToken: Option<string>)

  const REPO_TABS := ["overview", "basic", "branches", "credentials", "env", "robots", "automation", "skills",
                      "webhooks", "members", "costs", "taskGroupTokens", "settings"]
  const ARCHIVE_TABS := ["repos", "tasks"]
  const SKILLS_TABS := ["overview", "built-in", "extra"]
  const SETTINGS_TABS := ["account", "credentials", "tools", "environment", "approvals", "costs", "settings", "logs",
                          "notifications", "preview", "webhooks", "workers"]

  // ---------------------------------------------------------------- percent-encoding

  predicate IsKept(c: char) {
    'A' <= c <= 'Z' || 'a' <= c <= 'z' || '0' <= c <= '9' || c in "-_.!~*'()"
  }

  function HexDigit(n: nat): char
    requires n < 16
  {
    "0123456789ABCDEF"[n]
  }

  function HexValue(c: char): (r: Option<nat>)
    ensures r.Some? ==> r.value < 16
  {
    if '0' <= c <= '9' then Some(c as nat - '0' as nat)
    else if 'a' <= c <= 'f' then Some(c as nat - 'a' as nat + 10)
    else if 'A' <= c <= 'F' then Some(c as nat - 'A' as nat + 10)
    else None
  }

  function EscapeByte(b: Byte): string {
    ['%', HexDigit(b / 16), HexDigit(b % 16)]
  }

  function EscapeBytes(b: seq<Byte>): string {
    if b == [] then "" else EscapeByte(b[0]) + EscapeBytes(b[1..])
  }

  function EncodeComponent(s: string): string {
    if s == "" then "" else (if IsKept(s[0]) then [s[0]] else EscapeBytes(EncodeChar(s[0]))) + EncodeComponent(s[1..])
  }

  /** The bytes that a text stands for: escaped ones, and the UTF-8 of the others. */
  function Unescape(s: string): Option<seq<Byte>>
    decreases |s|
  {
    if s == "" then Some([])
    else if s[0] != '%' then
      var rest := Unescape(s[1..]);
      if rest.None? then None else Some(EncodeChar(s[0]) + rest.value)
    else if |s| < 3 || HexValue(s[1]).None? || HexValue(s[2]).None? then None
    else
      var rest := Unescape(s[3..]);
      if rest.None? then None else Some([HexValue(s[1]).value * 16 + HexValue(s[2]).value] + rest.value)
  }

  /** `decodeURIComponent`, or the text itself when that throws. */
  function SafeDecode(s: string): string {
    var bytes := Unescape(s);
    if bytes.None? || Decode(bytes.value).None? then s else Decode(bytes.value).value
  }

  // ---------------------------------------------------------------- the parser

  function StripFirst(s: string, c: char): string {
    if s != "" && s[0] == c then s[1..] else s
  }

  function Piece(s: string, c: char, i: nat): string {
    var parts := SplitOn(s, c);
    if i < |parts| then parts[i] else ""
  }

  /** What one part of a query adds. */
  function WithPart(m: map<string, string>, part: string): map<string, string> {
    var key := SafeDecode(Trim(Piece(part, '=', 0)));
    if part == "" || key == "" then m else m[key := SafeDecode(Trim(Piece(part, '=', 1)))]
  }

  function WithParts(parts: seq<string>): map<string, string> {
    if parts == [] then map[] else WithPart(WithParts(parts[..|parts| - 1]), parts[|parts| - 1])
  }

  function QueryOf(raw: string): map<string, string> {
    var query := StripFirst(Trim(raw), '?');
    if query == "" then map[] else WithParts(SplitOn(query, '&'))
  }

  method ParseQuery(raw: string) returns (out: map<string, string>)
    ensures out == QueryOf(raw)
  {
    hide SafeDecode, Trim, Piece;
    var query := StripFirst(Trim(raw), '?');
    out := map[];
    if query == "" {
      return;
    }
    var parts := SplitOn(query, '&');
    for i := 0 to |parts|
      invariant out == WithParts(parts[..i])
    {
      assert parts[..i + 1][..i] == parts[..i];
      var part := parts[i];
      if part == "" {
        continue;
      }
      var key := SafeDecode(Trim(Piece(part, '=', 0)));
      if key == "" {
        continue;
      }
      out := out[key := SafeDecode(Trim(Piece(part, '=', 1)))];
    }
    assert parts[..|parts|] == parts;
  }

  function NonBlank(parts: seq<string>): seq<string> {
    if parts == [] then []
    else (if Trim(parts[0]) == "" then [] else [Trim(parts[0])]) + NonBlank(parts[1..])
  }

  function Get(m: map<string, string>, key: string): Option<string> {
    if key in m then Some(m[key]) else None
  }

  function NonEmpty(v: Option<string>): Option<string> {
    if v == Some("") then None else v
  }

  function TabOf(parts: seq<string>, i: nat, tabs: seq<string>): Option<string> {
    if i < |parts| && parts[i] in tabs then Some(parts[i]) else None
  }

  function RouteOf(parts: seq<string>, query: map<string, string>): Route {
    if parts == [] then Home
    else if parts[0] == "tasks" then
      if |parts| == 2 then TaskPage(parts[1]) else Tasks(Get(query, "status"), NonEmpty(Get(query, "repoId")))
    else if parts[0] == "task-groups" then
      if |parts| == 2 then TaskGroupPage(parts[1]) else TaskGroups(NonEmpty(Get(query, "repoId")))
    else if parts[0] == "repos" then
      if |parts| >= 2 then Repo(parts[1], TabOf(parts, 2, REPO_TABS)) else Repos
    else if parts[0] == "archive" then
      var tab := TabOf(parts, 1, ARCHIVE_TABS);
      Archive(if tab.Some? then tab else if "tab" in query && query["tab"] in ARCHIVE_TABS then Some(query["tab"]) else None)
    else if parts[0] == "skills" then Skills(TabOf(parts, 1, SKILLS_TABS))
    else if parts[0] == "settings" then Settings(TabOf(parts, 1, SETTINGS_TABS))
    else if parts[0] == "login" then Login
    else if parts[0] == "register" then Register
    else if parts[0] == "verify-email" then VerifyEmail(Get(query, "email"), Get(query, "token"))
    else if parts[0] == "accept-invite" then AcceptInvite(Get(query, "email"), Get(query, "token"))
    else Home
  }

  function ParseRoute(hash: string): Route {
    var raw := StripFirst(hash, '#');
    RouteOf(NonBlank(SplitOn(Piece(raw, '?', 0), '/')), QueryOf(Piece(raw, '?', 1)))
  }

  // ---------------------------------------------------------------- the builders

  function QueryPart(key: string, value: string): seq<string> {
    if Trim(value) == "" then [] else [key + "=" + EncodeComponent(Trim(value))]
  }

  function WithQuery(path: string, parts: seq<string>): string {
    if parts == [] then path else path + "?" + Join(parts, "&")
  }

  function BuildVerifyEmail(email: string, token: string): string {
    WithQuery("#/verify-email", QueryPart("email", email) + QueryPart("token", token))
  }

  function BuildAcceptInvite(email: string, token: string): string {
    WithQuery("#/accept-invite", QueryPart("email", email) + QueryPart("token", token))
  }

  function BuildTasks(status: string, repoId: string): string {
    WithQuery("#/tasks", QueryPart("status", status) + QueryPart("repoId", repoId))
  }

  function BuildTaskGroups(repoId: string): string {
    WithQuery("#/task-groups", QueryPart("repoId", repoId))
  }

  function BuildTask(taskId: string): string {
    "#/tasks/" + EncodeComponent(taskId)
  }

  function BuildTaskGroup(groupId: string): string {
    "#/task-groups/" + EncodeComponent(groupId)
  }

  function WithTab(base: string, tab: Option<string>): string {
    if tab.None? then base else base + "/" + tab.value
  }

  function BuildRepo(repoId: string, tab: Option<string>): string {
    WithTab("#/repos/" + EncodeComponent(repoId), tab)
  }

  // ---------------------------------------------------------------- encoding and decoding

  lemma HexRoundTrip(b: Byte)
    ensures HexValue(HexDigit(b / 16)) == Some(b / 16) && HexValue(HexDigit(b % 16)) == Some(b % 16)
  {
    hide HexDigit, HexValue;
    DigitRoundTrip(b / 16);
    DigitRoundTrip(b % 16);
  }

  lemma DigitRoundTrip(n: nat)
    requires n < 16
    ensures HexValue(HexDigit(n)) == Some(n)
  {
  }

  lemma UnescapeOne(b: Byte, tail: string)
    requires Unescape(tail).Some?
    ensures Unescape(EscapeByte(b) + tail) == Some([b] + Unescape(tail).value)
  {
    hide HexDigit, HexValue, EncodeChar;
    HexRoundTrip(b);
    var t := EscapeByte(b) + tail;
    assert t[0] == '%' && t[1] == HexDigit(b / 16) && t[2] == HexDigit(b % 16);
    assert t[3..] == tail;
    assert b / 16 * 16 + b % 16 == b;
  }

  lemma {:induction false} UnescapeBytes(b: seq<Byte>, rest: string)
    requires Unescape(rest).Some?
    ensures Unescape(EscapeBytes(b) + rest) == Some(b + Unescape(rest).value)
  {
    hide EscapeByte, Unescape;
    if b == [] {
      assert EscapeBytes(b) + rest == rest && b + Unescape(rest).value == Unescape(rest).value;
    } else {
      var tail := EscapeBytes(b[1..]) + rest;
      UnescapeBytes(b[1..], rest);
      UnescapeOne(b[0], tail);
      assert EscapeBytes(b) + rest == EscapeByte(b[0]) + tail;
      assert [b[0]] + (b[1..] + Unescape(rest).value) == b + Unescape(rest).value;
    }
  }

  lemma {:induction false} UnescapeEncoded(s: string)
    ensures Unescape(EncodeComponent(s)) == Some(Encode(s))
  {
    hide EncodeChar, EscapeBytes;
    if s != "" {
      UnescapeEncoded(s[1..]);
      if IsKept(s[0]) {
        assert ([s[0]] + EncodeComponent(s[1..]))[1..] == EncodeComponent(s[1..]);
      } else {
        UnescapeBytes(EncodeChar(s[0]), EncodeComponent(s[1..]));
      }
    }
  }

  /** Decoding undoes encoding, for every text. */
  lemma DecodeEncoded(s: string)
    ensures SafeDecode(EncodeComponent(s)) == s
  {
    hide Unescape, EncodeComponent, Encode, Decode;
    UnescapeEncoded(s);
    RoundTrip(s);
  }

  /** What an encoded text is made of: none of the characters that the routes use. */
  predicate IsEncodedChar(c: char) {
    IsKept(c) || c == '%'
  }

  predicate AllEncoded(s: string) {
    forall i :: 0 <= i < |s| ==> IsEncodedChar(s[i])
  }

  lemma {:induction false} EscapedAlphabet(b: seq<Byte>)
    ensures AllEncoded(EscapeBytes(b))
  {
    if b != [] { EscapedAlphabet(b[1..]); }
  }

  lemma {:induction false} EncodedAlphabet(s: string)
    ensures AllEncoded(EncodeComponent(s)) && (s != "" ==> EncodeComponent(s) != "")
  {
    hide EncodeChar;
    if s != "" {
      EscapedAlphabet(EncodeChar(s[0]));
      EncodedAlphabet(s[1..]);
    }
  }

  predicate AllKept(s: string) {
    forall i :: 0 <= i < |s| ==> IsKept(s[i])
  }

  lemma NothingEncoded()
    ensures EncodeComponent("") == ""
  {
  }

  /** Encoding changes nothing exactly when every character is one that it keeps. */
  lemma {:induction false} EncodeIsIdentity(s: string)
    ensures EncodeComponent(s) == s <==> AllKept(s)
  {
    hide EncodeChar, IsKept;
    if s != "" {
      EncodeIsIdentity(s[1..]);
      var rest := EncodeComponent(s[1..]);
      assert s == [s[0]] + s[1..];
      if IsKept(s[0]) {
        assert EncodeComponent(s)[1..] == rest;
      } else {
        PercentIsNotKept();
        assert EncodeComponent(s)[0] == '%';
        if s[0] == '%' {
          LongerWhenEscaped(s[1..]);
          assert |EncodeComponent(s)| > |s|;
        }
      }
    }
  }

  lemma PercentIsNotKept()
    ensures !IsKept('%') && EscapeBytes(EncodeChar('%')) == EscapeByte(37)
  {
  }

  lemma {:induction false} LongerWhenEscaped(s: string)
    ensures |EncodeComponent(s)| >= |s|
  {
    hide EncodeChar, IsKept;
    if s != "" { LongerWhenEscaped(s[1..]); }
  }

  // ---------------------------------------------------------------- paths

  /** A path segment that the parser takes as it is. */
  predicate IsSegment(s: string) {
    s != "" && Trimmed(s) && '/' !in s && '?' !in s
  }

  function Path(segments: seq<string>): string {
    if segments == [] then "" else "/" + segments[0] + Path(segments[1..])
  }

  lemma {:induction false} SplitPath(segments: seq<string>)
    requires forall i :: 0 <= i < |segments| ==> '/' !in segments[i]
    ensures SplitOn(Path(segments), '/') == [""] + segments
  {
    hide SplitOn;
    if segments == [] {
      SplitNone("", '/');
    } else {
      SplitPath(segments[1..]);
      SplitSegment(segments[0], segments[1..]);
      var tail := segments[0] + Path(segments[1..]);
      assert Path(segments) == "" + ['/'] + tail;
      SplitFirst("", tail, '/');
      assert segments == [segments[0]] + segments[1..];
    }
  }

  lemma SplitSegment(first: string, rest: seq<string>)
    requires '/' !in first && SplitOn(Path(rest), '/') == [""] + rest
    ensures SplitOn(first + Path(rest), '/') == [first] + rest
  {
    hide SplitOn;
    if rest == [] {
      SplitNone(first, '/');
      assert first + "" == first && [first] + rest == [first];
    } else {
      var tail := rest[0] + Path(rest[1..]);
      assert Path(rest) == "" + ['/'] + tail;
      SplitFirst("", tail, '/');
      assert ([""] + SplitOn(tail, '/'))[1..] == SplitOn(tail, '/') && ([""] + rest)[1..] == rest;
      SplitFirst(first, tail, '/');
      assert first + Path(rest) == first + ['/'] + tail;
    }
  }

  lemma {:induction false} NonBlankSegments(segments: seq<string>)
    requires forall i :: 0 <= i < |segments| ==> IsSegment(segments[i])
    ensures NonBlank(segments) == segments
  {
    hide Trim;
    if segments != [] {
      TrimOfTrimmed(segments[0]);
      NonBlankSegments(segments[1..]);
      assert [segments[0]] + segments[1..] == segments;
    }
  }

  lemma {:induction false} NoMarkInPath(segments: seq<string>, c: char)
    requires c != '/' && forall i :: 0 <= i < |segments| ==> c !in segments[i]
    ensures c !in Path(segments)
  {
    if segments != [] { NoMarkInPath(segments[1..], c); }
  }

  lemma StripHash(rest: string)
    ensures StripFirst("#" + rest, '#') == rest
  {
  }

  lemma NoQuery(path: string)
    requires '?' !in path
    ensures Piece(path, '?', 0) == path && Piece(path, '?', 1) == ""
  {
    hide SplitOn;
    SplitNone(path, '?');
  }

  lemma OneQuery(path: string, query: string)
    requires '?' !in path && '?' !in query
    ensures Piece(path + "?" + query, '?', 0) == path && Piece(path + "?" + query, '?', 1) == query
  {
    hide SplitOn;
    SplitFirst(path, query, '?');
    SplitNone(query, '?');
    assert path + "?" + query == path + ['?'] + query;
  }

  lemma PathIsRead(segments: seq<string>)
    requires forall i :: 0 <= i < |segments| ==> IsSegment(segments[i])
    ensures '?' !in Path(segments) && NonBlank(SplitOn(Path(segments), '/')) == segments
  {
    hide SplitOn, NonBlank, Path, Trimmed;
    NoMarkInPath(segments, '?');
    SplitPath(segments);
    NonBlankSegments(segments);
    BlankFirst(segments);
  }

  /** Blank segments do not count. */
  lemma ParseLoosePath(segments: seq<string>)
    requires forall i :: 0 <= i < |segments| ==> '/' !in segments[i] && '?' !in segments[i]
    ensures ParseRoute("#" + Path(segments)) == RouteOf(NonBlank(segments), map[])
  {
    hide RouteOf, QueryOf, SplitOn, NonBlank, Path, Piece, StripFirst;
    NoMarkInPath(segments, '?');
    SplitPath(segments);
    BlankFirst(segments);
    StripHash(Path(segments));
    NoQuery(Path(segments));
    QueryOfNothing();
  }

  lemma PathTwo(a: string, b: string)
    ensures Path([a, b]) == "/" + a + "/" + b
  {
    PathOfOne(b);
    assert [a, b][1..] == [b];
    assert "/" + a + ("/" + b) == "/" + a + "/" + b;
  }

  lemma PathThree(a: string, b: string, c: string)
    ensures Path([a, b, c]) == "/" + a + "/" + b + "/" + c
  {
    PathTwo(b, c);
    assert [a, b, c][1..] == [b, c];
    assert "/" + a + ("/" + b + "/" + c) == "/" + a + "/" + b + "/" + c;
  }

  lemma BlankSecond(page: string, rest: seq<string>)
    requires Trimmed(page) && page != ""
    ensures NonBlank([page, ""] + rest) == [page] + NonBlank(rest)
  {
    hide Trim;
    TrimOfTrimmed(page);
    TrimOfTrimmed("");
    var all := [page, ""] + rest;
    assert all[1..] == [""] + rest && ([""] + rest)[1..] == rest;
  }

  lemma EmptyId(page: string)
    requires IsSegment(page)
    ensures ParseRoute("#/" + page + "/") == RouteOf([page], map[])
  {
    hide ParseRoute, RouteOf, NonBlank, Path;
    ParseLoosePath([page, ""]);
    PathTwo(page, "");
    BlankSecond(page, []);
    BlankOfNone();
    assert [page, ""] + [] == [page, ""] && [page] + [] == [page];
    assert "#" + ("/" + page + "/" + "") == "#/" + page + "/";
  }

  lemma BlankOfNone()
    ensures NonBlank([]) == []
  {
  }

  lemma EmptyIdAndTab(page: string, tab: string)
    requires IsSegment(page) && IsSegment(tab)
    ensures ParseRoute("#/" + page + "/" + "" + "/" + tab) == RouteOf([page, tab], map[])
  {
    hide ParseRoute, RouteOf, NonBlank, Path;
    ParseLoosePath([page, "", tab]);
    PathThree(page, "", tab);
    BlankSecond(page, [tab]);
    NonBlankSegments([tab]);
    assert [page, ""] + [tab] == [page, "", tab] && [page] + [tab] == [page, tab];
    assert "#" + ("/" + page + "/" + "" + "/" + tab) == "#/" + page + "/" + "" + "/" + tab;
  }

  /** The parser sees the segments of a hash without a query. */
  lemma ParsePath(segments: seq<string>)
    requires forall i :: 0 <= i < |segments| ==> IsSegment(segments[i])
    ensures ParseRoute("#" + Path(segments)) == RouteOf(segments, map[])
  {
    hide RouteOf, QueryOf, SplitOn, NonBlank, Path, Piece, StripFirst, IsSegment;
    PathIsRead(segments);
    StripHash(Path(segments));
    NoQuery(Path(segments));
    QueryOfNothing();
  }

  /** The parser sees the segments and the query of a hash that is put together from them. */
  lemma ParsePathAndQuery(segments: seq<string>, query: string)
    requires forall i :: 0 <= i < |segments| ==> IsSegment(segments[i])
    requires '?' !in query
    ensures ParseRoute("#" + (Path(segments) + "?" + query)) == RouteOf(segments, QueryOf(query))
  {
    hide RouteOf, QueryOf, SplitOn, NonBlank, Path, Piece, StripFirst, IsSegment;
    PathIsRead(segments);
    StripHash(Path(segments) + "?" + query);
    OneQuery(Path(segments), query);
  }

  lemma BlankFirst(segments: seq<string>)
    ensures NonBlank([""] + segments) == NonBlank(segments)
  {
    hide Trim;
    TrimOfTrimmed("");
    assert ([""] + segments)[1..] == segments;
  }

  lemma QueryOfNothing()
    ensures QueryOf("") == map[]
  {
    hide Trim;
    TrimOfTrimmed("");
  }

  // ---------------------------------------------------------------- queries

  /** A key of the builders. */
  predicate IsKey(key: string) {
    key != "" && forall i :: 0 <= i < |key| ==> 'a' <= key[i] <= 'z' || 'A' <= key[i] <= 'Z'
  }

  predicate Has(s: string, c: char) {
    c in s
  }

  lemma EncodedHasNoMarks(s: string)
    requires AllEncoded(s)
    ensures !Has(s, '&') && !Has(s, '=') && !Has(s, '?') && !Has(s, '/') && Trimmed(s)
  {
  }

  lemma KeyIsEncoded(key: string)
    requires IsKey(key)
    ensures AllEncoded(key) && EncodeComponent(key) == key && Trimmed(key)
  {
    hide EncodeComponent, Trimmed;
    EncodeIsIdentity(key);
    EncodedHasNoMarks(key);
  }

  lemma PartIsRead(m: map<string, string>, key: string, value: string)
    requires IsKey(key) && value != ""
    ensures WithPart(m, key + "=" + EncodeComponent(value)) == m[key := value]
  {
    hide SafeDecode, EncodeComponent, SplitOn, Trim, IsKey;
    var v := EncodeComponent(value);
    KeyIsEncoded(key);
    EncodedHasNoMarks(key);
    EncodedAlphabet(value);
    EncodedHasNoMarks(v);
    SplitFirst(key, v, '=');
    SplitNone(v, '=');
    assert key + "=" + v == key + ['='] + v;
    TrimOfTrimmed(key);
    TrimOfTrimmed(v);
    DecodeEncoded(key);
    DecodeEncoded(value);
    KeyNotEmpty(key);
  }

  lemma KeyNotEmpty(key: string)
    requires IsKey(key)
    ensures key != ""
  {
  }

  /** A list of key and value, and the map it stands for. */
  function PartsOf(pairs: seq<(string, string)>): seq<string> {
    if pairs == [] then []
    else PartsOf(pairs[..|pairs| - 1]) + [pairs[|pairs| - 1].0 + "=" + EncodeComponent(pairs[|pairs| - 1].1)]
  }

  function MapOf(pairs: seq<(string, string)>): map<string, string> {
    if pairs == [] then map[] else MapOf(pairs[..|pairs| - 1])[pairs[|pairs| - 1].0 := pairs[|pairs| - 1].1]
  }

  predicate GoodPairs(pairs: seq<(string, string)>) {
    forall i :: 0 <= i < |pairs| ==> IsKey(pairs[i].0) && pairs[i].1 != ""
  }

  lemma {:induction false} PartsAreRead(pairs: seq<(string, string)>)
    requires GoodPairs(pairs)
    ensures |PartsOf(pairs)| == |pairs| && WithParts(PartsOf(pairs)) == MapOf(pairs)
  {
    hide WithPart, EncodeComponent, IsKey;
    if pairs != [] {
      var n := |pairs| - 1;
      PartsAreRead(pairs[..n]);
      assert PartsOf(pairs)[..n] == PartsOf(pairs[..n]);
      PartIsRead(MapOf(pairs[..n]), pairs[n].0, pairs[n].1);
    }
  }

  /** What a part of a query looks like from outside. */
  predicate IsPart(s: string) {
    s != "" && 'A' <= s[0] <= 'z' && forall i :: 0 <= i < |s| ==> IsEncodedChar(s[i]) || s[i] == '='
  }

  lemma {:induction false} PartsLook(pairs: seq<(string, string)>)
    requires GoodPairs(pairs)
    ensures |PartsOf(pairs)| == |pairs| && forall i :: 0 <= i < |pairs| ==> IsPart(PartsOf(pairs)[i])
  {
    hide EncodeComponent;
    if pairs != [] {
      var n := |pairs| - 1;
      PartsLook(pairs[..n]);
      EncodedAlphabet(pairs[n].1);
    }
  }

  /** Encoded characters and the two marks that a query is written with. */
  predicate IsQueryText(s: string) {
    forall i :: 0 <= i < |s| ==> IsEncodedChar(s[i]) || s[i] == '=' || s[i] == '&'
  }

  lemma {:induction false} JoinLooks(parts: seq<string>)
    requires parts != [] && forall i :: 0 <= i < |parts| ==> IsPart(parts[i])
    ensures var q := Join(parts, "&"); q != "" && 'A' <= q[0] <= 'z' && IsQueryText(q)
  {
    hide IsEncodedChar;
    if |parts| > 1 { JoinLooks(parts[1..]); }
  }

  lemma QueryTextIsPlain(q: string)
    requires IsQueryText(q)
    ensures '?' !in q && Trimmed(q)
  {
  }

  lemma NoAmpersand(s: string)
    requires IsPart(s)
    ensures '&' !in s
  {
  }

  /** Reading a query that the builders wrote gives back its keys and values. */
  lemma QueryIsRead(pairs: seq<(string, string)>)
    requires GoodPairs(pairs) && pairs != []
    ensures '?' !in Join(PartsOf(pairs), "&")
    ensures QueryOf(Join(PartsOf(pairs), "&")) == MapOf(pairs)
  {
    hide GoodPairs, PartsOf, MapOf, WithParts, SplitOn, Trim, IsPart, Join, Trimmed, IsQueryText;
    var parts := PartsOf(pairs);
    var q := Join(parts, "&");
    PartsLook(pairs);
    PartsAreRead(pairs);
    JoinLooks(parts);
    QueryTextIsPlain(q);
    TrimOfTrimmed(q);
    forall i | 0 <= i < |parts| ensures '&' !in parts[i] {
      NoAmpersand(parts[i]);
    }
    SplitJoin(parts, '&');
  }

  // ---------------------------------------------------------------- the builders are undone

  function Pairs(key: string, value: string): seq<(string, string)> {
    if Trim(value) == "" then [] else [(key, Trim(value))]
  }

  lemma TwoParts(k1: string, v1: string, k2: string, v2: string)
    ensures PartsOf(Pairs(k1, v1) + Pairs(k2, v2)) == QueryPart(k1, v1) + QueryPart(k2, v2)
  {
    hide EncodeComponent, Trim;
    var a, b := Pairs(k1, v1), Pairs(k2, v2);
    assert PartsOf([]) == [];
    if a == [] { assert a + b == b; } else if b == [] { assert a + b == a; } else { assert (a + b)[..1] == a; }
    assert |a| == 1 ==> a[..0] == [];
    assert |b| == 1 ==> b[..0] == [];
  }

  lemma TwoKeys(k1: string, v1: string, k2: string, v2: string)
    requires k1 != k2
    ensures var m := MapOf(Pairs(k1, v1) + Pairs(k2, v2));
            && Get(m, k1) == NonEmpty(Some(Trim(v1))) && Get(m, k2) == NonEmpty(Some(Trim(v2)))
  {
    hide Trim;
    var a, b := Pairs(k1, v1), Pairs(k2, v2);
    if a == [] { assert a + b == b; } else if b == [] { assert a + b == a; } else { assert (a + b)[..1] == a; }
    assert |a| == 1 ==> a[..0] == [];
    assert |b| == 1 ==> b[..0] == [];
  }

  /** A page with a query of up to two values: each comes back trimmed, a blank one as absent. */
  lemma TwoValues(page: string, k1: string, v1: string, k2: string, v2: string) returns (m: map<string, string>)
    requires IsSegment(page) && IsKey(k1) && IsKey(k2) && k1 != k2
    ensures ParseRoute(WithQuery("#/" + page, QueryPart(k1, v1) + QueryPart(k2, v2))) == RouteOf([page], m)
    ensures Get(m, k1) == NonEmpty(Some(Trim(v1))) && Get(m, k2) == NonEmpty(Some(Trim(v2)))
    ensures forall k :: k in m ==> k == k1 || k == k2
  {
    hide ParseRoute, RouteOf, QueryOf, QueryPart, Trim, IsSegment, PartsOf, MapOf;
    var pairs := Pairs(k1, v1) + Pairs(k2, v2);
    var parts := PartsOf(pairs);
    m := MapOf(pairs);
    TwoParts(k1, v1, k2, v2);
    TwoKeys(k1, v1, k2, v2);
    MapOfKeys(pairs, k1, k2);
    PathOfOne(page);
    if pairs == [] {
      NoParts();
      ParsePath([page]);
      assert "#" + ("/" + page) == "#/" + page;
    } else {
      SomeParts(pairs);
      QueryIsRead(pairs);
      ParsePathAndQuery([page], Join(parts, "&"));
      assert "#" + ("/" + page + "?" + Join(parts, "&")) == "#/" + page + "?" + Join(parts, "&");
    }
  }

  lemma NoParts()
    ensures PartsOf([]) == [] && MapOf([]) == map[]
  {
  }

  lemma SomeParts(pairs: seq<(string, string)>)
    requires pairs != []
    ensures PartsOf(pairs) != []
  {
  }

  lemma {:induction false} MapOfKeys(pairs: seq<(string, string)>, k1: string, k2: string)
    requires forall i :: 0 <= i < |pairs| ==> pairs[i].0 == k1 || pairs[i].0 == k2
    ensures forall k :: k in MapOf(pairs) ==> k == k1 || k == k2
  {
    if pairs != [] { MapOfKeys(pairs[..|pairs| - 1], k1, k2); }
  }

  lemma PathOfOne(page: string)
    ensures Path([page]) == "/" + page
  {
    assert [page][1..] == [];
  }

  // The pages with a query.

  lemma VerifyEmailPage(m: map<string, string>)
    ensures RouteOf(["verify-email"], m) == VerifyEmail(Get(m, "email"), Get(m, "token"))
    ensures IsSegment("verify-email") && IsKey("email") && IsKey("token") && "#/verify-email" == "#/" + "verify-email"
  {
    hide Get, TabOf, NonEmpty;
  }

  lemma ParseVerifyEmail(email: string, token: string)
    ensures ParseRoute(BuildVerifyEmail(email, token)) == VerifyEmail(NonEmpty(Some(Trim(email))), NonEmpty(Some(Trim(token))))
  {
    hide ParseRoute, RouteOf, QueryPart, WithQuery, Trim, IsSegment, IsKey, Get, NonEmpty;
    VerifyEmailPage(map[]);
    var m := TwoValues("verify-email", "email", email, "token", token);
    VerifyEmailPage(m);
  }

  lemma AcceptInvitePage(m: map<string, string>)
    ensures RouteOf(["accept-invite"], m) == AcceptInvite(Get(m, "email"), Get(m, "token"))
    ensures IsSegment("accept-invite") && IsKey("email") && IsKey("token") && "#/accept-invite" == "#/" + "accept-invite"
  {
    hide Get, TabOf, NonEmpty;
  }

  lemma ParseAcceptInvite(email: string, token: string)
    ensures ParseRoute(BuildAcceptInvite(email, token)) == AcceptInvite(NonEmpty(Some(Trim(email))), NonEmpty(Some(Trim(token))))
  {
    hide ParseRoute, RouteOf, QueryPart, WithQuery, Trim, IsSegment, IsKey, Get, NonEmpty;
    AcceptInvitePage(map[]);
    var m := TwoValues("accept-invite", "email", email, "token", token);
    AcceptInvitePage(m);
  }

  lemma TasksPage(m: map<string, string>)
    ensures RouteOf(["tasks"], m) == Tasks(Get(m, "status"), NonEmpty(Get(m, "repoId")))
    ensures IsSegment("tasks") && IsKey("status") && IsKey("repoId") && "#/tasks" == "#/" + "tasks"
  {
    hide Get, TabOf, NonEmpty;
  }

  lemma NonEmptyTwice(v: Option<string>)
    ensures NonEmpty(NonEmpty(v)) == NonEmpty(v)
  {
  }

  lemma ParseTasks(status: string, repoId: string)
    ensures ParseRoute(BuildTasks(status, repoId)) == Tasks(NonEmpty(Some(Trim(status))), NonEmpty(Some(Trim(repoId))))
  {
    hide ParseRoute, RouteOf, QueryPart, WithQuery, Trim, IsSegment, IsKey, Get, NonEmpty;
    TasksPage(map[]);
    var m := TwoValues("tasks", "status", status, "repoId", repoId);
    TasksPage(m);
    NonEmptyTwice(Some(Trim(repoId)));
  }

  lemma TaskGroupsPage(m: map<string, string>)
    ensures RouteOf(["task-groups"], m) == TaskGroups(NonEmpty(Get(m, "repoId")))
    ensures IsSegment("task-groups") && IsKey("status") && IsKey("repoId") && "#/task-groups" == "#/" + "task-groups"
  {
    hide Get, TabOf, NonEmpty;
  }

  lemma NoSecondPart(repoId: string)
    ensures QueryPart("repoId", repoId) + QueryPart("status", "") == QueryPart("repoId", repoId)
  {
    hide Trim, EncodeComponent;
    TrimOfTrimmed("");
  }

  lemma ParseTaskGroups(repoId: string)
    ensures ParseRoute(BuildTaskGroups(repoId)) == TaskGroups(NonEmpty(Some(Trim(repoId))))
  {
    hide ParseRoute, RouteOf, QueryPart, WithQuery, Trim, IsSegment, IsKey, Get, NonEmpty;
    TaskGroupsPage(map[]);
    var m := TwoValues("task-groups", "repoId", repoId, "status", "");
    TaskGroupsPage(m);
    NoSecondPart(repoId);
    NonEmptyTwice(Some(Trim(repoId)));
  }

  // The pages with an id or a tab in their path.

  lemma EncodedIsSegment(id: string)
    requires id != ""
    ensures IsSegment(EncodeComponent(id))
  {
    hide EncodeComponent, Trimmed;
    EncodedAlphabet(id);
    EncodedHasNoMarks(EncodeComponent(id));
  }

  lemma TaskPages(id: string, m: map<string, string>)
    ensures RouteOf(["tasks", id], m) == TaskPage(id) && RouteOf(["task-groups", id], m) == TaskGroupPage(id)
    ensures RouteOf(["tasks"], map[]) == Tasks(None, None) && RouteOf(["task-groups"], map[]) == TaskGroups(None)
    ensures IsSegment("tasks") && IsSegment("task-groups")
    ensures "#/tasks/" == "#/" + "tasks" + "/" && "#/task-groups/" == "#/" + "task-groups" + "/"
  {
    hide TabOf;
  }

  /** Ids in paths come back as they were written, still encoded: the same id exactly when encoding keeps it. */
  lemma ParseTask(id: string)
    ensures id != "" ==> ParseRoute(BuildTask(id)) == TaskPage(EncodeComponent(id))
    ensures id == "" ==> ParseRoute(BuildTask(id)) == Tasks(None, None)
    ensures ParseRoute(BuildTask(id)) == TaskPage(id) <==> id != "" && AllKept(id)
  {
    hide ParseRoute, RouteOf, EncodeComponent, IsSegment, AllKept, Get, NonEmpty;
    TaskPages(EncodeComponent(id), map[]);
    EncodeIsIdentity(id);
    if id == "" {
      NothingEncoded();
      EmptyId("tasks");
      assert "#/tasks/" + "" == "#/tasks/";
    } else {
      EncodedIsSegment(id);
      TwoSegments("tasks", EncodeComponent(id));
    }
  }

  lemma ParseTaskGroup(id: string)
    ensures id != "" ==> ParseRoute(BuildTaskGroup(id)) == TaskGroupPage(EncodeComponent(id))
    ensures id == "" ==> ParseRoute(BuildTaskGroup(id)) == TaskGroups(None)
    ensures ParseRoute(BuildTaskGroup(id)) == TaskGroupPage(id) <==> id != "" && AllKept(id)
  {
    hide ParseRoute, RouteOf, EncodeComponent, IsSegment, AllKept, Get, NonEmpty;
    TaskPages(EncodeComponent(id), map[]);
    EncodeIsIdentity(id);
    if id == "" {
      NothingEncoded();
      EmptyId("task-groups");
      assert "#/task-groups/" + "" == "#/task-groups/";
    } else {
      EncodedIsSegment(id);
      TwoSegments("task-groups", EncodeComponent(id));
    }
  }

  lemma TwoSegments(page: string, id: string)
    requires IsSegment(page) && IsSegment(id)
    ensures ParseRoute("#/" + page + "/" + id) == RouteOf([page, id], map[])
  {
    hide ParseRoute, RouteOf, IsSegment;
    ParsePath([page, id]);
    PathTwo(page, id);
    assert "#" + ("/" + page + "/" + id) == "#/" + page + "/" + id;
  }

  lemma ThreeSegments(page: string, id: string, tab: string)
    requires IsSegment(page) && IsSegment(id) && IsSegment(tab)
    ensures ParseRoute("#/" + page + "/" + id + "/" + tab) == RouteOf([page, id, tab], map[])
  {
    hide ParseRoute, RouteOf, IsSegment;
    ParsePath([page, id, tab]);
    PathThree(page, id, tab);
    assert "#" + ("/" + page + "/" + id + "/" + tab) == "#/" + page + "/" + id + "/" + tab;
  }

  lemma OneSegment(page: string)
    requires IsSegment(page)
    ensures ParseRoute("#/" + page) == RouteOf([page], map[])
  {
    hide ParseRoute, RouteOf, IsSegment;
    ParsePath([page]);
    PathOfOne(page);
    assert "#" + ("/" + page) == "#/" + page;
  }

  predicate IsName(s: string) {
    s != "" && forall i :: 0 <= i < |s| ==> 'a' <= s[i] <= 'z' || s[i] == '-' || s[i] == 'T' || s[i] == 'G'
  }

  lemma NameIsSegment(s: string)
    requires IsName(s)
    ensures IsSegment(s)
  {
  }

  predicate IsRepoTab(tab: string) {
    tab in REPO_TABS
  }

  lemma RepoTabIsName(tab: string)
    requires IsRepoTab(tab)
    ensures IsName(tab)
  {
  }

  lemma SettingsTabIsName(tab: string)
    requires tab in SETTINGS_TABS
    ensures IsName(tab)
  {
  }

  lemma ShortTabIsName(tab: string)
    requires tab in ARCHIVE_TABS || tab in SKILLS_TABS
    ensures IsName(tab)
  {
  }

  lemma TabFound(a: string, b: string, tab: string, tabs: seq<string>)
    requires tab in tabs
    ensures TabOf([a, tab], 1, tabs) == Some(tab) && TabOf([a, b, tab], 2, tabs) == Some(tab)
  {
  }

  lemma TabMissing(a: string, b: string, tabs: seq<string>)
    ensures TabOf([a], 1, tabs) == None && TabOf([a, b], 2, tabs) == None
  {
  }

  lemma RepoPage(parts: seq<string>)
    requires |parts| >= 2 && parts[0] == "repos"
    ensures RouteOf(parts, map[]) == Repo(parts[1], TabOf(parts, 2, REPO_TABS))
    ensures IsSegment("repos") && "#/repos/" == "#/" + "repos" + "/"
  {
    hide Get, TabOf, NonEmpty;
  }

  lemma ParseRepoTab(part: string, tab: string)
    requires IsSegment(part) && IsSegment(tab) && IsRepoTab(tab)
    ensures ParseRoute("#/repos/" + part + "/" + tab) == Repo(part, Some(tab))
  {
    hide ParseRoute, RouteOf, IsSegment, TabOf;
    RepoPage(["repos", part, tab]);
    TabFound("repos", part, tab, REPO_TABS);
    ThreeSegments("repos", part, tab);
  }

  lemma ParseRepoBase(part: string)
    requires IsSegment(part)
    ensures ParseRoute("#/repos/" + part) == Repo(part, None)
  {
    hide ParseRoute, RouteOf, IsSegment, TabOf;
    RepoPage(["repos", part]);
    TabMissing("repos", part, REPO_TABS);
    TwoSegments("repos", part);
  }

  lemma BuildRepoIs(id: string, tab: Option<string>)
    ensures tab.Some? ==> BuildRepo(id, tab) == "#/repos/" + EncodeComponent(id) + "/" + tab.value
    ensures tab.None? ==> BuildRepo(id, tab) == "#/repos/" + EncodeComponent(id)
  {
    hide EncodeComponent;
  }

  lemma ParseRepoEmpty(tab: Option<string>)
    requires tab.Some? ==> IsSegment(tab.value)
    ensures tab.Some? ==> ParseRoute("#/repos/" + "" + "/" + tab.value) == Repo(tab.value, None)
    ensures tab.None? ==> ParseRoute("#/repos/" + "") == Repos
  {
    hide ParseRoute, RouteOf, IsSegment, TabOf;
    RepoPage(["repos", ""]);
    if tab.Some? {
      EmptyIdAndTab("repos", tab.value);
      RepoPage(["repos", tab.value]);
      TabMissing("repos", tab.value, REPO_TABS);
      assert "#/repos/" + "" + "/" + tab.value == "#/" + "repos" + "/" + "" + "/" + tab.value;
    } else {
      EmptyId("repos");
      ReposPage();
      assert "#/repos/" + "" == "#/" + "repos" + "/";
    }
  }

  lemma ReposPage()
    ensures RouteOf(["repos"], map[]) == Repos
  {
  }

  lemma ParseRepo(id: string, tab: Option<string>)
    requires tab.Some? ==> IsRepoTab(tab.value)
    ensures id != "" ==> ParseRoute(BuildRepo(id, tab)) == Repo(EncodeComponent(id), tab)
    ensures ParseRoute(BuildRepo(id, tab)) == Repo(id, tab) <==> id != "" && AllKept(id)
  {
    hide ParseRoute, BuildRepo, IsRepoTab, EncodeComponent, AllKept, IsSegment, IsName;
    EncodeIsIdentity(id);
    BuildRepoIs(id, tab);
    if tab.Some? {
      RepoTabIsName(tab.value);
      NameIsSegment(tab.value);
    }
    if id == "" {
      NothingEncoded();
      ParseRepoEmpty(tab);
      if tab.Some? { NameIsNotEmpty(tab.value); }
    } else {
      EncodedIsSegment(id);
      if tab.Some? {
        ParseRepoTab(EncodeComponent(id), tab.value);
      } else {
        ParseRepoBase(EncodeComponent(id));
      }
    }
  }

  lemma NameIsNotEmpty(s: string)
    requires IsName(s)
    ensures s != ""
  {
  }

  lemma TabPages(parts: seq<string>)
    requires parts != []
    ensures parts[0] == "archive" && TabOf(parts, 1, ARCHIVE_TABS).Some? ==>
              RouteOf(parts, map[]) == Archive(TabOf(parts, 1, ARCHIVE_TABS))
    ensures parts[0] == "archive" && TabOf(parts, 1, ARCHIVE_TABS).None? ==> RouteOf(parts, map[]) == Archive(None)
    ensures parts[0] == "skills" ==> RouteOf(parts, map[]) == Skills(TabOf(parts, 1, SKILLS_TABS))
    ensures parts[0] == "settings" ==> RouteOf(parts, map[]) == Settings(TabOf(parts, 1, SETTINGS_TABS))
  {
    hide Get, TabOf, NonEmpty;
  }

  lemma TabPageNames()
    ensures IsSegment("archive") && IsSegment("skills") && IsSegment("settings")
    ensures "#/archive" == "#/" + "archive" && "#/skills" == "#/" + "skills" && "#/settings" == "#/" + "settings"
  {
  }

  /** A page whose tab, when there is one, is among its tabs. */
  lemma ParseTab(page: string, tab: Option<string>, tabs: seq<string>)
    requires IsSegment(page) && (tab.Some? ==> IsSegment(tab.value) && tab.value in tabs)
    ensures exists parts :: parts != [] && parts[0] == page && TabOf(parts, 1, tabs) == tab
              && ParseRoute(WithTab("#/" + page, tab)) == RouteOf(parts, map[])
  {
    hide ParseRoute, RouteOf, IsSegment, TabOf;
    if tab.Some? {
      TabFound(page, "", tab.value, tabs);
      TwoSegments(page, tab.value);
      var parts := [page, tab.value];
      assert parts[0] == page;
    } else {
      TabMissing(page, "", tabs);
      OneSegment(page);
      var parts := [page];
      assert parts[0] == page;
    }
  }

  lemma ParseArchive(tab: Option<string>)
    requires tab.Some? ==> tab.value in ARCHIVE_TABS
    ensures ParseRoute(WithTab("#/archive", tab)) == Archive(tab)
  {
    hide ParseRoute, RouteOf, IsSegment, IsName, TabOf, WithTab;
    TabPageNames();
    if tab.Some? { ShortTabIsName(tab.value); NameIsSegment(tab.value); }
    ParseTab("archive", tab, ARCHIVE_TABS);
    var parts :| parts != [] && parts[0] == "archive" && TabOf(parts, 1, ARCHIVE_TABS) == tab
                 && ParseRoute(WithTab("#/archive", tab)) == RouteOf(parts, map[]);
    TabPages(parts);
  }

  lemma ParseSkills(tab: Option<string>)
    requires tab.Some? ==> tab.value in SKILLS_TABS
    ensures ParseRoute(WithTab("#/skills", tab)) == Skills(tab)
  {
    hide ParseRoute, RouteOf, IsSegment, IsName, TabOf, WithTab;
    TabPageNames();
    if tab.Some? { ShortTabIsName(tab.value); NameIsSegment(tab.value); }
    ParseTab("skills", tab, SKILLS_TABS);
    var parts :| parts != [] && parts[0] == "skills" && TabOf(parts, 1, SKILLS_TABS) == tab
                 && ParseRoute(WithTab("#/skills", tab)) == RouteOf(parts, map[]);
    TabPages(parts);
  }

  lemma ParseSettings(tab: Option<string>)
    requires tab.Some? ==> tab.value in SETTINGS_TABS
    ensures ParseRoute(WithTab("#/settings", tab)) == Settings(tab)
  {
    hide ParseRoute, RouteOf, IsSegment, IsName, TabOf, WithTab;
    TabPageNames();
    if tab.Some? { SettingsTabIsName(tab.value); NameIsSegment(tab.value); }
    ParseTab("settings", tab, SETTINGS_TABS);
    var parts :| parts != [] && parts[0] == "settings" && TabOf(parts, 1, SETTINGS_TABS) == tab
                 && ParseRoute(WithTab("#/settings", tab)) == RouteOf(parts, map[]);
    TabPages(parts);
  }
}
