/** The hashes themselves: which texts the builders write, and which pages and tabs the parser knows. */
module RouterHashes {
  import opened Text
  import opened Utf8
  import opened Router

  // ---------------------------------------------------------------- percent-encoding

  const UPPER_HEX := "0123456789ABCDEF"

  lemma HexDigitIs(n: nat)
    requires n < 16
    ensures |UPPER_HEX| == 16 && HexDigit(n) == UPPER_HEX[n]
  {
  }

  lemma KeptIs(c: char)
    ensures IsKept(c) <==>
            || 'A' <= c <= 'Z' || 'a' <= c <= 'z' || '0' <= c <= '9' || c == '-' || c == '_' || c == '.' || c == '!' || c == '~'
            || c == '*' || c == '\'' || c == '(' || c == ')'
  {
  }

  function Concat(texts: seq<string>): string {
    if texts == [] then "" else texts[0] + Concat(texts[1..])
  }

  /** Character by character: kept, or a percent sign and two digits for each byte of its UTF-8. */
  lemma {:induction false} EncodeComponentIs(s: string) returns (texts: seq<string>)
    ensures EncodeComponent(s) == Concat(texts) && |texts| == |s|
    ensures forall i :: 0 <= i < |s| ==>
              if IsKept(s[i]) then texts[i] == [s[i]]
              else && |texts[i]| == 3 * |EncodeChar(s[i])|
                   && forall k :: 0 <= k < |EncodeChar(s[i])| ==>
                        && texts[i][3 * k] == '%'
                        && HexDigit(EncodeChar(s[i])[k] / 16) == texts[i][3 * k + 1]
                        && HexDigit(EncodeChar(s[i])[k] % 16) == texts[i][3 * k + 2]
  {
    hide EncodeChar, IsKept, HexDigit;
    if s == "" {
      texts := [];
    } else {
      var rest := EncodeComponentIs(s[1..]);
      EscapeBytesIs(EncodeChar(s[0]));
      texts := [if IsKept(s[0]) then [s[0]] else EscapeBytes(EncodeChar(s[0]))] + rest;
      assert texts[1..] == rest;
    }
  }

  lemma {:induction false} EscapeBytesIs(b: seq<Byte>)
    ensures |EscapeBytes(b)| == 3 * |b|
    ensures forall k :: 0 <= k < |b| ==>
              && EscapeBytes(b)[3 * k] == '%'
              && HexDigit(b[k] / 16) == EscapeBytes(b)[3 * k + 1] && HexDigit(b[k] % 16) == EscapeBytes(b)[3 * k + 2]
  {
    hide HexDigit;
    if b != [] {
      EscapeBytesIs(b[1..]);
      assert b == [b[0]] + b[1..];
    }
  }

  // ---------------------------------------------------------------- the builders

  /** A query in four cases: a blank value is left out, with its key. */
  lemma QueryTextIs(path: string, k1: string, v1: string, k2: string, v2: string)
    ensures var a, b := k1 + "=" + EncodeComponent(Trim(v1)), k2 + "=" + EncodeComponent(Trim(v2));
            WithQuery(path, QueryPart(k1, v1) + QueryPart(k2, v2)) ==
            if Trim(v1) == "" && Trim(v2) == "" then path
            else if Trim(v2) == "" then path + "?" + a
            else if Trim(v1) == "" then path + "?" + b
            else path + "?" + (a + "&" + b)
  {
    hide EncodeComponent, Trim;
    var a, b := k1 + "=" + EncodeComponent(Trim(v1)), k2 + "=" + EncodeComponent(Trim(v2));
    var parts := QueryPart(k1, v1) + QueryPart(k2, v2);
    if Trim(v1) == "" && Trim(v2) == "" {
      assert parts == [];
    } else if Trim(v2) == "" {
      assert parts == [a];
    } else if Trim(v1) == "" {
      assert parts == [b];
    } else {
      assert parts == [a, b] && parts[1..] == [b];
      assert Join([b], "&") == b;
      assert Join(parts, "&") == a + "&" + b;
    }
  }

  lemma HashesAre(a: string, b: string, tab: Option<string>)
    ensures BuildVerifyEmail(a, b) == WithQuery("#/verify-email", QueryPart("email", a) + QueryPart("token", b))
    ensures BuildAcceptInvite(a, b) == WithQuery("#/accept-invite", QueryPart("email", a) + QueryPart("token", b))
    ensures BuildTasks(a, b) == WithQuery("#/tasks", QueryPart("status", a) + QueryPart("repoId", b))
    ensures BuildTaskGroups(a) == WithQuery("#/task-groups", QueryPart("repoId", a))
    ensures BuildTask(a) == "#/tasks/" + EncodeComponent(a)
    ensures BuildTaskGroup(a) == "#/task-groups/" + EncodeComponent(a)
    ensures BuildRepo(a, None) == "#/repos/" + EncodeComponent(a)
    ensures tab.Some? ==> BuildRepo(a, tab) == "#/repos/" + EncodeComponent(a) + "/" + tab.value
  {
    hide EncodeComponent, WithQuery, QueryPart;
  }

  // ---------------------------------------------------------------- queries

  /**
   * What any query says: exactly the keys, not empty once trimmed and decoded, that stand before the
   * first equals sign of a part that is not empty; and the last such part gives the value.
   */
  lemma {:induction false} WithPartsIs(parts: seq<string>, k: string)
    ensures k in WithParts(parts) <==>
              k != "" && exists i :: 0 <= i < |parts| && parts[i] != "" && SafeDecode(Trim(Piece(parts[i], '=', 0))) == k
    ensures k in WithParts(parts) ==>
              exists i :: 0 <= i < |parts| && parts[i] != "" && SafeDecode(Trim(Piece(parts[i], '=', 0))) == k
                          && WithParts(parts)[k] == SafeDecode(Trim(Piece(parts[i], '=', 1)))
                          && forall j :: i < j < |parts| ==>
                               parts[j] == "" || SafeDecode(Trim(Piece(parts[j], '=', 0))) != k
  {
    hide SafeDecode, Trim, Piece;
    if parts != [] {
      var n := |parts| - 1;
      WithPartsIs(parts[..n], k);
      assert parts == parts[..n] + [parts[n]];
    }
  }

  /** The parts are what stands between the ampersands, behind a first question mark. */
  lemma QueryOfIs(raw: string)
    ensures var q := Trim(raw);
            var query := if q != "" && q[0] == '?' then q[1..] else q;
            QueryOf(raw) == WithParts(SplitOn(query, '&'))
  {
    hide Trim, SafeDecode, SplitOn;
    SplitNone("", '&');
    NothingAsked();
  }

  lemma NothingAsked()
    ensures WithParts([""]) == map[]
  {
    assert [""][..0] == [];
  }

  // ---------------------------------------------------------------- pages and tabs

  lemma TabsAre(tab: string)
    ensures tab in REPO_TABS <==>
            || tab == "overview" || tab == "basic" || tab == "branches" || tab == "credentials" || tab == "env" || tab == "robots"
            || tab == "automation" || tab == "skills" || tab == "webhooks" || tab == "members" || tab == "costs"
            || tab == "taskGroupTokens" || tab == "settings"
    ensures tab in ARCHIVE_TABS <==> tab == "repos" || tab == "tasks"
    ensures tab in SKILLS_TABS <==> tab == "overview" || tab == "built-in" || tab == "extra"
    ensures tab in SETTINGS_TABS <==>
            || tab == "account" || tab == "credentials" || tab == "tools" || tab == "environment" || tab == "approvals"
            || tab == "costs" || tab == "settings" || tab == "logs" || tab == "notifications" || tab == "preview"
            || tab == "webhooks" || tab == "workers"
  {
  }

  /** The pages without anything else in their hash. */
  lemma PlainPages()
    ensures ParseRoute("#/" + "login") == Login && ParseRoute("#/" + "register") == Register
    ensures ParseRoute("#/" + "repos") == Repos && ParseRoute("#/" + "chat") == Home
  {
    hide ParseRoute, RouteOf;
    PlainSegments();
    OneSegment("login");
    OneSegment("register");
    OneSegment("repos");
    OneSegment("chat");
  }

  lemma PlainSegments()
    ensures IsSegment("login") && RouteOf(["login"], map[]) == Login
    ensures IsSegment("register") && RouteOf(["register"], map[]) == Register
    ensures IsSegment("repos") && RouteOf(["repos"], map[]) == Repos
    ensures IsSegment("chat") && RouteOf(["chat"], map[]) == Home
  {
  }

  lemma NotATab(a: string, b: string, tab: string, tabs: seq<string>)
    requires tab !in tabs
    ensures TabOf([a, tab], 1, tabs) == None && TabOf([a, b, tab], 2, tabs) == None
  {
  }

  lemma RouteWithTab(a: string, b: string)
    ensures RouteOf(["skills", b], map[]) == Skills(TabOf(["skills", b], 1, SKILLS_TABS)) && IsSegment("skills")
    ensures RouteOf(["settings", b], map[]) == Settings(TabOf(["settings", b], 1, SETTINGS_TABS)) && IsSegment("settings")
    ensures TabOf(["archive", b], 1, ARCHIVE_TABS) == None ==> RouteOf(["archive", b], map[]) == Archive(None)
    ensures RouteOf(["repos", a, b], map[]) == Repo(a, TabOf(["repos", a, b], 2, REPO_TABS)) && IsSegment("repos")
    ensures IsSegment("archive")
  {
    hide TabOf;
  }

  /** A name that is none of a page's tabs is passed over. */
  lemma UnknownTabs(id: string, tab: string)
    requires IsSegment(id) && IsSegment(tab)
    ensures tab !in SKILLS_TABS ==> ParseRoute("#/" + "skills" + "/" + tab) == Skills(None)
    ensures tab !in SETTINGS_TABS ==> ParseRoute("#/" + "settings" + "/" + tab) == Settings(None)
    ensures tab !in ARCHIVE_TABS ==> ParseRoute("#/" + "archive" + "/" + tab) == Archive(None)
    ensures tab !in REPO_TABS ==> ParseRoute("#/" + "repos" + "/" + id + "/" + tab) == Repo(id, None)
  {
    hide ParseRoute, RouteOf, TabOf, IsSegment, SKILLS_TABS, SETTINGS_TABS, ARCHIVE_TABS, REPO_TABS;
    RouteWithTab(id, tab);
    TwoSegments("skills", tab);
    TwoSegments("settings", tab);
    TwoSegments("archive", tab);
    ThreeSegments("repos", id, tab);
    if tab !in SKILLS_TABS { NotATab("skills", id, tab, SKILLS_TABS); }
    if tab !in SETTINGS_TABS { NotATab("settings", id, tab, SETTINGS_TABS); }
    if tab !in ARCHIVE_TABS { NotATab("archive", id, tab, ARCHIVE_TABS); }
    if tab !in REPO_TABS { NotATab("repos", id, tab, REPO_TABS); }
  }

  /** The archive page also reads its tab from the query, where the path names none. */
  lemma ArchiveQuery(tab: string, more: map<string, string>)
    ensures RouteOf(["archive"], more["tab" := tab]) ==
            Archive(if tab == "repos" then Some("repos") else if tab == "tasks" then Some("tasks") else None)
    ensures RouteOf(["archive", "tasks"], more["tab" := tab]) == Archive(Some("tasks"))
    ensures RouteOf(["archive", "repos"], more["tab" := tab]) == Archive(Some("repos"))
  {
  }
}
