/** The list of changed files that git prints with `--name-status -z`. */
module ChangedFiles {
  import opened Text

  datatype Kind = Create | Update | Delete

  datatype ChangedFile = ChangedFile(path: string, kind: Kind)

  const NUL := '\U{0}'

  // ---------------------------------------------------------------- paths

  function Slashes(s: string): string {
    seq(|s|, i requires 0 <= i < |s| => if s[i] == '\\' then '/' else s[i])
  }

  function DropSlashes(s: string): string {
    if s != "" && s[0] == '/' then DropSlashes(s[1..]) else s
  }

  /** Without a leading `./`. */
  function DropDot(s: string): string {
    if |s| >= 2 && s[0] == '.' && s[1] == '/' then DropSlashes(s[1..]) else s
  }

  function NormalizePath(s: string): string {
    Trim(DropDot(Slashes(s)))
  }

  predicate IsNormal(s: string) {
    NormalizePath(s) == s
  }

  // ---------------------------------------------------------------- the parser

  function NonEmpty(parts: seq<string>): seq<string> {
    if parts == [] then [] else (if parts[0] == "" then [] else [parts[0]]) + NonEmpty(parts[1..])
  }

  /** The entry at a place, or the empty text past the end. */
  function EntryAt(entries: seq<string>, i: nat): string {
    if i < |entries| then entries[i] else ""
  }

  function KindOf(code: char): Kind {
    if code == 'A' then Create else if code == 'D' then Delete else Update
  }

  function FileOf(path: string, kind: Kind): seq<ChangedFile> {
    if NormalizePath(path) == "" then [] else [ChangedFile(NormalizePath(path), kind)]
  }

  /** The files of the entries from a place on that holds a status. */
  function FilesFrom(entries: seq<string>, i: nat): seq<ChangedFile>
    decreases |entries| - i
  {
    if i >= |entries| then []
    else if entries[i] == "" then FilesFrom(entries, i + 1)
    else
      var code := entries[i][0];
      if code == 'R' || code == 'C' then FileOf(EntryAt(entries, i + 2), Update) + FilesFrom(entries, i + 3)
      else FileOf(EntryAt(entries, i + 1), KindOf(code)) + FilesFrom(entries, i + 2)
  }

  function Entries(raw: string): seq<string> {
    NonEmpty(SplitOn(raw, NUL))
  }

  method ParseChangedFiles(raw: string) returns (files: seq<ChangedFile>)
    ensures files == FilesFrom(Entries(raw), 0)
  {
    hide Entries, NormalizePath;
    var entries := Entries(raw);
    files := [];
    var index := 0;
    while index < |entries|
      invariant files + FilesFrom(entries, index) == FilesFrom(entries, 0)
    {
      var status := entries[index];
      ghost var before := files;
      ghost var at := index;
      if status == "" {
        index := index + 1;
        continue;
      }
      var code := status[0];
      if code == 'R' || code == 'C' {
        var toPath := NormalizePath(EntryAt(entries, index + 2));
        index := index + 2;
        if toPath != "" {
          files := files + [ChangedFile(toPath, Update)];
        }
        assert files == before + FileOf(EntryAt(entries, at + 2), Update);
        AppendIsAssociative(before, FileOf(EntryAt(entries, at + 2), Update), FilesFrom(entries, at + 3));
        index := index + 1;
        continue;
      }
      var filePath := NormalizePath(EntryAt(entries, index + 1));
      index := index + 1;
      if filePath != "" {
        files := files + [ChangedFile(filePath, KindOf(code))];
      }
      assert files == before + FileOf(EntryAt(entries, at + 1), KindOf(code));
      AppendIsAssociative(before, FileOf(EntryAt(entries, at + 1), KindOf(code)), FilesFrom(entries, at + 2));
      index := index + 1;
    }
  }

  lemma AppendIsAssociative<T>(a: seq<T>, b: seq<T>, c: seq<T>)
    ensures a + (b + c) == (a + b) + c
  {
  }

  // ---------------------------------------------------------------- what git prints

  /** One change: a status with a path, or a rename or copy with two. */
  datatype Change = Single(status: string, path: string) | Move(status: string, from: string, to: string)

  predicate IsField(s: string) {
    s != "" && NUL !in s
  }

  predicate IsChange(c: Change) {
    && IsField(c.status)
    && match c
       case Single(status, path) => status[0] != 'R' && status[0] != 'C' && IsField(path)
       case Move(status, from, to) => (status[0] == 'R' || status[0] == 'C') && IsField(from) && IsField(to)
  }

  function FieldsOf(c: Change): seq<string> {
    match c
    case Single(status, path) => [status, path]
    case Move(status, from, to) => [status, from, to]
  }

  function AllFields(changes: seq<Change>): seq<string> {
    if changes == [] then [] else FieldsOf(changes[0]) + AllFields(changes[1..])
  }

  /** Each field is followed by a NUL. */
  function PrintFields(fields: seq<string>): string {
    if fields == [] then "" else fields[0] + [NUL] + PrintFields(fields[1..])
  }

  function Print(changes: seq<Change>): string {
    PrintFields(AllFields(changes))
  }

  function PathOf(c: Change): string {
    if c.Single? then c.path else c.to
  }

  function ChangeKind(c: Change): Kind
    requires c.status != ""
  {
    if c.Single? then KindOf(c.status[0]) else Update
  }

  predicate AllChanges(changes: seq<Change>) {
    forall i :: 0 <= i < |changes| ==> IsChange(changes[i])
  }

  /** The changed files, as printed. */
  function Targets(changes: seq<Change>): seq<ChangedFile>
    requires AllChanges(changes)
  {
    seq(|changes|, i requires 0 <= i < |changes| => ChangedFile(PathOf(changes[i]), ChangeKind(changes[i])))
  }

  /** The changed files with normalised paths, the blank ones left out. */
  function Normalized(changes: seq<Change>): seq<ChangedFile>
    requires AllChanges(changes)
  {
    if changes == [] then [] else FileOf(PathOf(changes[0]), ChangeKind(changes[0])) + Normalized(changes[1..])
  }

  // ---------------------------------------------------------------- the parser undoes the printer

  lemma {:induction false} SplitPrinted(fields: seq<string>)
    requires forall i :: 0 <= i < |fields| ==> IsField(fields[i])
    ensures NonEmpty(SplitOn(PrintFields(fields), NUL)) == fields
  {
    hide SplitOn;
    if fields == [] {
      SplitNone("", NUL);
      assert [""][1..] == [];
    } else {
      var rest := SplitOn(PrintFields(fields[1..]), NUL);
      SplitPrinted(fields[1..]);
      SplitFirst(fields[0], PrintFields(fields[1..]), NUL);
      assert ([fields[0]] + rest)[1..] == rest;
      assert [fields[0]] + fields[1..] == fields;
    }
  }

  lemma {:induction false} FieldsAreFields(changes: seq<Change>)
    requires AllChanges(changes)
    ensures forall i :: 0 <= i < |AllFields(changes)| ==> IsField(AllFields(changes)[i])
  {
    if changes != [] {
      FieldsAreFields(changes[1..]);
    }
  }

  predicate IsMove(status: string)
    requires status != ""
  {
    status[0] == 'R' || status[0] == 'C'
  }

  lemma FilesFromUnfolds(entries: seq<string>, i: nat)
    ensures i >= |entries| ==> FilesFrom(entries, i) == []
    ensures i < |entries| && entries[i] == "" ==> FilesFrom(entries, i) == FilesFrom(entries, i + 1)
    ensures i < |entries| && entries[i] != "" && IsMove(entries[i]) ==>
              FilesFrom(entries, i) == FileOf(EntryAt(entries, i + 2), Update) + FilesFrom(entries, i + 3)
    ensures i < |entries| && entries[i] != "" && !IsMove(entries[i]) ==>
              FilesFrom(entries, i) == FileOf(EntryAt(entries, i + 1), KindOf(entries[i][0])) + FilesFrom(entries, i + 2)
  {
    hide FileOf, EntryAt, KindOf;
  }

  lemma {:induction false} FilesFromShift(a: seq<string>, b: seq<string>, i: nat)
    ensures FilesFrom(a + b, |a| + i) == FilesFrom(b, i)
    decreases |b| - i
  {
    hide FilesFrom, FileOf, EntryAt, KindOf, IsMove;
    FilesFromUnfolds(a + b, |a| + i);
    FilesFromUnfolds(b, i);
    if i < |b| {
      assert (a + b)[|a| + i] == b[i];
      EntryShift(a, b, i + 1);
      EntryShift(a, b, i + 2);
      FilesFromShift(a, b, i + 1);
      FilesFromShift(a, b, i + 2);
      FilesFromShift(a, b, i + 3);
    }
  }

  lemma EntryShift(a: seq<string>, b: seq<string>, i: nat)
    ensures EntryAt(a + b, |a| + i) == EntryAt(b, i)
  {
  }

  /** The index always lands on a status: each change is read from its own fields. */
  lemma {:induction false} FieldsAreRead(changes: seq<Change>)
    requires AllChanges(changes)
    ensures FilesFrom(AllFields(changes), 0) == Normalized(changes)
  {
    hide NormalizePath;
    if changes != [] {
      var head, tail := FieldsOf(changes[0]), AllFields(changes[1..]);
      FieldsAreRead(changes[1..]);
      FilesFromShift(head, tail, 0);
      OneChange(changes[0], tail);
    }
  }

  lemma OneChange(c: Change, tail: seq<string>)
    requires IsChange(c)
    ensures FilesFrom(FieldsOf(c) + tail, 0) ==
            FileOf(PathOf(c), ChangeKind(c)) + FilesFrom(FieldsOf(c) + tail, |FieldsOf(c)|)
  {
    hide NormalizePath;
  }

  /** Parsing what git prints gives the target of every change, in order, with its path normalised. */
  lemma ParsePrinted(changes: seq<Change>)
    requires AllChanges(changes)
    ensures FilesFrom(Entries(Print(changes)), 0) == Normalized(changes)
  {
    hide FilesFrom, SplitOn, NonEmpty;
    FieldsAreFields(changes);
    SplitPrinted(AllFields(changes));
    FieldsAreRead(changes);
  }

  predicate AllNormal(changes: seq<Change>) {
    forall i :: 0 <= i < |changes| ==> IsNormal(PathOf(changes[i]))
  }

  lemma {:induction false} NormalizedLength(changes: seq<Change>)
    requires AllChanges(changes)
    ensures |Normalized(changes)| <= |changes|
  {
    if changes != [] { NormalizedLength(changes[1..]); }
  }

  lemma {:induction false} NormalizedIsTargets(changes: seq<Change>)
    requires AllChanges(changes)
    ensures Normalized(changes) == Targets(changes) <==> AllNormal(changes)
  {
    hide NormalizePath;
    if changes != [] {
      var c := changes[0];
      NormalizedIsTargets(changes[1..]);
      NormalizedLength(changes[1..]);
      assert Targets(changes) == [ChangedFile(PathOf(c), ChangeKind(c))] + Targets(changes[1..]);
      assert AllNormal(changes) <==> IsNormal(PathOf(c)) && AllNormal(changes[1..]) by {
        assert changes == [c] + changes[1..];
      }
      HeadDecides(PathOf(c), ChangeKind(c), Normalized(changes[1..]), Targets(changes[1..]));
    }
  }

  lemma HeadDecides(path: string, kind: Kind, a: seq<ChangedFile>, b: seq<ChangedFile>)
    requires path != "" && |a| <= |b|
    ensures FileOf(path, kind) + a == [ChangedFile(path, kind)] + b <==> IsNormal(path) && a == b
  {
    hide NormalizePath;
    var whole := FileOf(path, kind) + a;
    if whole == [ChangedFile(path, kind)] + b {
      assert |whole| == 1 + |b|;
      assert whole[0] == ChangedFile(path, kind);
      assert whole[1..] == a && ([ChangedFile(path, kind)] + b)[1..] == b;
    }
  }

  /** The parser undoes the printer exactly when every target path is one that it would not rewrite. */
  lemma ParseUndoesPrint(changes: seq<Change>)
    requires AllChanges(changes)
    ensures FilesFrom(Entries(Print(changes)), 0) == Targets(changes) <==> AllNormal(changes)
  {
    hide *;
    ParsePrinted(changes);
    NormalizedIsTargets(changes);
  }

  /** Which paths it would not rewrite: without a backslash, a leading `./` or white space at an end. */
  lemma NormalExactly(path: string)
    ensures IsNormal(path) <==> '\\' !in path && !("./" <= path) && Trimmed(path)
  {
    hide Trim, DropSlashes;
    if IsNormal(path) {
      NormalHasNoBackslash(path);
      TrimIsTrimmed(DropDot(Slashes(path)));
      if "./" <= path { DotIsDropped(path); }
    } else if '\\' !in path {
      assert Slashes(path) == path;
      if Trimmed(path) { TrimOfTrimmed(path); }
    }
  }

  lemma TrimIsTrimmed(s: string)
    ensures Trimmed(Trim(s)) && |Trim(s)| <= |s| && forall c :: c in Trim(s) ==> c in s
  {
    hide Trim, Trimmed;
    var left, right := TrimParts(s);
  }

  lemma {:induction false} DropSlashesIsPart(s: string)
    ensures |DropSlashes(s)| <= |s| && forall c :: c in DropSlashes(s) ==> c in s
  {
    if s != "" && s[0] == '/' { DropSlashesIsPart(s[1..]); }
  }

  lemma NormalHasNoBackslash(path: string)
    requires IsNormal(path)
    ensures '\\' !in path
  {
    hide Trim, DropSlashes, IsNormal;
    var s := Slashes(path);
    TrimIsTrimmed(DropDot(s));
    if |s| >= 1 { DropSlashesIsPart(s[1..]); }
    NormalIs(path);
    assert '\\' !in s;
  }

  lemma NormalIs(path: string)
    ensures IsNormal(path) <==> Trim(DropDot(Slashes(path))) == path
  {
  }

  lemma DotIsDropped(path: string)
    requires "./" <= path && '\\' !in path
    ensures !IsNormal(path)
  {
    hide Trim, IsNormal, Trimmed;
    assert Slashes(path) == path;
    DropSlashesIsPart(path[1..]);
    TrimIsTrimmed(DropDot(path));
    NormalIs(path);
  }

  // ---------------------------------------------------------------- what the records mean

  /** Which kind of change a status letter stands for. */
  lemma KindIs(c: Change)
    requires IsChange(c)
    ensures c.Single? && c.status[0] == 'A' ==> ChangeKind(c) == Create
    ensures c.Single? && c.status[0] == 'D' ==> ChangeKind(c) == Delete
    ensures c.Single? && c.status[0] != 'A' && c.status[0] != 'D' ==> ChangeKind(c) == Update
    ensures c.Move? ==> ChangeKind(c) == Update && (c.status[0] == 'R' || c.status[0] == 'C')
  {
  }

  /** What a path becomes: every backslash a slash, a leading `./` gone with the slashes after it, then trimmed. */
  lemma NormalizeIs(path: string)
    ensures NormalizePath(path) == Trim(DropDot(Slashes(path)))
    ensures |Slashes(path)| == |path|
    ensures forall i :: 0 <= i < |path| ==> Slashes(path)[i] == if path[i] == '\\' then '/' else path[i]
  {
    hide Trim, DropDot;
  }

  lemma DropDotIs(s: string) returns (n: nat)
    ensures n <= |s| && DropDot(s) == s[n..]
    ensures n == 0 <==> !(|s| >= 2 && s[0] == '.' && s[1] == '/')
    ensures n > 0 ==> n >= 2 && (forall i :: 1 <= i < n ==> s[i] == '/') && (n < |s| ==> s[n] != '/')
  {
    hide DropSlashes;
    n := 0;
    if |s| >= 2 && s[0] == '.' && s[1] == '/' {
      n := SlashesDropped(s, 1);
    }
  }

  lemma {:induction false} SlashesDropped(s: string, from: nat) returns (n: nat)
    requires from <= |s|
    ensures from <= n <= |s| && DropSlashes(s[from..]) == s[n..]
    ensures forall i :: from <= i < n ==> s[i] == '/'
    ensures n < |s| ==> s[n] != '/'
    decreases |s| - from
  {
    n := from;
    if from < |s| && s[from] == '/' {
      n := SlashesDropped(s, from + 1);
      assert s[from..][1..] == s[from + 1..];
    }
  }

  /** Which records git prints: one path, or two after a rename or a copy, and no field empty or with a NUL. */
  lemma ChangeIs(c: Change)
    ensures IsChange(c) <==>
            && c.status != "" && NUL !in c.status
            && (c.Move? <==> c.status[0] == 'R' || c.status[0] == 'C')
            && (c.Single? ==> c.path != "" && NUL !in c.path)
            && (c.Move? ==> c.from != "" && NUL !in c.from && c.to != "" && NUL !in c.to)
  {
  }
}
