/**
 * The tracker of workspace changes: what it saves, and what a reader of its events knows.
 *
 * Its polls run one after the other, so each is one step. A snapshot is the list of changed
 * files; `null` and a snapshot without files are both the empty list. The digest of a diff is a
 * parameter.
 */
module ChangeTracker {
  import opened Text
  import ChangedFiles

  type Kind = ChangedFiles.Kind

  /** `diff` stands for the unified diff with the old and new texts, which the digest covers. */
  datatype File = File(path: string, kind: Kind, diff: string)

  datatype Event =
    | SnapshotLine(files: seq<File>)
    | ItemStarted(completed: bool, changes: seq<(string, Kind)>)
    | ItemUpdated(changes: seq<(string, Kind)>)
    | ItemCompleted(changes: seq<(string, Kind)>)
    | FileDiff(path: string, kind: Kind, diff: string)

  datatype State = State(
    baseline: seq<File>,
    last: Option<seq<File>>,
    hashes: map<string, string>,
    started: bool,
    saved: Option<seq<File>>,
    events: seq<Event>)

  predicate DistinctPaths(files: seq<File>) {
    forall i, j :: 0 <= i < j < |files| ==> files[i].path != files[j].path
  }

  // ---------------------------------------------------------------- the pieces

  function BaselineHash(baseline: seq<File>, path: string, hash: string -> string): Option<string> {
    if baseline == [] then None
    else
      var f := baseline[|baseline| - 1];
      if f.path == path then Some(hash(f.diff)) else BaselineHash(baseline[..|baseline| - 1], path, hash)
  }

  /** What has changed since the baseline. */
  function Since(files: seq<File>, baseline: seq<File>, hash: string -> string): seq<File> {
    if files == [] then []
    else
      var f := files[|files| - 1];
      Since(files[..|files| - 1], baseline, hash)
      + (if BaselineHash(baseline, f.path, hash) != Some(hash(f.diff)) then [f] else [])
  }

  predicate SameFile(a: File, b: File, hash: string -> string) {
    a.path == b.path && hash(a.diff) == hash(b.diff) && a.kind == b.kind
  }

  predicate SameList(a: seq<File>, b: seq<File>, hash: string -> string) {
    |a| == |b| && forall i :: 0 <= i < |a| ==> SameFile(a[i], b[i], hash)
  }

  predicate Changed(last: Option<seq<File>>, next: seq<File>, hash: string -> string) {
    last.None? || !SameList(last.value, next, hash)
  }

  function ChangesOf(files: seq<File>): seq<(string, Kind)> {
    seq(|files|, i requires 0 <= i < |files| => (files[i].path, files[i].kind))
  }

  function ItemEvents(started: bool, files: seq<File>, terminal: bool, changed: bool): seq<Event> {
    if !started then [ItemStarted(terminal, ChangesOf(files))]
    else if changed then [if terminal then ItemCompleted(ChangesOf(files)) else ItemUpdated(ChangesOf(files))]
    else if terminal then [ItemCompleted(ChangesOf(files))]
    else []
  }

  predicate Skipped(hashes: map<string, string>, f: File, terminal: bool, hash: string -> string) {
    f.path in hashes && hashes[f.path] == hash(f.diff) && !terminal
  }

  /** The events and the remembered digests after the first n files. */
  function Diffs(files: seq<File>, n: nat, hashes: map<string, string>, terminal: bool, hash: string -> string)
    : (r: (seq<Event>, map<string, string>))
    requires n <= |files|
  {
    if n == 0 then ([], hashes)
    else
      var (events, known) := Diffs(files, n - 1, hashes, terminal, hash);
      var f := files[n - 1];
      if Skipped(known, f, terminal, hash) then (events, known)
      else (events + [FileDiff(f.path, f.kind, f.diff)], known[f.path := hash(f.diff)])
  }

  // ---------------------------------------------------------------- a poll

  function Started(baseline: seq<File>, hash: string -> string): State {
    State(baseline, Some(Since(baseline, baseline, hash)), map[], false, None, [])
  }

  function Saved(s: State, next: seq<File>, hash: string -> string): State {
    if Changed(s.last, next, hash) then
      s.(last := Some(next), saved := Some(next), events := s.events + [SnapshotLine(next)])
    else s
  }

  function Timeline(s: State, next: seq<File>, terminal: bool, changed: bool, hash: string -> string): State {
    if next != [] then
      var (diffs, known) := Diffs(next, |next|, s.hashes, terminal, hash);
      s.(started := true, hashes := known, events := s.events + ItemEvents(s.started, next, terminal, changed) + diffs)
    else if s.started && terminal then s.(events := s.events + [ItemCompleted([])])
    else s
  }

  function Poll(s: State, files: seq<File>, terminal: bool, timeline: bool, hash: string -> string): State {
    var next := Since(files, s.baseline, hash);
    var saved := Saved(s, next, hash);
    if timeline then Timeline(saved, next, terminal, Changed(s.last, next, hash), hash) else saved
  }

  // ---------------------------------------------------------------- the tracker

  class Tracker {
    const hash: string -> string
    const emitTimelineEvents: bool
    var baseline: seq<File>
    var lastSnapshot: Option<seq<File>>
    var lastFileHashes: map<string, string>
    var timelineStarted: bool
    ghost var saved: Option<seq<File>>
    ghost var events: seq<Event>

    constructor (hash: string -> string, timeline: bool)
      ensures this.hash == hash && emitTimelineEvents == timeline
      ensures Contents() == State([], None, map[], false, None, [])
    {
      this.hash, this.emitTimelineEvents := hash, timeline;
      baseline, lastSnapshot, lastFileHashes, timelineStarted := [], None, map[], false;
      saved, events := None, [];
    }

    ghost function Contents(): State
      reads this
    {
      State(baseline, lastSnapshot, lastFileHashes, timelineStarted, saved, events)
    }

    method Start(files: seq<File>)
      modifies this`baseline, this`lastSnapshot
      ensures Contents() == old(Contents()).(baseline := files, last := Some(Since(files, files, hash)))
    {
      baseline := files;
      lastSnapshot := Some(Since(files, files, hash));
    }

    method HasSnapshotChanged(next: seq<File>) returns (changed: bool)
      ensures changed == Changed(lastSnapshot, next, hash)
    {
      if lastSnapshot.None? {
        return true;
      }
      var prev := lastSnapshot.value;
      if |prev| != |next| {
        return true;
      }
      for i := 0 to |next|
        invariant forall k :: 0 <= k < i ==> SameFile(prev[k], next[k], hash)
      {
        if prev[i].path != next[i].path || hash(prev[i].diff) != hash(next[i].diff) || prev[i].kind != next[i].kind {
          assert !SameFile(prev[i], next[i], hash);
          return true;
        }
      }
      return false;
    }

    method Sync(files: seq<File>, terminal: bool)
      modifies this
      ensures Contents() == Poll(old(Contents()), files, terminal, emitTimelineEvents, hash)
    {
      hide Changed, Since, Diffs, ItemEvents;
      var next := Since(files, baseline, hash);
      var changed := HasSnapshotChanged(next);
      if changed {
        lastSnapshot := Some(next);
        saved := Some(next);
        events := events + [SnapshotLine(next)];
      }
      if !emitTimelineEvents {
        return;
      }
      if |next| > 0 {
        EmitTimelineSnapshot(next, terminal, changed);
        return;
      }
      if timelineStarted && terminal {
        events := events + [ItemCompleted([])];
      }
    }

    method EmitTimelineSnapshot(files: seq<File>, terminal: bool, changed: bool)
      requires files != []
      modifies this`timelineStarted, this`lastFileHashes, this`events
      ensures Contents() == Timeline(old(Contents()), files, terminal, changed, hash)
    {
      hide Skipped;
      ghost var before := events;
      if !timelineStarted {
        timelineStarted := true;
        events := events + [ItemStarted(terminal, ChangesOf(files))];
      } else if changed {
        events := events + [if terminal then ItemCompleted(ChangesOf(files)) else ItemUpdated(ChangesOf(files))];
      } else if terminal {
        events := events + [ItemCompleted(ChangesOf(files))];
      }
      assert events == before + ItemEvents(old(timelineStarted), files, terminal, changed);
      EmitDiffs(files, terminal);
    }

    method EmitDiffs(files: seq<File>, terminal: bool)
      modifies this`lastFileHashes, this`events
      ensures lastFileHashes == Diffs(files, |files|, old(lastFileHashes), terminal, hash).1
      ensures events == old(events) + Diffs(files, |files|, old(lastFileHashes), terminal, hash).0
    {
      ghost var start := events;
      for i := 0 to |files|
        invariant lastFileHashes == Diffs(files, i, old(lastFileHashes), terminal, hash).1
        invariant events == start + Diffs(files, i, old(lastFileHashes), terminal, hash).0
      {
        var f := files[i];
        if f.path in lastFileHashes && lastFileHashes[f.path] == hash(f.diff) && !terminal {
          continue;
        }
        lastFileHashes := lastFileHashes[f.path := hash(f.diff)];
        events := events + [FileDiff(f.path, f.kind, f.diff)];
      }
    }
  }

  // ---------------------------------------------------------------- what a reader of the events knows

  /** What the newest diff event of a path tells. */
  function NewestFile(events: seq<Event>, path: string): Option<File> {
    if events == [] then None
    else
      var e := events[|events| - 1];
      if e.FileDiff? && e.path == path then Some(File(e.path, e.kind, e.diff)) else NewestFile(events[..|events| - 1], path)
  }

  function Newest(events: seq<Event>, path: string): Option<string> {
    var f := NewestFile(events, path);
    if f.None? then None else Some(f.value.diff)
  }

  /** The digests that the tracker remembers are those of the newest diffs. */
  ghost predicate Reads(events: seq<Event>, hashes: map<string, string>, hash: string -> string) {
    forall p :: p in hashes ==> Newest(events, p).Some? && hash(Newest(events, p).value) == hashes[p]
  }

  /** The item has been announced once, and before any other of its events. */
  predicate Announced(events: seq<Event>, k: nat) {
    && k < |events| && events[k].ItemStarted?
    && (forall i :: 0 <= i < k ==> events[i].SnapshotLine?)
    && (forall i :: k < i < |events| ==> !events[i].ItemStarted?)
  }

  predicate NotAnnounced(events: seq<Event>) {
    forall i :: 0 <= i < |events| ==> events[i].SnapshotLine?
  }

  predicate Orderly(s: State) {
    if s.started then exists k :: 0 <= k < |s.events| && Announced(s.events, k) else NotAnnounced(s.events)
  }

  /** The snapshot that was streamed last. */
  function Streamed(events: seq<Event>): Option<seq<File>> {
    if events == [] then None
    else
      var e := events[|events| - 1];
      if e.SnapshotLine? then Some(e.files) else Streamed(events[..|events| - 1])
  }

  /** The changes that the item listed last. */
  function Listed(events: seq<Event>): Option<seq<(string, Kind)>> {
    if events == [] then None
    else
      var e := events[|events| - 1];
      if e.ItemStarted? || e.ItemUpdated? || e.ItemCompleted? then Some(e.changes) else Listed(events[..|events| - 1])
  }

  function SavedFiles(s: State): seq<File> {
    if s.saved.None? then [] else s.saved.value
  }

  ghost predicate Inv(s: State, hash: string -> string) {
    && s.last.Some? && SameList(SavedFiles(s), s.last.value, hash)
    && Reads(s.events, s.hashes, hash)
    && Orderly(s)
  }

  // ---------------------------------------------------------------- the baseline is no change

  lemma {:induction false} BaselineKnowsItself(baseline: seq<File>, i: nat, hash: string -> string)
    requires DistinctPaths(baseline) && i < |baseline|
    ensures BaselineHash(baseline, baseline[i].path, hash) == Some(hash(baseline[i].diff))
  {
    if i < |baseline| - 1 {
      BaselineKnowsItself(baseline[..|baseline| - 1], i, hash);
    }
  }

  lemma {:induction false} NothingSince(files: seq<File>, baseline: seq<File>, hash: string -> string)
    requires forall i :: 0 <= i < |files| ==> BaselineHash(baseline, files[i].path, hash) == Some(hash(files[i].diff))
    ensures Since(files, baseline, hash) == []
  {
    hide BaselineHash;
    if files != [] {
      NothingSince(files[..|files| - 1], baseline, hash);
    }
  }

  lemma StartIsInv(baseline: seq<File>, hash: string -> string)
    requires DistinctPaths(baseline)
    ensures Inv(Started(baseline, hash), hash) && Since(baseline, baseline, hash) == []
  {
    hide Since, BaselineHash;
    forall i | 0 <= i < |baseline| ensures BaselineHash(baseline, baseline[i].path, hash) == Some(hash(baseline[i].diff)) {
      BaselineKnowsItself(baseline, i, hash);
    }
    NothingSince(baseline, baseline, hash);
  }

  lemma {:induction false} SinceIsPart(files: seq<File>, baseline: seq<File>, hash: string -> string, i: nat)
    requires i < |Since(files, baseline, hash)|
    ensures Since(files, baseline, hash)[i] in files
  {
    hide BaselineHash;
    var n := |files| - 1;
    if i < |Since(files[..n], baseline, hash)| {
      SinceIsPart(files[..n], baseline, hash, i);
    }
  }

  lemma LastPathIsNew(files: seq<File>, f: File)
    requires files != [] && DistinctPaths(files) && f in files[..|files| - 1]
    ensures f.path != files[|files| - 1].path
  {
    var k :| 0 <= k < |files| - 1 && files[..|files| - 1][k] == f;
    assert files[k] == f;
  }

  lemma {:induction false} SinceIsDistinct(files: seq<File>, baseline: seq<File>, hash: string -> string)
    requires DistinctPaths(files)
    ensures DistinctPaths(Since(files, baseline, hash))
  {
    hide BaselineHash;
    if files != [] {
      var n := |files| - 1;
      var before := Since(files[..n], baseline, hash);
      SinceIsDistinct(files[..n], baseline, hash);
      forall i | 0 <= i < |before| ensures before[i].path != files[n].path {
        SinceIsPart(files[..n], baseline, hash, i);
        LastPathIsNew(files, before[i]);
      }
    }
  }

  // ---------------------------------------------------------------- the diffs

  lemma NewestAppend(events: seq<Event>, e: Event, path: string)
    ensures e.FileDiff? && e.path == path ==>
              NewestFile(events + [e], path) == Some(File(e.path, e.kind, e.diff)) && Newest(events + [e], path) == Some(e.diff)
    ensures !(e.FileDiff? && e.path == path) ==>
              NewestFile(events + [e], path) == NewestFile(events, path) && Newest(events + [e], path) == Newest(events, path)
  {
    assert (events + [e])[..|events|] == events;
  }

  lemma OtherEventKeepsReads(events: seq<Event>, e: Event, hashes: map<string, string>, hash: string -> string)
    requires Reads(events, hashes, hash) && !e.FileDiff?
    ensures Reads(events + [e], hashes, hash)
  {
    hide Newest;
    forall p | p in hashes ensures Newest(events + [e], p) == Newest(events, p) {
      NewestAppend(events, e, p);
    }
  }

  lemma DiffKeepsReads(events: seq<Event>, f: File, hashes: map<string, string>, hash: string -> string)
    requires Reads(events, hashes, hash)
    ensures Reads(events + [FileDiff(f.path, f.kind, f.diff)], hashes[f.path := hash(f.diff)], hash)
  {
    hide Newest;
    var e := FileDiff(f.path, f.kind, f.diff);
    var hashes' := hashes[f.path := hash(f.diff)];
    forall p | p in hashes' ensures Newest(events + [e], p).Some? && hash(Newest(events + [e], p).value) == hashes'[p] {
      NewestAppend(events, e, p);
    }
  }

  /** Sent or skipped, each file's digest is remembered; and what is remembered is what was sent last. */
  lemma {:induction false} DiffsAreRead(start: seq<Event>, files: seq<File>, n: nat, hashes: map<string, string>,
                                       terminal: bool, hash: string -> string)
    requires Reads(start, hashes, hash) && DistinctPaths(files) && n <= |files|
    ensures var (events, known) := Diffs(files, n, hashes, terminal, hash);
            && Reads(start + events, known, hash)
            && (forall i :: 0 <= i < n ==> files[i].path in known && known[files[i].path] == hash(files[i].diff))
            && (forall i :: 0 <= i < |events| ==> events[i].FileDiff?)
  {
    hide Reads;
    if n == 0 {
      assert start + [] == start;
    } else {
      var (events, known) := Diffs(files, n - 1, hashes, terminal, hash);
      var f := files[n - 1];
      DiffsAreRead(start, files, n - 1, hashes, terminal, hash);
      DiffKeepsReads(start + events, f, known, hash);
      assert start + (events + [FileDiff(f.path, f.kind, f.diff)]) == start + events + [FileDiff(f.path, f.kind, f.diff)];
    }
  }

  // ---------------------------------------------------------------- a poll keeps it

  lemma AnnouncedStays(events: seq<Event>, k: nat, more: seq<Event>)
    requires Announced(events, k) && forall i :: 0 <= i < |more| ==> !more[i].ItemStarted?
    ensures Announced(events + more, k)
  {
  }

  lemma AnnouncedNow(events: seq<Event>, e: Event)
    requires NotAnnounced(events) && e.ItemStarted?
    ensures Announced(events + [e], |events|)
  {
  }

  lemma SameListIsReflexive(a: seq<File>, hash: string -> string)
    ensures SameList(a, a, hash)
  {
  }

  lemma SameListIsTransitive(a: seq<File>, b: seq<File>, c: seq<File>, hash: string -> string)
    requires SameList(a, b, hash) && SameList(b, c, hash)
    ensures SameList(a, c, hash)
  {
  }

  lemma SavedKeepsInv(s: State, next: seq<File>, hash: string -> string)
    requires Inv(s, hash)
    ensures Inv(Saved(s, next, hash), hash) && SameList(SavedFiles(Saved(s, next, hash)), next, hash)
  {
    hide SameList, Reads, Announced;
    var s' := Saved(s, next, hash);
    if Changed(s.last, next, hash) {
      SameListIsReflexive(next, hash);
      OtherEventKeepsReads(s.events, SnapshotLine(next), s.hashes, hash);
      if s.started {
        var k :| 0 <= k < |s.events| && Announced(s.events, k);
        AnnouncedStays(s.events, k, [SnapshotLine(next)]);
      }
    } else {
      SameListIsTransitive(SavedFiles(s), s.last.value, next, hash);
    }
  }

  lemma ItemEventsKeep(s: State, next: seq<File>, terminal: bool, changed: bool, hash: string -> string)
    requires Reads(s.events, s.hashes, hash) && Orderly(s)
    ensures var events := s.events + ItemEvents(s.started, next, terminal, changed);
            && Reads(events, s.hashes, hash)
            && exists k :: 0 <= k < |events| && Announced(events, k)
  {
    hide Reads, Announced, NotAnnounced, ChangesOf;
    var more := ItemEvents(s.started, next, terminal, changed);
    if more == [] {
      assert s.events + more == s.events;
    } else {
      OtherEventKeepsReads(s.events, more[0], s.hashes, hash);
      assert more == [more[0]];
    }
    if s.started {
      var k :| 0 <= k < |s.events| && Announced(s.events, k);
      AnnouncedStays(s.events, k, more);
    } else {
      AnnouncedNow(s.events, more[0]);
    }
  }

  lemma TimelineKeepsInv(s: State, next: seq<File>, terminal: bool, changed: bool, hash: string -> string)
    requires Inv(s, hash) && DistinctPaths(next)
    ensures var s' := Timeline(s, next, terminal, changed, hash);
            && Inv(s', hash) && s'.saved == s.saved
            && forall i :: 0 <= i < |next| ==> next[i].path in s'.hashes && s'.hashes[next[i].path] == hash(next[i].diff)
  {
    hide SameList, Reads, Announced, ItemEvents, DistinctPaths, Diffs;
    if next != [] {
      var events := s.events + ItemEvents(s.started, next, terminal, changed);
      ItemEventsKeep(s, next, terminal, changed, hash);
      DiffsAreRead(events, next, |next|, s.hashes, terminal, hash);
      var k :| 0 <= k < |events| && Announced(events, k);
      AnnouncedStays(events, k, Diffs(next, |next|, s.hashes, terminal, hash).0);
    } else if s.started && terminal {
      OtherEventKeepsReads(s.events, ItemCompleted([]), s.hashes, hash);
      var k :| 0 <= k < |s.events| && Announced(s.events, k);
      AnnouncedStays(s.events, k, [ItemCompleted([])]);
    }
  }

  ghost predicate Injective(hash: string -> string) {
    forall a, b :: hash(a) == hash(b) ==> a == b
  }

  /**
   * After a poll the saved snapshot lists the files that have changed since the baseline, in
   * order; and a reader who keeps the newest diff of each path holds the current diff of each.
   */
  lemma PollIsFaithful(s: State, files: seq<File>, terminal: bool, timeline: bool, hash: string -> string)
    requires Inv(s, hash) && DistinctPaths(files)
    ensures var next := Since(files, s.baseline, hash);
            var s' := Poll(s, files, terminal, timeline, hash);
            && Inv(s', hash) && s'.baseline == s.baseline
            && SameList(SavedFiles(s'), next, hash)
            && (timeline && Injective(hash) ==>
                  forall i :: 0 <= i < |next| ==> Newest(s'.events, next[i].path) == Some(next[i].diff))
  {
    hide SameList, Since, Orderly, Diffs, ItemEvents, Newest, DistinctPaths;
    var next := Since(files, s.baseline, hash);
    SinceIsDistinct(files, s.baseline, hash);
    SavedKeepsInv(s, next, hash);
    if timeline {
      TimelineKeepsInv(Saved(s, next, hash), next, terminal, Changed(s.last, next, hash), hash);
    }
  }

  // ---------------------------------------------------------------- runs

  /** The changed files that each poll finds, and whether it is the last one. */
  function Run(s: State, polls: seq<(seq<File>, bool)>, timeline: bool, hash: string -> string): State {
    if polls == [] then s
    else
      var n := |polls| - 1;
      Poll(Run(s, polls[..n], timeline, hash), polls[n].0, polls[n].1, timeline, hash)
  }

  predicate DistinctPolls(polls: seq<(seq<File>, bool)>) {
    forall i :: 0 <= i < |polls| ==> DistinctPaths(polls[i].0)
  }

  /** From the start of a task through any list of polls: saved, told and announced as promised. */
  lemma {:induction false} RunIsFaithful(baseline: seq<File>, polls: seq<(seq<File>, bool)>, timeline: bool,
                                         hash: string -> string)
    requires DistinctPaths(baseline) && DistinctPolls(polls)
    ensures var s := Run(Started(baseline, hash), polls, timeline, hash);
            && Inv(s, hash) && s.baseline == baseline
            && (polls != [] ==>
                  var next := Since(polls[|polls| - 1].0, baseline, hash);
                  && SameList(SavedFiles(s), next, hash)
                  && (timeline && Injective(hash) ==>
                        forall i :: 0 <= i < |next| ==> Newest(s.events, next[i].path) == Some(next[i].diff)))
  {
    hide SameList, Since, Inv, Poll, Newest, DistinctPaths;
    if polls == [] {
      StartIsInv(baseline, hash);
    } else {
      var n := |polls| - 1;
      RunIsFaithful(baseline, polls[..n], timeline, hash);
      PollIsFaithful(Run(Started(baseline, hash), polls[..n], timeline, hash), polls[n].0, polls[n].1, timeline, hash);
    }
  }

  /** The item is announced at most once, and nothing else of it comes before. */
  lemma AnnouncedOnce(baseline: seq<File>, polls: seq<(seq<File>, bool)>, timeline: bool, hash: string -> string,
                      i: nat, j: nat)
    requires DistinctPaths(baseline) && DistinctPolls(polls)
    requires var events := Run(Started(baseline, hash), polls, timeline, hash).events;
             i < |events| && j < |events| && events[i].ItemStarted? && !events[j].SnapshotLine?
    ensures i <= j
    ensures Run(Started(baseline, hash), polls, timeline, hash).events[j].ItemStarted? ==> i == j
  {
    hide Run, SameList, Reads;
    RunIsFaithful(baseline, polls, timeline, hash);
  }

  // ---------------------------------------------------------------- the stream and the item

  lemma {:induction false} StreamedStays(events: seq<Event>, more: seq<Event>)
    requires forall i :: 0 <= i < |more| ==> !more[i].SnapshotLine?
    ensures Streamed(events + more) == Streamed(events)
  {
    if more == [] {
      assert events + more == events;
    } else {
      assert (events + more)[..|events + more| - 1] == events + more[..|more| - 1];
      StreamedStays(events, more[..|more| - 1]);
    }
  }

  predicate IsItem(e: Event) {
    e.ItemStarted? || e.ItemUpdated? || e.ItemCompleted?
  }

  lemma {:induction false} ListedStays(events: seq<Event>, more: seq<Event>)
    requires forall i :: 0 <= i < |more| ==> !IsItem(more[i])
    ensures Listed(events + more) == Listed(events)
  {
    if more == [] {
      assert events + more == events;
    } else {
      assert (events + more)[..|events + more| - 1] == events + more[..|more| - 1];
      ListedStays(events, more[..|more| - 1]);
    }
  }

  lemma ListedNow(events: seq<Event>, e: Event)
    requires IsItem(e)
    ensures Listed(events + [e]) == Some(e.changes)
  {
    assert (events + [e])[..|events|] == events;
  }

  lemma {:induction false} DiffsAreDiffs(files: seq<File>, n: nat, hashes: map<string, string>, terminal: bool,
                                         hash: string -> string)
    requires n <= |files|
    ensures forall i :: 0 <= i < |Diffs(files, n, hashes, terminal, hash).0| ==>
              Diffs(files, n, hashes, terminal, hash).0[i].FileDiff?
  {
    hide Skipped;
    if n > 0 { DiffsAreDiffs(files, n - 1, hashes, terminal, hash); }
  }

  /** What was streamed last is what was saved last. */
  lemma PollStreamsWhatItSaves(s: State, files: seq<File>, terminal: bool, timeline: bool, hash: string -> string)
    requires Streamed(s.events) == s.saved
    ensures var s' := Poll(s, files, terminal, timeline, hash); Streamed(s'.events) == s'.saved
  {
    hide Changed, Since, Diffs, ChangesOf;
    var next := Since(files, s.baseline, hash);
    var saved := Saved(s, next, hash);
    assert saved.events == s.events || saved.events[..|s.events|] == s.events;
    if timeline && next != [] {
      var more := ItemEvents(saved.started, next, terminal, Changed(s.last, next, hash));
      DiffsAreDiffs(next, |next|, saved.hashes, terminal, hash);
      StreamedStays(saved.events, more);
      StreamedStays(saved.events + more, Diffs(next, |next|, saved.hashes, terminal, hash).0);
    } else if timeline && saved.started && terminal {
      StreamedStays(saved.events, [ItemCompleted([])]);
    }
  }

  /** While files have changed, the item has been announced and lists them as they were found last. */
  predicate ItemOk(s: State) {
    s.last.Some? && (s.last.value != [] ==> s.started && Listed(s.events) == Some(ChangesOf(s.last.value)))
  }

  lemma SameChanges(a: seq<File>, b: seq<File>, hash: string -> string)
    requires SameList(a, b, hash)
    ensures ChangesOf(a) == ChangesOf(b) && (a == [] <==> b == [])
  {
  }

  /** With timeline events on, the newest item event lists the paths and kinds of the current changes. */
  lemma PollListsChanges(s: State, files: seq<File>, terminal: bool, hash: string -> string)
    requires ItemOk(s)
    ensures var next := Since(files, s.baseline, hash);
            var s' := Poll(s, files, terminal, true, hash);
            ItemOk(s') && (next != [] ==> Listed(s'.events) == Some(ChangesOf(next)))
  {
    hide SameList, Since, Diffs, ChangesOf, Listed;
    var next := Since(files, s.baseline, hash);
    var changed := Changed(s.last, next, hash);
    var saved := Saved(s, next, hash);
    if changed {
      ListedStays(s.events, [SnapshotLine(next)]);
    } else {
      SameChanges(s.last.value, next, hash);
    }
    if next != [] {
      var more := ItemEvents(saved.started, next, terminal, changed);
      DiffsAreDiffs(next, |next|, saved.hashes, terminal, hash);
      if more == [] {
        assert saved.events + more == saved.events;
      } else {
        assert more == [more[0]];
        ListedNow(saved.events, more[0]);
      }
      ListedStays(saved.events + more, Diffs(next, |next|, saved.hashes, terminal, hash).0);
    }
  }

  /** So for every run of polls from the start of a task. */
  lemma {:induction false} RunListsChanges(baseline: seq<File>, polls: seq<(seq<File>, bool)>, timeline: bool,
                                           hash: string -> string)
    requires DistinctPaths(baseline)
    ensures var s := Run(Started(baseline, hash), polls, timeline, hash);
            && Streamed(s.events) == s.saved
            && (timeline ==> ItemOk(s))
  {
    hide Since, Poll, ItemOk;
    if polls == [] {
      StartIsInv(baseline, hash);
      NothingListed(baseline, hash);
    } else {
      var n := |polls| - 1;
      var before := Run(Started(baseline, hash), polls[..n], timeline, hash);
      RunListsChanges(baseline, polls[..n], timeline, hash);
      PollStreamsWhatItSaves(before, polls[n].0, polls[n].1, timeline, hash);
      if timeline { PollListsChanges(before, polls[n].0, polls[n].1, hash); }
    }
  }

  lemma NothingListed(baseline: seq<File>, hash: string -> string)
    requires Since(baseline, baseline, hash) == []
    ensures ItemOk(Started(baseline, hash))
  {
  }

  // ---------------------------------------------------------------- the kinds that the diff events tell

  /** The file of a path in a list. */
  function FileAt(files: seq<File>, path: string): (f: Option<File>)
    ensures f.Some? ==> f.value in files && f.value.path == path
  {
    if files == [] then None
    else if files[|files| - 1].path == path then Some(files[|files| - 1])
    else FileAt(files[..|files| - 1], path)
  }

  /** A file is sent unless the one sent before has the same digest and more polls are to come. */
  function SentNext(before: Option<File>, f: Option<File>, terminal: bool, hash: string -> string): Option<File> {
    if f.None? || (before.Some? && hash(before.value.diff) == hash(f.value.diff) && !terminal) then before else f
  }

  /** What was last sent of a path, told from the polls alone. */
  function LastSent(baseline: seq<File>, polls: seq<(seq<File>, bool)>, path: string, hash: string -> string): Option<File> {
    if polls == [] then None
    else
      var n := |polls| - 1;
      SentNext(LastSent(baseline, polls[..n], path, hash), FileAt(Since(polls[n].0, baseline, hash), path), polls[n].1, hash)
  }

  /** The tracker remembers of each path the digest of what it sent last. */
  predicate Remembers(sent: Option<File>, hashes: map<string, string>, path: string, hash: string -> string) {
    (path in hashes <==> sent.Some?) && (sent.Some? ==> hashes[path] == hash(sent.value.diff))
  }

  lemma FileAtLast(files: seq<File>, n: nat, path: string)
    requires n < |files|
    ensures FileAt(files[..n + 1], path) == if files[n].path == path then Some(files[n]) else FileAt(files[..n], path)
  {
    assert files[..n + 1][..n] == files[..n];
  }

  lemma FileAtSame(files: seq<File>, i: nat)
    requires DistinctPaths(files) && i < |files|
    ensures FileAt(files, files[i].path) == Some(files[i])
  {
    hide FileAt;
    var f := FileAt(files, files[i].path);
    if f.None? { FileAtFinds(files, i); }
  }

  lemma {:induction false} FileAtFinds(files: seq<File>, i: nat)
    requires i < |files|
    ensures FileAt(files, files[i].path).Some?
  {
    if i < |files| - 1 { FileAtFinds(files[..|files| - 1], i); }
  }

  lemma NotBefore(files: seq<File>, n: nat)
    requires DistinctPaths(files) && n < |files|
    ensures FileAt(files[..n], files[n].path) == None
  {
    hide FileAt;
    assert forall i :: 0 <= i < n ==> files[..n][i] == files[i];
  }

  /** The diff events of a poll, for one path. */
  lemma {:induction false} DiffsTell(start: seq<Event>, files: seq<File>, n: nat, hashes: map<string, string>, terminal: bool,
                                    path: string, before: Option<File>, hash: string -> string)
    requires DistinctPaths(files) && n <= |files|
    requires NewestFile(start, path) == before && Remembers(before, hashes, path, hash)
    ensures var (events, known) := Diffs(files, n, hashes, terminal, hash);
            var after := SentNext(before, FileAt(files[..n], path), terminal, hash);
            NewestFile(start + events, path) == after && Remembers(after, known, path, hash)
  {
    hide NewestFile, FileAt, DistinctPaths;
    if n == 0 {
      assert start + [] == start;
      NoFileAt(files[..0], path);
    } else {
      var (events, known) := Diffs(files, n - 1, hashes, terminal, hash);
      var f := files[n - 1];
      DiffsTell(start, files, n - 1, hashes, terminal, path, before, hash);
      FileAtLast(files, n - 1, path);
      NotBefore(files, n - 1);
      var e := FileDiff(f.path, f.kind, f.diff);
      NewestAppend(start + events, e, path);
      assert start + (events + [e]) == start + events + [e];
      assert File(f.path, f.kind, f.diff) == f;
    }
  }

  lemma NoFileAt(files: seq<File>, path: string)
    requires files == []
    ensures FileAt(files, path) == None
  {
  }

  lemma {:induction false} OthersTellNothing(events: seq<Event>, more: seq<Event>, path: string)
    requires forall i :: 0 <= i < |more| ==> !more[i].FileDiff?
    ensures NewestFile(events + more, path) == NewestFile(events, path)
  {
    if more == [] {
      assert events + more == events;
    } else {
      assert (events + more)[..|events + more| - 1] == events + more[..|more| - 1];
      OthersTellNothing(events, more[..|more| - 1], path);
    }
  }

  /** One poll with timeline events, for one path. */
  lemma PollTells(s: State, files: seq<File>, terminal: bool, path: string, before: Option<File>, hash: string -> string)
    requires DistinctPaths(files)
    requires NewestFile(s.events, path) == before && Remembers(before, s.hashes, path, hash)
    ensures var after := SentNext(before, FileAt(Since(files, s.baseline, hash), path), terminal, hash);
            var s' := Poll(s, files, terminal, true, hash);
            s'.baseline == s.baseline && NewestFile(s'.events, path) == after && Remembers(after, s'.hashes, path, hash)
  {
    hide Changed, Since, Diffs, ChangesOf, NewestFile, FileAt, DistinctPaths, Remembers;
    var next := Since(files, s.baseline, hash);
    var saved := Saved(s, next, hash);
    SinceIsDistinct(files, s.baseline, hash);
    OthersTellNothing(s.events, [SnapshotLine(next)], path);
    if next != [] {
      var more := ItemEvents(saved.started, next, terminal, Changed(s.last, next, hash));
      OthersTellNothing(saved.events, more, path);
      assert next[..|next|] == next;
      DiffsTell(saved.events + more, next, |next|, s.hashes, terminal, path, before, hash);
    } else {
      NoFileAt(next, path);
      OthersTellNothing(saved.events, [ItemCompleted([])], path);
    }
  }

  /** After any run the newest diff event of a path tells what was last sent of it: diff and kind as of that poll. */
  lemma {:induction false} RunTells(baseline: seq<File>, polls: seq<(seq<File>, bool)>, path: string, hash: string -> string)
    requires DistinctPolls(polls)
    ensures var s := Run(Started(baseline, hash), polls, true, hash);
            && s.baseline == baseline
            && NewestFile(s.events, path) == LastSent(baseline, polls, path, hash)
            && Remembers(LastSent(baseline, polls, path, hash), s.hashes, path, hash)
  {
    hide Since, Poll, FileAt, SentNext, DistinctPaths, Remembers;
    if polls == [] {
      NothingTold(baseline, path, hash);
    } else {
      var n := |polls| - 1;
      RunTells(baseline, polls[..n], path, hash);
      PollTells(Run(Started(baseline, hash), polls[..n], true, hash), polls[n].0, polls[n].1, path,
                LastSent(baseline, polls[..n], path, hash), hash);
    }
  }

  lemma NothingTold(baseline: seq<File>, path: string, hash: string -> string)
    ensures NewestFile(Started(baseline, hash).events, path) == None && Remembers(None, Started(baseline, hash).hashes, path, hash)
  {
    hide Since;
  }

  /**
   * The newest diff event of a changed file names its current kind exactly when the file was sent
   * in this poll, or what was sent of it last was of that kind already. It is sent in the last poll
   * of all, and whenever its digest is not that of what was sent last.
   */
  lemma RunTellsKind(baseline: seq<File>, polls: seq<(seq<File>, bool)>, i: nat, hash: string -> string)
    requires DistinctPolls(polls) && polls != []
    requires i < |Since(polls[|polls| - 1].0, baseline, hash)|
    ensures var n := |polls| - 1;
            var f := Since(polls[n].0, baseline, hash)[i];
            var before := LastSent(baseline, polls[..n], f.path, hash);
            var told := NewestFile(Run(Started(baseline, hash), polls, true, hash).events, f.path);
            told.Some? && (told.value.kind == f.kind <==>
              polls[n].1 || before.None? || hash(before.value.diff) != hash(f.diff) || before.value.kind == f.kind)
  {
    hide Since, Run, FileAt, DistinctPaths, NewestFile, LastSent, Remembers;
    var n := |polls| - 1;
    var next := Since(polls[n].0, baseline, hash);
    RunTells(baseline, polls, next[i].path, hash);
    LastSentIs(baseline, polls, next[i].path, hash);
    SinceIsDistinct(polls[n].0, baseline, hash);
    FileAtSame(next, i);
  }

  lemma LastSentIs(baseline: seq<File>, polls: seq<(seq<File>, bool)>, path: string, hash: string -> string)
    requires polls != []
    ensures var n := |polls| - 1;
            LastSent(baseline, polls, path, hash) ==
            SentNext(LastSent(baseline, polls[..n], path, hash), FileAt(Since(polls[n].0, baseline, hash), path), polls[n].1, hash)
  {
    hide Since, FileAt, SentNext;
  }
}
