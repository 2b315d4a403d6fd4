/**
 * The tracker's promises spelled out: which files count as changed, what is saved, and when the
 * item is reported as completed.
 */
module ChangeTrackerItem {
  import opened Text
  import opened ChangeTracker

  // ---------------------------------------------------------------- what counts as changed

  /** A file counts as changed exactly when the baseline has no file of its path with the same digest. */
  lemma {:induction false} SinceIs(files: seq<File>, baseline: seq<File>, hash: string -> string, f: File)
    requires DistinctPaths(baseline)
    ensures f in Since(files, baseline, hash) <==>
            f in files && !exists b :: b in baseline && b.path == f.path && hash(b.diff) == hash(f.diff)
  {
    hide BaselineHash, DistinctPaths;
    if files != [] {
      var n := |files| - 1;
      SinceIs(files[..n], baseline, hash, f);
      assert files == files[..n] + [files[n]];
      BaselineHashIs(baseline, files[n].path, hash);
      if f == files[n] { KnownExactly(baseline, f, hash); }
    }
  }

  lemma KnownExactly(baseline: seq<File>, f: File, hash: string -> string)
    requires DistinctPaths(baseline)
    ensures BaselineHash(baseline, f.path, hash) == Some(hash(f.diff)) <==>
            exists b :: b in baseline && b.path == f.path && hash(b.diff) == hash(f.diff)
  {
    hide BaselineHash;
    BaselineHashIs(baseline, f.path, hash);
    if b :| b in baseline && b.path == f.path && hash(b.diff) == hash(f.diff) {
      var i :| 0 <= i < |baseline| && baseline[i] == b;
      BaselineKnowsItself(baseline, i, hash);
    }
  }

  lemma {:induction false} BaselineHashIs(baseline: seq<File>, path: string, hash: string -> string)
    ensures var r := BaselineHash(baseline, path, hash);
            r.Some? ==> exists b :: b in baseline && b.path == path && hash(b.diff) == r.value
  {
    if baseline != [] {
      var n := |baseline| - 1;
      assert baseline[n] in baseline;
      BaselineHashIs(baseline[..n], path, hash);
    }
  }

  // ---------------------------------------------------------------- what is saved

  /**
   * After any run the saved snapshot agrees with the current changes file by file in path, kind and
   * digest; so with a digest that tells every two diffs apart it is the current changes.
   */
  lemma SavedIsCurrent(baseline: seq<File>, polls: seq<(seq<File>, bool)>, timeline: bool, hash: string -> string)
    requires DistinctPaths(baseline) && DistinctPolls(polls) && polls != []
    ensures var next := Since(polls[|polls| - 1].0, baseline, hash);
            var saved := SavedFiles(Run(Started(baseline, hash), polls, timeline, hash));
            && |saved| == |next|
            && (forall i :: 0 <= i < |next| ==>
                  saved[i].path == next[i].path && saved[i].kind == next[i].kind && hash(saved[i].diff) == hash(next[i].diff))
            && (Injective(hash) ==> saved == next)
  {
    hide Run, Since, Newest, DistinctPaths, Inv, SavedFiles;
    RunIsFaithful(baseline, polls, timeline, hash);
    SameListIs(SavedFiles(Run(Started(baseline, hash), polls, timeline, hash)), Since(polls[|polls| - 1].0, baseline, hash), hash);
  }

  lemma SameListIs(a: seq<File>, b: seq<File>, hash: string -> string)
    requires SameList(a, b, hash)
    ensures |a| == |b|
    ensures forall i :: 0 <= i < |b| ==> a[i].path == b[i].path && a[i].kind == b[i].kind && hash(a[i].diff) == hash(b[i].diff)
    ensures Injective(hash) ==> a == b
  {
    if Injective(hash) {
      forall i | 0 <= i < |b| ensures a[i] == b[i] {
        assert SameFile(a[i], b[i], hash);
      }
    }
  }

  // ---------------------------------------------------------------- when the item is completed

  /** The newest event of the item. */
  function NewestItem(events: seq<Event>): (r: Option<Event>)
    ensures r.Some? ==> IsItem(r.value)
  {
    if events == [] then None
    else
      var e := events[|events| - 1];
      if IsItem(e) then Some(e) else NewestItem(events[..|events| - 1])
  }

  /** The event reports the item as completed. */
  predicate Completes(e: Event) {
    e.ItemCompleted? || (e.ItemStarted? && e.completed)
  }

  lemma {:induction false} NewestItemStays(events: seq<Event>, more: seq<Event>)
    requires forall i :: 0 <= i < |more| ==> !IsItem(more[i])
    ensures NewestItem(events + more) == NewestItem(events)
  {
    if more == [] {
      assert events + more == events;
    } else {
      assert (events + more)[..|events + more| - 1] == events + more[..|more| - 1];
      NewestItemStays(events, more[..|more| - 1]);
    }
  }

  lemma NewestItemNow(events: seq<Event>, e: Event)
    requires IsItem(e)
    ensures NewestItem(events + [e]) == Some(e)
  {
  }

  /** What one poll reports of the item. */
  lemma PollReports(s: State, files: seq<File>, terminal: bool, hash: string -> string)
    ensures var next := Since(files, s.baseline, hash);
            var changed := Changed(s.last, next, hash);
            var s' := Poll(s, files, terminal, true, hash);
            && s'.baseline == s.baseline && s'.started == (s.started || next != [])
            && NewestItem(s'.events) ==
               if next == [] then if s.started && terminal then Some(ItemCompleted([])) else NewestItem(s.events)
               else if !s.started then Some(ItemStarted(terminal, ChangesOf(next)))
               else if terminal then Some(ItemCompleted(ChangesOf(next)))
               else if changed then Some(ItemUpdated(ChangesOf(next)))
               else NewestItem(s.events)
  {
    hide Since, Changed, Diffs, ChangesOf, NewestItem;
    var next := Since(files, s.baseline, hash);
    var changed := Changed(s.last, next, hash);
    var saved := Saved(s, next, hash);
    if changed { NewestItemStays(s.events, [SnapshotLine(next)]); }
    if next != [] {
      var more := ItemEvents(saved.started, next, terminal, changed);
      DiffsAreDiffs(next, |next|, saved.hashes, terminal, hash);
      if more == [] {
        assert saved.events + more == saved.events;
      } else {
        assert more == [more[0]];
        NewestItemNow(saved.events, more[0]);
      }
      NewestItemStays(saved.events + more, Diffs(next, |next|, saved.hashes, terminal, hash).0);
    } else if saved.started && terminal {
      NewestItemNow(saved.events, ItemCompleted([]));
    }
  }

  /** Some poll has found a change. */
  predicate FoundAny(baseline: seq<File>, polls: seq<(seq<File>, bool)>, hash: string -> string) {
    exists i :: 0 <= i < |polls| && Since(polls[i].0, baseline, hash) != []
  }

  /**
   * In every run whose polls but the last are not terminal: the item exists exactly when some poll
   * has found a change, and it stands as completed exactly when the last poll is terminal.
   */
  lemma {:induction false} RunCompletes(baseline: seq<File>, polls: seq<(seq<File>, bool)>, hash: string -> string)
    requires forall i :: 0 <= i < |polls| - 1 ==> !polls[i].1
    ensures var s := Run(Started(baseline, hash), polls, true, hash);
            var item := NewestItem(s.events);
            && s.baseline == baseline
            && (s.started <==> item.Some?) && (item.Some? <==> FoundAny(baseline, polls, hash))
            && (item.Some? ==> (Completes(item.value) <==> polls[|polls| - 1].1))
  {
    hide Since, Changed, Poll, ChangesOf, FoundAny;
    if polls == [] {
      FoundNone(baseline, hash);
    } else {
      var n := |polls| - 1;
      RunCompletes(baseline, polls[..n], hash);
      FoundMore(baseline, polls, hash);
      PollReports(Run(Started(baseline, hash), polls[..n], true, hash), polls[n].0, polls[n].1, hash);
    }
  }

  lemma FoundNone(baseline: seq<File>, hash: string -> string)
    ensures !FoundAny(baseline, [], hash)
  {
  }

  lemma FoundMore(baseline: seq<File>, polls: seq<(seq<File>, bool)>, hash: string -> string)
    requires polls != []
    ensures var n := |polls| - 1;
            FoundAny(baseline, polls, hash) <==> FoundAny(baseline, polls[..n], hash) || Since(polls[n].0, baseline, hash) != []
  {
    hide Since;
    var n := |polls| - 1;
    if i :| 0 <= i < |polls| && Since(polls[i].0, baseline, hash) != [] {
      if i < n { assert polls[..n][i] == polls[i]; }
    }
    if i :| 0 <= i < n && Since(polls[..n][i].0, baseline, hash) != [] {
      assert polls[i] == polls[..n][i];
    }
  }
}
