/**
 * Pages of provider activity.
 *
 * A provider serves a list L in pages of a fixed size. Filtered pages read on until they have
 * enough; direct pages ask the provider for one page with one item more than they show.
 */
module FilteredPage {

  datatype Page<U> = Page(items: seq<U>, page: nat, pageSize: nat, hasMore: bool)

  function Min(a: nat, b: nat): nat {
    if a < b then a else b
  }

  /** Up to n items from place a on, as `slice` does. */
  function Slice<T>(s: seq<T>, a: nat, n: nat): seq<T> {
    s[Min(a, |s|)..Min(a + n, |s|)]
  }

  /** What the provider answers for its page n, counted from 1. */
  function ProviderPage<T>(list: seq<T>, perPage: nat, n: nat): seq<T>
    requires n >= 1
  {
    Slice(list, (n - 1) * perPage, perPage)
  }

  function Filter<T>(s: seq<T>, keep: T -> bool): (r: seq<T>)
    ensures |r| <= |s|
  {
    if s == [] then []
    else Filter(s[..|s| - 1], keep) + (if keep(s[|s| - 1]) then [s[|s| - 1]] else [])
  }

  function Map<T, U>(s: seq<T>, f: T -> U): (r: seq<U>)
    ensures |r| == |s|
  {
    seq(|s|, i requires 0 <= i < |s| => f(s[i]))
  }

  function BuildPage<U>(items: seq<U>, page: nat, pageSize: nat): Page<U> {
    Page(Slice(items, 0, pageSize), page, pageSize, |items| > pageSize)
  }

  /** The filtered items within the provider pages that may be read. */
  function Visible<T>(list: seq<T>, keep: T -> bool, perPage: nat, maxPages: nat): seq<T> {
    Filter(Slice(list, 0, maxPages * perPage), keep)
  }

  // ---------------------------------------------------------------- small facts

  lemma {:induction false} FilterJoin<T>(a: seq<T>, b: seq<T>, keep: T -> bool)
    ensures Filter(a + b, keep) == Filter(a, keep) + Filter(b, keep)
  {
    if b == [] {
      assert a + b == a;
    } else {
      var n := |b| - 1;
      assert (a + b)[..|a + b| - 1] == a + b[..n];
      FilterJoin(a, b[..n], keep);
    }
  }

  lemma SliceJoin<T>(s: seq<T>, a: nat, b: nat)
    ensures Slice(s, 0, a) + Slice(s, a, b) == Slice(s, 0, a + b)
  {
  }

  lemma NextPage(n: nat, size: nat)
    requires n >= 1
    ensures (n - 1) * size + size == n * size
  {
  }

  /** A slice that lies within a prefix is the same slice of the whole. */
  lemma SliceOfPrefix<T>(a: seq<T>, b: seq<T>, from: nat, n: nat)
    requires from + n <= |a|
    ensures Slice(a + b, from, n) == Slice(a, from, n)
  {
  }

  lemma SliceTwice<T>(s: seq<T>, from: nat, n: nat)
    ensures Slice(Slice(s, from, n + 1), 0, n) == Slice(s, from, n)
    ensures |Slice(s, from, n + 1)| > n <==> |s| > from + n
  {
  }

  lemma MapSlice<T, U>(s: seq<T>, f: T -> U, n: nat)
    ensures Slice(Map(s, f), 0, n) == Map(Slice(s, 0, n), f)
  {
  }

  /** After n pages the rest of what may be read comes after what was collected. */
  lemma CollectedIsPrefix<T>(list: seq<T>, keep: T -> bool, perPage: nat, maxPages: nat, n: nat)
    requires n <= maxPages
    ensures n * perPage <= maxPages * perPage
    ensures exists rest :: Visible(list, keep, perPage, maxPages) == Visible(list, keep, perPage, n) + rest
  {
    hide Slice, Filter;
    var a, b := n * perPage, (maxPages - n) * perPage;
    Distribute(n, maxPages - n, perPage);
    SliceJoin(list, a, b);
    FilterJoin(Slice(list, 0, a), Slice(list, a, b), keep);
    assert Visible(list, keep, perPage, maxPages) == Visible(list, keep, perPage, n) + Filter(Slice(list, a, b), keep);
  }

  lemma Distribute(a: nat, b: nat, c: nat)
    ensures a * c + b * c == (a + b) * c
  {
  }

  // ---------------------------------------------------------------- filtered pages

  /**
   * The page-th slice of the visible items, and whether there is one more after it, whichever of
   * the two early exits ends the loop.
   */
  method ListFilteredPage<T, U>(list: seq<T>, page: nat, pageSize: nat, perPage: nat, maxPages: nat,
                                keep: T -> bool, show: T -> U) returns (r: Page<U>)
    requires page >= 1 && pageSize >= 1 && perPage >= 1
    ensures var visible := Visible(list, keep, perPage, maxPages);
            && r.items == Map(Slice(visible, (page - 1) * pageSize, pageSize), show)
            && (r.hasMore <==> |visible| > page * pageSize)
            && r.page == page && r.pageSize == pageSize
  {
    hide *;
    var offset := (page - 1) * pageSize;
    var needed := offset + pageSize + 1;
    var collected: seq<T> := [];
    var providerPage := 1;
    ghost var visible := Visible(list, keep, perPage, maxPages);
    NothingVisible(list, keep, perPage);
    while providerPage <= maxPages
      invariant 1 <= providerPage <= maxPages + 1
      invariant collected == Visible(list, keep, perPage, providerPage - 1)
    {
      var raw := ProviderPage(list, perPage, providerPage);
      OnePageMore(list, keep, perPage, providerPage);
      collected := collected + Filter(raw, keep);
      if |collected| >= needed {
        EnoughCollected(list, keep, perPage, maxPages, providerPage, offset, pageSize + 1);
        break;
      }
      if |raw| < perPage {
        ListExhausted(list, keep, perPage, maxPages, providerPage);
        break;
      }
      providerPage := providerPage + 1;
    }
    var slice := Slice(collected, offset, pageSize + 1);
    assert slice == Slice(visible, offset, pageSize + 1);
    r := BuildPage(Map(slice, show), page, pageSize);
    PageBuilt(visible, page, pageSize, show);
  }

  lemma NothingVisible<T>(list: seq<T>, keep: T -> bool, perPage: nat)
    ensures Visible(list, keep, perPage, 0) == []
  {
  }

  lemma OnePageMore<T>(list: seq<T>, keep: T -> bool, perPage: nat, n: nat)
    requires n >= 1
    ensures Visible(list, keep, perPage, n - 1) + Filter(ProviderPage(list, perPage, n), keep) == Visible(list, keep, perPage, n)
  {
    hide Slice, Filter;
    var a := (n - 1) * perPage;
    NextPage(n, perPage);
    SliceJoin(list, a, perPage);
    FilterJoin(Slice(list, 0, a), Slice(list, a, perPage), keep);
  }

  lemma EnoughCollected<T>(list: seq<T>, keep: T -> bool, perPage: nat, maxPages: nat, n: nat, offset: nat, k: nat)
    requires n <= maxPages && |Visible(list, keep, perPage, n)| >= offset + k
    ensures Slice(Visible(list, keep, perPage, n), offset, k) == Slice(Visible(list, keep, perPage, maxPages), offset, k)
  {
    hide Slice, Visible;
    CollectedIsPrefix(list, keep, perPage, maxPages, n);
    var rest :| Visible(list, keep, perPage, maxPages) == Visible(list, keep, perPage, n) + rest;
    SliceOfPrefix(Visible(list, keep, perPage, n), rest, offset, k);
  }

  lemma ListExhausted<T>(list: seq<T>, keep: T -> bool, perPage: nat, maxPages: nat, n: nat)
    requires 1 <= n <= maxPages && |ProviderPage(list, perPage, n)| < perPage
    ensures Visible(list, keep, perPage, n) == Visible(list, keep, perPage, maxPages)
  {
    hide Filter;
    NextPage(n, perPage);
    CollectedIsPrefix(list, keep, perPage, maxPages, n);
    assert Slice(list, 0, n * perPage) == list && Slice(list, 0, maxPages * perPage) == list;
  }

  lemma PageBuilt<T, U>(visible: seq<T>, page: nat, pageSize: nat, f: T -> U)
    requires page >= 1
    ensures var offset := (page - 1) * pageSize;
            BuildPage(Map(Slice(visible, offset, pageSize + 1), f), page, pageSize)
            == Page(Map(Slice(visible, offset, pageSize), f), page, pageSize, |visible| > page * pageSize)
  {
    hide Slice, Map;
    var offset := (page - 1) * pageSize;
    NextPage(page, pageSize);
    SliceTwice(visible, offset, pageSize);
    MapSlice(Slice(visible, offset, pageSize + 1), f, pageSize);
  }

  // ---------------------------------------------------------------- pages put together

  /** The first k pages, each of the given size and step, one after the other. */
  function Pages<T>(s: seq<T>, step: nat, size: nat, k: nat): seq<T> {
    if k == 0 then [] else Pages(s, step, size, k - 1) + Slice(s, (k - 1) * step, size)
  }

  /** Filtered pages put together are the visible items, without a gap or a repetition. */
  lemma {:induction false} FilteredPagesJoin<T>(visible: seq<T>, pageSize: nat, k: nat)
    ensures Pages(visible, pageSize, pageSize, k) == Slice(visible, 0, k * pageSize)
    ensures k * pageSize >= |visible| ==> Pages(visible, pageSize, pageSize, k) == visible
  {
    hide Slice;
    if k == 0 {
      SliceNothing(visible);
    } else {
      FilteredPagesJoin(visible, pageSize, k - 1);
      NextPage(k, pageSize);
      SliceJoin(visible, (k - 1) * pageSize, pageSize);
    }
    SliceAll(visible, k * pageSize);
  }

  lemma SliceNothing<T>(s: seq<T>)
    ensures Slice(s, 0, 0) == []
  {
  }

  lemma SliceAll<T>(s: seq<T>, n: nat)
    ensures n >= |s| ==> Slice(s, 0, n) == s
  {
  }

  lemma MapJoin<T, U>(a: seq<T>, b: seq<T>, f: T -> U)
    ensures Map(a, f) + Map(b, f) == Map(a + b, f)
  {
  }

  lemma PagesNext<T>(s: seq<T>, size: nat, k: nat)
    requires k >= 1
    ensures Pages(s, size, size, k) == Pages(s, size, size, k - 1) + Slice(s, (k - 1) * size, size)
    ensures Pages(s, size, size, 0) == []
  {
    hide Slice;
  }

  lemma MapNothing<T, U>(f: T -> U)
    ensures Map([], f) == []
  {
  }

  /** Turning pages from the first one for as long as there is more: all visible items, and no page too many. */
  method WalkFilteredPages<T, U>(list: seq<T>, pageSize: nat, perPage: nat, maxPages: nat,
                                 keep: T -> bool, show: T -> U) returns (all: seq<U>, pages: nat)
    requires pageSize >= 1 && perPage >= 1
    ensures all == Map(Visible(list, keep, perPage, maxPages), show)
    ensures pages >= 1 && pages * pageSize >= |all| && (pages > 1 ==> (pages - 1) * pageSize < |all|)
  {
    hide *;
    ghost var visible := Visible(list, keep, perPage, maxPages);
    all, pages := [], 1;
    PagesNext(visible, pageSize, 1);
    MapNothing<T, U>(show);
    while true
      invariant pages >= 1 && all == Map(Pages(visible, pageSize, pageSize, pages - 1), show)
      invariant pages > 1 ==> (pages - 1) * pageSize < |visible|
      decreases |visible| - (pages - 1) * pageSize
    {
      var r := ListFilteredPage(list, pages, pageSize, perPage, maxPages, keep, show);
      PagesNext(visible, pageSize, pages);
      MapJoin(Pages(visible, pageSize, pageSize, pages - 1), Slice(visible, (pages - 1) * pageSize, pageSize), show);
      all := all + r.items;
      NextPage(pages, pageSize);
      if !r.hasMore {
        FilteredPagesJoin(visible, pageSize, pages);
        return;
      }
      pages := pages + 1;
    }
  }

  lemma {:induction false} FilterNone<T>(s: seq<T>, keep: T -> bool)
    ensures Filter(s, keep) == [] <==> forall i :: 0 <= i < |s| ==> !keep(s[i])
  {
    if s != [] {
      var n := |s| - 1;
      FilterNone(s[..n], keep);
      assert forall i :: 0 <= i < n ==> s[..n][i] == s[i];
    }
  }

  lemma MapOfMore<T, U>(a: seq<T>, b: seq<T>, f: T -> U)
    ensures Map(a, f) == Map(a + b, f) <==> b == []
  {
    if b == [] {
      assert a + b == a;
    } else {
      assert |Map(a, f)| != |Map(a + b, f)|;
    }
  }

  predicate NoneFrom<T>(list: seq<T>, m: nat, keep: T -> bool) {
    forall i :: m <= i < |list| ==> !keep(list[i])
  }

  lemma NoneFromTail<T>(list: seq<T>, n: nat, keep: T -> bool)
    requires n <= |list|
    ensures NoneFrom(list, n, keep) <==> Filter(list[n..], keep) == []
  {
    hide Filter;
    FilterNone(list[n..], keep);
    if NoneFrom(list, n, keep) {
      assert forall j :: 0 <= j < |list| - n ==> list[n..][j] == list[n + j];
    } else {
      var i :| n <= i < |list| && keep(list[i]);
      assert list[n..][i - n] == list[i];
    }
  }

  lemma NoneFromBound<T>(list: seq<T>, m: nat, keep: T -> bool)
    ensures NoneFrom(list, Min(m, |list|), keep) <==> NoneFrom(list, m, keep)
  {
  }

  lemma SliceIsPrefix<T>(s: seq<T>, m: nat)
    ensures Min(m, |s|) <= |s| && Slice(s, 0, m) == s[..Min(m, |s|)]
  {
  }

  lemma CutAt<T>(s: seq<T>, n: nat)
    requires n <= |s|
    ensures s[..n] + s[n..] == s
  {
  }

  lemma PrefixSplits<T>(list: seq<T>, keep: T -> bool, m: nat)
    ensures Min(m, |list|) <= |list|
    ensures Filter(list, keep) == Filter(Slice(list, 0, m), keep) + Filter(list[Min(m, |list|)..], keep)
  {
    hide *;
    SliceIsPrefix(list, m);
    var n := Min(m, |list|);
    CutAt(list, n);
    FilterJoin(list[..n], list[n..], keep);
  }

  lemma VisibleIs<T>(list: seq<T>, keep: T -> bool, perPage: nat, maxPages: nat)
    ensures Visible(list, keep, perPage, maxPages) == Filter(Slice(list, 0, maxPages * perPage), keep)
  {
    hide Slice, Filter;
  }

  /** The visible items are all that pass the filter exactly when none of those passes that is too far back to be read. */
  lemma VisibleIsAll<T, U>(list: seq<T>, keep: T -> bool, perPage: nat, maxPages: nat, show: T -> U)
    ensures Map(Visible(list, keep, perPage, maxPages), show) == Map(Filter(list, keep), show)
            <==> NoneFrom(list, maxPages * perPage, keep)
  {
    hide Slice, Filter, Visible, Map, NoneFrom;
    var m := maxPages * perPage;
    VisibleIs(list, keep, perPage, maxPages);
    PrefixSplits(list, keep, m);
    MapOfMore(Visible(list, keep, perPage, maxPages), Filter(list[Min(m, |list|)..], keep), show);
    NoneFromTail(list, Min(m, |list|), keep);
    NoneFromBound(list, m, keep);
  }

  // ---------------------------------------------------------------- direct pages

  /** A page read straight from the provider: one more item is asked for than shown, and so the provider's pages are longer. */
  function DirectPage<T, U>(list: seq<T>, page: nat, pageSize: nat, f: T -> U): Page<U>
    requires page >= 1
  {
    BuildPage(Map(ProviderPage(list, pageSize + 1, page), f), page, pageSize)
  }

  lemma DirectPageIsSlice<T, U>(list: seq<T>, page: nat, pageSize: nat, f: T -> U)
    requires page >= 1
    ensures DirectPage(list, page, pageSize, f) ==
            Page(Map(Slice(list, (page - 1) * (pageSize + 1), pageSize), f), page, pageSize, |list| >= page * (pageSize + 1))
  {
    hide Slice, Map;
    var offset := (page - 1) * (pageSize + 1);
    NextPage(page, pageSize + 1);
    SliceTwice(list, offset, pageSize);
    MapSlice(Slice(list, offset, pageSize + 1), f, pageSize);
  }

  /** Which item of the list shows on which direct page: none for every (pageSize + 1)-th one. */
  lemma DirectPagesShow<T>(list: seq<T>, pageSize: nat, i: nat, page: nat, at: nat)
    requires i < |list| && page >= 1
    ensures (at < pageSize && (page - 1) * (pageSize + 1) + at == i) <==>
            (i % (pageSize + 1) != pageSize && page == i / (pageSize + 1) + 1 && at == i % (pageSize + 1))
  {
    var n := pageSize + 1;
    if at < pageSize && (page - 1) * n + at == i {
      DivisionIsUnique(i, n, page - 1, at);
    }
    assert i == i / n * n + i % n;
  }

  lemma DivisionIsUnique(i: nat, n: nat, q: nat, r: nat)
    requires n > 0 && i == q * n + r && r < n
    ensures q == i / n && r == i % n
  {
    var q', r' := i / n, i % n;
    assert i == q' * n + r';
    if q < q' {
      assert (q + 1) * n <= q' * n by { Monotone(q + 1, q', n); }
    } else if q' < q {
      assert (q' + 1) * n <= q * n by { Monotone(q' + 1, q, n); }
    }
  }

  lemma Monotone(a: nat, b: nat, n: nat)
    requires a <= b
    ensures a * n <= b * n
  {
    Distribute(a, b - a, n);
  }

  lemma {:induction false} DirectPagesLength<T>(list: seq<T>, pageSize: nat, k: nat)
    ensures |Pages(list, pageSize + 1, pageSize, k)| <= k * pageSize
    ensures k * (pageSize + 1) <= |list| ==> |Pages(list, pageSize + 1, pageSize, k)| == k * pageSize
  {
    if k > 0 {
      DirectPagesLength(list, pageSize, k - 1);
      NextPage(k, pageSize + 1);
      NextPage(k, pageSize);
    }
  }

  lemma {:induction false} DirectPagesGrow<T>(list: seq<T>, pageSize: nat, k: nat)
    requires k >= 1
    ensures |list| <= pageSize ==> Pages(list, pageSize + 1, pageSize, k) == list
    ensures |list| > pageSize ==> |Pages(list, pageSize + 1, pageSize, k)| <= |list| - 1
  {
    var n := pageSize + 1;
    NextPage(k, n);
    if k == 1 {
      assert Pages(list, n, pageSize, 0) == [];
      assert Pages(list, n, pageSize, 1) == [] + Slice(list, 0, pageSize);
    } else {
      DirectPagesGrow(list, pageSize, k - 1);
      Monotone(1, k - 1, n);
      var before, last := Pages(list, n, pageSize, k - 1), Slice(list, (k - 1) * n, pageSize);
      if |list| <= pageSize {
        assert last == [] && before + [] == before;
      } else if (k - 1) * n < |list| {
        DirectPagesLength(list, pageSize, k - 1);
        Distribute2(k - 1, pageSize);
      } else {
        assert last == [];
      }
    }
  }

  lemma Distribute2(k: nat, pageSize: nat)
    ensures k * (pageSize + 1) == k * pageSize + k
  {
  }

  /** Direct pages put together give the list back exactly when it fits on one page. */
  lemma DirectPagesJoinExactly<T>(list: seq<T>, pageSize: nat, k: nat)
    requires k >= 1
    ensures Pages(list, pageSize + 1, pageSize, k) == list <==> |list| <= pageSize
  {
    hide Pages;
    DirectPagesGrow(list, pageSize, k);
  }
}
