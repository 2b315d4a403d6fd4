/**
 * Keyset pagination of approval requests.
 *
 * A page query reads the rows after a cursor in descending (createdAt, id) order. Between two
 * pages of a walk the table may change in any way, so a walk is a list of tables, one a page.
 */
module Pagination {
  import opened Text

  /** What the order and the cursors are about. Both columns are written once, at creation. */
  datatype Key = Key(createdAt: int, id: nat)

  datatype Request = Request(key: Key, status: string, repoId: Option<string>, taskId: string)

  datatype Params = Params(
    limit: int,
    status: string,
    repoId: string,
    taskId: string,
    allowedRepoIds: Option<seq<string>>)

  datatype Page = Page(approvals: seq<Request>, next: Option<Key>)

  predicate Less(a: Key, b: Key) {
    a.createdAt < b.createdAt || (a.createdAt == b.createdAt && a.id < b.id)
  }

  /** `id` is the primary key of the table. */
  predicate Keyed(table: seq<Request>) {
    forall i, j :: 0 <= i < j < |table| ==> table[i].key.id != table[j].key.id
  }

  // ---------------------------------------------------------------- the query

  /** The page size: 20 when absent or zero, between 1 and 200. */
  function PageSize(limit: int): (take: nat)
    ensures 1 <= limit <= 200 ==> take == limit
    ensures limit == 0 ==> take == 20
    ensures limit < 0 ==> take == 1
    ensures limit > 200 ==> take == 200
  {
    var asked := if limit == 0 then 20 else limit;
    var floored := if asked < 1 then 1 else asked;
    if floored > 200 then 200 else floored
  }

  /** Empty strings stand for absent filters, which a truthiness test skips. */
  predicate Matches(params: Params, row: Request) {
    && (params.status != "" ==> row.status == params.status)
    && (params.taskId != "" ==> row.taskId == params.taskId)
    && (params.repoId != "" ==> row.repoId == Some(params.repoId))
    && (params.repoId == "" && params.allowedRepoIds.Some? ==>
          row.repoId.Some? && row.repoId.value in params.allowedRepoIds.value)
  }

  predicate After(cursor: Option<Key>, row: Request) {
    cursor.Some? ==> Less(row.key, cursor.value)
  }

  function Insert(row: Request, rows: seq<Request>): seq<Request> {
    if rows == [] then [row]
    else if Less(rows[0].key, row.key) then [row] + rows
    else [rows[0]] + Insert(row, rows[1..])
  }

  /** The rows that a query selects, in the order it asks for. */
  function Select(table: seq<Request>, params: Params, cursor: Option<Key>): seq<Request> {
    if table == [] then []
    else
      var rest := Select(table[1..], params, cursor);
      if Matches(params, table[0]) && After(cursor, table[0]) then Insert(table[0], rest) else rest
  }

  function Limited(rows: seq<Request>, n: nat): seq<Request> {
    if |rows| <= n then rows else rows[..n]
  }

  function ListPage(table: seq<Request>, params: Params, cursor: Option<Key>): Page {
    if params.allowedRepoIds == Some([]) && params.repoId == "" then Page([], None)
    else
      var take := PageSize(params.limit);
      var rows := Limited(Select(table, params, cursor), take + 1);
      var hasMore := |rows| > take;
      var sliced := if hasMore then rows[..take] else rows;
      Page(sliced, if hasMore then Some(sliced[|sliced| - 1].key) else None)
  }

  // ---------------------------------------------------------------- what a query returns

  predicate Descending(rows: seq<Request>) {
    forall i, j :: 0 <= i < j < |rows| ==> Less(rows[j].key, rows[i].key)
  }

  lemma {:induction false} InsertKeepsOrder(row: Request, rows: seq<Request>)
    requires Descending(rows)
    requires forall r :: r in rows ==> r.key.id != row.key.id
    ensures Descending(Insert(row, rows))
    ensures forall r :: r in Insert(row, rows) <==> r == row || r in rows
  {
    if rows != [] && !Less(rows[0].key, row.key) {
      var rest := Insert(row, rows[1..]);
      InsertKeepsOrder(row, rows[1..]);
      assert rows == [rows[0]] + rows[1..];
      forall j | 0 <= j < |rest| ensures Less(rest[j].key, rows[0].key) {
        assert rest[j] in rest;
      }
    } else if rows != [] {
      forall j | 0 <= j < |rows| ensures Less(rows[j].key, row.key) {
      }
    }
  }

  /** A query selects the matching rows after the cursor, no others, and orders them. */
  lemma {:induction false} SelectIsExact(table: seq<Request>, params: Params, cursor: Option<Key>)
    requires Keyed(table)
    ensures Descending(Select(table, params, cursor))
    ensures forall r :: r in Select(table, params, cursor) <==> r in table && Matches(params, r) && After(cursor, r)
  {
    hide Matches, After, Less, Insert;
    if table != [] {
      var rest := Select(table[1..], params, cursor);
      assert Keyed(table[1..]);
      SelectIsExact(table[1..], params, cursor);
      assert table == [table[0]] + table[1..];
      forall r | r in rest ensures r.key.id != table[0].key.id {
        assert r in table[1..];
      }
      InsertKeepsOrder(table[0], rest);
    }
  }

  function Head<T>(s: seq<T>): (r: Option<T>)
    ensures r.None? <==> s == []
    ensures r.Some? ==> r.value == s[0] && r.value in s
  {
    if s == [] then None else Some(s[0])
  }

  /** Two descending lists of the same rows are the same list. */
  lemma {:induction false} DescendingIsUnique(a: seq<Request>, b: seq<Request>)
    requires Descending(a) && Descending(b)
    requires forall r :: r in a <==> r in b
    ensures a == b
  {
    var x, y := Head(a), Head(b);
    if a != [] {
      assert b[0] in a;
      assert a[0] == b[0];
      assert a == [a[0]] + a[1..] && b == [b[0]] + b[1..];
      forall r ensures r in a[1..] <==> r in b[1..] {
        if r in a[1..] { assert r in b && r != b[0]; }
        if r in b[1..] { assert r in a && r != a[0]; }
      }
      DescendingIsUnique(a[1..], b[1..]);
    }
  }

  /** A page is the first rows of the selection, and carries a cursor exactly when there are more. */
  lemma PageIsPrefix(table: seq<Request>, params: Params, cursor: Option<Key>)
    requires Keyed(table)
    ensures var all := Select(table, params, cursor);
            var take := PageSize(params.limit);
            var page := ListPage(table, params, cursor);
            && page.approvals == Limited(all, take)
            && (page.next.Some? <==> |all| > take)
            && (page.next.Some? ==> page.next.value == all[take - 1].key)
  {
    hide After, Less, Select, PageSize;
    var all := Select(table, params, cursor);
    if params.allowedRepoIds == Some([]) && params.repoId == "" {
      SelectIsExact(table, params, cursor);
      var none := Head(all);
    }
  }

  // ---------------------------------------------------------------- a walk

  /** Following the cursor: page k is read from the table as it is at that time. */
  function Walk(tables: seq<seq<Request>>, params: Params, cursor: Option<Key>): seq<Page> {
    if tables == [] then []
    else
      var page := ListPage(tables[0], params, cursor);
      if page.next.None? then [page] else [page] + Walk(tables[1..], params, page.next)
  }

  predicate Finished(walk: seq<Page>) {
    walk != [] && walk[|walk| - 1].next.None?
  }

  function Returned(walk: seq<Page>): seq<Request> {
    if walk == [] then [] else walk[0].approvals + Returned(walk[1..])
  }

  predicate AllKeyed(tables: seq<seq<Request>>) {
    forall k :: 0 <= k < |tables| ==> Keyed(tables[k])
  }

  lemma NotInPrefix<T>(s: seq<T>, n: nat, x: T)
    requires n <= |s| && x in s && x !in s[..n]
    ensures exists i :: n <= i < |s| && s[i] == x
  {
    assert s == s[..n] + s[n..];
    var i :| 0 <= i < |s[n..]| && s[n..][i] == x;
    assert s[n + i] == x;
  }

  /** The rows that one page adds, and where the next one goes on. */
  lemma PageRows(table: seq<Request>, params: Params, cursor: Option<Key>)
    requires Keyed(table)
    ensures var page := ListPage(table, params, cursor);
            && Descending(page.approvals)
            && (forall r :: r in page.approvals ==> r in table && Matches(params, r) && After(cursor, r))
            && (page.next.Some? ==> page.approvals != [] && page.approvals[|page.approvals| - 1].key == page.next.value)
            && (forall r :: r in table && Matches(params, r) && After(cursor, r) && r !in page.approvals ==>
                  page.next.Some? && After(page.next, r))
  {
    hide Matches, Less, Select, ListPage;
    var all := Select(table, params, cursor);
    var page := ListPage(table, params, cursor);
    PageIsPrefix(table, params, cursor);
    SelectIsExact(table, params, cursor);
    assert page.approvals == all[..|page.approvals|];
    forall r | r in page.approvals ensures r in all {
    }
    forall r | r in all && r !in page.approvals ensures page.next.Some? && After(page.next, r) {
      NotInPrefix(all, |page.approvals|, r);
    }
  }

  lemma WalkUnfolds(tables: seq<seq<Request>>, params: Params, cursor: Option<Key>)
    requires tables != []
    ensures var page := ListPage(tables[0], params, cursor);
            var walk := Walk(tables, params, cursor);
            && walk != [] && walk[0] == page
            && walk[1..] == (if page.next.None? then [] else Walk(tables[1..], params, page.next))
            && Returned(walk) == page.approvals + Returned(walk[1..])
            && (page.next.Some? ==> (Finished(walk) <==> Finished(walk[1..])))
  {
    hide ListPage;
  }

  lemma AfterIsTransitive(a: Option<Key>, b: Key, r: Request)
    requires a.Some? ==> Less(b, a.value)
    requires After(Some(b), r)
    ensures After(a, r)
  {
  }

  /** Whatever happens to the table, a walk goes strictly downwards: no row comes back. */
  lemma {:induction false} WalkDescends(tables: seq<seq<Request>>, params: Params, cursor: Option<Key>)
    requires AllKeyed(tables)
    ensures Descending(Returned(Walk(tables, params, cursor)))
    ensures forall r :: r in Returned(Walk(tables, params, cursor)) ==> After(cursor, r)
  {
    hide ListPage, Walk, Matches;
    if tables != [] {
      var page := ListPage(tables[0], params, cursor);
      WalkUnfolds(tables, params, cursor);
      PageRows(tables[0], params, cursor);
      if page.next.Some? {
        var rest := Returned(Walk(tables[1..], params, page.next));
        WalkDescends(tables[1..], params, page.next);
        DescendingJoin(page.approvals, rest);
        forall r | r in rest ensures After(cursor, r) {
          assert page.approvals[|page.approvals| - 1] in page.approvals;
          AfterIsTransitive(cursor, page.next.value, r);
        }
      }
    } else {
      WalkOfNone(params, cursor);
    }
  }

  lemma DescendingJoin(a: seq<Request>, b: seq<Request>)
    requires a != [] && Descending(a) && Descending(b)
    requires forall r :: r in b ==> Less(r.key, a[|a| - 1].key)
    ensures Descending(a + b)
  {
    forall i, j | 0 <= i < j < |a + b| ensures Less((a + b)[j].key, (a + b)[i].key) {
      if i < |a| <= j {
        assert b[j - |a|] in b;
      }
    }
  }

  /** A row with this key that the filter accepts is in the table. */
  predicate Present(table: seq<Request>, params: Params, key: Key) {
    exists r :: r in table && r.key == key && Matches(params, r)
  }

  /**
   * A finished walk has returned every row that was there, and accepted by the filter, each time
   * a page was read. With `WalkDescends`: exactly once.
   */
  lemma {:induction false} WalkMissesNothing(tables: seq<seq<Request>>, params: Params, cursor: Option<Key>, key: Key)
    requires AllKeyed(tables)
    requires var walk := Walk(tables, params, cursor);
             Finished(walk) && |walk| <= |tables| && forall k :: 0 <= k < |walk| ==> Present(tables[k], params, key)
    requires cursor.Some? ==> Less(key, cursor.value)
    ensures exists r :: r in Returned(Walk(tables, params, cursor)) && r.key == key
  {
    hide ListPage, Walk, Matches, Less;
    if tables != [] {
      var walk := Walk(tables, params, cursor);
      var page := ListPage(tables[0], params, cursor);
      WalkUnfolds(tables, params, cursor);
      PageRows(tables[0], params, cursor);
      assert Present(tables[0], params, key);
      var row :| row in tables[0] && row.key == key && Matches(params, row);
      if row in page.approvals {
        assert row in Returned(walk);
      } else {
        forall k | 0 <= k < |walk[1..]| ensures Present(tables[1..][k], params, key) {
          assert Present(tables[k + 1], params, key);
        }
        WalkMissesNothing(tables[1..], params, page.next, key);
        var r :| r in Returned(walk[1..]) && r.key == key;
        assert r in Returned(walk);
      }
    }
  }

  /** A walk returns only rows that the table of one of its pages held and the filter accepts. */
  lemma {:induction false} WalkInventsNothing(tables: seq<seq<Request>>, params: Params, cursor: Option<Key>,
                                              r: Request)
    requires AllKeyed(tables)
    requires r in Returned(Walk(tables, params, cursor))
    ensures Matches(params, r) && exists k :: 0 <= k < |tables| && r in tables[k]
  {
    hide ListPage, Walk, Matches, Less, After;
    if tables != [] {
      var page := ListPage(tables[0], params, cursor);
      WalkUnfolds(tables, params, cursor);
      PageRows(tables[0], params, cursor);
      if r !in page.approvals {
        WalkInventsNothing(tables[1..], params, page.next, r);
        var k :| 0 <= k < |tables[1..]| && r in tables[1..][k];
        assert r in tables[k + 1];
      }
    } else {
      WalkOfNone(params, cursor);
    }
  }

  lemma WalkOfNone(params: Params, cursor: Option<Key>)
    ensures Walk([], params, cursor) == []
  {
  }

  function Below(keys: set<Key>, cursor: Option<Key>): set<Key> {
    if cursor.None? then keys else set k | k in keys && Less(k, cursor.value)
  }

  /** As long as finitely many rows ever appear, a walk ends. */
  lemma {:induction false} WalkEnds(tables: seq<seq<Request>>, params: Params, cursor: Option<Key>, keys: set<Key>)
    requires AllKeyed(tables)
    requires forall k :: 0 <= k < |tables| ==> forall r :: r in tables[k] ==> r.key in keys
    requires |tables| > |Below(keys, cursor)|
    ensures Finished(Walk(tables, params, cursor))
  {
    hide ListPage, Walk, Matches, Less;
    var page := ListPage(tables[0], params, cursor);
    WalkUnfolds(tables, params, cursor);
    PageRows(tables[0], params, cursor);
    if page.next.Some? {
      var last := page.approvals[|page.approvals| - 1];
      assert last in page.approvals;
      assert last.key in Below(keys, cursor);
      LessIsIrreflexive(last.key);
      assert last.key !in Below(keys, page.next);
      forall k | k in Below(keys, page.next) ensures k in Below(keys, cursor) {
        AfterIsTransitive(cursor, page.next.value, last.(key := k));
      }
      assert Below(keys, page.next) < Below(keys, cursor);
      Shrinks(Below(keys, page.next), Below(keys, cursor));
      WalkEnds(tables[1..], params, page.next, keys);
    }
  }

  lemma LessIsIrreflexive(k: Key)
    ensures !Less(k, k)
  {
  }

  lemma Shrinks<T>(a: set<T>, b: set<T>)
    requires a < b
    ensures |a| < |b|
  {
    var x :| x in b && x !in a;
    assert a <= b - {x};
    Grows(a, b - {x});
  }

  lemma {:induction false} Grows<T>(a: set<T>, b: set<T>)
    requires a <= b
    ensures |a| <= |b|
  {
    if a != {} {
      var x :| x in a;
      Grows(a - {x}, b - {x});
    }
  }

  // ---------------------------------------------------------------- a table at rest

  /** After a full page the selection goes on where the page stopped. */
  lemma SelectGoesOn(table: seq<Request>, params: Params, cursor: Option<Key>, n: nat)
    requires Keyed(table)
    requires 0 < n <= |Select(table, params, cursor)|
    ensures Select(table, params, Some(Select(table, params, cursor)[n - 1].key)) == Select(table, params, cursor)[n..]
  {
    hide Select, Matches;
    var all := Select(table, params, cursor);
    var next := Some(all[n - 1].key);
    var rest := Select(table, params, next);
    SelectIsExact(table, params, cursor);
    SelectIsExact(table, params, next);
    assert all[n - 1] in all;
    forall r ensures r in rest <==> r in all[n..] {
      if r in all[n..] {
        var i :| n <= i < |all| && all[i] == r;
      }
      if r in rest {
        AfterIsTransitive(cursor, next.value, r);
        var i :| 0 <= i < |all| && all[i] == r;
        if i < n - 1 { assert Less(all[n - 1].key, r.key); }
      }
    }
    DescendingIsUnique(rest, all[n..]);
  }

  /** The number of pages for `total` rows: at least one, and no empty one after the first. */
  function Pages(total: nat, take: nat): nat
    requires take > 0
  {
    if total <= take then 1 else 1 + Pages(total - take, take)
  }

  /** On a table at rest the pages, put together, are the whole selection in its order. */
  lemma {:induction false} FixedTableWalk(table: seq<Request>, params: Params, cursor: Option<Key>, n: nat)
    requires Keyed(table)
    requires n >= Pages(|Select(table, params, cursor)|, PageSize(params.limit))
    ensures var walk := Walk(seq(n, _ => table), params, cursor);
            && Finished(walk)
            && |walk| == Pages(|Select(table, params, cursor)|, PageSize(params.limit))
            && Returned(walk) == Select(table, params, cursor)
    decreases n
  {
    hide Select, ListPage, Walk, PageSize;
    var tables := seq(n, _ => table);
    var all := Select(table, params, cursor);
    var take := PageSize(params.limit);
    var page := ListPage(table, params, cursor);
    var walk := Walk(tables, params, cursor);
    WalkUnfolds(tables, params, cursor);
    PageIsPrefix(table, params, cursor);
    if page.next.Some? {
      assert tables[1..] == seq(n - 1, _ => table);
      SelectGoesOn(table, params, cursor, take);
      FixedTableWalk(table, params, page.next, n - 1);
      assert all == all[..take] + all[take..];
    }
  }

  // ---------------------------------------------------------------- pages and walks, field by field

  /** Filters that are given are equalities; without a repository filter the scope decides, if there is one. */
  lemma MatchesSpelled(params: Params, row: Request)
    ensures Matches(params, row) <==>
            && (params.status == "" || row.status == params.status)
            && (params.taskId == "" || row.taskId == params.taskId)
            && (if params.repoId != "" then row.repoId == Some(params.repoId)
                else params.allowedRepoIds.None?
                     || exists i :: 0 <= i < |params.allowedRepoIds.value| && row.repoId == Some(params.allowedRepoIds.value[i]))
  {
  }

  /** Newer first, and of two created at once the one with the greater id. */
  lemma DescendingSpelled(rows: seq<Request>)
    ensures Descending(rows) <==> forall i, j :: 0 <= i < j < |rows| ==>
              rows[j].key.createdAt < rows[i].key.createdAt
              || (rows[j].key.createdAt == rows[i].key.createdAt && rows[j].key.id < rows[i].key.id)
  {
  }

  lemma AfterSpelled(cursor: Option<Key>, row: Request)
    ensures After(cursor, row) <==>
            cursor.None? || row.key.createdAt < cursor.value.createdAt
            || (row.key.createdAt == cursor.value.createdAt && row.key.id < cursor.value.id)
  {
  }

  /** What one page shows: rows of the table behind the cursor that the filters accept, newest first, none left out. */
  lemma PageShows(table: seq<Request>, params: Params, cursor: Option<Key>, r: Request)
    requires Keyed(table)
    ensures var rows := ListPage(table, params, cursor).approvals;
            && |rows| <= PageSize(params.limit)
            && forall i, j :: 0 <= i < j < |rows| ==>
                 rows[j].key.createdAt < rows[i].key.createdAt
                 || (rows[j].key.createdAt == rows[i].key.createdAt && rows[j].key.id < rows[i].key.id)
    ensures var page := ListPage(table, params, cursor);
            var wanted :=
              && r in table
              && (params.status == "" || r.status == params.status)
              && (params.taskId == "" || r.taskId == params.taskId)
              && (if params.repoId != "" then r.repoId == Some(params.repoId)
                  else params.allowedRepoIds.None?
                       || exists i :: 0 <= i < |params.allowedRepoIds.value| && r.repoId == Some(params.allowedRepoIds.value[i]))
              && (cursor.None? || r.key.createdAt < cursor.value.createdAt
                  || (r.key.createdAt == cursor.value.createdAt && r.key.id < cursor.value.id));
            && (r in page.approvals ==> wanted)
            && (wanted && r !in page.approvals ==>
                  page.next.Some?
                  && (r.key.createdAt < page.next.value.createdAt
                      || (r.key.createdAt == page.next.value.createdAt && r.key.id < page.next.value.id)))
  {
    hide *;
    var page := ListPage(table, params, cursor);
    PageRows(table, params, cursor);
    PageIsPrefix(table, params, cursor);
    LimitedFits(Select(table, params, cursor), PageSize(params.limit));
    DescendingSpelled(page.approvals);
    MatchesSpelled(params, r);
    AfterSpelled(cursor, r);
    AfterSpelled(page.next, r);
  }

  lemma LimitedFits(rows: seq<Request>, n: nat)
    ensures |Limited(rows, n)| <= n
  {
  }

  /** On a table at rest a walk from the start shows exactly the rows that the filters accept, newest first. */
  lemma WalkShowsExactly(table: seq<Request>, params: Params, n: nat, r: Request)
    requires Keyed(table) && n >= Pages(|Select(table, params, None)|, PageSize(params.limit))
    ensures var walk := Walk(seq(n, _ => table), params, None);
            var rows := Returned(walk);
            && Finished(walk)
            && (r in rows <==>
                  && r in table
                  && (params.status == "" || r.status == params.status)
                  && (params.taskId == "" || r.taskId == params.taskId)
                  && (if params.repoId != "" then r.repoId == Some(params.repoId)
                      else params.allowedRepoIds.None?
                           || exists i :: 0 <= i < |params.allowedRepoIds.value|
                                          && r.repoId == Some(params.allowedRepoIds.value[i])))
            && forall i, j :: 0 <= i < j < |rows| ==>
                 rows[j].key.createdAt < rows[i].key.createdAt
                 || (rows[j].key.createdAt == rows[i].key.createdAt && rows[j].key.id < rows[i].key.id)
  {
    hide *;
    FixedTableWalk(table, params, None, n);
    SelectIsExact(table, params, None);
    DescendingSpelled(Select(table, params, None));
    MatchesSpelled(params, r);
    AfterSpelled(None, r);
  }

  /** Whatever happens to the table between the pages, a walk never leaves its filters and its scope. */
  lemma WalkStaysInScope(tables: seq<seq<Request>>, params: Params, cursor: Option<Key>, r: Request)
    requires AllKeyed(tables) && r in Returned(Walk(tables, params, cursor))
    ensures (exists k :: 0 <= k < |tables| && r in tables[k])
            && (params.status == "" || r.status == params.status)
            && (params.taskId == "" || r.taskId == params.taskId)
            && (if params.repoId != "" then r.repoId == Some(params.repoId)
                else params.allowedRepoIds.None?
                     || exists i :: 0 <= i < |params.allowedRepoIds.value| && r.repoId == Some(params.allowedRepoIds.value[i]))
  {
    hide *;
    WalkInventsNothing(tables, params, cursor, r);
    MatchesSpelled(params, r);
  }
}
