/** Keyset pagination of the explorer feed: apps/api/src/users/users.service.ts, listExplorerFeed. */
module ExplorerFeed {
  import opened Numbers
  import opened Wrappers

  const DEFAULT_LIMIT := 30
  const MAX_LIMIT := 100

  /** A row of WalletUserActivity. Ids are primary keys; a number stands for an id's place in the text order. */
  datatype Row = Row(createdAt: int, id: nat, content: string)

  /** What a cursor carries: the createdAt and id of the last row of a page. */
  datatype Cursor = Cursor(createdAt: int, id: nat)

  type Filter = Row -> bool

  ghost predicate IdsUnique(rows: set<Row>) {
    forall a, b | a in rows && b in rows && a.id == b.id :: a == b
  }

  /** The order of the listing: the newer row first, of two as new the one with the greater id. */
  predicate Before(a: Row, b: Row) {
    a.createdAt > b.createdAt || (a.createdAt == b.createdAt && a.id > b.id)
  }

  function CursorOf(r: Row): Cursor {
    Cursor(r.createdAt, r.id)
  }

  /** The where clause a cursor adds. */
  predicate Beyond(c: Option<Cursor>, r: Row) {
    c.Some? ==> r.createdAt < c.value.createdAt || (r.createdAt == c.value.createdAt && r.id < c.value.id)
  }

  ghost function Matching(rows: set<Row>, filter: Filter, c: Option<Cursor>): (m: set<Row>)
    ensures IdsUnique(rows) ==> IdsUnique(m)
  {
    set r | r in rows && filter(r) && Beyond(c, r)
  }

  // ---------- the ordered listing of a set of rows ----------

  ghost predicate Ordered(s: seq<Row>) {
    forall i, j | 0 <= i < j < |s| :: Before(s[i], s[j])
  }

  lemma {:induction false} FirstExists(rows: set<Row>)
    requires rows != {} && IdsUnique(rows)
    ensures exists f :: f in rows && forall r | r in rows && r != f :: Before(f, r)
  {
    var r :| r in rows;
    var rest := rows - {r};
    if rest == {} {
      assert rows == {r};
    } else {
      FirstExists(rest);
      var f :| f in rest && forall x | x in rest && x != f :: Before(f, x);
      var best := if Before(r, f) then r else f;
      forall x | x in rows && x != best ensures Before(best, x) {
        assert x == r || x in rest;
      }
      assert best in rows;
    }
  }

  ghost function First(rows: set<Row>): (f: Row)
    requires rows != {} && IdsUnique(rows)
    ensures f in rows && forall r | r in rows && r != f :: Before(f, r)
  {
    FirstExists(rows);
    var f :| f in rows && forall r | r in rows && r != f :: Before(f, r);
    f
  }

  ghost function Listing(rows: set<Row>): (s: seq<Row>)
    requires IdsUnique(rows)
    ensures |s| == |rows|
    decreases |rows|
  {
    if rows == {} then [] else [First(rows)] + Listing(rows - {First(rows)})
  }

  lemma {:induction false} ListingContents(rows: set<Row>, r: Row)
    requires IdsUnique(rows)
    ensures r in Listing(rows) <==> r in rows
    decreases |rows|
  {
    if rows != {} {
      ListingContents(rows - {First(rows)}, r);
    }
  }

  lemma {:induction false} ListingOrdered(rows: set<Row>)
    requires IdsUnique(rows)
    ensures Ordered(Listing(rows))
    decreases |rows|
  {
    if rows != {} {
      var f := First(rows);
      ListingOrdered(rows - {f});
      var rest := Listing(rows - {f});
      forall i, j | 0 <= i < j < |rest| + 1 ensures Before(([f] + rest)[i], ([f] + rest)[j]) {
        ListingContents(rows - {f}, rest[j - 1]);
      }
    }
  }

  /** There is only one way to list a set of rows in order. */
  lemma {:induction false} ListingUnique(s: seq<Row>, rows: set<Row>)
    requires IdsUnique(rows) && Ordered(s) && forall r :: r in s <==> r in rows
    ensures s == Listing(rows)
    decreases |s|
  {
    if s == [] {
      assert forall r | r in rows :: r in s;
      assert rows == {};
    } else {
      assert s[0] in rows;
      var f := First(rows);
      assert f in s;
      assert s[0] == f;
      forall r ensures r in s[1..] <==> r in rows - {f} {
        if r in s[1..] {
          assert r in s;
        }
      }
      ListingUnique(s[1..], rows - {f});
    }
  }

  // ---------- one page ----------

  /** The page size: 30 unless asked otherwise, the whole part of what is asked for within 1 to 100. */
  function SafeLimit(limit: Option<real>): (n: nat)
    ensures 1 <= n <= 100
    ensures limit.None? ==> n == 30
    ensures limit.Some? && limit.value < 1.0 ==> n == 1
    ensures limit.Some? && 1.0 <= limit.value < 100.0 ==> n as real <= limit.value < n as real + 1.0
    ensures limit.Some? && limit.value >= 100.0 ==> n == 100
  {
    var raw := if limit.Some? then Trunc(limit.value) else DEFAULT_LIMIT;
    var atLeastOne := if raw < 1 then 1 else raw;
    if atLeastOne > MAX_LIMIT then MAX_LIMIT else atLeastOne
  }

  datatype Page = Page(items: seq<Row>, next: Option<Cursor>)

  /** findMany with take: limit + 1; the extra row only tells that there is more. */
  function PageOf(all: seq<Row>, limit: nat): Page
    requires limit >= 1
  {
    var fetched := if |all| <= limit + 1 then all else all[..limit + 1];
    var hasMore := |fetched| > limit;
    var items := if hasMore then fetched[..limit] else fetched;
    Page(items, if hasMore then Some(CursorOf(items[|items| - 1])) else None)
  }

  ghost function ListFeed(rows: set<Row>, filter: Filter, c: Option<Cursor>, limit: Option<real>): Page
    requires IdsUnique(rows)
  {
    PageOf(Listing(Matching(rows, filter, c)), SafeLimit(limit))
  }

  lemma PageOfSplits(all: seq<Row>, limit: nat)
    requires limit >= 1
    ensures
      var page := PageOf(all, limit);
      if |all| <= limit then page == Page(all, None)
      else page == Page(all[..limit], Some(CursorOf(all[limit - 1])))
  {
    if |all| > limit + 1 {
      assert all[..limit + 1][..limit] == all[..limit];
    }
  }

  /** The cursor of a row of the listing is exact: what lies beyond it is what is listed after it. */
  lemma BeyondIsTail(rows: set<Row>, filter: Filter, c: Option<Cursor>, n: nat)
    requires IdsUnique(rows) && 0 < n <= |Listing(Matching(rows, filter, c))|
    ensures
      var all := Listing(Matching(rows, filter, c));
      Listing(Matching(rows, filter, Some(CursorOf(all[n - 1])))) == all[n..]
  {
    var all := Listing(Matching(rows, filter, c));
    var next := Some(CursorOf(all[n - 1]));
    ListingOrdered(Matching(rows, filter, c));
    ListingContents(Matching(rows, filter, c), all[n - 1]);
    forall r ensures r in all[n..] <==> r in Matching(rows, filter, next) {
      ListingContents(Matching(rows, filter, c), r);
      assert r in all[n..] ==> r in all;
      if r in all {
        TailBeyond(all, n, r);
      }
      if Beyond(next, r) {
        BeyondFurther(all[n - 1], c, next, r);
      }
    }
    ListingUnique(all[n..], Matching(rows, filter, next));
  }

  lemma TailBeyond(all: seq<Row>, n: nat, r: Row)
    requires Ordered(all) && 0 < n <= |all| && r in all
    ensures r in all[n..] <==> Beyond(Some(CursorOf(all[n - 1])), r)
    ensures r in all[..n] || r in all[n..]
  {
    var i :| 0 <= i < |all| && all[i] == r;
    if i < n {
      forall j | n <= j < |all| ensures all[j] != r {
        assert Before(all[i], all[j]);
      }
      assert i < n - 1 ==> Before(all[i], all[n - 1]);
      assert all[..n][i] == r;
    } else {
      assert all[n..][i - n] == r;
      assert Before(all[n - 1], all[i]);
    }
  }

  lemma BeyondFurther(last: Row, c: Option<Cursor>, next: Option<Cursor>, r: Row)
    requires Beyond(c, last) && next == Some(CursorOf(last)) && Beyond(next, r)
    ensures Beyond(c, r)
  {
  }

  /** A page is the head of what lies beyond the cursor, and the next cursor stands exactly for the rest;
      there is none exactly when nothing is left. */
  lemma PageSplits(rows: set<Row>, filter: Filter, c: Option<Cursor>, limit: Option<real>)
    requires IdsUnique(rows)
    ensures
      var page, all, n := ListFeed(rows, filter, c, limit), Listing(Matching(rows, filter, c)), SafeLimit(limit);
      if |all| <= n then page == Page(all, None)
      else
        && page == Page(all[..n], Some(CursorOf(all[n - 1])))
        && Listing(Matching(rows, filter, page.next)) == all[n..]
  {
    var all, n := Listing(Matching(rows, filter, c)), SafeLimit(limit);
    PageOfSplits(all, n);
    if |all| > n {
      BeyondIsTail(rows, filter, c, n);
    }
  }

  // ---------- following the cursor ----------

  /** Every page from a cursor on, on a table that does not change, with any limit on every request. */
  ghost function Walk(rows: set<Row>, filter: Filter, c: Option<Cursor>, limits: nat -> Option<real>, k: nat): seq<seq<Row>>
    requires IdsUnique(rows)
    decreases |Listing(Matching(rows, filter, c))|
  {
    PageSplits(rows, filter, c, limits(k));
    var page := ListFeed(rows, filter, c, limits(k));
    if page.next.None? then [page.items] else [page.items] + Walk(rows, filter, page.next, limits, k + 1)
  }

  /** The simple form: a sequence cut into consecutive pieces. */
  function Chunks(all: seq<Row>, limits: nat -> Option<real>, k: nat): seq<seq<Row>>
    decreases |all|
  {
    var n := SafeLimit(limits(k));
    if |all| <= n then [all] else [all[..n]] + Chunks(all[n..], limits, k + 1)
  }

  function Flatten(pages: seq<seq<Row>>): seq<Row> {
    if |pages| == 0 then [] else pages[0] + Flatten(pages[1..])
  }

  /** Following the cursor until there is none ends, and cuts the ordered listing of all matching rows into
      consecutive pages. */
  lemma {:induction false} WalkCutsListing(rows: set<Row>, filter: Filter, c: Option<Cursor>,
                                           limits: nat -> Option<real>, k: nat)
    requires IdsUnique(rows)
    ensures Walk(rows, filter, c, limits, k) == Chunks(Listing(Matching(rows, filter, c)), limits, k)
    decreases |Listing(Matching(rows, filter, c))|
  {
    PageSplits(rows, filter, c, limits(k));
    var page := ListFeed(rows, filter, c, limits(k));
    if page.next.Some? {
      WalkCutsListing(rows, filter, page.next, limits, k + 1);
    }
  }

  lemma {:induction false} ChunksReassemble(all: seq<Row>, limits: nat -> Option<real>, k: nat)
    ensures Flatten(Chunks(all, limits, k)) == all
    decreases |all|
  {
    var n := SafeLimit(limits(k));
    if |all| <= n {
      assert Flatten([all]) == all + Flatten([]);
    } else {
      ChunksReassemble(all[n..], limits, k + 1);
      assert ([all[..n]] + Chunks(all[n..], limits, k + 1))[1..] == Chunks(all[n..], limits, k + 1);
    }
  }

  lemma {:induction false} ChunksCount(all: seq<Row>, limit: Option<real>, limits: nat -> Option<real>, k: nat)
    requires forall i :: limits(i) == limit
    ensures |Chunks(all, limits, k)| == Requests(|all|, SafeLimit(limit))
    decreases |all|
  {
    if |all| > SafeLimit(limits(k)) {
      ChunksCount(all[SafeLimit(limits(k))..], limit, limits, k + 1);
    }
  }

  /** The pages put together are every matching row, once each, newest first. */
  lemma WalkReassembles(rows: set<Row>, filter: Filter, c: Option<Cursor>, limits: nat -> Option<real>, k: nat)
    requires IdsUnique(rows)
    ensures Flatten(Walk(rows, filter, c, limits, k)) == Listing(Matching(rows, filter, c))
    ensures
      var all := Listing(Matching(rows, filter, c));
      forall i, j | 0 <= i < j < |all| ::
        all[i].createdAt >= all[j].createdAt && (all[i].createdAt == all[j].createdAt ==> all[i].id > all[j].id)
  {
    WalkCutsListing(rows, filter, c, limits, k);
    ChunksReassemble(Listing(Matching(rows, filter, c)), limits, k);
    ListingOrdered(Matching(rows, filter, c));
  }

  /** With one limit throughout, a walk takes the fewest requests that can hold the rows: its pages hold them, one
      page less would not, and only a listing of nothing has an empty page. */
  lemma WalkLength(rows: set<Row>, filter: Filter, c: Option<Cursor>, limit: Option<real>,
                   limits: nat -> Option<real>, k: nat)
    requires IdsUnique(rows) && forall i :: limits(i) == limit
    ensures FewestPages(|Walk(rows, filter, c, limits, k)|, |Matching(rows, filter, c)|, SafeLimit(limit))
  {
    WalkCutsListing(rows, filter, c, limits, k);
    ChunksCount(Listing(Matching(rows, filter, c)), limit, limits, k);
    RequestsFit(|Matching(rows, filter, c)|, SafeLimit(limit));
  }

  function Requests(n: nat, limit: nat): nat
    requires limit >= 1
  {
    if n <= limit then 1 else 1 + Requests(n - limit, limit)
  }

  /** The pages hold n rows, one page less would not, and a listing of nothing takes one page. */
  ghost predicate FewestPages(pages: int, n: nat, per: nat) {
    pages >= 1 && n <= per * pages && (n > 0 ==> per * (pages - 1) < n) && (n == 0 ==> pages == 1)
  }

  lemma {:induction false} RequestsFit(n: nat, limit: nat)
    requires limit >= 1
    ensures FewestPages(Requests(n, limit), n, limit)
  {
    if n > limit {
      RequestsFit(n - limit, limit);
      var rest := Requests(n - limit, limit);
      assert limit * (1 + rest) == limit + limit * rest;
      assert limit * rest == limit + limit * (rest - 1);
    }
  }

  // ---------- when the table changes between requests ----------

  /** Rows that sort before the cursor, added or removed, do not change what the rest of the walk shows. */
  lemma EarlierRowsIrrelevant(rows: set<Row>, changed: set<Row>, filter: Filter, c: Option<Cursor>,
                              limits: nat -> Option<real>, k: nat)
    requires IdsUnique(rows) && IdsUnique(changed)
    requires forall r | Beyond(c, r) :: r in rows <==> r in changed
    ensures Matching(changed, filter, c) == Matching(rows, filter, c)
    ensures ListFeed(changed, filter, c, limits(k)) == ListFeed(rows, filter, c, limits(k))
    ensures Walk(changed, filter, c, limits, k) == Walk(rows, filter, c, limits, k)
    decreases |Listing(Matching(rows, filter, c))|
  {
    assert Matching(changed, filter, c) == Matching(rows, filter, c);
    PageSplits(rows, filter, c, limits(k));
    var page := ListFeed(rows, filter, c, limits(k));
    if page.next.Some? {
      var last := page.items[|page.items| - 1];
      ListingContents(Matching(rows, filter, c), last);
      forall r | Beyond(page.next, r) ensures r in rows <==> r in changed {
        BeyondFurther(last, c, page.next, r);
      }
      EarlierRowsIrrelevant(rows, changed, filter, page.next, limits, k + 1);
    }
  }

  /** The rows a client sees when request number i finds the table as tables[i]. */
  ghost function Seen(tables: seq<set<Row>>, filter: Filter, c: Option<Cursor>, limits: nat -> Option<real>): seq<Row>
    requires forall t | t in tables :: IdsUnique(t)
  {
    if |tables| == 0 then []
    else
      var page := ListFeed(tables[0], filter, c, limits(|tables|));
      page.items + if page.next.None? then [] else Seen(tables[1..], filter, page.next, limits)
  }

  /** The client got to the last page. */
  ghost predicate Finished(tables: seq<set<Row>>, filter: Filter, c: Option<Cursor>, limits: nat -> Option<real>)
    requires forall t | t in tables :: IdsUnique(t)
  {
    |tables| > 0 &&
    var page := ListFeed(tables[0], filter, c, limits(|tables|));
    page.next.None? || Finished(tables[1..], filter, page.next, limits)
  }

  /** In order, and all matching rows beyond the cursor. */
  ghost predicate Fits(s: seq<Row>, filter: Filter, c: Option<Cursor>) {
    Ordered(s) && forall r | r in s :: filter(r) && Beyond(c, r)
  }

  lemma PageFits(rows: set<Row>, filter: Filter, c: Option<Cursor>, limit: Option<real>)
    requires IdsUnique(rows)
    ensures Fits(ListFeed(rows, filter, c, limit).items, filter, c)
  {
    var all := Listing(Matching(rows, filter, c));
    PageSplits(rows, filter, c, limit);
    ListingOrdered(Matching(rows, filter, c));
    forall r | r in ListFeed(rows, filter, c, limit).items ensures filter(r) && Beyond(c, r) {
      ListingContents(Matching(rows, filter, c), r);
    }
  }

  /** However the table changes between requests, a client never sees a row twice or out of order, and sees
      only matching rows beyond its cursor. */
  lemma {:induction false} SeenInOrder(tables: seq<set<Row>>, filter: Filter, c: Option<Cursor>,
                                       limits: nat -> Option<real>)
    requires forall t | t in tables :: IdsUnique(t)
    ensures Fits(Seen(tables, filter, c, limits), filter, c)
  {
    if |tables| > 0 {
      var page := ListFeed(tables[0], filter, c, limits(|tables|));
      PageSplits(tables[0], filter, c, limits(|tables|));
      PageFits(tables[0], filter, c, limits(|tables|));
      if page.next.Some? {
        SeenInOrder(tables[1..], filter, page.next, limits);
        JoinInOrder(page.items, Seen(tables[1..], filter, page.next, limits), filter, c);
      }
    }
  }

  lemma JoinInOrder(items: seq<Row>, rest: seq<Row>, filter: Filter, c: Option<Cursor>)
    requires 0 < |items| && Fits(items, filter, c) && Fits(rest, filter, Some(CursorOf(items[|items| - 1])))
    ensures Fits(items + rest, filter, c)
  {
    var last := items[|items| - 1];
    forall i, j | 0 <= i < j < |items + rest| ensures Before((items + rest)[i], (items + rest)[j]) {
      if i < |items| <= j {
        assert rest[j - |items|] in rest;
        assert i < |items| - 1 ==> Before(items[i], last);
      }
    }
    forall r | r in items + rest ensures filter(r) && Beyond(c, r) {
      if r in rest {
        BeyondFurther(last, c, Some(CursorOf(last)), r);
      }
    }
  }

  /** However the table changes between requests, a client that gets to the last page has seen every
      matching row that was there throughout. */
  lemma {:induction false} NothingMissed(tables: seq<set<Row>>, filter: Filter, c: Option<Cursor>,
                                         limits: nat -> Option<real>, r: Row)
    requires forall t | t in tables :: IdsUnique(t)
    requires Finished(tables, filter, c, limits)
    requires filter(r) && Beyond(c, r) && forall t | t in tables :: r in t
    ensures r in Seen(tables, filter, c, limits)
  {
    var all := Listing(Matching(tables[0], filter, c));
    var page := ListFeed(tables[0], filter, c, limits(|tables|));
    PageSplits(tables[0], filter, c, limits(|tables|));
    ListingOrdered(Matching(tables[0], filter, c));
    ListingContents(Matching(tables[0], filter, c), r);
    if page.next.Some? {
      TailBeyond(all, |page.items|, r);
      if Beyond(page.next, r) {
        NothingMissed(tables[1..], filter, page.next, limits, r);
      }
    }
  }
}
