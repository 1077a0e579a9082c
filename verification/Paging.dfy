/** The complaint listing and its pages, and what a client sees who walks them while the table changes. */
module Paging {
  import opened Domain
  import opened Contract
  import opened Aggregates
  import Cache
  import opened Store
  import opened StoreInvariant
  import opened StoreTheorems

  datatype Filters = Filters(category: Option<Category>, priority: Option<Priority>, status: Option<Status>)

  predicate Fits(f: Filters, c: Complaint) {
    && (f.category.Some? ==> c.category == f.category.value)
    && (f.priority.Some? ==> c.priority == f.priority.value)
    && (f.status.Some? ==> c.status == f.status.value)
  }

  /** A row that fits the filter will go on fitting: the status does not matter, or is never left. */
  predicate Settled(f: Filters) {
    f.status in {None, Some(Resolved), Some(Rejected)}
  }

  function Select(t: Table, f: Filters): set<Id> {
    set id | id in t && Fits(f, t[id])
  }

  /** As many complaints fit a filter on one column as the statistics count in that group. */
  lemma FilterMatchesStatistics(t: Table, c: Category, p: Priority, st: Status)
    ensures |Select(t, Filters(Some(c), None, None))| == At(CountBy(t, CategoryOf), c)
    ensures |Select(t, Filters(None, Some(p), None))| == At(CountBy(t, PriorityOf), p)
    ensures |Select(t, Filters(None, None, Some(st)))| == At(CountBy(t, StatusOf), st)
  {
    assert Select(t, Filters(Some(c), None, None)) == Matching(t, CategoryOf, c);
    assert Select(t, Filters(None, Some(p), None)) == Matching(t, PriorityOf, p);
    assert Select(t, Filters(None, None, Some(st))) == Matching(t, StatusOf, st);
  }

  /** A filter on several columns selects what each of them selects, and no filter everything. */
  lemma FiltersIntersect(t: Table, f: Filters)
    ensures Select(t, f) == Select(t, Filters(f.category, None, None)) * Select(t, Filters(None, f.priority, None))
      * Select(t, Filters(None, None, f.status))
    ensures Select(t, Filters(None, None, None)) == t.Keys
  {
  }

  /** `ORDER BY created_at DESC, id`. */
  predicate Before(t: Table, a: Id, b: Id)
    requires a in t && b in t
  {
    t[a].createdAt > t[b].createdAt || (t[a].createdAt == t[b].createdAt && a < b)
  }

  predicate IsFirst(t: Table, ids: set<Id>, id: Id)
    requires ids <= t.Keys
  {
    id in ids && forall other | other in ids && other != id :: Before(t, id, other)
  }

  lemma {:induction false} SomeoneIsFirst(t: Table, ids: set<Id>)
    requires ids <= t.Keys && ids != {}
    ensures exists id :: IsFirst(t, ids, id)
  {
    var one :| one in ids;
    if ids == {one} {
      assert IsFirst(t, ids, one);
    } else {
      SomeoneIsFirst(t, ids - {one});
      var best :| IsFirst(t, ids - {one}, best);
      if Before(t, one, best) {
        assert forall other | other in ids && other != one :: other == best || Before(t, best, other);
        assert IsFirst(t, ids, one);
      } else {
        assert IsFirst(t, ids, best);
      }
    }
  }

  /** The chosen rows in the listing's order. */
  function Sorted(t: Table, ids: set<Id>): (l: seq<Id>)
    requires ids <= t.Keys
  {
    if ids == {} then []
    else
      SomeoneIsFirst(t, ids);
      var first :| IsFirst(t, ids, first);
      [first] + Sorted(t, ids - {first})
  }

  function Listing(t: Table, f: Filters): seq<Id> {
    Sorted(t, Select(t, f))
  }

  /** What the database promises of an ordered result: each chosen row, once, in order. */
  ghost predicate Lists(t: Table, ids: set<Id>, l: seq<Id>)
    requires ids <= t.Keys
  {
    && (forall id :: id in l <==> id in ids)
    && (forall i, j | 0 <= i < j < |l| :: l[i] in t && l[j] in t && Before(t, l[i], l[j]))
  }

  lemma {:induction false} SortedLists(t: Table, ids: set<Id>)
    requires ids <= t.Keys
    ensures Lists(t, ids, Sorted(t, ids))
  {
    if ids != {} {
      SomeoneIsFirst(t, ids);
      var l := Sorted(t, ids);
      SortedLists(t, ids - {l[0]});
      assert l[1..] == Sorted(t, ids - {l[0]});
      forall i, j | 0 <= i < j < |l| ensures l[i] in t && l[j] in t && Before(t, l[i], l[j]) {
        assert l[j] == l[1..][j - 1];
        if i > 0 { assert l[i] == l[1..][i - 1]; }
      }
    }
  }

  function Ahead(t: Table, ids: set<Id>, id: Id): set<Id>
    requires ids <= t.Keys && id in ids
  {
    set other | other in ids && Before(t, other, id)
  }

  /** How many chosen rows come before this one. */
  function Rank(t: Table, ids: set<Id>, id: Id): nat
    requires ids <= t.Keys && id in ids
  {
    |Ahead(t, ids, id)|
  }

  function Firsts(l: seq<Id>, n: nat): set<Id>
    requires n <= |l|
  {
    set i | 0 <= i < n :: l[i]
  }

  lemma {:induction false} FirstsCounted(l: seq<Id>, n: nat)
    requires n <= |l| && forall i, j | 0 <= i < j < |l| :: l[i] != l[j]
    ensures |Firsts(l, n)| == n
  {
    if n > 0 {
      FirstsCounted(l, n - 1);
      assert Firsts(l, n) == Firsts(l, n - 1) + {l[n - 1]};
    }
  }

  /** A row stands in the listing where its rank says. */
  lemma PositionIsRank(t: Table, ids: set<Id>, l: seq<Id>, i: nat)
    requires ids <= t.Keys && Lists(t, ids, l) && i < |l|
    ensures l[i] in ids && Rank(t, ids, l[i]) == i
  {
    assert l[i] in ids;
    forall id ensures id in Ahead(t, ids, l[i]) <==> id in Firsts(l, i) {
      if id in Ahead(t, ids, l[i]) {
        var j :| 0 <= j < |l| && l[j] == id;
        assert j < i;
      }
    }
    FirstsCounted(l, i);
    assert Ahead(t, ids, l[i]) == Firsts(l, i);
  }

  lemma LengthIsCount(t: Table, ids: set<Id>, l: seq<Id>)
    requires ids <= t.Keys && Lists(t, ids, l)
    ensures |l| == |ids|
  {
    FirstsCounted(l, |l|);
    assert Firsts(l, |l|) == ids;
  }

  /** The order is total: there is only one listing. */
  lemma ListingIsUnique(t: Table, ids: set<Id>, a: seq<Id>, b: seq<Id>)
    requires ids <= t.Keys && Lists(t, ids, a) && Lists(t, ids, b)
    ensures a == b
  {
    LengthIsCount(t, ids, a);
    LengthIsCount(t, ids, b);
    forall i | 0 <= i < |a| ensures a[i] == b[i] {
      assert a[i] in ids;
      var j :| 0 <= j < |b| && b[j] == a[i];
      PositionIsRank(t, ids, a, i);
      PositionIsRank(t, ids, b, j);
    }
  }

  // ---------------------------------------------------------------- pages

  function Clip(n: nat, length: nat): nat {
    if n > length then length else n
  }

  /** `OFFSET offset LIMIT limit`. */
  function Slice<T>(l: seq<T>, offset: nat, limit: nat): seq<T> {
    l[Clip(offset, |l|)..Clip(offset + limit, |l|)]
  }

  function Page<T>(l: seq<T>, page: nat, size: nat): seq<T>
    requires page >= 1
  {
    Slice(l, (page - 1) * size, size)
  }

  function Pages<T>(l: seq<T>, n: nat, size: nat): seq<T> {
    if n == 0 then [] else Pages(l, n - 1, size) + Page(l, n, size)
  }

  /** Pages taken of an unchanging listing join up to its beginning, and to all of it once they reach
      the total. */
  lemma {:induction false} PagesJoinUp<T>(l: seq<T>, n: nat, size: nat)
    ensures Pages(l, n, size) == l[..Clip(n * size, |l|)]
    ensures n * size >= |l| ==> Pages(l, n, size) == l
  {
    if n > 0 {
      PagesJoinUp(l, n - 1, size);
      assert n * size == (n - 1) * size + size;
      SliceJoins(l, (n - 1) * size, size);
    }
  }

  lemma SliceJoins<T>(l: seq<T>, offset: nat, limit: nat)
    ensures l[..Clip(offset, |l|)] + Slice(l, offset, limit) == l[..Clip(offset + limit, |l|)]
  {
  }

  /** A row is on the page its rank falls in. */
  lemma OnPageByRank(t: Table, f: Filters, page: nat, size: nat, id: Id)
    requires page >= 1 && id in Select(t, f)
    ensures id in Page(Listing(t, f), page, size)
      <==> (page - 1) * size <= Rank(t, Select(t, f), id) < (page - 1) * size + size
  {
    hide Sorted, Lists, Rank, Slice;
    InSliceByRank(t, Select(t, f), Listing(t, f), (page - 1) * size, size, id);
  }

  lemma InSliceByRank(t: Table, ids: set<Id>, l: seq<Id>, offset: nat, limit: nat, id: Id)
    requires ids <= t.Keys && l == Sorted(t, ids) && id in ids
    ensures id in Slice(l, offset, limit) <==> offset <= Rank(t, ids, id) < offset + limit
  {
    hide Sorted, Rank;
    SortedLists(t, ids);
    var i :| 0 <= i < |l| && l[i] == id;
    PositionIsRank(t, ids, l, i);
    var page := Slice(l, offset, limit);
    if offset <= i < offset + limit {
      assert page[i - offset] == id;
    }
  }

  // ---------------------------------------------------------------- walking the pages

  /** One request for a page: the versions its COUNT and its SELECT saw. */
  datatype Fetch = Fetch(counted: nat, selected: nat)

  function ChosenAt(h: seq<Version>, v: nat, f: Filters): set<Id>
    requires v < |h|
  {
    Select(h[v].table, f)
  }

  function RankAt(h: seq<Version>, v: nat, f: Filters, id: Id): nat
    requires v < |h| && id in ChosenAt(h, v, f)
  {
    Rank(h[v].table, ChosenAt(h, v, f), id)
  }

  /** A client fetches pages 1, 2, 3, ... until page * size reaches the total it is told. */
  predicate Walked(h: seq<Version>, f: Filters, size: nat, walk: seq<Fetch>) {
    && walk != []
    && (forall k | 0 <= k < |walk| :: walk[k].counted <= walk[k].selected < |h|)
    && (forall k | 0 < k < |walk| :: walk[k - 1].selected <= walk[k].counted)
    && (forall k | 0 <= k < |walk| ::
          (k + 1) * size >= |ChosenAt(h, walk[k].counted, f)| <==> k == |walk| - 1)
  }

  /** The row is among those the k-th fetch returned. */
  predicate Shown(h: seq<Version>, f: Filters, size: nat, walk: seq<Fetch>, k: nat, id: Id)
    requires k < |walk| && walk[k].selected < |h|
  {
    id in Page(Listing(h[walk[k].selected].table, f), k + 1, size)
  }

  /** While complaints are only created and their status changed, a complaint chosen by a settled filter stays
      chosen and can only be pushed further down. */
  lemma RankNeverDrops(s: Sys, f: Filters, i: nat, j: nat, id: Id)
    requires HistoryOk(s) && OwnCommitsOnly(s.history) && Settled(f)
    requires i <= j < |s.history| && id in ChosenAt(s.history, i, f)
    ensures id in ChosenAt(s.history, j, f)
    ensures RankAt(s.history, i, f, id) <= RankAt(s.history, j, f, id)
  {
    hide HistoryOk, OwnCommitsOnly;
    var h := s.history;
    var a, b := h[i].table, h[j].table;
    RowsClimb(s, id, i, j);
    forall other | other in Ahead(a, Select(a, f), id) ensures other in Ahead(b, Select(b, f), id) {
      RowsClimb(s, other, i, j);
    }
    SmallerSet(Ahead(a, Select(a, f), id), Ahead(b, Select(b, f), id));
  }

  /** The k-th page ends past the place the row has by then been pushed down to. */
  predicate Reached(h: seq<Version>, f: Filters, size: nat, walk: seq<Fetch>, k: nat, id: Id)
    requires k < |walk| && walk[k].selected < |h|
  {
    id in ChosenAt(h, walk[k].selected, f) && RankAt(h, walk[k].selected, f, id) < (k + 1) * size
  }

  lemma StaysChosen(s: Sys, f: Filters, size: nat, walk: seq<Fetch>, start: nat, id: Id)
    requires HistoryOk(s) && OwnCommitsOnly(s.history) && Settled(f) && Walked(s.history, f, size, walk)
    requires start <= walk[0].selected && id in ChosenAt(s.history, start, f)
    ensures forall k | 0 <= k < |walk| :: id in ChosenAt(s.history, walk[k].selected, f)
    ensures forall k | 0 < k < |walk| ::
      RankAt(s.history, walk[k - 1].selected, f, id) <= RankAt(s.history, walk[k].selected, f, id)
  {
    hide HistoryOk, OwnCommitsOnly, ChosenAt, RankAt;
    forall k | 0 <= k < |walk| ensures id in ChosenAt(s.history, walk[k].selected, f) {
      WalkRises(s.history, f, size, walk, k);
      RankNeverDrops(s, f, start, walk[k].selected, id);
    }
    forall k | 0 < k < |walk|
      ensures RankAt(s.history, walk[k - 1].selected, f, id) <= RankAt(s.history, walk[k].selected, f, id)
    {
      RankNeverDrops(s, f, walk[k - 1].selected, walk[k].selected, id);
    }
  }

  lemma {:induction false} WalkRises(h: seq<Version>, f: Filters, size: nat, walk: seq<Fetch>, k: nat)
    requires Walked(h, f, size, walk) && k < |walk|
    ensures walk[0].selected <= walk[k].selected
  {
    hide ChosenAt;
    if k > 0 { WalkRises(h, f, size, walk, k - 1); }
  }

  lemma ShownByRank(h: seq<Version>, f: Filters, size: nat, walk: seq<Fetch>, k: nat, id: Id)
    requires k < |walk| && walk[k].selected < |h| && id in ChosenAt(h, walk[k].selected, f)
    ensures Shown(h, f, size, walk, k, id) <==> k * size <= RankAt(h, walk[k].selected, f, id) < k * size + size
    ensures Reached(h, f, size, walk, k, id) <==> RankAt(h, walk[k].selected, f, id) < k * size + size
  {
    hide Page, Listing;
    OnPageByRank(h[walk[k].selected].table, f, k + 1, size, id);
    assert (k + 1) * size == k * size + size;
  }

  /** Exactly when a complaint that was there at the start is seen: some fetch's page must end past the
      place the complaint has by then been pushed down to. */
  lemma {:induction false} SeenIffReached(s: Sys, f: Filters, size: nat, walk: seq<Fetch>, n: nat, start: nat, id: Id)
    requires HistoryOk(s) && OwnCommitsOnly(s.history) && Settled(f)
    requires Walked(s.history, f, size, walk) && n <= |walk|
    requires start <= walk[0].selected && id in ChosenAt(s.history, start, f)
    ensures (exists k | 0 <= k < n :: Shown(s.history, f, size, walk, k, id))
      <==> (exists k | 0 <= k < n :: Reached(s.history, f, size, walk, k, id))
  {
    hide HistoryOk, OwnCommitsOnly, ChosenAt, RankAt, Shown, Reached;
    StaysChosen(s, f, size, walk, start, id);
    if n > 0 {
      var h := s.history;
      SeenIffReached(s, f, size, walk, n - 1, start, id);
      ShownByRank(h, f, size, walk, n - 1, id);
      if n > 1 { ShownByRank(h, f, size, walk, n - 2, id); }
      assert n > 1 && !Reached(h, f, size, walk, n - 2, id) ==>
        (n - 1) * size <= RankAt(h, walk[n - 1].selected, f, id) by { assert (n - 1) * size == (n - 2) * size + size; }
    }
  }

  /** A client who walks to the end misses no complaint that was there at the start, provided its last
      SELECT found no more rows than the total it had just been told. */
  lemma NothingMissed(s: Sys, f: Filters, size: nat, walk: seq<Fetch>, start: nat, id: Id) returns (k: nat)
    requires HistoryOk(s) && OwnCommitsOnly(s.history) && Settled(f) && Walked(s.history, f, size, walk)
    requires start <= walk[0].selected && id in ChosenAt(s.history, start, f)
    requires var last := walk[|walk| - 1];
      |ChosenAt(s.history, last.selected, f)| <= |ChosenAt(s.history, last.counted, f)|
    ensures k < |walk| && Shown(s.history, f, size, walk, k, id)
  {
    hide HistoryOk, OwnCommitsOnly, Shown;
    var h, n := s.history, |walk|;
    StaysChosen(s, f, size, walk, start, id);
    RankBelowCount(h[walk[n - 1].selected].table, ChosenAt(h, walk[n - 1].selected, f), id);
    assert Reached(h, f, size, walk, n - 1, id);
    SeenIffReached(s, f, size, walk, n, start, id);
    k :| 0 <= k < n && Shown(h, f, size, walk, k, id);
  }

  lemma RankBelowCount(t: Table, ids: set<Id>, id: Id)
    requires ids <= t.Keys && id in ids
    ensures Rank(t, ids, id) < |ids|
  {
    SmallerSet(Ahead(t, ids, id), ids - {id});
  }

  /** As long as as many complaints fit, the listing stays what it is, whatever happens to their status. */
  lemma ListingStays(s: Sys, f: Filters, i: nat, j: nat)
    requires HistoryOk(s) && OwnCommitsOnly(s.history) && Settled(f) && i <= j < |s.history|
    requires |ChosenAt(s.history, i, f)| == |ChosenAt(s.history, j, f)|
    ensures Listing(s.history[i].table, f) == Listing(s.history[j].table, f)
  {
    hide HistoryOk, OwnCommitsOnly, Rank, Sorted, Lists;
    var a, b := s.history[i].table, s.history[j].table;
    var ids := ChosenAt(s.history, i, f);
    forall id | id in ids ensures id in ChosenAt(s.history, j, f) && b[id].createdAt == a[id].createdAt {
      RankNeverDrops(s, f, i, j, id);
      RowsClimb(s, id, i, j);
    }
    SameChosen(ids, ChosenAt(s.history, j, f));
    SortedLists(a, ids);
    SortedLists(b, ids);
    SameOrder(a, b, ids, Sorted(a, ids));
    ListingIsUnique(b, ids, Sorted(a, ids), Sorted(b, ids));
  }

  lemma SameChosen(a: set<Id>, b: set<Id>)
    requires a <= b && |a| == |b|
    ensures a == b
  {
    assert b == a + (b - a);
    assert b - a == {};
  }

  lemma SameOrder(a: Table, b: Table, ids: set<Id>, l: seq<Id>)
    requires ids <= a.Keys && ids <= b.Keys && Lists(a, ids, l)
    requires forall id | id in ids :: b[id].createdAt == a[id].createdAt
    ensures Lists(b, ids, l)
  {
    forall i, j | 0 <= i < j < |l| ensures l[i] in b && l[j] in b && Before(b, l[i], l[j]) {
      assert l[i] in ids && l[j] in ids;
    }
  }

  /** What the first `n` fetches returned, one after the other. */
  function ShownPages(h: seq<Version>, f: Filters, size: nat, walk: seq<Fetch>, n: nat): seq<Id>
    requires n <= |walk| && forall k | 0 <= k < |walk| :: walk[k].selected < |h|
  {
    if n == 0 then []
    else ShownPages(h, f, size, walk, n - 1) + Page(Listing(h[walk[n - 1].selected].table, f), n, size)
  }

  /** If no complaint comes to fit while a client walks the pages, then what it is shown, put together, is the
      listing: each complaint once, in order. */
  lemma WalkJoinsUp(s: Sys, f: Filters, size: nat, walk: seq<Fetch>)
    requires HistoryOk(s) && OwnCommitsOnly(s.history) && Settled(f) && Walked(s.history, f, size, walk)
    requires |ChosenAt(s.history, walk[0].counted, f)| == |ChosenAt(s.history, walk[|walk| - 1].selected, f)|
    ensures ShownPages(s.history, f, size, walk, |walk|) == Listing(s.history[walk[0].counted].table, f)
  {
    hide HistoryOk, OwnCommitsOnly, Listing, Page, Select;
    var h, n := s.history, |walk|;
    var l := Listing(h[walk[0].counted].table, f);
    WalkSeesOne(s, f, size, walk);
    SamePages(h, f, size, walk, n, l);
    PagesJoinUp(l, n, size);
    ListingLength(h[walk[0].counted].table, f);
  }

  lemma ListingLength(t: Table, f: Filters)
    ensures |Listing(t, f)| == |Select(t, f)|
  {
    SortedLists(t, Select(t, f));
    LengthIsCount(t, Select(t, f), Listing(t, f));
  }

  lemma WalkSeesOne(s: Sys, f: Filters, size: nat, walk: seq<Fetch>)
    requires HistoryOk(s) && OwnCommitsOnly(s.history) && Settled(f) && Walked(s.history, f, size, walk)
    requires |ChosenAt(s.history, walk[0].counted, f)| == |ChosenAt(s.history, walk[|walk| - 1].selected, f)|
    ensures var h, first := s.history, walk[0].counted;
      && first < |h|
      && (forall k | 0 <= k < |walk| :: walk[k].selected < |h|
            && Listing(h[walk[k].selected].table, f) == Listing(h[first].table, f))
      && |walk| * size >= |ChosenAt(h, first, f)|
  {
    hide HistoryOk, OwnCommitsOnly, ChosenAt, Listing;
    var h, n := s.history, |walk|;
    var first, last := walk[0].counted, walk[n - 1].selected;
    forall k | 0 <= k < n ensures Listing(h[walk[k].selected].table, f) == Listing(h[first].table, f) {
      WalkRises(h, f, size, walk, k);
      WalkEnds(h, f, size, walk, k);
      ChosenGrow(s, f, first, walk[k].selected);
      ChosenGrow(s, f, walk[k].selected, last);
      ListingStays(s, f, first, walk[k].selected);
    }
    WalkRises(h, f, size, walk, n - 1);
    WalkCounted(h, f, size, walk, n - 1);
    ChosenGrow(s, f, first, walk[n - 1].counted);
  }

  lemma {:induction false} WalkCounted(h: seq<Version>, f: Filters, size: nat, walk: seq<Fetch>, k: nat)
    requires Walked(h, f, size, walk) && k < |walk|
    ensures walk[0].counted <= walk[k].counted
  {
    hide ChosenAt;
    if k > 0 { WalkCounted(h, f, size, walk, k - 1); }
  }

  lemma {:induction false} WalkEnds(h: seq<Version>, f: Filters, size: nat, walk: seq<Fetch>, k: nat)
    requires Walked(h, f, size, walk) && k < |walk|
    ensures walk[k].selected <= walk[|walk| - 1].selected
    decreases |walk| - k
  {
    hide ChosenAt;
    if k < |walk| - 1 { WalkEnds(h, f, size, walk, k + 1); }
  }

  lemma ChosenGrow(s: Sys, f: Filters, i: nat, j: nat)
    requires HistoryOk(s) && OwnCommitsOnly(s.history) && Settled(f) && i <= j < |s.history|
    ensures |ChosenAt(s.history, i, f)| <= |ChosenAt(s.history, j, f)|
  {
    hide HistoryOk, OwnCommitsOnly, ChosenAt, RankAt;
    forall id | id in ChosenAt(s.history, i, f) ensures id in ChosenAt(s.history, j, f) {
      RankNeverDrops(s, f, i, j, id);
    }
    SmallerSet(ChosenAt(s.history, i, f), ChosenAt(s.history, j, f));
  }

  lemma {:induction false} SamePages(h: seq<Version>, f: Filters, size: nat, walk: seq<Fetch>, n: nat, l: seq<Id>)
    requires n <= |walk| && forall k | 0 <= k < |walk| :: walk[k].selected < |h|
    requires forall k | 0 <= k < |walk| :: Listing(h[walk[k].selected].table, f) == l
    ensures ShownPages(h, f, size, walk, n) == Pages(l, n, size)
  {
    hide Listing, Page;
    if n > 0 { SamePages(h, f, size, walk, n - 1, l); }
  }

  predicate SeenByClient(h: seq<Version>, f: Filters, size: nat, walk: seq<Fetch>, id: Id)
    requires Walked(h, f, size, walk)
  {
    exists k | 0 <= k < |walk| :: Shown(h, f, size, walk, k, id)
  }

  /** The complaints there at the start that the client never gets to see. */
  function Missed(h: seq<Version>, f: Filters, size: nat, walk: seq<Fetch>, start: nat): set<Id>
    requires Walked(h, f, size, walk) && start < |h|
  {
    set id | id in ChosenAt(h, start, f) && !SeenByClient(h, f, size, walk, id)
  }

  /** In general it misses at most as many as came to fit between the two statements of its last fetch. */
  lemma MissedAtMostAddedMeanwhile(s: Sys, f: Filters, size: nat, walk: seq<Fetch>, start: nat)
    requires HistoryOk(s) && OwnCommitsOnly(s.history) && Settled(f) && Walked(s.history, f, size, walk)
    requires start <= walk[0].selected
    ensures var last := walk[|walk| - 1];
      |Missed(s.history, f, size, walk, start)| + |ChosenAt(s.history, last.counted, f)|
      <= |ChosenAt(s.history, last.selected, f)|
  {
    hide HistoryOk, OwnCommitsOnly, Shown, Rank;
    var h, n, last := s.history, |walk|, walk[|walk| - 1];
    var t, ids, missed := h[last.selected].table, ChosenAt(h, last.selected, f), Missed(h, f, size, walk, start);
    forall id | id in missed ensures id in Past(t, ids, n * size) {
      StaysChosen(s, f, size, walk, start, id);
      SeenIffReached(s, f, size, walk, n, start, id);
      assert !Reached(h, f, size, walk, n - 1, id);
    }
    SmallerSet(missed, Past(t, ids, n * size));
    PastCounted(t, ids, n * size);
    forall id | id in ChosenAt(h, last.counted, f) ensures id in ids {
      RankNeverDrops(s, f, last.counted, last.selected, id);
    }
    SmallerSet(ChosenAt(h, last.counted, f), ids);
  }

  function Past(t: Table, ids: set<Id>, n: nat): set<Id>
    requires ids <= t.Keys
  {
    set id | id in ids && n <= Rank(t, ids, id)
  }

  lemma PastCounted(t: Table, ids: set<Id>, n: nat)
    requires ids <= t.Keys
    ensures |Past(t, ids, n)| == if n <= |ids| then |ids| - n else 0
  {
    hide Sorted, Rank;
    var l := Sorted(t, ids);
    SortedLists(t, ids);
    LengthIsCount(t, ids, l);
    forall i: nat | i < |l| ensures l[i] in ids && Rank(t, ids, l[i]) == i {
      PositionIsRank(t, ids, l, i);
    }
    if n <= |l| {
      FirstsCounted(l, n);
      assert Past(t, ids, n) == ids - Firsts(l, n);
      assert Firsts(l, n) <= ids;
    } else {
      assert Past(t, ids, n) == {};
    }
  }

  // ---------------------------------------------------------------- where complaints are missed

  const EVERYTHING := Filters(None, None, None)

  /** The client's stopping rule alone is not enough. A complaint created between the COUNT and the SELECT
      of the only fetch pushes the one that was there off the page, and the total says there is no more. */
  lemma InsertBetweenStatementsHidesARow(ttl: int, row: Complaint, newer: Complaint)
    returns (origin: Sys, run: seq<Event>, walk: seq<Fetch>)
    requires row.status == Open && newer.status == Open && row.createdAt < newer.createdAt
    ensures Initial(origin) && Legal(origin, run) && OwnCommitsOnly(After(origin, run).history)
    ensures var h := After(origin, run).history;
      && Walked(h, EVERYTHING, 1, walk) && 0 in ChosenAt(h, walk[0].counted, EVERYTHING)
      && !SeenByClient(h, EVERYTHING, 1, walk, 0)
  {
    origin, run := NewerRowComes(ttl, row, newer);
    walk := [Fetch(0, 1)];
    hide Legal, After, Initial;
    var h := After(origin, run).history;
    assert ChosenAt(h, 0, EVERYTHING) == {0} && ChosenAt(h, 1, EVERYTHING) == {0, 1};
    assert Ahead(h[1].table, {0, 1}, 0) == {1};
    ShownByRank(h, EVERYTHING, 1, walk, 0, 0);
  }

  lemma NewerRowComes(ttl: int, row: Complaint, newer: Complaint) returns (origin: Sys, run: seq<Event>)
    requires newer.status == Open
    ensures Initial(origin) && Legal(origin, run)
    ensures After(origin, run).history == [
      Version(map[0 := row], 0, false), Version(map[0 := row, 1 := newer], 0, false)]
  {
    origin := Sys(ttl, Cache.Redis(0, map[], map[], map[]), [Version(map[0 := row], 0, false)], map[], map[], {}, {});
    assert Legal(origin, []) && After(origin, []) == origin;
    hide Legal, After;
    InsertSteps(origin, 2, 1, newer);
    hide Apply, Enabled;
    Extend(origin, [], Insert(2, 1, newer));
    Extend(origin, [] + [Insert(2, 1, newer)], Commit(2));
    run := [] + [Insert(2, 1, newer)] + [Commit(2)];
    assert map[0 := row][1 := newer] == map[0 := row, 1 := newer];
  }

  /** An identifier not being taken, a request can insert a row and commit. */
  lemma InsertSteps(s: Sys, p: Pid, id: Id, row: Complaint)
    requires s.history != [] && Of(s, p).Idle? && id !in Current(s) && row.status == Open
    ensures Enabled(s, Insert(p, id, row))
    ensures var s' := Apply(s, Insert(p, id, row));
      && Enabled(s', Commit(p))
      && Apply(s', Commit(p)).history == s.history + [Version(Current(s)[id := row], s.redis.now, false)]
  {
  }

  /** The guarantee of `NothingMissed`, for rows that fit the filter from the first fetch to the last. */
  ghost predicate MissesNothing(f: Filters) {
    forall origin: Sys, run: seq<Event>, size: nat, walk: seq<Fetch>, id: Id |
      FairWalk(origin, run, f, size, walk, id) :: SeenByClient(After(origin, run).history, f, size, walk, id)
  }

  /** A walk to the end, beside creations and status changes only, whose last SELECT found no more rows than its
      COUNT, and a complaint that fitted the filter all along. */
  ghost predicate FairWalk(origin: Sys, run: seq<Event>, f: Filters, size: nat, walk: seq<Fetch>, id: Id) {
    && Initial(origin) && Legal(origin, run)
    && var h := After(origin, run).history;
    && OwnCommitsOnly(h) && Walked(h, f, size, walk)
    && var last := walk[|walk| - 1];
    && |ChosenAt(h, last.selected, f)| <= |ChosenAt(h, last.counted, f)|
    && forall v | walk[0].counted <= v <= last.selected :: id in ChosenAt(h, v, f)
  }

  /** The guarantee holds of a filter exactly when it does not look at the status or asks for one that is never
      left. */
  lemma MissesNothingIffSettled(f: Filters)
    ensures MissesNothing(f) <==> Settled(f)
  {
    hide SeenByClient, After, ChosenAt, Legal, Initial, OwnCommitsOnly;
    if Settled(f) {
      forall origin: Sys, run: seq<Event>, size: nat, walk: seq<Fetch>, id: Id |
        FairWalk(origin, run, f, size, walk, id)
        ensures SeenByClient(After(origin, run).history, f, size, walk, id)
      {
        FairWalkSees(origin, run, f, size, walk, id);
      }
    } else {
      var origin, run, walk := StatusFilterSkipsARow(f);
    }
  }

  lemma FairWalkSees(origin: Sys, run: seq<Event>, f: Filters, size: nat, walk: seq<Fetch>, id: Id)
    requires Settled(f) && FairWalk(origin, run, f, size, walk, id)
    ensures SeenByClient(After(origin, run).history, f, size, walk, id)
  {
    hide OwnCommitsOnly, Shown, HistoryOk, ChosenAt, Legal;
    RunKeepsInv(origin, run);
    WalkRises(After(origin, run).history, f, size, walk, |walk| - 1);
    var k := NothingMissed(After(origin, run), f, size, walk, walk[0].counted, id);
  }

  /** A row as the filter wants it. */
  function Fitting(f: Filters, createdAt: nat): (c: Complaint)
    ensures Fits(f, c) && c.createdAt == createdAt && (f.status.Some? ==> c.status == f.status.value)
  {
    Complaint("", "", None,
      if f.category.Some? then f.category.value else Other,
      if f.priority.Some? then f.priority.value else Normal,
      if f.status.Some? then f.status.value else Open,
      "", "", 0, createdAt)
  }

  /** A filter on a status that can be left can hide a row that fits it throughout: another row leaves the first
      page, everything moves up by one, and the second page starts past the row that moved. */
  lemma StatusFilterSkipsARow(f: Filters) returns (origin: Sys, run: seq<Event>, walk: seq<Fetch>)
    requires !Settled(f)
    ensures FairWalk(origin, run, f, 1, walk, 1)
    ensures !SeenByClient(After(origin, run).history, f, 1, walk, 1)
  {
    var first, second := Fitting(f, 1), Fitting(f, 0);
    var target := if f.status == Some(Open) then InProgress else Resolved;
    origin, run := FirstRowMoves(first, second, target);
    walk := [Fetch(0, 0), Fetch(1, 1)];
    hide Legal, After, Initial;
    SecondRowSkipped(After(origin, run).history, f, first, second, target);
  }

  lemma SecondRowSkipped(h: seq<Version>, f: Filters, first: Complaint, second: Complaint, target: Status)
    requires Fits(f, first) && Fits(f, second) && f.status.Some? && f.status.value != target
    requires first.createdAt > second.createdAt
    requires h == [
      Version(map[0 := first, 1 := second], 0, false),
      Version(map[0 := first.(status := target), 1 := second], 0, false)]
    ensures var walk := [Fetch(0, 0), Fetch(1, 1)];
      && ChosenAt(h, 0, f) == {0, 1} && ChosenAt(h, 1, f) == {1}
      && Walked(h, f, 1, walk) && !SeenByClient(h, f, 1, walk, 1)
  {
    hide Fits;
    var walk := [Fetch(0, 0), Fetch(1, 1)];
    TwoThenOneChosen(h[0].table, h[1].table, f, first, second, target);
    hide Select, Before, Listing, Page;
    ShownByRank(h, f, 1, walk, 0, 1);
    ShownByRank(h, f, 1, walk, 1, 1);
  }

  lemma TwoThenOneChosen(a: Table, b: Table, f: Filters, first: Complaint, second: Complaint, target: Status)
    requires Fits(f, first) && Fits(f, second) && f.status.Some? && f.status.value != target
    requires first.createdAt > second.createdAt
    requires a == map[0 := first, 1 := second] && b == map[0 := first.(status := target), 1 := second]
    ensures Select(a, f) == {0, 1} && Select(b, f) == {1}
    ensures Rank(a, {0, 1}, 1) == 1 && Rank(b, {1}, 1) == 0
  {
    assert Ahead(a, {0, 1}, 1) == {0};
    assert Ahead(b, {1}, 1) == {};
  }

  lemma FirstRowMoves(first: Complaint, second: Complaint, target: Status) returns (origin: Sys, run: seq<Event>)
    requires CanTransition(first.status, target)
    ensures Initial(origin) && Legal(origin, run)
    ensures After(origin, run).history == [
      Version(map[0 := first, 1 := second], 0, false),
      Version(map[0 := first.(status := target), 1 := second], 0, false)]
  {
    var start := Version(map[0 := first, 1 := second], 0, false);
    origin := Sys(30, Cache.Redis(0, map[], map[], map[]), [start], map[], map[], {}, {});
    hide Legal, After, Apply, Enabled, CanTransition;
    run := MoveRun(origin, 2, 0, target);
    assert start.table[0 := first.(status := target)] == map[0 := first.(status := target), 1 := second];
  }

  lemma MoveRun(s: Sys, p: Pid, id: Id, target: Status) returns (run: seq<Event>)
    requires s.history != [] && Of(s, p).Idle? && id in Current(s) && id !in s.locks
    requires CanTransition(Current(s)[id].status, target)
    ensures Legal(s, run)
    ensures After(s, run).history
      == s.history + [Version(Current(s)[id := Current(s)[id].(status := target)], s.redis.now, false)]
  {
    assert Legal(s, []) && After(s, []) == s;
    var lock := Lock(p, id, target);
    MoveSteps(s, p, id, target);
    hide Legal, After, Apply, Enabled, CanTransition;
    Extend(s, [], lock);
    Extend(s, [] + [lock], Flush(p));
    Extend(s, [] + [lock] + [Flush(p)], Commit(p));
    run := [] + [lock] + [Flush(p)] + [Commit(p)];
  }

  /** Nobody being in the way, a request can lock a row, change its status and commit. */
  lemma MoveSteps(s: Sys, p: Pid, id: Id, target: Status)
    requires s.history != [] && Of(s, p).Idle? && id in Current(s) && id !in s.locks
    requires CanTransition(Current(s)[id].status, target)
    ensures Enabled(s, Lock(p, id, target))
    ensures var s1 := Apply(s, Lock(p, id, target));
      && Enabled(s1, Flush(p))
      && var s2 := Apply(s1, Flush(p));
      && Enabled(s2, Commit(p))
      && Apply(s2, Commit(p)).history
         == s.history + [Version(Current(s)[id := Current(s)[id].(status := target)], s.redis.now, false)]
  {
  }
}
