/** Ordered pages of the active repositories: `list`, the clamps in front of it, and clients that walk the pages. */
module Paging {
  import opened Prelude
  import opened RepositoryTable

  const MIN_LIMIT := 1
  const MAX_LIMIT := 100
  const MIN_OFFSET := 0

  function Max(a: int, b: int): int {
    if a >= b then a else b
  }

  function Distance(a: int, b: int): nat {
    if a <= b then b - a else a - b
  }

  function ClampLimit(limit: int): (r: int)
    ensures 1 <= r <= 100
  {
    Min(Max(limit, MIN_LIMIT), MAX_LIMIT)
  }

  function ClampOffset(offset: int): nat {
    Max(offset, MIN_OFFSET)
  }

  /** Each clamp picks the supported value nearest to the one asked for, and no other value is as near. */
  lemma ClampsAreNearest(limit: int, offset: int, l: int, o: int)
    requires 1 <= l <= 100 && 0 <= o
    ensures 1 <= ClampLimit(limit) <= 100
    ensures Distance(limit, ClampLimit(limit)) <= Distance(limit, l)
    ensures Distance(offset, ClampOffset(offset)) <= Distance(offset, o)
    ensures Distance(limit, l) == Distance(limit, ClampLimit(limit)) ==> l == ClampLimit(limit)
    ensures Distance(offset, o) == Distance(offset, ClampOffset(offset)) ==> o == ClampOffset(offset)
  {
  }

  // ---------- ORDER BY created_at DESC, id DESC ----------

  predicate SortsBefore(a: Row, b: Row) {
    a.createdAt > b.createdAt || (a.createdAt == b.createdAt && a.id > b.id)
  }

  function InsertSorted(row: Row, xs: seq<Row>): seq<Row> {
    if xs == [] || SortsBefore(row, xs[0]) then [row] + xs else [xs[0]] + InsertSorted(row, xs[1..])
  }

  /** The active rows, newest first. */
  function Listing(t: Table): seq<Row> {
    if t == [] then []
    else
      var rest := Listing(t[..|t| - 1]);
      if t[|t| - 1].Active() then InsertSorted(t[|t| - 1], rest) else rest
  }

  /** Newest first, and of two created at the same moment the greater id first. */
  ghost predicate NewestFirst(xs: seq<Row>) {
    forall i, j :: 0 <= i < j < |xs| ==>
      xs[i].createdAt > xs[j].createdAt || (xs[i].createdAt == xs[j].createdAt && xs[i].id > xs[j].id)
  }

  ghost predicate DistinctIds(t: seq<Row>) {
    forall i, j :: 0 <= i < j < |t| ==> t[i].id != t[j].id
  }

  lemma {:induction false} InsertSortedMembers(row: Row, xs: seq<Row>, r: Row)
    ensures r in InsertSorted(row, xs) <==> r == row || r in xs
  {
    if xs != [] && !SortsBefore(row, xs[0]) {
      InsertSortedMembers(row, xs[1..], r);
    }
  }

  lemma {:induction false} InsertSortedOrdered(row: Row, xs: seq<Row>)
    requires NewestFirst(xs) && forall i :: 0 <= i < |xs| ==> xs[i].id != row.id
    ensures NewestFirst(InsertSorted(row, xs))
  {
    if xs != [] && !SortsBefore(row, xs[0]) {
      InsertSortedOrdered(row, xs[1..]);
      var tail := InsertSorted(row, xs[1..]);
      forall i | 0 <= i < |tail|
        ensures SortsBefore(xs[0], tail[i])
      {
        InsertSortedMembers(row, xs[1..], tail[i]);
      }
    }
  }

  /** The listing holds exactly the rows not deleted, in strictly descending (created_at, id) order. */
  lemma {:induction false} ListingExact(t: Table)
    requires DistinctIds(t)
    ensures forall i, j :: 0 <= i < j < |Listing(t)| ==>
      var (a, b) := (Listing(t)[i], Listing(t)[j]);
      a.createdAt > b.createdAt || (a.createdAt == b.createdAt && a.id > b.id)
    ensures forall r :: r in Listing(t) <==> r in t && r.deletedAt == None
  {
    if t != [] {
      var k := |t| - 1;
      ListingExact(t[..k]);
      forall r
        ensures r in Listing(t) <==> r in t && r.Active()
      {
        InsertSortedMembers(t[k], Listing(t[..k]), r);
        assert t == t[..k] + [t[k]];
      }
      forall i | 0 <= i < |Listing(t[..k])|
        ensures Listing(t[..k])[i].id != t[k].id
      {
        var r := Listing(t[..k])[i];
        assert r in t[..k];
      }
      if t[k].Active() {
        InsertSortedOrdered(t[k], Listing(t[..k]));
      }
    }
  }

  // ---------- one page ----------

  datatype RepositoryPage = RepositoryPage(items: seq<Row>, total: nat, limit: int, offset: nat)

  function Slice(xs: seq<Row>, offset: nat, limit: nat): seq<Row> {
    xs[Min(offset, |xs|)..Min(offset + limit, |xs|)]
  }

  /** `list`: two statements, so the count may be taken of a later table than the items. */
  function ListPage(seen: Table, counted: Table, limit: nat, offset: nat): RepositoryPage {
    RepositoryPage(Slice(Listing(seen), offset, limit), |Listing(counted)|, limit, offset)
  }

  /** `ListRepositoriesUseCase.execute` */
  function Execute(seen: Table, counted: Table, limit: int, offset: int): RepositoryPage {
    ListPage(seen, counted, ClampLimit(limit), ClampOffset(offset))
  }

  // ---------- walking the pages of an unchanging table ----------

  /** A client asking for page after page, by the limit the server says it applied, until an empty one. */
  function Walk(t: Table, limit: int, offset: nat): seq<RepositoryPage>
    decreases |Listing(t)| - offset
  {
    var page := Execute(t, t, limit, offset);
    if page.items == [] then [] else [page] + Walk(t, limit, offset + page.limit)
  }

  function Items(pages: seq<RepositoryPage>): seq<Row> {
    if pages == [] then [] else pages[0].items + Items(pages[1..])
  }

  /** The smallest number of pages of l that hold n items: n / l rounded up. */
  predicate IsCeiling(pages: nat, n: nat, l: nat) {
    n <= pages * l < n + l
  }

  lemma CeilingStep(pages: nat, n: nat, l: nat)
    requires l <= n && IsCeiling(pages, n - l, l)
    ensures IsCeiling(1 + pages, n, l)
  {
    assert (1 + pages) * l == l + pages * l;
  }

  /** The page at an offset, and what the walk does with it. */
  lemma WalkUnfolds(t: Table, limit: int, offset: nat)
    requires offset <= |Listing(t)|
    ensures var xs, l := Listing(t), ClampLimit(limit);
            && Execute(t, t, limit, offset).items == xs[offset..Min(offset + l, |xs|)]
            && (offset == |xs| ==> Walk(t, limit, offset) == [])
            && (offset < |xs| ==> Walk(t, limit, offset) == [Execute(t, t, limit, offset)] + Walk(t, limit, offset + l))
  {
  }

  lemma ItemsCons(page: RepositoryPage, rest: seq<RepositoryPage>)
    ensures Items([page] + rest) == page.items + Items(rest)
  {
    assert ([page] + rest)[1..] == rest;
  }

  lemma LastPage(t: Table, limit: int, offset: nat)
    requires offset >= |Listing(t)|
    ensures Walk(t, limit, offset) == []
  {
  }

  /** What is left of a listing at an offset. */
  function Left(xs: seq<Row>, offset: nat): seq<Row> {
    xs[Min(offset, |xs|)..]
  }

  lemma LeftCut(xs: seq<Row>, from: nat, at: nat)
    requires from <= |xs| && from <= at
    ensures Left(xs, from) == xs[from..Min(at, |xs|)] + Left(xs, at)
  {
  }

  lemma WalkItems(t: Table, limit: int, offset: nat)
    requires offset < |Listing(t)|
    ensures var xs, next := Listing(t), offset + ClampLimit(limit);
            Items(Walk(t, limit, offset)) == xs[offset..Min(next, |xs|)] + Items(Walk(t, limit, next))
  {
    WalkUnfolds(t, limit, offset);
    ItemsCons(Execute(t, t, limit, offset), Walk(t, limit, offset + ClampLimit(limit)));
  }

  lemma {:induction false} WalkFrom(t: Table, limit: int, offset: nat)
    ensures Items(Walk(t, limit, offset)) == Left(Listing(t), offset)
    decreases |Listing(t)| - offset
  {
    if offset < |Listing(t)| {
      var next := offset + ClampLimit(limit);
      WalkFrom(t, limit, next);
      WalkItems(t, limit, offset);
      LeftCut(Listing(t), offset, next);
    } else {
      LastPage(t, limit, offset);
    }
  }

  lemma {:induction false} WalkLength(t: Table, limit: int, offset: nat)
    requires offset <= |Listing(t)|
    ensures IsCeiling(|Walk(t, limit, offset)|, |Listing(t)| - offset, ClampLimit(limit))
    decreases |Listing(t)| - offset
  {
    var n, l := |Listing(t)|, ClampLimit(limit);
    WalkUnfolds(t, limit, offset);
    if offset + l <= n {
      WalkLength(t, limit, offset + l);
      CeilingStep(|Walk(t, limit, offset + l)|, n - offset, l);
    } else if offset < n {
      LastPage(t, limit, offset + l);
      assert 1 * l == l;
    }
  }

  /** No page of a walk is empty, and each carries the total. */
  lemma {:induction false} WalkPages(t: Table, limit: int, offset: nat)
    ensures forall i :: 0 <= i < |Walk(t, limit, offset)| ==>
      Walk(t, limit, offset)[i].items != [] && Walk(t, limit, offset)[i].total == |Listing(t)|
    decreases |Listing(t)| - offset
  {
    if offset < |Listing(t)| {
      WalkUnfolds(t, limit, offset);
      WalkPages(t, limit, offset + ClampLimit(limit));
    } else {
      LastPage(t, limit, offset);
    }
  }

  /**
   * Page partition. On an unchanging table, whatever limit is asked for, the pages from offset 0 concatenate
   * to exactly the active rows in strictly descending order: no repeats, no gaps, and ceil(total / limit)
   * non-empty pages before the empty one that ends the walk.
   */
  lemma PagesPartition(t: Table, limit: int)
    requires DistinctIds(t)
    ensures Items(Walk(t, limit, 0)) == Listing(t)
    ensures NewestFirst(Items(Walk(t, limit, 0)))
    ensures forall r :: r in Items(Walk(t, limit, 0)) <==> r in t && r.deletedAt == None
    ensures var l := if limit < 1 then 1 else if limit > 100 then 100 else limit;
            |Listing(t)| <= |Walk(t, limit, 0)| * l < |Listing(t)| + l
    ensures forall i :: 0 <= i < |Walk(t, limit, 0)| ==>
      Walk(t, limit, 0)[i].items != [] && Walk(t, limit, 0)[i].total == |Listing(t)|
  {
    WalkFrom(t, limit, 0);
    WalkLength(t, limit, 0);
    WalkPages(t, limit, 0);
    ListingExact(t);
  }

  lemma SliceWindow(xs: seq<Row>, offset: nat, limit: nat, i: nat)
    requires NewestFirst(xs) && i < |xs|
    ensures xs[i] in Slice(xs, offset, limit) <==> offset <= i < offset + limit
  {
    var lo := Min(offset, |xs|);
    var slice := Slice(xs, offset, limit);
    if offset <= i < offset + limit {
      assert slice[i - lo] == xs[i];
    }
    if xs[i] in slice {
      var j :| 0 <= j < |slice| && slice[j] == xs[i];
      assert xs[lo + j] == xs[i];
      assert lo + j == i;
    }
  }

  lemma SliceInOrder(xs: seq<Row>, offset: nat, limit: nat)
    requires NewestFirst(xs)
    ensures NewestFirst(Slice(xs, offset, limit))
    ensures |Slice(xs, offset, limit)| == Min(limit, Max(|xs| - offset, 0))
    ensures forall r :: r in Slice(xs, offset, limit) ==> r in xs
  {
    var lo, slice := Min(offset, |xs|), Slice(xs, offset, limit);
    assert forall i :: 0 <= i < |slice| ==> slice[i] == xs[lo + i];
  }

  /** What a page shows of a table. */
  lemma SliceOfListing(t: Table, offset: nat, limit: nat)
    requires DistinctIds(t)
    ensures var items := Slice(Listing(t), offset, limit);
            && (forall i :: 0 <= i < |Listing(t)| ==> (Listing(t)[i] in items <==> offset <= i < offset + limit))
            && NewestFirst(items)
            && (forall r :: r in items ==> r in t && r.deletedAt == None)
            && |items| == Min(limit, Max(|Listing(t)| - offset, 0))
  {
    ListingExact(t);
    SliceInOrder(Listing(t), offset, limit);
    forall i | 0 <= i < |Listing(t)|
      ensures Listing(t)[i] in Slice(Listing(t), offset, limit) <==> offset <= i < offset + limit
    {
      SliceWindow(Listing(t), offset, limit, i);
    }
  }

  /** An item is on exactly the page whose window its rank falls in; the total is of the table the count saw. */
  lemma PageWindow(t: Table, counted: Table, limit: int, offset: int, i: nat)
    requires i < |Listing(t)| && DistinctIds(t)
    ensures var page := Execute(t, counted, limit, offset);
            && page.limit == (if limit < 1 then 1 else if limit > 100 then 100 else limit)
            && page.offset == (if offset < 0 then 0 else offset)
            && (Listing(t)[i] in page.items <==> page.offset <= i < page.offset + page.limit)
            && NewestFirst(page.items)
            && page.total == |Listing(counted)|
            && |page.items| == Min(page.limit, Max(|Listing(t)| - page.offset, 0))
  {
    SliceOfListing(t, ClampOffset(offset), ClampLimit(limit));
  }

  // ---------- walking while others write ----------

  /** What is seen from the next page on; the last table stays. */
  function Later(tables: seq<Table>): (r: seq<Table>)
    requires tables != []
    ensures r != []
  {
    if |tables| == 1 then tables else tables[1..]
  }

  /** Walking a table that changes between pages: tables[0] is seen first, and the last one from then on. */
  function WalkChanging(tables: seq<Table>, limit: int, offset: nat): seq<Row>
    requires tables != []
    decreases |tables|, |Listing(tables[0])| - offset
  {
    var page := Execute(tables[0], tables[0], limit, offset);
    if page.items == [] then []
    else page.items + WalkChanging(Later(tables), limit, offset + page.limit)
  }

  predicate RankedFrom(xs: seq<Row>, rank: nat, row: Row) {
    exists j :: rank <= j < |xs| && xs[j] == row
  }

  /** If xs lists row, ys does too, at no smaller rank. */
  ghost predicate NoEarlier(xs: seq<Row>, ys: seq<Row>, row: Row) {
    forall i :: 0 <= i < |xs| && xs[i] == row ==> RankedFrom(ys, i, row)
  }

  ghost predicate RankOnlyGrows(tables: seq<Table>, row: Row) {
    forall i :: 0 <= i < |tables| - 1 ==> NoEarlier(Listing(tables[i]), Listing(tables[i + 1]), row)
  }

  lemma NoEarlierTransitive(xs: seq<Row>, ys: seq<Row>, zs: seq<Row>, row: Row)
    requires NoEarlier(xs, ys, row) && NoEarlier(ys, zs, row)
    ensures NoEarlier(xs, zs, row)
  {
    forall i | 0 <= i < |xs| && xs[i] == row
      ensures RankedFrom(zs, i, row)
    {
      assert RankedFrom(ys, i, row);
      var j :| i <= j < |ys| && ys[j] == row;
      assert RankedFrom(zs, j, row);
    }
  }

  lemma LaterRankOnlyGrows(tables: seq<Table>, row: Row)
    requires tables != [] && RankOnlyGrows(tables, row)
    ensures RankOnlyGrows(Later(tables), row)
  {
    if |tables| > 1 {
      forall i | 0 <= i < |tables[1..]| - 1
        ensures NoEarlier(Listing(tables[1..][i]), Listing(tables[1..][i + 1]), row)
      {
        assert tables[1..][i] == tables[i + 1] && tables[1..][i + 1] == tables[i + 2];
      }
    }
  }

  lemma LaterRank(tables: seq<Table>, rank: nat, row: Row) returns (later: nat)
    requires tables != [] && RankOnlyGrows(tables, row)
    requires rank < |Listing(tables[0])| && Listing(tables[0])[rank] == row
    ensures rank <= later < |Listing(Later(tables)[0])| && Listing(Later(tables)[0])[later] == row
    ensures RankOnlyGrows(Later(tables), row) && (Later(tables) == tables || |Later(tables)| < |tables|)
  {
    LaterRankOnlyGrows(tables, row);
    if |tables| == 1 {
      later := rank;
    } else {
      var ys := Listing(tables[1]);
      assert NoEarlier(Listing(tables[0]), ys, row) && RankedFrom(ys, rank, row);
      later :| rank <= later < |ys| && ys[later] == row;
    }
  }

  lemma WalkChangingUnfolds(tables: seq<Table>, limit: int, offset: nat)
    requires tables != [] && offset < |Listing(tables[0])|
    ensures var xs, next := Listing(tables[0]), offset + ClampLimit(limit);
            WalkChanging(tables, limit, offset)
            == xs[offset..Min(next, |xs|)] + WalkChanging(Later(tables), limit, next)
  {
  }

  /** A walk receives the rows of this page, and whatever the rest of it receives. */
  lemma WalkReceives(tables: seq<Table>, limit: int, offset: nat, rank: nat, row: Row)
    requires tables != [] && offset <= rank < |Listing(tables[0])|
    ensures rank < offset + ClampLimit(limit) ==> Listing(tables[0])[rank] in WalkChanging(tables, limit, offset)
    ensures row in WalkChanging(Later(tables), limit, offset + ClampLimit(limit)) ==>
      row in WalkChanging(tables, limit, offset)
  {
    var xs, next := Listing(tables[0]), offset + ClampLimit(limit);
    WalkChangingUnfolds(tables, limit, offset);
    if rank < next {
      assert xs[offset..Min(next, |xs|)][rank - offset] == xs[rank];
    }
  }

  /** A row whose rank never falls is still ahead of a walk that has not passed it. */
  lemma {:induction false} WalkReaches(tables: seq<Table>, limit: int, offset: nat, rank: nat, row: Row)
    requires tables != [] && RankOnlyGrows(tables, row)
    requires offset <= rank < |Listing(tables[0])| && Listing(tables[0])[rank] == row
    ensures row in WalkChanging(tables, limit, offset)
    decreases |tables|, |Listing(tables[0])| - offset
  {
    var next := offset + ClampLimit(limit);
    WalkReceives(tables, limit, offset, rank, row);
    if rank >= next {
      var later := LaterRank(tables, rank, row);
      WalkReaches(Later(tables), limit, next, later, row);
    }
  }

  lemma WalkReachesListed(tables: seq<Table>, limit: int, row: Row)
    requires tables != [] && RankOnlyGrows(tables, row)
    requires DistinctIds(tables[0]) && row in tables[0] && row.Active()
    ensures row in WalkChanging(tables, limit, 0)
  {
    ListingExact(tables[0]);
    assert row in Listing(tables[0]);
    var rank :| 0 <= rank < |Listing(tables[0])| && Listing(tables[0])[rank] == row;
    WalkReaches(tables, limit, 0, rank, row);
  }

  // ---------- what may commit without hiding a row ----------

  /** Newer, or as new and of a greater id. */
  predicate Ahead(a: Row, b: Row) {
    a.createdAt > b.createdAt || (a.createdAt == b.createdAt && a.id > b.id)
  }

  /** A create, wherever its row sorts, or a delete that is not of this row and of no active row ahead of it. */
  ghost predicate Harmless(t: Table, op: Op, row: Row) {
    op.Delete? ==>
      forall i :: 0 <= i < |t| && t[i].deletedAt == None && t[i].id == op.target ==> t[i] != row && !Ahead(t[i], row)
  }

  /** In two orderly lists, a row everything ahead of which is kept does not move up. */
  lemma {:induction false} RankNotLower(xs: seq<Row>, ys: seq<Row>, i: nat, j: nat)
    requires NewestFirst(xs) && NewestFirst(ys)
    requires i < |xs| && j < |ys| && xs[i] == ys[j]
    requires forall k :: 0 <= k < i ==> xs[k] in ys
    ensures i <= j
  {
    if i > 0 {
      assert xs[i - 1] in ys;
      var before :| 0 <= before < |ys| && ys[before] == xs[i - 1];
      assert Ahead(ys[before], ys[j]);
      RankNotLower(xs, ys, i - 1, before);
    }
  }

  lemma StepKeepsDistinctIds(fold: Fold, t: Table, op: Op)
    requires DistinctIds(t)
    ensures DistinctIds(Step(fold, t, op))
  {
    if op.Create? {
      ConflictExactly(fold, t, op.name, op.id, op.now, op.named, op.fault);
    }
  }

  /** A harmless commit keeps the row and everything active ahead of it. */
  lemma HarmlessKeeps(fold: Fold, t: Table, op: Op, row: Row, r: Row)
    requires Harmless(t, op, row) && r in t && r.Active() && (r == row || Ahead(r, row))
    ensures r in Step(fold, t, op)
  {
    var i :| 0 <= i < |t| && t[i] == r;
    if op.Create? {
      ConflictExactly(fold, t, op.name, op.id, op.now, op.named, op.fault);
    }
    assert Step(fold, t, op)[i] == r;
  }

  lemma HarmlessStep(fold: Fold, t: Table, op: Op, row: Row)
    requires DistinctIds(t) && row in t && row.Active() && Harmless(t, op, row)
    ensures var t' := Step(fold, t, op);
            DistinctIds(t') && row in t' && NoEarlier(Listing(t), Listing(t'), row)
  {
    var t' := Step(fold, t, op);
    StepKeepsDistinctIds(fold, t, op);
    HarmlessKeeps(fold, t, op, row, row);
    ListingExact(t);
    ListingExact(t');
    var xs, ys := Listing(t), Listing(t');
    forall i | 0 <= i < |xs| && xs[i] == row
      ensures RankedFrom(ys, i, row)
    {
      assert row in ys;
      var j :| 0 <= j < |ys| && ys[j] == row;
      forall k | 0 <= k < i
        ensures xs[k] in ys
      {
        assert xs[k] in xs && Ahead(xs[k], row);
        HarmlessKeeps(fold, t, op, row, xs[k]);
      }
      RankNotLower(xs, ys, i, j);
    }
  }

  /** Each of these commits is harmless in the table it meets. */
  ghost predicate AllHarmless(fold: Fold, t: Table, ops: seq<Op>, row: Row) {
    ops != [] ==>
      var k := |ops| - 1;
      AllHarmless(fold, t, ops[..k], row) && Harmless(RunOps(fold, t, ops[..k]), ops[k], row)
  }

  lemma {:induction false} HarmlessRun(fold: Fold, t: Table, ops: seq<Op>, row: Row)
    requires DistinctIds(t) && row in t && row.Active() && AllHarmless(fold, t, ops, row)
    ensures var t' := RunOps(fold, t, ops);
            DistinctIds(t') && row in t' && NoEarlier(Listing(t), Listing(t'), row)
  {
    if ops != [] {
      var k := |ops| - 1;
      var mid := RunOps(fold, t, ops[..k]);
      HarmlessRun(fold, t, ops[..k], row);
      HarmlessStep(fold, mid, ops[k], row);
      NoEarlierTransitive(Listing(t), Listing(mid), Listing(RunOps(fold, t, ops)), row);
    }
  }

  /** The tables a walk sees when batches[i] commits between its pages i and i + 1. */
  function Snapshots(fold: Fold, t: Table, batches: seq<seq<Op>>): (r: seq<Table>)
    ensures |r| == |batches| + 1 && r[0] == t
    decreases |batches|
  {
    if batches == [] then [t] else [t] + Snapshots(fold, RunOps(fold, t, batches[0]), batches[1..])
  }

  ghost predicate BatchesHarmless(fold: Fold, t: Table, batches: seq<seq<Op>>, row: Row)
    decreases |batches|
  {
    batches != [] ==>
      AllHarmless(fold, t, batches[0], row) && BatchesHarmless(fold, RunOps(fold, t, batches[0]), batches[1..], row)
  }

  lemma {:induction false} SnapshotsOnlyGrow(fold: Fold, t: Table, batches: seq<seq<Op>>, row: Row)
    requires DistinctIds(t) && row in t && row.Active() && BatchesHarmless(fold, t, batches, row)
    ensures RankOnlyGrows(Snapshots(fold, t, batches), row)
    decreases |batches|
  {
    if batches != [] {
      var t' := RunOps(fold, t, batches[0]);
      HarmlessRun(fold, t, batches[0], row);
      SnapshotsOnlyGrow(fold, t', batches[1..], row);
      var rest := Snapshots(fold, t', batches[1..]);
      var all := Snapshots(fold, t, batches);
      forall i | 0 <= i < |all| - 1
        ensures NoEarlier(Listing(all[i]), Listing(all[i + 1]), row)
      {
        assert all[i + 1] == rest[i];
        assert i > 0 ==> all[i] == rest[i - 1];
      }
    }
  }

  /**
   * Paging under writes. A client walking offsets 0, L, 2L, ... to an empty page receives a repository that
   * was active when it began, whatever finite number of commits come between its pages, as long as each is a
   * create, wherever it sorts, or a delete of neither that repository nor an active one ahead of it.
   */
  lemma PagingUnderWrites(fold: Fold, t: Table, batches: seq<seq<Op>>, limit: int, row: Row)
    requires DistinctIds(t) && row in t && row.Active() && BatchesHarmless(fold, t, batches, row)
    ensures row in WalkChanging(Snapshots(fold, t, batches), limit, 0)
  {
    SnapshotsOnlyGrow(fold, t, batches, row);
    WalkReachesListed(Snapshots(fold, t, batches), limit, row);
  }

  // ---------- exactly which deletes can hide a row ----------

  /** What a walk sees when t becomes t' after its first k pages. */
  function Becoming(t: Table, t': Table, k: nat): (r: seq<Table>)
    ensures |r| == k + 1
    ensures forall i :: 0 <= i <= k ==> r[i] == if i < k then t else t'
  {
    if k == 0 then [t'] else [t] + Becoming(t, t', k - 1)
  }

  lemma {:induction false} WalkSettled(t: Table, limit: int, offset: nat)
    ensures WalkChanging([t], limit, offset) == Left(Listing(t), offset)
    decreases |Listing(t)| - offset
  {
    if offset < |Listing(t)| {
      var next := offset + ClampLimit(limit);
      WalkChangingUnfolds([t], limit, offset);
      WalkSettled(t, limit, next);
      LeftCut(Listing(t), offset, next);
    }
  }

  lemma LaterBecoming(t: Table, t': Table, k: nat)
    requires k > 0
    ensures Becoming(t, t', k)[0] == t && Later(Becoming(t, t', k)) == Becoming(t, t', k - 1)
  {
  }

  lemma NotInRest(xs: seq<Row>, from: nat, to: nat, row: Row)
    requires from < to <= |xs| && row !in xs[from..to]
    ensures xs[from] != row && row !in xs[from + 1..to]
  {
    assert xs[from..to] == [xs[from]] + xs[from + 1..to];
  }

  /** A walk of one row a page goes on to the next page. */
  lemma OneRowPage(tables: seq<Table>, offset: nat, row: Row)
    requires tables != [] && offset < |Listing(tables[0])|
    ensures row in WalkChanging(tables, 1, offset)
            <==> row == Listing(tables[0])[offset] || row in WalkChanging(Later(tables), 1, offset + 1)
  {
    WalkChangingUnfolds(tables, 1, offset);
    assert Listing(tables[0])[offset..offset + 1] == [Listing(tables[0])[offset]];
  }

  lemma MissesOnePage(t: Table, t': Table, k: nat, offset: nat, row: Row)
    requires k > 0 && offset < |Listing(t)| && Listing(t)[offset] != row
    requires row !in WalkChanging(Becoming(t, t', k - 1), 1, offset + 1)
    ensures row !in WalkChanging(Becoming(t, t', k), 1, offset)
  {
    LaterBecoming(t, t', k);
    OneRowPage(Becoming(t, t', k), offset, row);
  }

  /** A row that is not among the k received before the change, nor behind them after it. */
  lemma {:induction false} WalkMisses(t: Table, t': Table, k: nat, offset: nat, row: Row)
    requires offset + k <= |Listing(t)|
    requires row !in Listing(t)[offset..offset + k]
    requires row !in Left(Listing(t'), offset + k)
    ensures row !in WalkChanging(Becoming(t, t', k), 1, offset)
    decreases k
  {
    if k == 0 {
      WalkSettled(t', 1, offset);
    } else {
      NotInRest(Listing(t), offset, offset + k, row);
      WalkMisses(t, t', k - 1, offset + 1, row);
      MissesOnePage(t, t', k, offset, row);
    }
  }

  /** Without the element at p, a list ahead of which nothing else is lost has everything behind p one rank earlier. */
  lemma RankFalls(xs: seq<Row>, ys: seq<Row>, p: nat, i: nat, j: nat)
    requires NewestFirst(xs) && NewestFirst(ys)
    requires p < i < |xs| && j < |ys| && xs[i] == ys[j]
    requires forall y :: y in ys ==> y in xs && y != xs[p]
    ensures j < i
  {
    var rest := xs[..p] + xs[p + 1..];
    assert rest[i - 1] == xs[i];
    forall k | 0 <= k < j
      ensures ys[k] in rest
    {
      assert ys[k] in ys;
      var q :| 0 <= q < |xs| && xs[q] == ys[k];
      assert rest[if q < p then q else q - 1] == ys[k];
    }
    RankNotLower(ys, rest, j, i - 1);
  }

  /** What a delete of an active row leaves active. */
  lemma DeletedActive(t: Table, m: nat, now: nat, r: Row)
    requires DistinctIds(t) && m < |t| && t[m].Active() && r.Active()
    ensures r in SoftDelete(t, t[m].id, now) <==> r in t && r != t[m]
  {
    var t' := SoftDelete(t, t[m].id, now);
    if r in t && r != t[m] {
      var i :| 0 <= i < |t| && t[i] == r;
      assert t'[i] == r;
    }
    if r in t' {
      var i :| 0 <= i < |t'| && t'[i] == r;
      assert t[i] == r;
    }
  }

  lemma DeletedListing(t: Table, m: nat, now: nat)
    requires DistinctIds(t) && m < |t| && t[m].Active()
    ensures NewestFirst(Listing(SoftDelete(t, t[m].id, now)))
    ensures forall r :: r in Listing(SoftDelete(t, t[m].id, now)) <==> r in Listing(t) && r != t[m]
  {
    var t' := SoftDelete(t, t[m].id, now);
    assert DistinctIds(t');
    ListingExact(t);
    ListingExact(t');
    forall r
      ensures r in Listing(t') <==> r in Listing(t) && r != t[m]
    {
      if r.Active() {
        DeletedActive(t, m, now, r);
      }
    }
  }

  lemma RankOf(xs: seq<Row>, row: Row) returns (i: nat)
    requires row in xs
    ensures i < |xs| && xs[i] == row
  {
    i :| 0 <= i < |xs| && xs[i] == row;
  }

  lemma AheadIsEarlier(xs: seq<Row>, p: nat, i: nat)
    requires NewestFirst(xs) && p < |xs| && i < |xs| && Ahead(xs[p], xs[i])
    ensures p < i
  {
  }

  lemma AtOrAfter(xs: seq<Row>, offset: nat, row: Row) returns (j: nat)
    requires row in Left(xs, offset)
    ensures offset <= j < |xs| && xs[j] == row
  {
    var left := Left(xs, offset);
    var k :| 0 <= k < |left| && left[k] == row;
    j := offset + k;
  }

  /** After a delete of an active row ahead, a row is listed before the rank it had. */
  lemma DeletedAhead(t: Table, m: nat, now: nat, i: nat)
    requires DistinctIds(t) && m < |t| && t[m].Active()
    requires i < |Listing(t)| && Ahead(t[m], Listing(t)[i])
    ensures Listing(t)[i] !in Left(Listing(SoftDelete(t, t[m].id, now)), i)
  {
    var xs, ys, row := Listing(t), Listing(SoftDelete(t, t[m].id, now)), Listing(t)[i];
    ListingExact(t);
    DeletedListing(t, m, now);
    assert t[m] in xs;
    var p := RankOf(xs, t[m]);
    if row in Left(ys, i) {
      var j := AtOrAfter(ys, i, row);
      AheadIsEarlier(xs, p, i);
      RankFalls(xs, ys, p, i, j);
    }
  }

  lemma ListedOnce(xs: seq<Row>, i: nat)
    requires NewestFirst(xs) && i < |xs|
    ensures xs[i] !in xs[0..i]
  {
  }

  /**
   * A delete of an active row ahead hides a row that stays active from the walk that asks for one row a page
   * and has just reached it.
   */
  lemma DeleteAheadHides(t: Table, m: nat, now: nat, i: nat)
    requires DistinctIds(t) && m < |t| && t[m].Active()
    requires i < |Listing(t)| && Ahead(t[m], Listing(t)[i])
    ensures var (t', row) := (SoftDelete(t, t[m].id, now), Listing(t)[i]);
            row in t' && row.Active() && row !in WalkChanging(Becoming(t, t', i), 1, 0)
  {
    var row := Listing(t)[i];
    ListingExact(t);
    assert row in Listing(t);
    DeletedActive(t, m, now, row);
    DeletedAhead(t, m, now, i);
    ListedOnce(Listing(t), i);
    WalkMisses(t, SoftDelete(t, t[m].id, now), i, 0, row);
  }

  lemma HarmlessNeverHides(t: Table, id: nat, now: nat, row: Row, k: nat, limit: int)
    requires DistinctIds(t) && row in t && row.Active() && Harmless(t, Delete(id, now), row)
    ensures row in WalkChanging(Becoming(t, SoftDelete(t, id, now), k), limit, 0)
  {
    var fold: Fold := s => s;
    var t' := SoftDelete(t, id, now);
    assert t' == Step(fold, t, Delete(id, now));
    HarmlessStep(fold, t, Delete(id, now), row);
    var tables := Becoming(t, t', k);
    forall i | 0 <= i < |tables| - 1
      ensures NoEarlier(Listing(tables[i]), Listing(tables[i + 1]), row)
    {
    }
    WalkReachesListed(tables, limit, row);
  }

  /**
   * Exactly which deletes can hide a row that stays active: there are a moment and a page size at which a walk
   * misses it if and only if the delete is of an active row ahead of it.
   */
  lemma DeleteHidesExactly(t: Table, id: nat, now: nat, row: Row)
    requires DistinctIds(t) && row in t && row.Active() && row.id != id
    ensures (exists k: nat, limit: int :: row !in WalkChanging(Becoming(t, SoftDelete(t, id, now), k), limit, 0))
            <==> exists m :: 0 <= m < |t| && t[m].deletedAt == None && t[m].id == id && Ahead(t[m], row)
  {
    if m :| 0 <= m < |t| && t[m].Active() && t[m].id == id && Ahead(t[m], row) {
      ListingExact(t);
      assert row in Listing(t);
      var i :| 0 <= i < |Listing(t)| && Listing(t)[i] == row;
      DeleteAheadHides(t, m, now, i);
      assert row !in WalkChanging(Becoming(t, SoftDelete(t, id, now), i), 1, 0);
    } else {
      forall k: nat, limit: int
        ensures row in WalkChanging(Becoming(t, SoftDelete(t, id, now), k), limit, 0)
      {
        HarmlessNeverHides(t, id, now, row, k, limit);
      }
    }
  }
}
