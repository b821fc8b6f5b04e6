/** The indexed search of api/drive/search.ts (lines 7-8 and 51-166): the
    files below a folder are read from the index collection, or from a
    five-minute per-instance cache keyed by folder and mode; they are
    filtered by type, text and tags, sorted by creation time, and cut into
    offset pages. The clock, the store and the order in which the store
    returns documents are parameters. */
module Search {
  import opened Wrappers
  import opened Text
  import opened Request
  import opened Store
  import opened SearchItems
  import opened Paging
  import Sorting
  import Sweep
  import Provider
  import CrawlLoop

  /** `1000 * 60 * 5` milliseconds. */
  const CacheTtl: int := 300000
  const DefaultPageSize: nat := 60
  const MaxPageSize: nat := 200

  /** The query-string parameters the handler reads. */
  datatype Params = Params(
    folderId: Param,
    sub: Param,
    text: Param,
    kind: Param,
    sort: Param,
    tags: Param,
    pageSize: Param,
    cursor: Param)

  /** The request after its defaults; `kind` is kept as given. */
  datatype Query = Query(
    folderId: string,
    sub: bool,
    text: string,
    kind: string,
    newest: bool,
    tags: seq<string>,
    pageSize: int,
    start: int)

  /** Lines 59-81. The folder defaults to the root only when the parameter
      is absent; every value but `0` asks for the whole subtree; an absent
      sort or `new` sorts newest first, any other value oldest first. */
  function ReadQuery(p: Params, rootId: string): (q: Query)
    ensures 1 <= q.pageSize <= MaxPageSize
    ensures First(p.pageSize).None? ==> q.pageSize == DefaultPageSize
    ensures q.pageSize == ClampedInt(First(p.pageSize), DefaultPageSize, MaxPageSize)
    ensures q.folderId == (if First(p.folderId).Some? then First(p.folderId).value else rootId)
    ensures q.sub <==> First(p.sub) != Some("0")
    ensures q.text == Lower(Trim(First(p.text).GetOr("")))
    ensures q.newest <==> First(p.sort).None? || First(p.sort) == Some("new")
    ensures First(p.kind).None? ==> q.kind == "all"
    ensures First(p.kind).Some? ==> q.kind == First(p.kind).value
    ensures q.tags == ParseTags(First(p.tags))
    ensures q.start == Offset(First(p.cursor))
    ensures First(p.cursor).None? ==> q.start == 0
  {
    Query(
      First(p.folderId).GetOr(rootId),
      First(p.sub) != Some("0"),
      Lower(Trim(First(p.text).GetOr(""))),
      First(p.kind).GetOr("all"),
      First(p.sort).None? || First(p.sort).value == "new",
      ParseTags(First(p.tags)),
      ClampedInt(First(p.pageSize), DefaultPageSize, MaxPageSize),
      Offset(First(p.cursor)))
  }

  /** The parameters that spell out a parsed request. */
  function Spell(q: Query): Params
    requires 1 <= q.pageSize
  {
    Params(One(q.folderId), One(if q.sub then "1" else "0"), One(q.text), One(q.kind),
           One(if q.newest then "new" else "old"), Missing, One(IntToString(q.pageSize)),
           One(IntString(q.start)))
  }

  /** Reading is a normalisation: a request spelled from a parsed one, with
      the same tags, reads back as the same request. */
  lemma ReadQuerySpelled(p: Params, rootId: string)
    requires -DecimalLimit < ReadQuery(p, rootId).start < DecimalLimit
    ensures var q := ReadQuery(p, rootId);
            ReadQuery(Spell(q).(tags := p.tags), rootId) == q
  {
    var q := ReadQuery(p, rootId);
    SpelledText(p, rootId);
    SpelledQuery(q, p.tags, rootId);
  }

  /** A request whose text is already trimmed and lowercased and whose tags
      are what the tag parameter parses to reads back from its spelling. */
  lemma SpelledQuery(q: Query, tags: Param, rootId: string)
    requires 1 <= q.pageSize <= MaxPageSize && -DecimalLimit < q.start < DecimalLimit
    requires Trim(q.text) == q.text && Lower(q.text) == q.text && q.tags == ParseTags(First(tags))
    ensures ReadQuery(Spell(q).(tags := tags), rootId) == q
  {
    var q' := ReadQuery(Spell(q).(tags := tags), rootId);
    assert q'.pageSize == q.pageSize by { ParseIntOfString(q.pageSize); }
    assert q'.start == q.start by { OffsetOfIntString(q.start); }
    assert q'.folderId == q.folderId && q'.sub == q.sub && q'.kind == q.kind && q'.newest == q.newest;
    assert q'.text == q.text && q'.tags == q.tags;
  }

  lemma SpelledText(p: Params, rootId: string)
    ensures var q := ReadQuery(p, rootId); Trim(q.text) == q.text && Lower(q.text) == q.text
  {
    LowerTrimSettled(First(p.text).GetOr(""));
  }

  /** Lowercasing a trimmed string keeps it trimmed, and a second pass of
      either step changes nothing. */
  lemma LowerTrimSettled(x: string)
    ensures var t := Lower(Trim(x)); Trim(t) == t && Lower(t) == t
  {
    var y := Trim(x);
    var t := Lower(y);
    assert t == [] || (!IsJsSpace(t[0]) && !IsJsSpace(t[|t| - 1])) by {
      if t != [] {
        assert !IsJsSpace(y[0]) && !IsJsSpace(y[|y| - 1]);
      }
    }
    assert Trim(t) == t;
    assert Lower(t) == t by { LowerTwice(y); }
  }

  /** Lowercasing twice is lowercasing once. */
  lemma LowerTwice(y: string)
    ensures Lower(Lower(y)) == Lower(y)
  {
    forall i | 0 <= i < |y| ensures Lower(Lower(y))[i] == Lower(y)[i] {
      assert LowerChar(LowerChar(y[i])) == LowerChar(y[i]);
    }
  }

  /** Handing the response's next cursor back as the `cursor` parameter asks
      for the page right after this one, and changes nothing else. */
  lemma NextCursorAsks(p: Params, rootId: string, all: seq<Item>)
    requires -DecimalLimit < ReadQuery(p, rootId).start && |all| < DecimalLimit
    ensures var q := ReadQuery(p, rootId);
            var pg := Respond(q, all);
            pg.nextCursor.Some? ==>
              ReadQuery(p.(cursor := One(pg.nextCursor.value)), rootId) == q.(start := q.start + q.pageSize)
  {
    var q := ReadQuery(p, rootId);
    NextCursorValue(q, all);
    ReadCursor(p, rootId, Respond(q, all).nextCursor, q.start + q.pageSize);
  }

  /** The next cursor spells the position after the page, which stays below
      the decimal limit when the list does. */
  lemma NextCursorValue(q: Query, all: seq<Item>)
    requires q.pageSize >= 1 && |all| < DecimalLimit
    ensures var c := Respond(q, all).nextCursor;
            c.Some? ==> c.value == IntString(q.start + q.pageSize) && q.start + q.pageSize < DecimalLimit
  {
    assert |Sorting.Filter(all, Keeper(q))| <= |all|;
  }

  /** A request whose cursor is the spelling of a position reads as the same
      request at that position. */
  lemma ReadCursor(p: Params, rootId: string, cursor: Option<string>, n: int)
    requires cursor.Some? ==> -DecimalLimit < n < DecimalLimit && cursor.value == IntString(n)
    ensures cursor.Some? ==> ReadQuery(p.(cursor := One(cursor.value)), rootId) == ReadQuery(p, rootId).(start := n)
  {
    if cursor.Some? {
      OffsetOfIntString(n);
    }
  }

  // ---------------------------------------------------------------- cache

  datatype CacheEntry = CacheEntry(ts: int, items: seq<Item>)

  /** `FOLDER_CACHE`: it lives as long as the server instance. */
  type Cache = map<string, CacheEntry>

  /** Line 83. */
  function CacheKey(folderId: string, sub: bool): string {
    folderId + "::" + (if sub then "sub" else "flat")
  }

  /** No two requests for different folders or modes share a cache entry:
      the last character tells the mode apart, and then the lengths agree. */
  lemma CacheKeyInjective(f1: string, s1: bool, f2: string, s2: bool)
    ensures CacheKey(f1, s1) == CacheKey(f2, s2) ==> f1 == f2 && s1 == s2
  {
    if CacheKey(f1, s1) == CacheKey(f2, s2) {
      var k := CacheKey(f1, s1);
      assert k[|k| - 1] == (if s1 then 'b' else 't');
      assert k[|k| - 1] == (if s2 then 'b' else 't');
      assert f1 == k[..|f1|];
      assert f2 == k[..|f2|];
    }
  }

  /** Line 89: an entry younger than the time to live is served. */
  predicate Fresh(cache: Cache, key: string, now: int) {
    key in cache && now - cache[key].ts < CacheTtl
  }

  // ---------------------------------------------------------------- store query

  datatype Clause = AnyFolder | FolderIs(id: string) | AncestorsHave(id: string)

  /** The `where` clauses of lines 92-100. */
  datatype StoreQuery = StoreQuery(rootId: string, clause: Clause)

  /** Flat mode asks for the folder's own files; the subtree of the root
      is the whole root; the subtree of any other folder asks for the
      documents whose `ancestors` array holds the folder. */
  function QueryFor(rootId: string, folderId: string, sub: bool): StoreQuery {
    StoreQuery(rootId,
      if !sub then FolderIs(folderId)
      else if folderId != rootId then AncestorsHave(folderId)
      else AnyFolder)
  }

  predicate Matches(d: Doc, q: StoreQuery) {
    && Sweep.UnderRoot(d, q.rootId)
    && match q.clause
       case AnyFolder => true
       case FolderIs(f) => "folderId" in d && d["folderId"] == FStr(f)
       case AncestorsHave(f) => "ancestors" in d && d["ancestors"].FArr? && FStr(f) in d["ancestors"].elems
  }

  /** `q.get()` over the file documents, in the store's `order` of
      document ids: the matching documents with their ids. */
  function Snapshot(s: Store, q: StoreQuery, order: seq<string>): (r: seq<(string, Doc)>)
    ensures forall k :: 0 <= k < |r| ==>
              DocRef(Files, r[k].0) in s && r[k].1 == s[DocRef(Files, r[k].0)] && Matches(r[k].1, q)
    decreases |order|
  {
    if order == [] then []
    else
      var ref := DocRef(Files, order[0]);
      var head := if ref in s && Matches(s[ref], q) then [(order[0], s[ref])] else [];
      var rest := Snapshot(s, q, order[1..]);
      assert forall k :: 0 <= k < |head + rest| ==> (head + rest)[k] in head || (head + rest)[k] == rest[k - |head|];
      head + rest
  }

  /** Every matching document the order names is in the snapshot. */
  lemma {:induction false} SnapshotComplete(s: Store, q: StoreQuery, order: seq<string>, id: string)
    requires id in order && DocRef(Files, id) in s && Matches(s[DocRef(Files, id)], q)
    ensures (id, s[DocRef(Files, id)]) in Snapshot(s, q, order)
    decreases |order|
  {
    if order[0] != id {
      SnapshotComplete(s, q, order[1..], id);
    }
  }

  /** `order` is an order of the store's file documents, as Firestore
      returns them: it names every file document, and none twice. */
  ghost predicate ListsFiles(s: Store, order: seq<string>) {
    && (forall id :: DocRef(Files, id) in s ==> id in order)
    && (forall i, j :: 0 <= i < j < |order| ==> order[i] != order[j])
  }

  /** Every document in the snapshot is one the order names. */
  lemma {:induction false} SnapshotFromOrder(s: Store, q: StoreQuery, order: seq<string>)
    ensures forall k :: 0 <= k < |Snapshot(s, q, order)| ==> Snapshot(s, q, order)[k].0 in order
    decreases |order|
  {
    if order != [] {
      SnapshotFromOrder(s, q, order[1..]);
    }
  }

  /** An order that names no document twice gives a snapshot that holds no
      document twice. */
  lemma {:induction false} SnapshotOnce(s: Store, q: StoreQuery, order: seq<string>)
    requires forall i, j :: 0 <= i < j < |order| ==> order[i] != order[j]
    ensures forall i, j :: 0 <= i < j < |Snapshot(s, q, order)| ==> Snapshot(s, q, order)[i].0 != Snapshot(s, q, order)[j].0
    decreases |order|
  {
    if order != [] {
      var tail := order[1..];
      assert forall i, j :: 0 <= i < j < |tail| ==> tail[i] != tail[j] by {
        forall i, j | 0 <= i < j < |tail| ensures tail[i] != tail[j] {
          assert tail[i] == order[i + 1] && tail[j] == order[j + 1];
        }
      }
      SnapshotOnce(s, q, tail);
      SnapshotFromOrder(s, q, tail);
      assert order[0] !in tail by {
        forall j | 0 <= j < |tail| ensures tail[j] != order[0] {
          assert tail[j] == order[j + 1];
        }
      }
    }
  }

  /** Over an order of the store's file documents, the query returns every
      matching document, and each exactly once. */
  lemma SnapshotExact(s: Store, q: StoreQuery, order: seq<string>)
    requires ListsFiles(s, order)
    ensures forall id :: DocRef(Files, id) in s && Matches(s[DocRef(Files, id)], q) ==>
              (id, s[DocRef(Files, id)]) in Snapshot(s, q, order)
    ensures forall i, j :: 0 <= i < j < |Snapshot(s, q, order)| ==> Snapshot(s, q, order)[i].0 != Snapshot(s, q, order)[j].0
  {
    forall id | DocRef(Files, id) in s && Matches(s[DocRef(Files, id)], q)
      ensures (id, s[DocRef(Files, id)]) in Snapshot(s, q, order)
    {
      SnapshotComplete(s, q, order, id);
    }
    SnapshotOnce(s, q, order);
  }

  /** Flat mode reads only the folder's own files under the root. */
  lemma FlatModeReadsFolder(s: Store, rootId: string, folderId: string, order: seq<string>)
    ensures var snap := Snapshot(s, QueryFor(rootId, folderId, false), order);
            forall k :: 0 <= k < |snap| ==>
              && "folderId" in snap[k].1 && snap[k].1["folderId"] == FStr(folderId)
              && "rootId" in snap[k].1 && snap[k].1["rootId"] == FStr(rootId)
  {
  }

  /** When no file document matches, the snapshot is empty. */
  lemma {:induction false} NoMatchNoSnapshot(s: Store, q: StoreQuery, order: seq<string>)
    requires forall id :: DocRef(Files, id) in s ==> !Matches(s[DocRef(Files, id)], q)
    ensures Snapshot(s, q, order) == []
    decreases |order|
  {
    if order != [] {
      NoMatchNoSnapshot(s, q, order[1..]);
    }
  }

  // ---------------------------------------------------------------- filter and sort

  /** Line 125: a filter is applied only when one was asked for. */
  predicate Active(q: Query) {
    q.text != "" || |q.tags| > 0 || q.kind != "all"
  }

  /** Lines 126-140: the stored type must equal the requested one (unless
      all are asked for); the text must occur in the lowercased title or in
      one of the tags; every requested tag must be among the item's tags. */
  predicate Keeps(q: Query, it: Item) {
    Selects(q.kind, q.text, q.tags, it)
  }

  predicate Selects(kind: string, text: string, tags: seq<string>, it: Item) {
    && (kind == "all" || it.kind == FStr(kind))
    && (text == "" || Contains(Lower(it.title), text)
        || exists i :: 0 <= i < |it.tags| && Contains(it.tags[i], text))
    && forall i :: 0 <= i < |tags| ==> tags[i] in it.tags
  }

  /** The filter as a function of the request's filter fields only, so that
      requests that differ in their page position share it. */
  function Keeper(q: Query): Item -> bool {
    Selector(q.kind, q.text, q.tags)
  }

  function Selector(kind: string, text: string, tags: seq<string>): Item -> bool {
    it => Selects(kind, text, tags, it)
  }

  /** The sort key (lines 143-147). */
  function Stamp(it: Item): int {
    it.timestamp
  }

  /** Skipping the filter when none is asked for loses nothing: the result
      is always the filtered list. */
  function Processed(q: Query, all: seq<Item>): (r: seq<Item>)
    ensures r == Sorting.Filter(all, Keeper(q))
  {
    if Active(q) then Sorting.Filter(all, Keeper(q))
    else
      Sorting.FilterKeepsAll(all, Keeper(q));
      all
  }

  /** The filtered list holds exactly the items the predicate keeps. */
  lemma FilterKeepsExactly(q: Query, all: seq<Item>, it: Item)
    ensures it in Processed(q, all) <==> it in all && Keeps(q, it)
  {
    Sorting.FilterMembers(all, Keeper(q), it);
  }

  /** Without a filter the total is the size of the whole list, and the
      pages, read from the first, show all of it. */
  lemma UnfilteredShowsAll(q: Query, all: seq<Item>)
    requires q.pageSize >= 1 && !Active(q)
    ensures Respond(q, all).total == |all|
    ensures multiset(Sorting.Sort(Processed(q, all), Stamp, q.newest)) == multiset(all)
  {
    Sorting.SortPermutes(all, Stamp, q.newest);
  }

  lemma PageOfSorted(xs: seq<Item>, start: int, pageSize: int, newest: bool)
    requires pageSize >= 1 && Sorting.Sorted(xs, Stamp, newest)
    ensures Sorting.Sorted(Paginate(xs, start, pageSize).items, Stamp, newest)
  {
    var a: nat, b: nat :| a <= b <= |xs| && Paginate(xs, start, pageSize).items == xs[a..b];
    Sorting.SortedSlice(xs, Stamp, newest, a, b);
  }

  /** Lines 124-154 on a list of items: the page is the slice from `start`
      of the kept items sorted by creation time, so it holds only items the
      filter keeps, in the requested order, at most a page of them; the total
      counts every kept item; a next cursor, the position after the page, is
      given exactly while the page stops short of the total. */
  function Respond(q: Query, all: seq<Item>): (pg: Page<Item>)
    requires q.pageSize >= 1
    ensures pg.total == |Sorting.Filter(all, Keeper(q))|
    ensures |pg.items| <= q.pageSize
    ensures forall k :: 0 <= k < |pg.items| ==> Keeps(q, pg.items[k])
    ensures Sorting.Sorted(pg.items, Stamp, q.newest)
    ensures var sorted := Sorting.Sort(Sorting.Filter(all, Keeper(q)), Stamp, q.newest);
            0 <= q.start <= |sorted| ==> pg.items == sorted[q.start..Min(q.start + q.pageSize, |sorted|)]
    ensures pg.nextCursor.Some? <==> q.start + q.pageSize < pg.total
    ensures pg.nextCursor.Some? ==> pg.nextCursor.value == IntString(q.start + q.pageSize)
  {
    var kept := Processed(q, all);
    assert kept == Sorting.Filter(all, Keeper(q));
    var sorted := Sorting.Sort(kept, Stamp, q.newest);
    SortedPageKeeps(q, all);
    Paginate(sorted, q.start, q.pageSize)
  }

  /** The page for any start, a negative one included, is the `slice` of
      the sorted kept items between the positions the start and the page's
      end make. */
  lemma RespondAnyStart(q: Query, all: seq<Item>)
    requires q.pageSize >= 1
    ensures var sorted := Sorting.Sort(Sorting.Filter(all, Keeper(q)), Stamp, q.newest);
            var a := SliceIndex(q.start, |sorted|);
            var b := SliceIndex(Min(q.start + q.pageSize, |sorted|), |sorted|);
            Respond(q, all).items == sorted[a..Max(a, b)]
  {
    PageAnyStart(Sorting.Sort(Sorting.Filter(all, Keeper(q)), Stamp, q.newest), q.start, q.pageSize);
  }

  /** The page of the sorted kept items holds kept items, in order. */
  lemma SortedPageKeeps(q: Query, all: seq<Item>)
    requires q.pageSize >= 1
    ensures var pg := Paginate(Sorting.Sort(Sorting.Filter(all, Keeper(q)), Stamp, q.newest), q.start, q.pageSize);
            && (forall k :: 0 <= k < |pg.items| ==> Keeps(q, pg.items[k]))
            && Sorting.Sorted(pg.items, Stamp, q.newest)
  {
    var kept := Sorting.Filter(all, Keeper(q));
    var sorted := Sorting.Sort(kept, Stamp, q.newest);
    Sorting.SortSorted(kept, Stamp, q.newest);
    Sorting.SortPermutes(kept, Stamp, q.newest);
    PageOfSorted(sorted, q.start, q.pageSize, q.newest);
    var pg := Paginate(sorted, q.start, q.pageSize);
    forall k | 0 <= k < |pg.items| ensures Keeps(q, pg.items[k]) {
      assert pg.items[k] in multiset(kept);
    }
  }

  /** Everything a client reads by sending the request with the cursor at
      `start` and then with each next cursor, read back as the handler reads
      it, until there is none: the sorted kept items from `start` on. */
  function Pages(q: Query, all: seq<Item>, start: nat): (r: seq<Item>)
    requires q.pageSize >= 1 && |all| < DecimalLimit
    requires start <= |Sorting.Filter(all, Keeper(q))|
    ensures r == Sorting.Sort(Sorting.Filter(all, Keeper(q)), Stamp, q.newest)[start..]
    decreases |Sorting.Filter(all, Keeper(q))| - start
  {
    var pg := Respond(q.(start := start), all);
    if pg.nextCursor.None? then
      PagesLast(q, all, start);
      pg.items
    else
      PagesNext(q, all, start);
      pg.items + Pages(q, all, Offset(pg.nextCursor))
  }

  /** A page without a next cursor holds the rest of the sorted kept items. */
  lemma PagesLast(q: Query, all: seq<Item>, start: nat)
    requires q.pageSize >= 1 && |all| < DecimalLimit
    requires start <= |Sorting.Filter(all, Keeper(q))|
    requires Respond(q.(start := start), all).nextCursor.None?
    ensures Respond(q.(start := start), all).items == Sorting.Sort(Sorting.Filter(all, Keeper(q)), Stamp, q.newest)[start..]
  {
    var sorted := Sorting.Sort(Sorting.Filter(all, Keeper(q)), Stamp, q.newest);
    RespondIsPaginate(q, all, start);
    PageLast(sorted, start, q.pageSize);
  }

  /** A page with a next cursor is followed, at the position that cursor
      reads back as, by the rest of the sorted kept items. */
  lemma PagesNext(q: Query, all: seq<Item>, start: nat)
    requires q.pageSize >= 1 && |all| < DecimalLimit
    requires start <= |Sorting.Filter(all, Keeper(q))|
    requires Respond(q.(start := start), all).nextCursor.Some?
    ensures var pg := Respond(q.(start := start), all);
            var sorted := Sorting.Sort(Sorting.Filter(all, Keeper(q)), Stamp, q.newest);
            var next := Offset(pg.nextCursor);
            && start < next <= |Sorting.Filter(all, Keeper(q))|
            && sorted[start..] == pg.items + sorted[next..]
  {
    var sorted := Sorting.Sort(Sorting.Filter(all, Keeper(q)), Stamp, q.newest);
    RespondIsPaginate(q, all, start);
    PageNext(sorted, start, q.pageSize);
  }

  /** The page asked for at `start` is the page of the request's own sorted
      kept items: the filter does not depend on where the page starts. */
  lemma RespondIsPaginate(q: Query, all: seq<Item>, start: nat)
    requires q.pageSize >= 1
    ensures var sorted := Sorting.Sort(Sorting.Filter(all, Keeper(q)), Stamp, q.newest);
            Respond(q.(start := start), all) == Paginate(sorted, start, q.pageSize)
    ensures |Sorting.Sort(Sorting.Filter(all, Keeper(q)), Stamp, q.newest)| == |Sorting.Filter(all, Keeper(q))|
  {
    assert Keeper(q.(start := start)) == Keeper(q);
  }

  /** The page asked for at `start` in terms of the request's own sorted
      kept items: the filter does not depend on where the page starts. */
  lemma PageAt(q: Query, all: seq<Item>, start: nat)
    requires q.pageSize >= 1
    requires start <= |Sorting.Filter(all, Keeper(q))|
    ensures var sorted := Sorting.Sort(Sorting.Filter(all, Keeper(q)), Stamp, q.newest);
            var pg := Respond(q.(start := start), all);
            && pg.items == sorted[start..Min(start + q.pageSize, |sorted|)]
            && (pg.nextCursor.Some? <==> start + q.pageSize < |sorted|)
            && (pg.nextCursor.Some? ==> pg.nextCursor.value == IntString(start + q.pageSize))
  {
    assert Keeper(q.(start := start)) == Keeper(q);
  }

  /** Starting without a cursor and following every next cursor lists each
      kept item exactly once, newest or oldest first as asked. */
  lemma ListsEveryKeptItemOnce(q: Query, all: seq<Item>)
    requires q.pageSize >= 1 && |all| < DecimalLimit
    ensures Pages(q, all, 0) == Sorting.Sort(Sorting.Filter(all, Keeper(q)), Stamp, q.newest)
    ensures Sorting.Sorted(Pages(q, all, 0), Stamp, q.newest)
    ensures multiset(Pages(q, all, 0)) == multiset(Sorting.Filter(all, Keeper(q)))
  {
    var kept := Sorting.Filter(all, Keeper(q));
    var sorted := Sorting.Sort(kept, Stamp, q.newest);
    assert sorted[0..] == sorted;
    Sorting.SortSorted(kept, Stamp, q.newest);
    Sorting.SortPermutes(kept, Stamp, q.newest);
  }

  /** Nothing to show: no items and a total of 0. A next cursor is still
      given for a start more than a page below 0. */
  lemma RespondEmpty(q: Query)
    requires q.pageSize >= 1
    ensures Respond(q, []).items == [] && Respond(q, []).total == 0
    ensures Respond(q, []).nextCursor.Some? <==> q.start + q.pageSize < 0
  {
    var xs: seq<Item> := [];
    assert Sorting.Sort(Processed(q, xs), Stamp, q.newest) == xs;
    var pg := Paginate(xs, q.start, q.pageSize);
    var a: nat, b: nat :| a <= b <= |xs| && pg.items == xs[a..b];
  }

  /** The order of the list the response is computed from does not matter
      once it has been sorted by creation time in either direction. */
  lemma RespondIgnoresSort(q: Query, all: seq<Item>, newest: bool)
    requires q.pageSize >= 1
    ensures Respond(q, Sorting.Sort(all, Stamp, newest)) == Respond(q, all)
  {
    Sorting.FilterResort(all, Keeper(q), Stamp, newest, q.newest);
  }

  // ---------------------------------------------------------------- handler

  datatype Response = MissingRoot | Failed | Found(page: Page<Item>)

  /** The response and the cache the instance keeps afterwards. */
  datatype Outcome = Outcome(resp: Response, cache: Cache)

  /** Lines 124-147 after the list is known: when no filter is asked for,
      the list is sorted in place, and so is the array the cache holds. */
  function Serve(q: Query, key: string, c: Cache): (o: Outcome)
    requires key in c && q.pageSize >= 1
    ensures o.resp == Found(Respond(q, c[key].items))
    ensures o.cache.Keys == c.Keys && o.cache[key].ts == c[key].ts
    ensures forall k :: k in c && k != key ==> o.cache[k] == c[k]
    ensures Active(q) ==> o.cache == c
    ensures !Active(q) ==> o.cache[key].items == Sorting.Sort(c[key].items, Stamp, q.newest)
  {
    var all := c[key].items;
    Outcome(Found(Respond(q, all)),
      if Active(q) then c else c[key := c[key].(items := Sorting.Sort(all, Stamp, q.newest))])
  }

  /** Lines 92-119: the matching documents, mapped to items. */
  function ReadItems(q: Query, rootId: string, s: Store, order: seq<string>, rd: Render): Option<seq<Item>> {
    ToItems(Snapshot(s, QueryFor(rootId, q.folderId, q.sub), order), rd)
  }

  /** Lines 83-154 for a parsed request: a fresh cache entry, or else the
      store, which refreshes the entry. */
  function Answer(q: Query, rootId: string, now: int, cache: Cache, s: Store, order: seq<string>, rd: Render): (o: Outcome)
    requires q.pageSize >= 1 && ListsFiles(s, order)
    ensures o.resp.Found? || o.resp.Failed?
    ensures o.resp.Failed? ==> o.cache == cache && !Fresh(cache, CacheKey(q.folderId, q.sub), now)
  {
    var key := CacheKey(q.folderId, q.sub);
    if Fresh(cache, key, now) then Serve(q, key, cache)
    else
      match ReadItems(q, rootId, s, order, rd)
      case None => Outcome(Failed, cache)
      case Some(items) => Serve(q, key, cache[key := CacheEntry(now, items)])
  }

  /** The handler on one request at time `now`, with the instance's cache,
      the store and its document order, and the runtime's conversions. Only
      a missing root gives the 500 before any work; a failure leaves the
      cache as it was. */
  function Handler(p: Params, rootId: Option<string>, now: int, cache: Cache,
                   s: Store, order: seq<string>, rd: Render): (o: Outcome)
    requires ListsFiles(s, order)
    ensures o.resp.MissingRoot? <==> !Truthy(rootId)
    ensures !o.resp.Found? ==> o.cache == cache
  {
    if !Truthy(rootId) then Outcome(MissingRoot, cache)
    else Answer(ReadQuery(p, rootId.value), rootId.value, now, cache, s, order, rd)
  }

  /** What a found response shows: at most a page of items, each kept by
      the filter, in the requested order. */
  lemma AnswerPage(q: Query, rootId: string, now: int, cache: Cache, s: Store, order: seq<string>, rd: Render)
    requires q.pageSize >= 1 && ListsFiles(s, order)
    ensures var o := Answer(q, rootId, now, cache, s, order, rd);
            o.resp.Found? ==>
              && |o.resp.page.items| <= q.pageSize
              && (forall k :: 0 <= k < |o.resp.page.items| ==> Keeps(q, o.resp.page.items[k]))
              && Sorting.Sorted(o.resp.page.items, Stamp, q.newest)
  {
    var key := CacheKey(q.folderId, q.sub);
    if !Fresh(cache, key, now) {
      var read := ReadItems(q, rootId, s, order, rd);
      if read.Some? {
        assert Answer(q, rootId, now, cache, s, order, rd).resp == Found(Respond(q, read.value));
      }
    }
  }

  /** The cache after a found response differs only in the request's entry,
      stamped now unless it was fresh. */
  lemma AnswerCache(q: Query, rootId: string, now: int, cache: Cache, s: Store, order: seq<string>, rd: Render)
    requires q.pageSize >= 1 && ListsFiles(s, order)
    ensures var o := Answer(q, rootId, now, cache, s, order, rd);
            var key := CacheKey(q.folderId, q.sub);
            o.resp.Found? ==>
              && o.cache.Keys == cache.Keys + {key}
              && (forall k :: k in cache && k != key ==> o.cache[k] == cache[k])
              && o.cache[key].ts == (if Fresh(cache, key, now) then cache[key].ts else now)
  {
    var key := CacheKey(q.folderId, q.sub);
    if Fresh(cache, key, now) {
      AnswerCacheFresh(q, rootId, now, cache, s, order, rd);
    } else if ReadItems(q, rootId, s, order, rd).Some? {
      AnswerCacheRead(q, rootId, now, cache, s, order, rd);
    }
  }

  /** With a fresh entry the cache keeps its keys and every other entry. */
  lemma AnswerCacheFresh(q: Query, rootId: string, now: int, cache: Cache, s: Store, order: seq<string>, rd: Render)
    requires q.pageSize >= 1 && ListsFiles(s, order) && Fresh(cache, CacheKey(q.folderId, q.sub), now)
    ensures var o := Answer(q, rootId, now, cache, s, order, rd);
            var key := CacheKey(q.folderId, q.sub);
            && o.cache.Keys == cache.Keys + {key}
            && (forall k :: k in cache && k != key ==> o.cache[k] == cache[k])
            && o.cache[key].ts == cache[key].ts
  {
    var key := CacheKey(q.folderId, q.sub);
    assert Answer(q, rootId, now, cache, s, order, rd) == Serve(q, key, cache);
  }

  /** After a read from the store the cache gains the request's entry,
      stamped now, and keeps every other entry. */
  lemma AnswerCacheRead(q: Query, rootId: string, now: int, cache: Cache, s: Store, order: seq<string>, rd: Render)
    requires q.pageSize >= 1 && ListsFiles(s, order) && !Fresh(cache, CacheKey(q.folderId, q.sub), now)
    requires ReadItems(q, rootId, s, order, rd).Some?
    ensures var o := Answer(q, rootId, now, cache, s, order, rd);
            var key := CacheKey(q.folderId, q.sub);
            && o.cache.Keys == cache.Keys + {key}
            && (forall k :: k in cache && k != key ==> o.cache[k] == cache[k])
            && o.cache[key].ts == now
  {
    ServeStamped(q, CacheKey(q.folderId, q.sub), cache, now, ReadItems(q, rootId, s, order, rd).value);
  }

  /** Serving from a new entry stamped now adds its key and keeps every other
      entry. */
  lemma ServeStamped(q: Query, key: string, cache: Cache, now: int, items: seq<Item>)
    requires q.pageSize >= 1
    ensures var o := Serve(q, key, cache[key := CacheEntry(now, items)]);
            && o.cache.Keys == cache.Keys + {key}
            && (forall k :: k in cache && k != key ==> o.cache[k] == cache[k])
            && o.cache[key].ts == now
  {
    var c2 := cache[key := CacheEntry(now, items)];
    assert c2.Keys == cache.Keys + {key};
    assert forall k :: k in cache && k != key ==> c2[k] == cache[k];
  }

  /** A fresh entry answers the request without reading the store. */
  lemma FreshEntryServes(q: Query, rootId: string, now: int, cache: Cache,
                         s1: Store, order1: seq<string>, s2: Store, order2: seq<string>, rd: Render)
    requires q.pageSize >= 1 && ListsFiles(s1, order1) && ListsFiles(s2, order2)
    requires Fresh(cache, CacheKey(q.folderId, q.sub), now)
    ensures Answer(q, rootId, now, cache, s1, order1, rd) == Answer(q, rootId, now, cache, s2, order2, rd)
    ensures Answer(q, rootId, now, cache, s1, order1, rd).resp == Found(Respond(q, cache[CacheKey(q.folderId, q.sub)].items))
  {
  }

  /** Without a fresh entry the store is read: the request fails exactly
      when a matching document cannot be mapped, and otherwise it answers
      from the documents read, which are cached with the current time. */
  lemma StaleEntryRereads(q: Query, rootId: string, now: int, cache: Cache, s: Store, order: seq<string>, rd: Render)
    requires q.pageSize >= 1 && ListsFiles(s, order) && !Fresh(cache, CacheKey(q.folderId, q.sub), now)
    ensures var read := ReadItems(q, rootId, s, order, rd);
            var o := Answer(q, rootId, now, cache, s, order, rd);
            && (o.resp.Failed? <==> read.None?)
            && (read.Some? ==> o.resp == Found(Respond(q, read.value)))
            && (read.Some? && Active(q) ==> o.cache[CacheKey(q.folderId, q.sub)] == CacheEntry(now, read.value))
  {
  }

  /** Sorting a cache entry in place, as an unfiltered request does, changes
      no later response: every response sorts again, and the sort is stable. */
  lemma SortedEntryInvisible(q: Query, rootId: string, now: int, cache: Cache,
                             s: Store, order: seq<string>, rd: Render, key: string, newest: bool)
    requires q.pageSize >= 1 && ListsFiles(s, order) && key in cache
    ensures var sorted := cache[key := cache[key].(items := Sorting.Sort(cache[key].items, Stamp, newest))];
            Answer(q, rootId, now, sorted, s, order, rd).resp == Answer(q, rootId, now, cache, s, order, rd).resp
  {
    var k := CacheKey(q.folderId, q.sub);
    var sorted := cache[key := cache[key].(items := Sorting.Sort(cache[key].items, Stamp, newest))];
    assert Fresh(sorted, k, now) == Fresh(cache, k, now);
    if Fresh(cache, k, now) {
      if k == key {
        assert Answer(q, rootId, now, sorted, s, order, rd).resp == Found(Respond(q, Sorting.Sort(cache[key].items, Stamp, newest)));
        RespondIgnoresSort(q, cache[key].items, newest);
      } else {
        assert sorted[k] == cache[k];
      }
    } else {
      var read := ReadItems(q, rootId, s, order, rd);
      if read.Some? {
        assert Answer(q, rootId, now, sorted, s, order, rd).resp == Found(Respond(q, read.value));
        assert Answer(q, rootId, now, cache, s, order, rd).resp == Found(Respond(q, read.value));
      }
    }
  }

  // ---------------------------------------------------------------- the crawler's documents

  /** No stored document has an `ancestors` field. */
  predicate NoAncestors(s: Store) {
    forall r :: r in s ==> "ancestors" !in s[r]
  }

  /** No write of the batch sets an `ancestors` field. */
  predicate WritesNoAncestors(ops: seq<Op>) {
    forall k :: 0 <= k < |ops| && ops[k].Upsert? ==> "ancestors" !in ops[k].data
  }

  /** The crawler never writes an `ancestors` field. */
  lemma {:induction false} CrawlerWritesNoAncestors(items: seq<Provider.Entry>, env: CrawlLoop.Env, syncId: int)
    ensures WritesNoAncestors(CrawlLoop.EntryOps(items, env, syncId))
    decreases |items|
  {
    if items != [] {
      CrawlerWritesNoAncestors(items[1..], env, syncId);
      var head := if items[0].HasId() then [CrawlLoop.EntryOp(items[0], env, syncId)] else [];
      var rest := CrawlLoop.EntryOps(items[1..], env, syncId);
      assert CrawlLoop.EntryOps(items, env, syncId) == head + rest;
      if items[0].HasId() {
        var op := CrawlLoop.EntryOp(items[0], env, syncId);
        assert "ancestors" !in op.data;
      }
    }
  }

  /** Committing such writes keeps a store free of `ancestors` fields. */
  lemma {:induction false} CommitKeepsNoAncestors(s: Store, ops: seq<Op>)
    requires NoAncestors(s) && WritesNoAncestors(ops)
    ensures NoAncestors(Commit(s, ops))
    decreases |ops|
  {
    if ops != [] {
      var s1 := ApplyOp(s, ops[0]);
      assert NoAncestors(s1);
      assert WritesNoAncestors(ops[1..]) by {
        forall k | 0 <= k < |ops[1..]| && ops[1..][k].Upsert? ensures "ancestors" !in ops[1..][k].data {
          assert ops[1..][k] == ops[k + 1];
        }
      }
      CommitKeepsNoAncestors(s1, ops[1..]);
    }
  }

  /** Over a store without `ancestors` fields, such as one only the crawler
      has written, a subtree search below any folder but the root that has
      to read the store finds nothing. */
  lemma SubtreeBelowRootFindsNothing(q: Query, rootId: string, now: int, cache: Cache,
                                     s: Store, order: seq<string>, rd: Render)
    requires q.pageSize >= 1 && ListsFiles(s, order) && NoAncestors(s)
    requires q.sub && q.folderId != rootId
    requires !Fresh(cache, CacheKey(q.folderId, q.sub), now)
    ensures var o := Answer(q, rootId, now, cache, s, order, rd);
            o.resp.Found? && o.resp.page.items == [] && o.resp.page.total == 0
  {
    NoMatchNoSnapshot(s, QueryFor(rootId, q.folderId, q.sub), order);
    RespondEmpty(q);
  }
}
