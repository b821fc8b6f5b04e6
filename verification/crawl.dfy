/** The crawl loop of the indexing handler (api/admin/index-drive.ts,
    lines 120-223): folders are listed breadth-first, one page per step;
    every listed entry with an id becomes one merge-upsert stamped with the
    generation's `syncId`; the loop stops when the cumulative write counter
    reaches the budget or no folder is left. */
module CrawlLoop {
  import opened Wrappers
  import Seqs
  import opened Text
  import opened Store
  import opened WriteBuffer
  import opened CrawlCursor
  import opened Provider
  import DriveQuery
  import MediaKind
  import Json

  /** What stays fixed during one invocation; `now` stands for the server
      timestamp every write carries. */
  datatype Env = Env(rootId: string, driveId: string, dry: bool, maxWrites: int, now: int)

  /** The page size the crawler asks for. */
  const ListPageSize: nat := 1000

  /** A possibly absent string as a stored field (`x ?? null`). */
  function Nullable(o: Option<string>): Field {
    match o
    case None => FNull
    case Some(s) => FStr(s)
  }

  /** Lines 158-166: the folder document. */
  function FolderDoc(f: Entry, env: Env, syncId: int): Doc
    requires f.HasId()
  {
    map[
      "id" := FStr(f.id.value),
      "name" := FStr(f.Title()),
      "parentId" := Nullable(f.ParentId()),
      "rootId" := FStr(env.rootId),
      "driveId" := FStr(env.driveId),
      "syncId" := FNum(syncId),
      "updatedAt" := FTime(env.now)]
  }

  /** Lines 186-201: the file document, with the classification of lines
      171-178 and the thumbnail route of line 198. */
  function FileDoc(f: Entry, env: Env, syncId: int): Doc
    requires f.HasId()
  {
    map[
      "id" := FStr(f.id.value),
      "name" := FStr(f.Title()),
      "mimeType" := FStr(f.Mime()),
      "type" := FStr(MediaKind.MediaTypeFromMime(f.Mime()).Name()),
      "parentId" := Nullable(f.ParentId()),
      "folderId" := Nullable(f.ParentId()),
      "rootId" := FStr(env.rootId),
      "driveId" := FStr(env.driveId),
      "createdTime" := Nullable(f.createdTime),
      "modifiedTime" := Nullable(f.modifiedTime),
      "webViewLink" := Nullable(f.webViewLink),
      "thumbUrl" := FStr(ThumbUrl(f.id.value)),
      "syncId" := FNum(syncId),
      "updatedAt" := FTime(env.now)]
  }

  /** The one write a listed entry with an id produces: a folder goes to
      `drive_folders`, anything else to `drive_files`, keyed by its id. */
  function EntryOp(f: Entry, env: Env, syncId: int): (op: Op)
    requires f.HasId()
    ensures op.Upsert? && op.ref.id == f.id.value
    ensures op.ref.col == (if f.IsFolder() then Folders else Files)
    ensures "syncId" in op.data && op.data["syncId"] == FNum(syncId)
    ensures "rootId" in op.data && op.data["rootId"] == FStr(env.rootId)
  {
    if f.IsFolder() then Upsert(DocRef(Folders, f.id.value), FolderDoc(f, env, syncId))
    else Upsert(DocRef(Files, f.id.value), FileDoc(f, env, syncId))
  }

  // ------------------------------------------- what a run of entries yields

  /** The writes a run of listed entries yields, one per entry with an id. */
  function EntryOps(items: seq<Entry>, env: Env, syncId: int): seq<Op>
    decreases |items|
  {
    if items == [] then []
    else (if items[0].HasId() then [EntryOp(items[0], env, syncId)] else [])
         + EntryOps(items[1..], env, syncId)
  }

  /** The ids of the listed folders, in listing order, as the queue holds
      them. */
  function FolderIds(items: seq<Entry>): seq<Json.Value>
    decreases |items|
  {
    if items == [] then []
    else (if items[0].HasId() && items[0].IsFolder() then [Json.Str(items[0].id.value)] else [])
         + FolderIds(items[1..])
  }

  /** Every id the loop queues is a string. */
  lemma {:induction false} FolderIdsNamed(items: seq<Entry>)
    ensures forall k :: 0 <= k < |FolderIds(items)| ==> FolderIds(items)[k].Str?
    decreases |items|
  {
    if items != [] {
      FolderIdsNamed(items[1..]);
      var head := if items[0].HasId() && items[0].IsFolder() then [Json.Str(items[0].id.value)] else [];
      var rest := FolderIds(items[1..]);
      assert FolderIds(items) == head + rest;
      assert forall k :: 0 <= k < |rest| ==> (head + rest)[|head| + k] == rest[k];
    }
  }

  function CountFolders(items: seq<Entry>): nat
    decreases |items|
  {
    if items == [] then 0
    else (if items[0].HasId() && items[0].IsFolder() then 1 else 0) + CountFolders(items[1..])
  }

  function CountFiles(items: seq<Entry>): nat
    decreases |items|
  {
    if items == [] then 0
    else (if items[0].HasId() && !items[0].IsFolder() then 1 else 0) + CountFiles(items[1..])
  }

  /** Exactly one write per entry with an id, each stamped with the
      generation; entries without an id yield nothing. */
  lemma {:induction false} EntryOpsFacts(items: seq<Entry>, env: Env, syncId: int)
    ensures |EntryOps(items, env, syncId)| == CountFolders(items) + CountFiles(items)
    ensures |FolderIds(items)| == CountFolders(items)
    ensures Stamped(EntryOps(items, env, syncId), syncId)
    decreases |items|
  {
    if items != [] {
      EntryOpsFacts(items[1..], env, syncId);
    }
  }

  /** The reference definitions over a prefix one entry longer. */
  lemma ConsStep(items: seq<Entry>, n: nat, env: Env, syncId: int)
    requires 0 < |items| && n < |items|
    ensures var s, h, t := items[..n + 1], [items[0]], items[1..][..n];
            && FolderIds(s) == FolderIds(h) + FolderIds(t)
            && CountFolders(s) == CountFolders(h) + CountFolders(t)
            && CountFiles(s) == CountFiles(h) + CountFiles(t)
            && EntryOps(s, env, syncId) == EntryOps(h, env, syncId) + EntryOps(t, env, syncId)
  {
    var s, h := items[..n + 1], [items[0]];
    assert s[0] == items[0] && s[1..] == items[1..][..n];
    assert h[1..] == [];
  }

  // ---------------------------------------------------------------- a page

  /** The state of the loop over one page's entries: the crawl state, the
      buffer, and how many entries the loop has consumed. */
  datatype Progress = Progress(st: CrawlState, buf: Buffer, consumed: nat)

  /** Lines 145-205 for one entry with an id: a folder is queued at the tail
      and counted as a folder, anything else as a file; either way the write
      counter grows by one and one write is buffered. */
  function Visit(st: CrawlState, buf: Buffer, f: Entry, env: Env): (r: (CrawlState, Buffer))
    requires f.HasId()
    ensures r.0 == st.(queue := st.queue + FolderIds([f]),
                       folders := st.folders + CountFolders([f]),
                       files := st.files + CountFiles([f]),
                       writes := st.writes + 1)
    ensures r.1.AllOps() == buf.AllOps() + EntryOps([f], env, st.syncId)
    ensures Healthy(buf, env.dry) ==> Healthy(r.1, env.dry)
  {
    assert [f][1..] == [];
    var st1 :=
      if f.IsFolder() then st.(queue := st.queue + [Json.Str(f.id.value)], folders := st.folders + 1, writes := st.writes + 1)
      else st.(files := st.files + 1, writes := st.writes + 1);
    (st1, Push(buf, EntryOp(f, env, st.syncId), env.dry))
  }

  /** Lines 144-209: the entries in order until the budget is reached. The
      loop stops early only right after a write that reached the budget, and
      never pushes the counter past the budget. */
  function ProcessItems(st: CrawlState, buf: Buffer, items: seq<Entry>, env: Env): (r: Progress)
    ensures r.consumed <= |items|
    ensures r.st.current == st.current && r.st.pageToken == st.pageToken && r.st.syncId == st.syncId
    ensures r.consumed < |items| ==> r.st.writes >= env.maxWrites && 0 < r.consumed && items[r.consumed - 1].HasId()
    ensures st.writes < env.maxWrites ==> r.st.writes <= env.maxWrites
    ensures Healthy(buf, env.dry) ==> Healthy(r.buf, env.dry)
    decreases |items|
  {
    if items == [] then Progress(st, buf, 0)
    else if !items[0].HasId() then
      var r := ProcessItems(st, buf, items[1..], env);
      Progress(r.st, r.buf, r.consumed + 1)
    else
      var v := Visit(st, buf, items[0], env);
      if v.0.writes >= env.maxWrites then Progress(v.0, v.1, 1)
      else
        var r := ProcessItems(v.0, v.1, items[1..], env);
        Progress(r.st, r.buf, r.consumed + 1)
  }

  /** What the loop over a page does to the counters: each grows by exactly
      what the consumed prefix of the page yields. */
  lemma {:induction false} ProcessItemsCounts(st: CrawlState, buf: Buffer, items: seq<Entry>, env: Env)
    ensures var r := ProcessItems(st, buf, items, env);
            var done := items[..r.consumed];
            && r.st.folders == st.folders + CountFolders(done)
            && r.st.files == st.files + CountFiles(done)
            && r.st.writes == st.writes + CountFolders(done) + CountFiles(done)
    decreases |items|
  {
    if items != [] {
      var h := [items[0]];
      assert h[1..] == [];
      if !items[0].HasId() {
        var r1 := ProcessItems(st, buf, items[1..], env);
        ProcessItemsCounts(st, buf, items[1..], env);
        ConsStep(items, r1.consumed, env, st.syncId);
      } else {
        var v := Visit(st, buf, items[0], env);
        if v.0.writes >= env.maxWrites {
          assert items[..1] == h;
        } else {
          var r1 := ProcessItems(v.0, v.1, items[1..], env);
          ProcessItemsCounts(v.0, v.1, items[1..], env);
          ConsStep(items, r1.consumed, env, st.syncId);
        }
      }
    }
  }

  /** What the loop over a page does to the queue: the ids of the folders in
      the consumed prefix are appended, in listing order. */
  lemma {:induction false} ProcessItemsQueue(st: CrawlState, buf: Buffer, items: seq<Entry>, env: Env)
    ensures var r := ProcessItems(st, buf, items, env);
            r.st.queue == st.queue + FolderIds(items[..r.consumed])
    decreases |items|
  {
    if items == [] {
      assert items[..0] == [];
    } else if !items[0].HasId() {
      ProcessItemsQueue(st, buf, items[1..], env);
      QueueSkip(st, buf, items, env);
    } else {
      var v := Visit(st, buf, items[0], env);
      if v.0.writes >= env.maxWrites {
        assert items[..1] == [items[0]];
      } else {
        ProcessItemsQueue(v.0, v.1, items[1..], env);
        QueueVisit(st, buf, items, env);
      }
    }
  }

  lemma QueueSkip(st: CrawlState, buf: Buffer, items: seq<Entry>, env: Env)
    requires items != [] && !items[0].HasId()
    requires var r1 := ProcessItems(st, buf, items[1..], env);
             r1.st.queue == st.queue + FolderIds(items[1..][..r1.consumed])
    ensures var r := ProcessItems(st, buf, items, env);
            r.st.queue == st.queue + FolderIds(items[..r.consumed])
  {
    var r1 := ProcessItems(st, buf, items[1..], env);
    var h := [items[0]];
    assert h[1..] == [];
    ConsStep(items, r1.consumed, env, st.syncId);
  }

  lemma QueueVisit(st: CrawlState, buf: Buffer, items: seq<Entry>, env: Env)
    requires items != [] && items[0].HasId()
    requires Visit(st, buf, items[0], env).0.writes < env.maxWrites
    requires var v := Visit(st, buf, items[0], env);
             var r1 := ProcessItems(v.0, v.1, items[1..], env);
             r1.st.queue == v.0.queue + FolderIds(items[1..][..r1.consumed])
    ensures var r := ProcessItems(st, buf, items, env);
            r.st.queue == st.queue + FolderIds(items[..r.consumed])
  {
    var v := Visit(st, buf, items[0], env);
    var r1 := ProcessItems(v.0, v.1, items[1..], env);
    var r := ProcessItems(st, buf, items, env);
    assert r.consumed == r1.consumed + 1 && r.st == r1.st;
    var h, t := FolderIds([items[0]]), FolderIds(items[1..][..r1.consumed]);
    assert FolderIds(items[..r.consumed]) == h + t by {
      ConsStep(items, r1.consumed, env, st.syncId);
    }
    assert v.0.queue == st.queue + h;
    Seqs.AppendAssoc(st.queue, h, t);
  }

  /** What the loop over a page buffers: exactly the writes the consumed
      prefix of the page yields, after everything buffered before. */
  lemma {:induction false} ProcessItemsOps(st: CrawlState, buf: Buffer, items: seq<Entry>, env: Env)
    ensures var r := ProcessItems(st, buf, items, env);
            r.buf.AllOps() == buf.AllOps() + EntryOps(items[..r.consumed], env, st.syncId)
    decreases |items|
  {
    if items == [] {
      assert items[..0] == [];
    } else if !items[0].HasId() {
      ProcessItemsOps(st, buf, items[1..], env);
      OpsSkip(st, buf, items, env);
    } else {
      var v := Visit(st, buf, items[0], env);
      if v.0.writes >= env.maxWrites {
        assert items[..1] == [items[0]];
      } else {
        ProcessItemsOps(v.0, v.1, items[1..], env);
        OpsVisit(st, buf, items, env);
      }
    }
  }

  lemma OpsSkip(st: CrawlState, buf: Buffer, items: seq<Entry>, env: Env)
    requires items != [] && !items[0].HasId()
    requires var r1 := ProcessItems(st, buf, items[1..], env);
             r1.buf.AllOps() == buf.AllOps() + EntryOps(items[1..][..r1.consumed], env, st.syncId)
    ensures var r := ProcessItems(st, buf, items, env);
            r.buf.AllOps() == buf.AllOps() + EntryOps(items[..r.consumed], env, st.syncId)
  {
    var r1 := ProcessItems(st, buf, items[1..], env);
    var h := [items[0]];
    assert h[1..] == [];
    ConsStep(items, r1.consumed, env, st.syncId);
  }

  lemma OpsVisit(st: CrawlState, buf: Buffer, items: seq<Entry>, env: Env)
    requires items != [] && items[0].HasId()
    requires Visit(st, buf, items[0], env).0.writes < env.maxWrites
    requires var v := Visit(st, buf, items[0], env);
             var r1 := ProcessItems(v.0, v.1, items[1..], env);
             r1.buf.AllOps() == v.1.AllOps() + EntryOps(items[1..][..r1.consumed], env, v.0.syncId)
    ensures var r := ProcessItems(st, buf, items, env);
            r.buf.AllOps() == buf.AllOps() + EntryOps(items[..r.consumed], env, st.syncId)
  {
    var v := Visit(st, buf, items[0], env);
    var r1 := ProcessItems(v.0, v.1, items[1..], env);
    ConsStep(items, r1.consumed, env, st.syncId);
    Seqs.AppendAssoc(buf.AllOps(), EntryOps([items[0]], env, st.syncId), EntryOps(items[1..][..r1.consumed], env, st.syncId));
  }

  /** The name of the folder being listed. */
  function CurrentName(st: CrawlState): string {
    if st.current.Str? then st.current.s else ""
  }

  /** Lines 128-140: the listing call for the current folder. */
  function Request(st: CrawlState): ListRequest {
    ListRequest(DriveQuery.ParentsQuery(CurrentName(st)), st.pageToken, ListPageSize, None)
  }

  /** Lines 142-222: one listed page. When the budget is reached the next
      page's token is kept, and the folder is finished when there is none;
      otherwise the loop moves to the next page or, after the last page, to
      the next folder. */
  function PageStep(st: CrawlState, buf: Buffer, page: Page, env: Env): (r: (CrawlState, Buffer))
    ensures r.0.writes >= env.maxWrites ==>
              && r.0.pageToken == page.nextPageToken
              && r.0.current == (if Truthy(page.nextPageToken) then st.current else Json.Null)
    ensures r.0.writes < env.maxWrites && Truthy(page.nextPageToken) ==>
              r.0.current == st.current && r.0.pageToken == page.nextPageToken
    ensures r.0.writes < env.maxWrites && !Truthy(page.nextPageToken) ==>
              r.0.current == Json.Null && r.0.pageToken.None?
    ensures r.0.writes < env.maxWrites ==> ProcessItems(st, buf, page.files, env).consumed == |page.files|
    ensures var p := ProcessItems(st, buf, page.files, env);
            r.1 == p.buf && r.0.queue == p.st.queue && r.0.syncId == st.syncId
            && r.0.folders == p.st.folders && r.0.files == p.st.files && r.0.writes == p.st.writes
  {
    var p := ProcessItems(st, buf, page.files, env);
    var st1 := p.st;
    if st1.writes >= env.maxWrites then
      var st2 := st1.(pageToken := page.nextPageToken);
      (if !Truthy(page.nextPageToken) then st2.(current := Json.Null) else st2, p.buf)
    else if Truthy(page.nextPageToken) then
      (st1.(pageToken := page.nextPageToken), p.buf)
    else
      (st1.(pageToken := None, current := Json.Null), p.buf)
  }

  /** A budget stop inside a page keeps the token of the page after it: the
      folders and files of the rest of the page yield no write, are not
      queued, and the next listing of the folder asks for the following page,
      so this generation never sees them. */
  lemma LostPageTail(st: CrawlState, buf: Buffer, page: Page, env: Env)
    requires st.writes < env.maxWrites
    requires ProcessItems(st, buf, page.files, env).consumed < |page.files|
    ensures var p := ProcessItems(st, buf, page.files, env);
            var r := PageStep(st, buf, page, env);
            && r.0.queue == st.queue + FolderIds(page.files[..p.consumed])
            && r.1.AllOps() == buf.AllOps() + EntryOps(page.files[..p.consumed], env, st.syncId)
            && r.0.pageToken == page.nextPageToken
            && (Truthy(page.nextPageToken) ==>
                  Request(r.0) == ListRequest(DriveQuery.ParentsQuery(CurrentName(st)),
                                              page.nextPageToken, ListPageSize, None))
  {
    ProcessItemsQueue(st, buf, page.files, env);
    ProcessItemsOps(st, buf, page.files, env);
  }

  // ----------------------------------------------------------- the loop

  /** How the loop ended: normally; because the invocation ran out of time
      while listing; or because `escapeQ` was handed a folder that is not a
      string and threw. In the last two only the batches already committed
      persist. */
  datatype Run = Finished(st: CrawlState, buf: Buffer) | OutOfTime(buf: Buffer) | Threw(buf: Buffer)

  /** `q` keeps the order of `p` from position `k` on: the first `k` folders
      have been taken off the head and others may have been added at the
      tail. */
  predicate QueueFrom(p: seq<Json.Value>, q: seq<Json.Value>, k: int) {
    0 <= k <= |p| && p[k..] <= q
  }

  ghost predicate Fifo(p: seq<Json.Value>, q: seq<Json.Value>) {
    exists k :: QueueFrom(p, q, k)
  }

  lemma FifoTrans(p: seq<Json.Value>, q: seq<Json.Value>, r: seq<Json.Value>)
    requires Fifo(p, q) && Fifo(q, r)
    ensures Fifo(p, r)
  {
    var k :| QueueFrom(p, q, k);
    var j :| QueueFrom(q, r, j);
    if k + j <= |p| {
      assert p[k + j..] == p[k..][j..];
      assert QueueFrom(p, r, k + j);
    } else {
      assert QueueFrom(p, r, |p|);
    }
  }

  lemma FifoAdvancePage(st: CrawlState, buf: Buffer, page: Page, env: Env)
    ensures Fifo(st.queue, Advance(st).queue)
    ensures Fifo(Advance(st).queue, PageStep(Advance(st), buf, page, env).0.queue)
  {
    if !Json.Truthy(st.current) && st.queue != [] {
      assert QueueFrom(st.queue, Advance(st).queue, 1);
    } else {
      assert QueueFrom(st.queue, Advance(st).queue, 0);
    }
    ProcessItemsQueue(Advance(st), buf, page.files, env);
    assert QueueFrom(Advance(st).queue, PageStep(Advance(st), buf, page, env).0.queue, 0);
  }

  /** The write counter equals the number of folders plus files recorded. */
  predicate Balanced(st: CrawlState) {
    st.writes == st.folders + st.files
  }

  /** Lines 120-223, driven by `list`; `fuel` is the number of listing calls
      the invocation has time for. */
  function Crawl(st: CrawlState, buf: Buffer, list: Lister, env: Env, fuel: nat): (r: Run)
    ensures st.writes >= env.maxWrites ==> r == Finished(st, buf)
    ensures r.Finished? && st.writes < env.maxWrites ==> r.st.writes <= env.maxWrites
    ensures r.Finished? ==> r.st.writes >= env.maxWrites || !Json.Truthy(r.st.current)
    ensures r.Finished? && Placed(st) ==> Placed(r.st)
    ensures r.Finished? ==> r.st.syncId == st.syncId && r.st.writes >= st.writes
    ensures r.Finished? && Balanced(st) ==> Balanced(r.st)
    ensures r.Finished? ==> Fifo(st.queue, r.st.queue)
    ensures buf.AllOps() <= r.buf.AllOps()
    ensures Stamped(r.buf.AllOps()[|buf.AllOps()|..], st.syncId)
    ensures Healthy(buf, env.dry) ==> Healthy(r.buf, env.dry)
    decreases fuel
  {
    if st.writes >= env.maxWrites then
      assert QueueFrom(st.queue, st.queue, 0);
      Finished(st, buf)
    else
      var st1 := Advance(st);
      if !Json.Truthy(st1.current) then
        FifoAdvancePage(st, buf, Page([], None), env);
        Finished(st1, buf)
      else if !st1.current.Str? then Threw(buf)
      else if fuel == 0 then OutOfTime(buf)
      else
        var page := list(Request(st1));
        var (st2, buf2) := PageStep(st1, buf, page, env);
        CrawlStep(st, buf, page, env);
        var r := Crawl(st2, buf2, list, env, fuel - 1);
        StampedAppend(buf.AllOps(), buf2.AllOps(), r.buf.AllOps(), st.syncId);
        if r.Finished? then
          FifoTrans(st.queue, st2.queue, r.st.queue);
          r
        else r
  }

  /** Every queued folder is a string, and so is the current one, if any:
      the shape of every state the loop itself writes. */
  predicate Named(st: CrawlState) {
    (st.current.Str? || st.current.Null?) && forall k :: 0 <= k < |st.queue| ==> st.queue[k].Str?
  }

  /** A run from a state of that shape never throws, and ends in a state of
      that shape. */
  lemma {:induction false} NamedNeverThrows(st: CrawlState, buf: Buffer, list: Lister, env: Env, fuel: nat)
    requires Named(st)
    ensures !Crawl(st, buf, list, env, fuel).Threw?
    ensures Crawl(st, buf, list, env, fuel).Finished? ==> Named(Crawl(st, buf, list, env, fuel).st)
    decreases fuel
  {
    var st1 := Advance(st);
    if st.writes < env.maxWrites {
      assert Named(st1) by {
        if !Json.Truthy(st.current) && st.queue != [] {
          assert forall k :: 0 <= k < |st1.queue| ==> st1.queue[k] == st.queue[k + 1];
        }
      }
      if Json.Truthy(st1.current) && fuel > 0 {
        var page := list(Request(st1));
        var (st2, buf2) := PageStep(st1, buf, page, env);
        NamedStep(st1, buf, page, env);
        NamedNeverThrows(st2, buf2, list, env, fuel - 1);
        assert Crawl(st, buf, list, env, fuel) == Crawl(st2, buf2, list, env, fuel - 1);
      } else {
        assert st1.current.Str? || !Json.Truthy(st1.current);
      }
    }
  }

  lemma NamedStep(st: CrawlState, buf: Buffer, page: Page, env: Env)
    requires Named(st)
    ensures Named(PageStep(st, buf, page, env).0)
  {
    var p := ProcessItems(st, buf, page.files, env);
    ProcessItemsQueue(st, buf, page.files, env);
    var ids := FolderIds(page.files[..p.consumed]);
    FolderIdsNamed(page.files[..p.consumed]);
    var q := PageStep(st, buf, page, env).0.queue;
    assert q == st.queue + ids;
    forall k | 0 <= k < |q| ensures q[k].Str? {
      if k < |st.queue| { assert q[k] == st.queue[k]; } else { assert q[k] == ids[k - |st.queue|]; }
    }
  }

  /** One pass of the loop body from a state below the budget whose next
      folder is a string. */
  lemma CrawlStep(st: CrawlState, buf: Buffer, page: Page, env: Env)
    requires st.writes < env.maxWrites && Advance(st).current.Str? && Json.Truthy(Advance(st).current)
    ensures var r := PageStep(Advance(st), buf, page, env);
            && r.0.syncId == st.syncId && st.writes <= r.0.writes <= env.maxWrites
            && Placed(r.0)
            && (Balanced(st) ==> Balanced(r.0))
            && Fifo(st.queue, r.0.queue)
            && buf.AllOps() <= r.1.AllOps()
            && Stamped(r.1.AllOps()[|buf.AllOps()|..], st.syncId)
            && (Healthy(buf, env.dry) ==> Healthy(r.1, env.dry))
  {
    var st1 := Advance(st);
    var (st2, buf2) := PageStep(st1, buf, page, env);
    var p := ProcessItems(st1, buf, page.files, env);
    ProcessItemsCounts(st1, buf, page.files, env);
    ProcessItemsQueue(st1, buf, page.files, env);
    ProcessItemsOps(st1, buf, page.files, env);
    EntryOpsFacts(page.files[..p.consumed], env, st.syncId);
    assert buf2.AllOps() == buf.AllOps() + EntryOps(page.files[..p.consumed], env, st.syncId);
    FifoAdvancePage(st, buf, page, env);
    FifoTrans(st.queue, st1.queue, st2.queue);
  }

  lemma StampedAppend(a: seq<Op>, b: seq<Op>, c: seq<Op>, syncId: int)
    requires a <= b <= c
    requires Stamped(b[|a|..], syncId) && Stamped(c[|b|..], syncId)
    ensures Stamped(c[|a|..], syncId)
  {
    forall k | 0 <= k < |c| - |a|
      ensures c[|a|..][k].Upsert? && "syncId" in c[|a|..][k].data && c[|a|..][k].data["syncId"] == FNum(syncId)
    {
      if |a| + k < |b| {
        assert c[|a|..][k] == b[|a|..][k];
      } else {
        assert c[|a|..][k] == c[|b|..][|a| + k - |b|];
      }
    }
  }

  /** A crawl resumed with a write counter at or over the budget lists
      nothing and writes nothing: the counter is cumulative across
      invocations, so such a cursor never progresses. */
  lemma BudgetStall(st: CrawlState, buf: Buffer, list: Lister, env: Env, fuel: nat)
    requires st.writes >= env.maxWrites
    ensures Crawl(st, buf, list, env, fuel) == Finished(st, buf)
  {
  }
}
