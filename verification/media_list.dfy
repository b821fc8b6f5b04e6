/** The live media listing of api/drive/media.ts (lines 58-192): one page of
    a single folder's files in flat mode, or a breadth-first walk below a
    folder that collects at most `pageSize` matching files and hands back a
    cursor. Nothing is written; the Drive listing is the function `list`. */
module MediaList {
  import opened Wrappers
  import Seqs
  import opened Text
  import opened Request
  import opened Provider
  import opened MediaKind
  import opened MediaCursor
  import DriveQuery
  import Json

  const DefaultPageSize: nat := 60
  const MaxPageSize: nat := 200
  /** The page size of each folder listing during the walk. */
  const FolderPageSize: nat := 200

  /** The query-string parameters the handler reads. */
  datatype Params = Params(
    folderId: Param,
    text: Param,
    typ: Param,
    sort: Param,
    tags: Param,
    recursive: Param,
    pageSize: Param,
    pageToken: Param,
    cursor: Param)

  /** The filters after normalisation; `typ` and `sort` are kept as given. */
  datatype Filters = Filters(text: string, typ: string, sort: string, tags: seq<string>, pageSize: nat)

  /** Lines 63-70. */
  function ReadFilters(p: Params): (f: Filters)
    ensures 1 <= f.pageSize <= MaxPageSize
    ensures First(p.pageSize).None? ==> f.pageSize == DefaultPageSize
    ensures First(p.typ).None? ==> f.typ == "all"
    ensures First(p.sort).None? ==> f.sort == "new"
    ensures First(p.typ).Some? ==> f.typ == First(p.typ).value
    ensures First(p.sort).Some? ==> f.sort == First(p.sort).value
    ensures f.text == [] || (!IsJsSpace(f.text[0]) && !IsJsSpace(f.text[|f.text| - 1]))
    ensures First(p.text).None? ==> f.text == []
    ensures First(p.text).Some? ==> f.text == Trim(First(p.text).value)
    ensures f.tags == ParseTags(First(p.tags))
    ensures f.pageSize == ClampedInt(First(p.pageSize), DefaultPageSize, MaxPageSize)
  {
    Filters(
      Trim(First(p.text).GetOr("")),
      First(p.typ).GetOr("all"),
      First(p.sort).GetOr("new"),
      ParseTags(First(p.tags)),
      ClampedInt(First(p.pageSize), DefaultPageSize, MaxPageSize))
  }

  /** The query parameters that ask for exactly the filters `f`. */
  function SpellFilters(f: Filters, p: Params): Params
    requires 1 <= f.pageSize
  {
    p.(text := One(f.text), typ := One(f.typ), sort := One(f.sort),
       pageSize := One(IntToString(f.pageSize)))
  }

  /** Reading the filters is a normalisation: spelling the filters a request
      was read as back into it, with the same tags, reads as the same filters. */
  lemma ReadFiltersSpelled(p: Params)
    ensures var f := ReadFilters(p);
            ReadFilters(SpellFilters(f, p)) == f
  {
    var f := ReadFilters(p);
    ParseIntOfString(f.pageSize);
    TrimSettled(First(p.text).GetOr(""));
  }

  /** Trimming a trimmed string changes nothing. */
  lemma TrimSettled(x: string)
    ensures Trim(Trim(x)) == Trim(x)
  {
    var y := Trim(x);
    assert y == [] || (!IsJsSpace(y[0]) && !IsJsSpace(y[|y| - 1]));
  }

  /** One listed file as the response shows it. */
  datatype Item = Item(
    id: string,
    title: string,
    kind: MediaType,
    tags: seq<string>,
    thumbUrl: string,
    viewUrl: Option<string>,
    createdAt: Option<string>)

  /** `toItem` (lines 81-96). */
  function ToItem(f: Entry): Item
    requires f.HasId()
  {
    var title := f.Title();
    Item(f.id.value, title, MediaTypeFromMime(f.Mime()), ExtractTags(title),
         ThumbUrl(f.id.value), f.webViewLink, f.createdTime)
  }

  /** `matchesType` (lines 75-78): any type for `all`, otherwise the
      classification must have exactly the requested name. */
  predicate MatchesType(typ: string, mime: string) {
    typ == "all" || MediaTypeFromMime(mime).Name() == typ
  }

  /** The requested tags are all among the item's; no tags requested keeps
      every item. */
  predicate HasAllTags(it: Item, tags: seq<string>) {
    forall t :: t in tags ==> t in it.tags
  }

  /** What the response promises of each walked item. */
  predicate ItemOk(it: Item, flt: Filters) {
    (flt.typ == "all" || it.kind.Name() == flt.typ) && HasAllTags(it, flt.tags)
  }

  /** An entry the walk puts in its output (lines 154-168): it has an id,
      it is not a folder, its type matches and its tags include all the
      requested ones. */
  predicate Selected(f: Entry, flt: Filters) {
    f.HasId() && !f.IsFolder() && MatchesType(flt.typ, f.Mime()) && HasAllTags(ToItem(f), flt.tags)
  }

  /** The reference definition of the walk's output: the items of the
      selected entries, in listing order. */
  function Selections(xs: seq<Entry>, flt: Filters): (r: seq<Item>)
    ensures |r| <= |xs|
    ensures forall k :: 0 <= k < |r| ==> ItemOk(r[k], flt)
    decreases |xs|
  {
    if xs == [] then []
    else
      var rest := Selections(xs[1..], flt);
      if Selected(xs[0], flt) then [ToItem(xs[0])] + rest else rest
  }

  /** Every selected entry's item is output, and every output item is the
      item of a selected entry, so of a file with an id that is not a
      folder. */
  lemma {:induction false} SelectionsMembers(xs: seq<Entry>, flt: Filters)
    ensures forall it :: it in Selections(xs, flt) ==> exists f :: f in xs && Selected(f, flt) && it == ToItem(f)
    ensures forall f :: f in xs && Selected(f, flt) ==> ToItem(f) in Selections(xs, flt)
    decreases |xs|
  {
    if xs != [] {
      SelectionsMembers(xs[1..], flt);
      assert forall f :: f in xs[1..] ==> f in xs;
      assert forall f :: f in xs ==> f == xs[0] || f in xs[1..];
    }
  }

  lemma {:induction false} SelectionsAppend(a: seq<Entry>, b: seq<Entry>, flt: Filters)
    ensures Selections(a + b, flt) == Selections(a, flt) + Selections(b, flt)
    decreases |a|
  {
    if a == [] {
      assert a + b == b;
    } else {
      assert (a + b)[0] == a[0] && (a + b)[1..] == a[1..] + b;
      SelectionsAppend(a[1..], b, flt);
    }
  }

  /** The ids of the folders among the entries, as the queue holds them. */
  function FolderValues(xs: seq<Entry>): (r: seq<Json.Value>)
    ensures forall k :: 0 <= k < |r| ==> r[k].Str?
    decreases |xs|
  {
    if xs == [] then []
    else
      var rest := FolderValues(xs[1..]);
      if xs[0].HasId() && xs[0].IsFolder() then [Json.Str(xs[0].id.value)] + rest else rest
  }

  lemma {:induction false} FolderValuesAppend(a: seq<Entry>, b: seq<Entry>)
    ensures FolderValues(a + b) == FolderValues(a) + FolderValues(b)
    decreases |a|
  {
    if a == [] {
      assert a + b == b;
    } else {
      assert (a + b)[0] == a[0] && (a + b)[1..] == a[1..] + b;
      FolderValuesAppend(a[1..], b);
    }
  }

  // ------------------------------------------------------------ flat mode

  const NotFolderClause: string := " and mimeType != 'application/vnd.google-apps.folder'"

  /** Lines 104-106: only `photo`, `gif` and `video` narrow the query; `all`,
      `other` and any other value add nothing, and flat mode checks no type
      afterwards, so for them every non-folder file is listed. */
  function TypeClause(typ: string): (r: string)
    ensures r == "" <==> typ != "photo" && typ != "gif" && typ != "video"
  {
    if typ == "photo" then " and mimeType contains 'image/' and mimeType != 'image/gif'"
    else if typ == "gif" then " and mimeType = 'image/gif'"
    else if typ == "video" then " and mimeType contains 'video/'"
    else ""
  }

  /** `createdTime desc` for `new`, `createdTime asc` for anything else. */
  function OrderBy(sort: string): string {
    "createdTime " + (if sort == "new" then "desc" else "asc")
  }

  function TextClause(text: string): string {
    if text != "" then DriveQuery.NameFilter(text) else ""
  }

  /** Lines 101-106. */
  function FlatQuery(folder: string, flt: Filters): string {
    DriveQuery.ParentsQuery(folder) + NotFolderClause + TextClause(flt.text) + TypeClause(flt.typ)
  }

  /** The flat query lists exactly the requested folder, whatever its id
      holds, and everything after the parents clause is the fixed filters. */
  lemma FlatQueryNamesFolder(folder: string, flt: Filters)
    ensures DriveQuery.ParseParentsQuery(FlatQuery(folder, flt))
         == Some((folder, NotFolderClause + TextClause(flt.text) + TypeClause(flt.typ)))
  {
    var suffix := NotFolderClause + TextClause(flt.text) + TypeClause(flt.typ);
    Seqs.AppendAssoc(DriveQuery.ParentsQuery(folder) + NotFolderClause, TextClause(flt.text), TypeClause(flt.typ));
    Seqs.AppendAssoc(DriveQuery.ParentsQuery(folder), NotFolderClause, TextClause(flt.text) + TypeClause(flt.typ));
    Seqs.AppendAssoc(NotFolderClause, TextClause(flt.text), TypeClause(flt.typ));
    DriveQuery.ParentsQueryRoundTrip(folder, suffix);
  }

  /** Line 121 and 123: the entries with an id, as items, then those carrying
      every requested tag, in listing order. */
  function FlatItems(files: seq<Entry>, tags: seq<string>): (items: seq<Item>)
    ensures |items| <= |files|
    ensures forall k :: 0 <= k < |items| ==> HasAllTags(items[k], tags)
    decreases |files|
  {
    if files == [] then []
    else
      var rest := FlatItems(files[1..], tags);
      var f := files[0];
      if f.HasId() && HasAllTags(ToItem(f), tags) then [ToItem(f)] + rest else rest
  }

  /** Flat mode outputs the item of every listed entry with an id and the
      requested tags, and nothing else. */
  lemma {:induction false} FlatItemsMembers(files: seq<Entry>, tags: seq<string>)
    ensures forall it :: it in FlatItems(files, tags) ==> exists f :: f in files && f.HasId() && it == ToItem(f)
    ensures forall f :: f in files && f.HasId() && HasAllTags(ToItem(f), tags) ==> ToItem(f) in FlatItems(files, tags)
    decreases |files|
  {
    if files != [] {
      FlatItemsMembers(files[1..], tags);
      assert forall f :: f in files[1..] ==> f in files;
      assert forall f :: f in files ==> f == files[0] || f in files[1..];
    }
  }

  /** When the listing honours the query's not-a-folder clause, flat mode
      with type `all` returns what the walk would select from the same
      entries. */
  lemma {:induction false} FlatAgreesWithWalk(files: seq<Entry>, flt: Filters)
    requires flt.typ == "all"
    requires forall j :: 0 <= j < |files| ==> !files[j].IsFolder()
    ensures FlatItems(files, flt.tags) == Selections(files, flt)
    decreases |files|
  {
    if files != [] {
      assert forall j :: 0 <= j < |files[1..]| ==> !files[1..][j].IsFolder() by {
        forall j | 0 <= j < |files[1..]| ensures !files[1..][j].IsFolder() {
          assert files[1..][j] == files[j + 1];
        }
      }
      FlatAgreesWithWalk(files[1..], flt);
    }
  }

  /** Lines 99-125: one listing call for one page of the folder. */
  function FlatRequest(folder: string, pageToken: Option<string>, flt: Filters): (req: ListRequest)
    ensures req.pageToken.Some? <==> Truthy(pageToken)
    ensures DriveQuery.ParseParentsQuery(req.q).Some? && DriveQuery.ParseParentsQuery(req.q).value.0 == folder
  {
    FlatQueryNamesFolder(folder, flt);
    ListRequest(FlatQuery(folder, flt), if Truthy(pageToken) then pageToken else None,
                flt.pageSize, Some(OrderBy(flt.sort)))
  }

  // ------------------------------------------------------------ the walk

  /** Lines 137-138: the parents clause, and the name clause when a text is
      given; no type or folder clause, so subfolders are listed too. */
  function FolderQuery(folder: string, text: string): string {
    DriveQuery.ParentsQuery(folder) + TextClause(text)
  }

  /** Every folder listing of the walk carries the search text: it lists the
      folder's children whose names contain the text, subfolders included. */
  lemma FolderQueryFilters(folder: string, text: string)
    requires text != ""
    ensures DriveQuery.ParseParentsQuery(FolderQuery(folder, text)) == Some((folder, DriveQuery.NameFilter(text)))
    ensures DriveQuery.ParseNameFilter(DriveQuery.NameFilter(text)) == Some(text)
  {
    DriveQuery.ParentsQueryRoundTrip(folder, DriveQuery.NameFilter(text));
    DriveQuery.NameFilterRoundTrip(text);
  }

  function FolderRequest(folder: string, token: Option<string>, flt: Filters): ListRequest {
    ListRequest(FolderQuery(folder, flt.text), token, FolderPageSize, Some(OrderBy(flt.sort)))
  }

  /** Line 134: `if (!current) current = queue.shift() ?? null`. The page
      token is left as it is. */
  function Pop(st: MediaState): (r: MediaState)
    ensures r.pageToken == st.pageToken
    ensures Json.Truthy(st.current) ==> r == st
    ensures !Json.Truthy(st.current) && st.queue != [] ==> r.current == st.queue[0] && r.queue == st.queue[1..]
    ensures !Json.Truthy(st.current) && st.queue == [] ==> r.current == Json.Null && r.queue == []
  {
    if Json.Truthy(st.current) then st
    else if st.queue == [] then st.(current := Json.Null)
    else st.(current := st.queue[0], queue := st.queue[1..])
  }

  /** Where the scan of one listed page got to: the queue with the page's
      folders appended, the output so far, and how many entries it read. */
  datatype Scan = Scan(queue: seq<Json.Value>, out: seq<Item>, consumed: nat)

  /** One entry's effect on the queue: a folder with an id is appended. */
  function Enqueue(f: Entry, queue: seq<Json.Value>): (r: seq<Json.Value>)
    ensures r == queue + FolderValues([f])
  {
    if f.HasId() && f.IsFolder() then queue + [Json.Str(f.id.value)] else queue
  }

  /** One entry's effect on the output: a selected entry is appended. */
  function Emit(f: Entry, out: seq<Item>, flt: Filters): (r: seq<Item>)
    ensures r == out + Selections([f], flt)
  {
    if Selected(f, flt) then out + [ToItem(f)] else out
  }

  /** Lines 153-172. A folder is queued and never output; a selected entry is
      output, and the scan stops as soon as the output is full. */
  function ScanPage(files: seq<Entry>, queue: seq<Json.Value>, out: seq<Item>, flt: Filters): (r: Scan)
    requires |out| < flt.pageSize
    ensures r.consumed <= |files|
    ensures |out| <= |r.out| <= flt.pageSize
    ensures r.consumed < |files| ==> |r.out| == flt.pageSize
    decreases |files|
  {
    if files == [] then Scan(queue, out, 0)
    else
      var queue' := Enqueue(files[0], queue);
      var out' := Emit(files[0], out, flt);
      if |out'| >= flt.pageSize then Scan(queue', out', 1)
      else
        var r := ScanPage(files[1..], queue', out', flt);
        Scan(r.queue, r.out, r.consumed + 1)
  }

  /** A scan outputs exactly the selected entries of what it read. */
  lemma {:induction false} ScanPageOut(files: seq<Entry>, queue: seq<Json.Value>, out: seq<Item>, flt: Filters)
    requires |out| < flt.pageSize
    ensures var r := ScanPage(files, queue, out, flt);
            r.out == out + Selections(files[..r.consumed], flt)
    decreases |files|
  {
    if files != [] {
      var f := files[0];
      if |Emit(f, out, flt)| < flt.pageSize {
        ScanPageOut(files[1..], Enqueue(f, queue), Emit(f, out, flt), flt);
      }
      ScanOutStep(files, queue, out, flt);
    }
  }

  /** The step of `ScanPageOut`, from the fact for the rest of the page. */
  lemma ScanOutStep(files: seq<Entry>, queue: seq<Json.Value>, out: seq<Item>, flt: Filters)
    requires files != [] && |out| < flt.pageSize
    requires var out' := Emit(files[0], out, flt);
             |out'| < flt.pageSize ==>
               var r' := ScanPage(files[1..], Enqueue(files[0], queue), out', flt);
               r'.out == out' + Selections(files[1..][..r'.consumed], flt)
    ensures var r := ScanPage(files, queue, out, flt);
            r.out == out + Selections(files[..r.consumed], flt)
  {
    var f := files[0];
    var out' := Emit(f, out, flt);
    if |out'| >= flt.pageSize {
      assert files[..1] == [f];
    } else {
      var r' := ScanPage(files[1..], Enqueue(f, queue), out', flt);
      var rest := files[1..][..r'.consumed];
      Seqs.PrefixCons(files, r'.consumed);
      SelectionsAppend([f], rest, flt);
      Seqs.AppendAssoc(out, Selections([f], flt), Selections(rest, flt));
    }
  }

  /** A scan queues exactly the folders among what it read. */
  lemma {:induction false} ScanPageQueue(files: seq<Entry>, queue: seq<Json.Value>, out: seq<Item>, flt: Filters)
    requires |out| < flt.pageSize
    ensures var r := ScanPage(files, queue, out, flt);
            r.queue == queue + FolderValues(files[..r.consumed])
    decreases |files|
  {
    if files != [] {
      var f := files[0];
      if |Emit(f, out, flt)| < flt.pageSize {
        ScanPageQueue(files[1..], Enqueue(f, queue), Emit(f, out, flt), flt);
      }
      ScanQueueStep(files, queue, out, flt);
    }
  }

  /** The step of `ScanPageQueue`, from the fact for the rest of the page. */
  lemma ScanQueueStep(files: seq<Entry>, queue: seq<Json.Value>, out: seq<Item>, flt: Filters)
    requires files != [] && |out| < flt.pageSize
    requires var out' := Emit(files[0], out, flt);
             |out'| < flt.pageSize ==>
               var r' := ScanPage(files[1..], Enqueue(files[0], queue), out', flt);
               r'.queue == Enqueue(files[0], queue) + FolderValues(files[1..][..r'.consumed])
    ensures var r := ScanPage(files, queue, out, flt);
            r.queue == queue + FolderValues(files[..r.consumed])
  {
    var f := files[0];
    var out' := Emit(f, out, flt);
    if |out'| >= flt.pageSize {
      assert files[..1] == [f];
    } else {
      var r' := ScanPage(files[1..], Enqueue(f, queue), out', flt);
      var rest := files[1..][..r'.consumed];
      Seqs.PrefixCons(files, r'.consumed);
      FolderValuesAppend([f], rest);
      Seqs.AppendAssoc(queue, FolderValues([f]), FolderValues(rest));
    }
  }

  /** When a scan fills the output, the entry it read last filled it. */
  lemma {:induction false} ScanPageFill(files: seq<Entry>, queue: seq<Json.Value>, out: seq<Item>, flt: Filters)
    requires |out| < flt.pageSize
    ensures var r := ScanPage(files, queue, out, flt);
            |r.out| == flt.pageSize ==> 0 < r.consumed && Selected(files[r.consumed - 1], flt)
    decreases |files|
  {
    var r := ScanPage(files, queue, out, flt);
    if files != [] {
      var f := files[0];
      var out' := Emit(f, out, flt);
      if |out'| < flt.pageSize {
        var r' := ScanPage(files[1..], Enqueue(f, queue), out', flt);
        ScanPageFill(files[1..], Enqueue(f, queue), out', flt);
        if |r.out| == flt.pageSize {
          assert files[r.consumed - 1] == files[1..][r'.consumed - 1];
        }
      } else {
        assert out' != out;
      }
    }
  }

  /** Lines 174-179: after the scan, the folder keeps its next page only
      when there is one and the output is not yet full; otherwise the folder
      is finished, and with it whatever of it was not read. */
  function Settle(st: MediaState, page: Page, sc: Scan, flt: Filters): (r: MediaState)
    ensures r.queue == sc.queue
    ensures |sc.out| >= flt.pageSize ==> r.current == Json.Null && r.pageToken.None?
    ensures Truthy(page.nextPageToken) && |sc.out| < flt.pageSize ==>
              r.current == st.current && r.pageToken == page.nextPageToken
    ensures !Truthy(page.nextPageToken) ==> r.current == Json.Null && r.pageToken.None?
  {
    if Truthy(page.nextPageToken) && |sc.out| < flt.pageSize then
      st.(queue := sc.queue, pageToken := page.nextPageToken)
    else st.(queue := sc.queue, current := Json.Null, pageToken := None)
  }

  /** The entry came back from some folder listing the walk can make. */
  ghost predicate FromListing(e: Entry, flt: Filters, list: Lister) {
    exists folder: string, token: Option<string> :: e in list(FolderRequest(folder, token, flt)).files
  }

  ghost predicate AllListed(xs: seq<Entry>, flt: Filters, list: Lister) {
    forall k :: 0 <= k < |xs| ==> FromListing(xs[k], flt, list)
  }

  lemma PageListed(folder: string, token: Option<string>, flt: Filters, list: Lister, read: seq<Entry>)
    requires read <= list(FolderRequest(folder, token, flt)).files
    ensures AllListed(read, flt, list)
  {
    forall k | 0 <= k < |read| ensures FromListing(read[k], flt, list) {
      assert read[k] in list(FolderRequest(folder, token, flt)).files;
    }
  }

  lemma AllListedAppend(a: seq<Entry>, b: seq<Entry>, flt: Filters, list: Lister)
    requires AllListed(a, flt, list) && AllListed(b, flt, list)
    ensures AllListed(a + b, flt, list)
  {
    forall k | 0 <= k < |a + b| ensures FromListing((a + b)[k], flt, list) {
      if k < |a| { assert (a + b)[k] == a[k]; } else { assert (a + b)[k] == b[k - |a|]; }
    }
  }

  /** One listing of the walk: the folder's next page, scanned, and the
      state settled after it, with the entries the scan read. */
  datatype Stepped = Stepped(st: MediaState, out: seq<Item>, read: seq<Entry>)

  function ListStep(st: MediaState, out: seq<Item>, flt: Filters, list: Lister): (r: Stepped)
    requires st.current.Str? && |out| < flt.pageSize
    ensures |out| <= |r.out| <= flt.pageSize
    ensures |r.out| == flt.pageSize ==> r.st.current == Json.Null && r.st.pageToken.None?
    ensures r.read <= list(FolderRequest(st.current.s, st.pageToken, flt)).files
    ensures AllListed(r.read, flt, list)
  {
    var page := list(FolderRequest(st.current.s, st.pageToken, flt));
    var sc := ScanPage(page.files, st.queue, out, flt);
    var read := page.files[..sc.consumed];
    PageListed(st.current.s, st.pageToken, flt, list, read);
    Stepped(Settle(st, page, sc, flt), sc.out, read)
  }

  lemma ListStepContents(st: MediaState, out: seq<Item>, flt: Filters, list: Lister)
    requires st.current.Str? && |out| < flt.pageSize
    ensures var r := ListStep(st, out, flt, list);
            && r.out == out + Selections(r.read, flt)
            && r.st.queue == st.queue + FolderValues(r.read)
  {
    var page := list(FolderRequest(st.current.s, st.pageToken, flt));
    ScanPageOut(page.files, st.queue, out, flt);
    ScanPageQueue(page.files, st.queue, out, flt);
  }

  /** The walk ends with a state and the items, plus the entries it read (a
      record of the listing, not part of the response); it fails when a
      queued value that is truthy but not a string reaches `escapeQ`, and
      stalls when the invocation runs out of time. */
  datatype Walk = Done(st: MediaState, out: seq<Item>, read: seq<Entry>) | Thrown | Stalled

  /** One entry's queue bookkeeping over a step and the rest of the walk. */
  lemma QueueCarry(q0: seq<Json.Value>, q1: seq<Json.Value>, q2: seq<Json.Value>, a: seq<Entry>, b: seq<Entry>)
    requires forall v :: v in q1 ==> v in q0
    requires forall v :: v in q2 ==> v in q1 + FolderValues(a) || v in FolderValues(b)
    ensures forall v :: v in q2 ==> v in q0 || v in FolderValues(a + b)
  {
    FolderValuesAppend(a, b);
  }

  /** Lines 131-180; `fuel` is the number of listing calls there is time
      for. The output grows by exactly the selected entries among those
      read, never past the page size; everything queued at the end was
      queued at the start or is a folder read on the way; and when the page
      fills, the folder being listed is dropped together with its token. */
  function WalkFrom(st: MediaState, out: seq<Item>, flt: Filters, list: Lister, fuel: nat): (r: Walk)
    requires |out| <= flt.pageSize
    ensures r.Done? ==> |out| <= |r.out| <= flt.pageSize
    ensures r.Done? ==> r.out == out + Selections(r.read, flt)
    ensures r.Done? ==> forall v :: v in r.st.queue ==> v in st.queue || v in FolderValues(r.read)
    ensures r.Done? ==> AllListed(r.read, flt, list)
    ensures r.Done? && (|out| < flt.pageSize || !Json.Truthy(st.current)) ==> !Json.Truthy(r.st.current)
    ensures r.Done? && |out| < flt.pageSize && |r.out| == flt.pageSize ==>
              r.st.current == Json.Null && r.st.pageToken.None?
    decreases fuel
  {
    if |out| >= flt.pageSize then Done(st, out, [])
    else
      var st1 := Pop(st);
      if !Json.Truthy(st1.current) then Done(st1, out, [])
      else if !st1.current.Str? then Thrown
      else if fuel == 0 then Stalled
      else
        var s := ListStep(st1, out, flt, list);
        ListStepContents(st1, out, flt, list);
        match WalkFrom(s.st, s.out, flt, list, fuel - 1)
        case Done(st', out', read') =>
          SelectionsAppend(s.read, read', flt);
          Seqs.AppendAssoc(out, Selections(s.read, flt), Selections(read', flt));
          QueueCarry(st.queue, st1.queue, st'.queue, s.read, read');
          AllListedAppend(s.read, read', flt, list);
          Done(st', out', s.read + read')
        case other => other
  }

  /** Names a folder listing lets through: the provider's reading of `name
      contains`, which the model does not fix. */
  type NameTest = (string, string) -> bool

  predicate NamePasses(e: Entry, text: string, passes: NameTest) {
    e.name.Some? && passes(e.name.value, text)
  }

  predicate AllPass(xs: seq<Entry>, text: string, passes: NameTest) {
    forall k :: 0 <= k < |xs| ==> NamePasses(xs[k], text, passes)
  }

  /** The query's clause after the parents clause is the name clause for
      `text`. */
  predicate HasNameClause(q: string, text: string) {
    DriveQuery.ParseParentsQuery(q).Some? && DriveQuery.ParseParentsQuery(q).value.1 == DriveQuery.NameFilter(text)
  }

  /** The provider returns only entries whose names pass the name clause of
      the query. */
  ghost predicate HonoursNameClause(list: Lister, text: string, passes: NameTest) {
    forall req: ListRequest :: HasNameClause(req.q, text) ==> AllPass(list(req).files, text, passes)
  }

  lemma AllPassAppend(a: seq<Entry>, b: seq<Entry>, text: string, passes: NameTest)
    requires AllPass(a, text, passes) && AllPass(b, text, passes)
    ensures AllPass(a + b, text, passes)
  {
    assert forall k :: 0 <= k < |a + b| ==> (a + b)[k] == if k < |a| then a[k] else b[k - |a|];
  }

  /** Every folder listing the walk can make returns only passing names. */
  ghost predicate ListsOnlyPassing(list: Lister, flt: Filters, passes: NameTest) {
    forall folder: string, token: Option<string> ::
      AllPass(list(FolderRequest(folder, token, flt)).files, flt.text, passes)
  }

  lemma HonoursFolderListings(list: Lister, flt: Filters, passes: NameTest)
    requires flt.text != "" && HonoursNameClause(list, flt.text, passes)
    ensures ListsOnlyPassing(list, flt, passes)
  {
    forall folder: string, token: Option<string>
      ensures AllPass(list(FolderRequest(folder, token, flt)).files, flt.text, passes)
    {
      FolderQueryFilters(folder, flt.text);
      assert HasNameClause(FolderRequest(folder, token, flt).q, flt.text);
    }
  }

  /** Every entry that came back from a listing that lets through only
      passing names passes. */
  lemma ListedPasses(xs: seq<Entry>, flt: Filters, list: Lister, passes: NameTest)
    requires AllListed(xs, flt, list) && ListsOnlyPassing(list, flt, passes)
    ensures AllPass(xs, flt.text, passes)
  {
    forall k | 0 <= k < |xs| ensures NamePasses(xs[k], flt.text, passes) {
      var folder: string, token: Option<string> :| xs[k] in list(FolderRequest(folder, token, flt)).files;
      var files := list(FolderRequest(folder, token, flt)).files;
      var j :| 0 <= j < |files| && files[j] == xs[k];
    }
  }

  /** With a search text, every entry the walk reads has a name that passes
      the text, subfolders included: a subfolder whose name fails it is never
      listed, so never queued and never descended into, even when files
      below it would match. */
  lemma TextLimitsDescent(st: MediaState, flt: Filters, list: Lister, fuel: nat, passes: NameTest)
    requires flt.text != ""
    requires HonoursNameClause(list, flt.text, passes)
    ensures var r := WalkFrom(st, [], flt, list, fuel);
            r.Done? ==> AllPass(r.read, flt.text, passes)
  {
    HonoursFolderListings(list, flt, passes);
    var r := WalkFrom(st, [], flt, list, fuel);
    if r.Done? {
      ListedPasses(r.read, flt, list, passes);
    }
  }

  /** Lines 171 and 174-179: when a page fills the output, the folder being
      listed is dropped: no page token is kept, nothing after the filling
      entry is read, and the folders in that unread part are never queued. */
  lemma FillAbandonsFolder(st: MediaState, page: Page, out: seq<Item>, flt: Filters)
    requires |out| < flt.pageSize
    requires |ScanPage(page.files, st.queue, out, flt).out| == flt.pageSize
    ensures var sc := ScanPage(page.files, st.queue, out, flt);
            var next := Settle(st, page, sc, flt);
            && next.current == Json.Null && next.pageToken.None?
            && next.queue == st.queue + FolderValues(page.files[..sc.consumed])
            && Selected(page.files[sc.consumed - 1], flt)
  {
    ScanPageQueue(page.files, st.queue, out, flt);
    ScanPageFill(page.files, st.queue, out, flt);
  }

  // ------------------------------------------------------------ the handler

  /** The responses: 400 without a folder id, the flat page with Drive's own
      page token, the walked page with its cursor, the 500 of a queued value
      `escapeQ` cannot take, and a walk cut off by the time limit. */
  datatype Response =
    | MissingFolder
    | Listed(items: seq<Item>, nextPageToken: Option<string>)
    | Walked(items: seq<Item>, state: MediaState, nextCursor: Option<string>)
    | Failed
    | TimedOut

  /** Lines 128-129: a valid cursor's state, else only the folder queued. */
  function WalkStart(c: Json.Codec, cursor: Option<string>, folderId: string): (st: MediaState)
    ensures DecodeCursor(c, cursor).None? ==> st == Start(folderId)
    ensures DecodeCursor(c, cursor).Some? ==> st == DecodeCursor(c, cursor).value
  {
    match DecodeCursor(c, cursor)
    case None => Start(folderId)
    case Some(s) => s
  }

  /** The handler (lines 58-192), past the sign-in check. */
  function Handler(p: Params, c: Json.Codec, list: Lister, fuel: nat): (r: Response)
    ensures !Truthy(First(p.folderId)) <==> r == MissingFolder
    ensures r.Listed? ==> First(p.recursive) != Some("1")
    ensures r.Listed? ==> forall k :: 0 <= k < |r.items| ==> HasAllTags(r.items[k], ReadFilters(p).tags)
    ensures r.Walked? || r.Failed? || r.TimedOut? ==> First(p.recursive) == Some("1")
    ensures r.Walked? ==> |r.items| <= ReadFilters(p).pageSize
    ensures r.Walked? ==> forall k :: 0 <= k < |r.items| ==> ItemOk(r.items[k], ReadFilters(p))
    ensures r.Walked? ==> !Json.Truthy(r.state.current)
    ensures r.Walked? && |r.items| == ReadFilters(p).pageSize ==> r.state.current == Json.Null && r.state.pageToken.None?
    ensures r.Walked? ==> (r.nextCursor.None? <==> !HasMore(r.state))
    ensures r.Walked? && r.nextCursor.Some? && Json.Faithful(c) && Json.Plain(ToJson(r.state)) ==>
              DecodeCursor(c, r.nextCursor) == Some(Normalized(r.state))
  {
    var folderId := First(p.folderId);
    var flt := ReadFilters(p);
    if !Truthy(folderId) then MissingFolder
    else if First(p.recursive) != Some("1") then
      var page := list(FlatRequest(folderId.value, First(p.pageToken), flt));
      Listed(FlatItems(page.files, flt.tags), page.nextPageToken)
    else
      var st := WalkStart(c, First(p.cursor), folderId.value);
      match WalkFrom(st, [], flt, list, fuel)
      case Thrown => Failed
      case Stalled => TimedOut
      case Done(st', out, _) =>
        var next := if HasMore(st') then Some(EncodeCursor(c, st')) else None;
        Resumes(c, st');
        Walked(out, st', next)
  }

  lemma Resumes(c: Json.Codec, st: MediaState)
    ensures Json.Faithful(c) && Json.Plain(ToJson(st)) ==> DecodeCursor(c, Some(EncodeCursor(c, st))) == Some(Normalized(st))
  {
    if Json.Faithful(c) && Json.Plain(ToJson(st)) {
      CursorRoundTrip(c, st);
    }
  }
}
