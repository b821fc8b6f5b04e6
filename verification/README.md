# Drive media indexing, listing, search and navigation — a Dafny model

This project models the sequential logic at the heart of a photo gallery
backed by a shared Google Drive. The code calls Google Drive and Firestore,
but the model replaces both: the Drive is a listing function and Firestore
is a map of documents. The model covers five pieces:

- **The index crawl** (`api/admin/index-drive.ts`). A resumable
  breadth-first walk of the Drive folder tree.
  - It writes one Firestore document per folder and per file, stamped with
    a generation number (`syncId`).
  - It stops at a write budget and hands back a base64url cursor holding
    the queue, the current folder, its page token and the counters.
  - When nothing is left to visit, it records the generation and sweeps
    away the documents of older generations.
- **The live media listing** (`api/drive/media.ts`). It has a flat mode:
  one Drive page of one folder's files, filtered by type and tags. It also
  has a recursive mode: the same cursor-driven breadth-first walk, without
  writes, that stops when the output page is full.
- **The indexed search** (`api/drive/search.ts`). It reads the crawled
  file documents through a five-minute cache keyed by folder and mode. It
  then filters by type, text and tags, sorts by creation time, and
  paginates by offset.
- **Breadcrumbs** (`src/features/drive/buildCrumbs.ts` and its copy
  `src/features/drive/path.ts`). A walk up the parent links from the
  open folder, guarded by a visited set and shown top first.
- **The folder tree** (`buildTree` in
  `src/components/FolderTree/FolderTree.tsx`). It groups the folders by
  parent, sorts the siblings by name and builds the tree below the root
  recursively.

## Modules

Every file holds one module; `crumbs.dfy` holds three.

- `Wrappers`, `Text`: shared building blocks.
  - `Option` values.
  - The JavaScript string operations the handlers use: truthiness,
    `toLowerCase` on ASCII, `trim`, `includes`, `split`, `parseInt`,
    `String(n)`, `encodeURIComponent`, and the insertion-ordered
    de-duplication `Array.from(new Set(...))`.
- `Base64Url`: Node's unpadded `base64url` encoding (section 5 of RFC
  4648) and its lenient decoder, over bytes.
- `Json`: parsed JSON values, and the member read of `JSON.parse`.
  - The codec (`JSON.stringify` / `JSON.parse`) is a pair of functions
    passed in.
  - `Json.Faithful` states what the cursor round trips need of that
    codec, for plain values (`Json.Plain`: distinct keys, safe integers).
- `Coerce`: JavaScript's `ToNumber`, as the crawl's comparisons apply it
  to whatever a cursor or a stored document holds.
- `Request`: `first(...)` on query parameters, the clamped integer
  parameters, and the tag list parsing.
- `DriveQuery`: `escapeQ`, the Drive query strings the handlers build, and
  a reader for the query language's string literals.
- `MediaKind`: `mediaTypeFromMime` and `extractTags`, which are identical
  in `media.ts` and `search.ts`.
- `Provider`: a listed Drive entry, a page, and the listing request. The
  Drive itself is a function `ListRequest -> Page`.
- `Store`: Firestore as `map<DocRef, Doc>`, with merge-upserts, deletes and
  batches.
- `WriteBuffer`: the crawl's pending operations, and the chunked `flush`.
- `CrawlCursor`: the crawl's `CursorState` and its cursor codec.
- `CrawlLoop`: the crawl loop. `IndexDrive` is the handler around it.
- `Sweep`: `deleteOrphanedDocs`.
- `MediaCursor`, `MediaList`: the media listing's cursor and its handler.
- `Sorting`: a stable sort, a filter, and the facts about them.
- `Paging`: `Array.prototype.slice` and the offset cursor.
- `SearchItems`, `Search`: the mapping from search documents to items, and
  the search handler.
- `Crumbs` holds the reference walk `Crumbs.Trail`.
  - `DriveCrumbs.BuildCrumbs` models the loop of `buildCrumbs.ts`.
  - `PathCrumbs.BuildCrumbs` models the loop of `path.ts`.
  - Both methods are proved equal to `Crumbs.Trail`, so the two copies
    compute the same function.
- `FolderTree`: `buildTree`, with `make`'s recursion made explicit.

## Design decisions

- **Time and I/O are parameters.**
  - The clock (`Date.now()`) and the sign-in result are parameters.
  - The Drive is a listing function.
  - The time an invocation has is `fuel`: the number of listing calls it
    can make before the platform stops it. Running out gives a
    `TimedOut` outcome.
- **JavaScript behaviour is written out.**
  - Dynamic typing is explicit. The crawl cursor is used as whatever
    JSON value it parses to, and the loop's coercions are followed:
    - `null` starts a new generation and any other non-object throws;
    - an object whose `writes` does not compare below the budget (a
      missing `writes` is NaN) skips the loop and is itself the state;
    - a falsy `current` shifts the queue, which throws unless it is an
      array, and a falsy head ends the walk;
    - a truthy `current` that is not a string makes `escapeQ` throw,
      after the batches already flushed were committed;
    - the cases the model does not follow end as `OutsideModel` (see
      "Left out").
  - Comparisons use `ToNumber` (`Coerce`): `writes < maxWrites`,
    `queue.length > 0`, and the sweep's `!data.syncId || data.syncId <
    currentSyncId` on a stored value of any type.
  - JavaScript truthiness is explicit: an empty id, folder or token is
    falsy.
- **`localeCompare` is a parameter.** It is an integer rank of each name
  (`collate`), so it compares names in a total preorder.
- **Firestore's document order is a parameter.** The order in which a
  query returns documents is the `order` parameter. `Search.ListsFiles`
  requires it to name every file document of the store exactly once.
  `Search.Answer` and `Search.Handler` require this, as Firestore returns
  each matching document exactly once.
- **Date parsing is a parameter.** `new Date(x).getTime()` is the
  `Render.time` parameter.
- **A stack overflow is `None`.** `make` in `buildTree` recurses without
  end when the root lies on a cycle of parent keys, so the JavaScript call
  stack overflows and the call throws a `RangeError`. The model returns
  `None` for such a call. `FolderTree.BuildTreeEndsIff` proves that this
  happens exactly on such a cycle.

The model keeps several behaviours exactly as the code has them, each with
a lemma that exhibits it:

- **The budget counter is cumulative.** A cursor whose write counter has
  reached the budget never makes progress: the handler hands back the same
  cursor and writes nothing (`IndexDrive.SkipAtBudget`), and the loop body
  would not run from such a state either (`IndexDrive.ResumeAtBudget`).
- **A budget stop loses the rest of the page.** A stop in the middle of a
  page keeps the token of the *next* page, so the rest of the current page
  is never visited in that generation (`CrawlLoop.LostPageTail`).
- **A full page abandons its folder.** A recursive listing whose output
  page fills drops the rest of the folder it was reading
  (`MediaList.FillAbandonsFolder`).
- **The text filter limits descent.** The search text also filters the
  folder listings, so a subfolder whose name lacks the text is never
  entered (`MediaList.TextLimitsDescent`).
- **The sweep is one batch.** It deletes every orphan in a single
  unchunked batch, one delete per orphan and with no bound on the count
  (`Sweep.SweepBatchSize`); 451 orphans make a batch larger than the 450
  operations a crawl flush commits (`Sweep.OneBatchOfAnySize`).
- **Subtree search below the root finds nothing.** It filters on an
  `ancestors` field that the crawler never writes
  (`Search.SubtreeBelowRootFindsNothing`).
- **The crawl cursor is not validated.** The crawl's cursor decoder
  accepts any JSON value (`CrawlCursor.DecodeCursor`), and the run starts
  from whatever it is (`CrawlCursor.StartState`, `IndexDrive.Skip`). An
  object without `writes` and with nothing queued skips the loop, writes
  the meta record and sweeps with its own `syncId`
  (`IndexDrive.MissingWritesSweeps`). The media cursor decoder checks the
  shape (`MediaCursor.DecodeCursor`).
- **The search cache is sorted in place.** An unfiltered search sorts the
  cached array itself. This never changes a later response
  (`Search.SortedEntryInvisible`).
- **A root named "__null__" never finishes.** The stand-in root has no
  parent, so `buildTree` files it under its own id and recurses until the
  stack overflows (`FolderTree.NullKeyRootStops`).

## Model

| member | source | states |
|---|---|---|
| Text.Lower | api/drive/media.ts:21 | each character is lowered on its own: an ASCII capital becomes its lower-case letter, every other character is kept, and no ASCII capital is left |
| Text.Trim | api/drive/media.ts:63 | the trimmed text is the stretch of the input between its leading and trailing white space, everything outside it is white space, it starts and ends with a non-space, and text without outer spaces is returned unchanged |
| Text.ContainsIffOccurs | api/drive/search.ts:130-132 | `includes` holds exactly when the needle occurs at some position of the haystack |
| Text.Split | api/drive/media.ts:67 | splitting on one character gives at least one piece, no piece holds the separator, and joining the pieces gives back the text |
| Text.ParseInt | api/drive/search.ts:81 | `parseInt` gives a number exactly when, after leading spaces and one optional sign, a digit follows; the value it gives is stated by the next two rows |
| Text.ParseIntReads | api/drive/search.ts:81 | after leading white space, a run of digits ended by a non-digit or the end reads as the value of those digits |
| Text.ParseIntReadsSigned | api/drive/search.ts:81 | a `-` before the digits negates their value and a `+` keeps it |
| Text.OrElse | api/admin/index-drive.ts:82 | `x \|\| d` on a parsed number gives `d` for NaN and 0, and the number otherwise |
| Text.Clamp | api/admin/index-drive.ts:80-86 | the clamped value lies within the bounds: it is the input when that does, the lower bound below them and the upper bound above them |
| Text.IntToString | api/drive/search.ts:154 | `String(n)` writes canonical decimal digits whose value is `n` |
| Text.ParseIntOfString | api/drive/search.ts:154 | `parseInt` reads back every non-negative number `String` wrote |
| Text.ParseIntOfNegative | api/drive/search.ts:154 | `parseInt` reads back every negative number `String` wrote |
| Text.EncodeUriComponentShape | api/drive/media.ts:92 | `encodeURIComponent` yields only unreserved characters and `%XX` escapes, and leaves a string of unreserved characters as it is |
| Text.Dedupe | api/drive/media.ts:28 | the de-duplication holds no value twice and holds exactly the values of its input |
| Text.DedupeSnoc | api/drive/media.ts:28 | appending a value adds it last exactly when it is new, which fixes first-occurrence order |
| Text.DedupeFromDistinct | api/drive/media.ts:28-29 | de-duplicating a sequence without repeats changes nothing |
| Base64Url.Encode | api/admin/index-drive.ts:63 | the encoding uses only url-safe characters, never pads, and has the unpadded base64 length |
| Base64Url.SextetRoundTrip | api/admin/index-drive.ts:55 | the decoder's table reads every url-safe character back as the value it encodes |
| Base64Url.DecodeEncode | api/admin/index-drive.ts:55 | decoding the encoding of any bytes gives back those bytes |
| Base64Url.EncodeInjective | api/drive/media.ts:55 | distinct byte strings never share an encoding |
| Json.Get | api/admin/index-drive.ts:56 | a member read finds a member with that key, and is absent only when no member has the key |
| Json.GetLast | api/admin/index-drive.ts:56 | of several members with the same key, the parsed object keeps the last |
| Coerce.Scaled | api/admin/index-drive.ts:120 | the Number `m·10^k` is an integer exactly when it divides out, and otherwise lies strictly between the floor it carries and the next integer |
| Coerce.RadixNumber | api/admin/index-drive.ts:120 | the text after `0x`, `0o` or `0b` is a Number exactly when it is one or more digits of that base |
| Coerce.DigitsRead | api/admin/index-drive.ts:120 | a canonical string of decimal digits coerces to the integer it spells |
| Coerce.StringToNumberOfString | api/admin/index-drive.ts:281 | `Number(String(n))` is `n` for every non-negative integer |
| Coerce.FractionBelow | api/admin/index-drive.ts:281 | a decimal with a fraction part compares below an integer exactly when its exact value does |
| Request.ClampedInt | api/drive/media.ts:70 | the parameter is always within [1, hi]; absent, unparsable and zero values give the default, and any other value is clamped |
| Request.CleanTags | api/drive/media.ts:67 | the cleaned tags are non-empty, each comes from some piece, and every piece that cleans to a non-empty tag is kept |
| Request.ParseTags | api/drive/media.ts:66-67 | the tags are the non-empty, trimmed, lowercased comma-separated entries, and a blank parameter gives none |
| DriveQuery.ReplaceAll | api/drive/media.ts:10 | a global replacement leaves text without the replaced character unchanged |
| DriveQuery.ReplaceAllAppend | api/drive/media.ts:10 | a global replacement acts on each part of a concatenation separately |
| DriveQuery.EscapeQCons | api/drive/media.ts:9-11 | the two replacements of `escapeQ` escape the text one character at a time |
| DriveQuery.ReadEscapedChar | api/drive/media.ts:9-11 | the literal reader reads one escaped character back as that character |
| DriveQuery.ReadEscaped | api/drive/media.ts:9-11 | an escaped value inside quotes reads back exactly, and the literal ends at the closing quote, so no value can inject query syntax |
| DriveQuery.EscapeQInjective | api/admin/index-drive.ts:38-40 | distinct values never escape to the same text |
| DriveQuery.ParentsQueryRoundTrip | api/admin/index-drive.ts:128 | a listing query names exactly the folder it was built for, whatever the folder id holds |
| DriveQuery.NameFilterRoundTrip | api/drive/media.ts:138 | the name clause reads back as exactly the search text |
| MediaKind.MediaTypeFromMime | api/drive/media.ts:13-18 | the classification is gif exactly for `image/gif`, photo for any other `image/` type, video for `video/` types, and other for the rest |
| MediaKind.FolderMimeIsOther | api/admin/index-drive.ts:150 | the folder MIME type would classify as other, so the folder test has to come first |
| MediaKind.RunLength | api/drive/media.ts:23 | a run is the longest prefix of `[a-z0-9]` characters |
| MediaKind.Tokens | api/drive/media.ts:22-25 | every split token is a non-empty `[a-z0-9]` word |
| MediaKind.YearsFrom | api/drive/media.ts:27 | every year the scan reports is a match of `\b(19\|20)\d{2}\b` |
| MediaKind.RunIsToken | api/drive/media.ts:22-25 | every maximal `[a-z0-9]` run of the lowercased name is a split token |
| MediaKind.YearIsToken | api/drive/media.ts:27 | a year match, bounded by word boundaries, is a whole split token |
| MediaKind.YearsAreTokens | api/drive/media.ts:27-28 | every year the regular expression finds is already a split token |
| MediaKind.DedupeAbsorbs | api/drive/media.ts:28 | adding values that already occur does not change the de-duplication |
| MediaKind.ExtractTags | api/drive/media.ts:20-30 | the tags are at most 30 distinct `[a-z0-9]+` words: the first 30 distinct split tokens in order of first occurrence |
| MediaKind.AllTokensKept | api/drive/media.ts:29 | a name with at most 30 distinct tokens keeps every token as a tag |
| Store.ApplyOp | api/admin/index-drive.ts:156-167 | a merge-upsert sets every named field and keeps every other stored field, a delete removes the document, and other documents are untouched |
| Store.CommitAppend | api/admin/index-drive.ts:117 | committing two batches in turn is committing their concatenation |
| Store.Overlay | api/admin/index-drive.ts:167 | overlaying merged fields adds exactly the overlaid documents to the store |
| Store.CommitIsOverlay | api/admin/index-drive.ts:155-204 | a batch of merge-upserts is the same as overlaying the fields it merges per document |
| Store.OverlayTwice | api/admin/index-drive.ts:167 | overlaying the same merged fields twice is overlaying them once |
| Store.CommitIdempotent | api/admin/index-drive.ts:117 | committing the same batch of merge-upserts twice leaves the store as committing it once, so a retried batch is harmless |
| Store.CommitUntouched | api/admin/index-drive.ts:117 | a document that no operation addresses is left exactly as it was |
| Store.CommitStamps | api/admin/index-drive.ts:164 | after a batch stamped with one generation, every document it addresses exists and carries that generation |
| Store.TargetsCons | api/admin/index-drive.ts:282 | the documents a batch addresses are those of its first operation and of the rest |
| Store.CommitDeletes | api/admin/index-drive.ts:282-289 | committing a batch of deletes removes exactly the documents it addresses and leaves every other document as it was |
| WriteBuffer.FlattenSnoc | api/admin/index-drive.ts:115 | the operations of one more batch come after those of the earlier batches |
| WriteBuffer.Flush | api/admin/index-drive.ts:112-118 | a flush does nothing when dry or empty; otherwise it commits one batch of the first min(450, pending) operations; no operation is lost or reordered |
| WriteBuffer.Push | api/admin/index-drive.ts:207 | a push adds the operation last, keeps the buffer healthy, and a real run commits a batch once 400 operations are pending |
| WriteBuffer.FinalFlush | api/admin/index-drive.ts:225 | after the final flush a real run has nothing pending, a dry run has committed nothing, and no operation is lost |
| WriteBuffer.CommitAllFlatten | api/admin/index-drive.ts:112-118 | committing the chunks one by one is committing all their operations in order |
| CrawlCursor.ToJsonPosition | api/admin/index-drive.ts:43-45 | the cursor object holds the queue, the current folder and the page token |
| CrawlCursor.ToJsonCounters | api/admin/index-drive.ts:46-49 | the cursor object holds the generation and the three counters |
| CrawlCursor.DecodeCursor | api/admin/index-drive.ts:52-60 | an absent or empty cursor decodes to nothing; any other cursor decodes to whatever its text parses to, with no shape check |
| CrawlCursor.StartState | api/admin/index-drive.ts:93-128 | no cursor, an unparsable one and a `null` one start a fresh generation; an object whose `writes` does not compare below the budget is used as it is and skips the loop; any other non-object throws; a state the loop starts from has a string as its truthy current folder |
| CrawlCursor.Entered | api/admin/index-drive.ts:120-128 | a state the loop starts from an object has a string as its truthy current folder, and no page token when no folder is current |
| CrawlCursor.CountersRead | api/admin/index-drive.ts:46-49 | the counters of a plain state read back as written, the write counter through `ToNumber` |
| CrawlCursor.PlainCounters | api/admin/index-drive.ts:46-49 | the counters of a plain state are safe integers |
| CrawlCursor.EnteredToJson | api/admin/index-drive.ts:120-128 | the object written from a state whose truthy current folder is a string enters the loop as that state, with the page token dropped when no folder is current |
| CrawlCursor.CursorRoundTrip | api/admin/index-drive.ts:52-64 | every plain state whose truthy current folder is a string survives the round trip: decoding gives its object, and the next run resumes it while its counter is below the budget and otherwise skips the loop with that object |
| CrawlCursor.Advance | api/admin/index-drive.ts:121-124 | with no truthy current folder the queue's head, or `null` for an empty queue, becomes current and the page token is dropped; a truthy current folder is kept; the counters never change |
| CrawlLoop.EntryOp | api/admin/index-drive.ts:150-205 | an entry with an id yields one merge-upsert: a folder into `drive_folders`, anything else into `drive_files`, keyed by the id and stamped with the generation and the root |
| CrawlLoop.EntryOpsFacts | api/admin/index-drive.ts:144-205 | a run of entries yields one stamped write per entry with an id, none for an entry without one, and one queued id per folder |
| CrawlLoop.Visit | api/admin/index-drive.ts:150-205 | one entry queues a folder at the tail, counts it as a folder or a file, adds one write, and buffers its write |
| CrawlLoop.ProcessItems | api/admin/index-drive.ts:144-209 | the page loop stops early only right after a write that reached the budget, and never pushes the counter past the budget |
| CrawlLoop.ProcessItemsCounts | api/admin/index-drive.ts:152-153 | the folder, file and write counters grow by exactly the folders and files of the consumed prefix of the page |
| CrawlLoop.ProcessItemsQueue | api/admin/index-drive.ts:151 | the ids of the folders in the consumed prefix are appended to the queue in listing order |
| CrawlLoop.ProcessItemsOps | api/admin/index-drive.ts:155-204 | the buffer gains exactly the writes of the consumed prefix, after everything buffered before |
| CrawlLoop.PageStep | api/admin/index-drive.ts:211-222 | at the budget the next page's token is kept and the folder ends when there is none; below it the loop moves to the next page or, after the last, to the next folder |
| CrawlLoop.LostPageTail | api/admin/index-drive.ts:208-214 | a budget stop inside a page queues and writes only the consumed prefix, and the next listing asks for the following page, so the rest of the page is never seen |
| CrawlLoop.FifoTrans | api/admin/index-drive.ts:122 | the queue's first-in first-out order is kept across steps |
| CrawlLoop.FifoAdvancePage | api/admin/index-drive.ts:151 | taking the head and appending listed folders keeps the queue's first-in first-out order |
| CrawlLoop.Crawl | api/admin/index-drive.ts:120-223 | the loop ends at the budget or with no folder current; the budget is not overshot; counters stay balanced; the queue stays first-in first-out; every buffered write is stamped with the generation |
| CrawlLoop.CrawlStep | api/admin/index-drive.ts:120-222 | one pass of the loop body keeps the generation, never lowers the write counter or passes the budget, keeps the queue first-in first-out, and only appends writes stamped with the generation |
| CrawlLoop.FolderIdsNamed | api/admin/index-drive.ts:151 | every folder id the loop queues is a string |
| CrawlLoop.NamedStep | api/admin/index-drive.ts:121-222 | one page keeps every queued folder and the current one a string |
| CrawlLoop.NamedNeverThrows | api/admin/index-drive.ts:120-128 | a walk from a state whose queued and current folders are strings never throws, and ends in such a state |
| CrawlLoop.BudgetStall | api/admin/index-drive.ts:120 | a state whose write counter is at or over the budget lists nothing and writes nothing |
| Sweep.DeleteOrphans | api/admin/index-drive.ts:264-291 | the committed sweep removes only documents of the collection with a stale stamp, and leaves every other document as it was |
| Sweep.StaleNumbers | api/admin/index-drive.ts:281 | a number stamp is stale exactly when it is 0 or below the generation; a non-empty text stamp exactly when the Number it coerces to is below it |
| Sweep.DeletesWhere | api/admin/index-drive.ts:279-285 | the `forEach` batch holds only deletes, at most one per listed id, each of a listed id the test condemns, and one for every such id |
| Sweep.SweepBatch | api/admin/index-drive.ts:276-285 | the sweep's batch deletes only listed documents of the collection with a stale stamp, and every one of them |
| Sweep.BatchTargets | api/admin/index-drive.ts:269-285 | when the query lists exactly the documents under the root, the batch addresses exactly the orphans |
| Sweep.SweepRemovesOrphans | api/admin/index-drive.ts:264-291 | with such a query the sweep is exactly the removal of the orphans from the store |
| Sweep.BatchDistinct | api/admin/index-drive.ts:279-285 | with distinct listed ids the batch addresses as many documents as it holds deletes |
| Sweep.SweepBatchSize | api/admin/index-drive.ts:276-289 | the batch holds one delete per orphan, whatever their number |
| Sweep.OneBatchOfAnySize | api/admin/index-drive.ts:276-289 | any number of unstamped documents under the root make one batch of that many deletes, and 451 of them exceed the 450 operations of a crawl flush |
| Sweep.SparesCurrent | api/admin/index-drive.ts:281 | a document stamped with the current generation survives the sweep unchanged, unless the stamp is 0, which is falsy |
| Sweep.SweepKeepsGeneration | api/admin/index-drive.ts:243-244 | every document this generation wrote survives both sweeps when the generation stamp is not 0 |
| IndexDrive.MaxWrites | api/admin/index-drive.ts:80-86 | the budget is within [1, 4000]; it is 800 when absent, unparsable or 0, the given value when that is in range, 1 below the range and 4000 above it |
| IndexDrive.MetaOp | api/admin/index-drive.ts:230-239 | the completion record is a merge-upsert of the `drive_index/meta` document |
| IndexDrive.Conclude | api/admin/index-drive.ts:225-256 | a next cursor is given exactly when a folder is current or queued, and the next run resumes it as `Resume` says; the scanned counts are the state's; a dry run leaves the store as it was; a real run commits every buffered write, adding the meta record and both sweeps only when nothing is left |
| IndexDrive.ScannedOfState | api/admin/index-drive.ts:250-254 | the counts echoed from the object written for a state are the state's counts |
| IndexDrive.QueueNonEmpty | api/admin/index-drive.ts:227 | reading the queue's length throws exactly for a missing or `null` queue, and an array is non-empty exactly when it has elements |
| IndexDrive.MoreOfState | api/admin/index-drive.ts:227 | on the object written for a state, `!!current \|\| queue.length > 0` is whether a folder is current or queued |
| IndexDrive.Skip | api/admin/index-drive.ts:225-256 | when the loop never ran: an unreadable queue length fails with the store as it was; a cursor is returned exactly when a folder is current or queued, and it re-encodes the object as it is; a dry run writes nothing; a real run with nothing left writes the meta record and sweeps with the object's numeric `syncId`; the echoed counts are the object's members |
| IndexDrive.Started | api/admin/index-drive.ts:93-256 | a start state runs the loop, a thrown start fails before any write, and a dry run writes nothing |
| IndexDrive.ResumesFrom | api/admin/index-drive.ts:255 | the cursor in a response resumes from the state it was written from |
| IndexDrive.Proceed | api/admin/index-drive.ts:112-256 | a run of the loop completes, runs out of time or throws; a dry run leaves the store as it was; a completed run keeps the generation, reports its counts, gives a cursor exactly when something is left, and ends at the budget or with no folder current, without overshooting |
| IndexDrive.Handler | api/admin/index-drive.ts:66-262 | anyone but the admin is refused; a missing root is an error; a request without a cursor runs the loop; a dry run writes nothing; a completed run gives a cursor exactly when something is left and ends at the budget or with no folder current |
| IndexDrive.ResumeAtBudget | api/admin/index-drive.ts:120-256 | a run of the loop from a state whose counter is already at the budget ends in that state unchanged, with the same counts, so it never progresses |
| IndexDrive.SkipAtBudget | api/admin/index-drive.ts:225-256 | the object of a state with folders left, when it skips the loop, comes back as the very same cursor with the same counts and no write |
| IndexDrive.FreshRunNeverThrows | api/admin/index-drive.ts:93-128 | a request without a cursor never ends in an exception: it completes or runs out of time |
| IndexDrive.MissingWritesSweeps | api/admin/index-drive.ts:93-245 | a real run given a cursor object without `writes`, with nothing queued and a numeric `syncId`, skips the loop, writes the meta record for that `syncId`, sweeps both collections with it, and echoes only the counters present |
| IndexDrive.CompletedRunKeepsItsWrites | api/admin/index-drive.ts:225-245 | a real run that completes the generation keeps every document it wrote, unless the generation stamp is 0 |
| MediaCursor.StringOrNull | api/drive/media.ts:46-47 | a string is kept and anything else reads as null |
| MediaCursor.DecodeCursor | api/drive/media.ts:38-52 | the decoder gives a state exactly for a non-empty cursor whose text parses to a truthy value with an array `queue`; the queue is kept as it is, and `current` and `pageToken` only when they are strings |
| MediaCursor.Normalized | api/drive/media.ts:46 | a state reads back with its queue and token unchanged and a `current` that is not a string turned into null |
| MediaCursor.CursorRoundTrip | api/drive/media.ts:38-56 | every plain state survives the cursor round trip up to that normalisation |
| MediaList.ReadFilters | api/drive/media.ts:62-70 | the page size is the clamped parameter, within [1, 200] and 60 by default; type and sort are the given values, `all` and `new` by default; the text is the trimmed parameter, empty when absent; the tags are the parsed tag list |
| MediaList.ReadFiltersSpelled | api/drive/media.ts:62-70 | reading is a normalisation: parameters spelled from the filters read back as the same filters |
| MediaList.TrimSettled | api/drive/media.ts:63 | trimming a trimmed text changes nothing |
| MediaList.Selections | api/drive/media.ts:153-172 | the walk's reference output has at most one item per entry, each of the requested type and with every requested tag |
| MediaList.SelectionsMembers | api/drive/media.ts:154-170 | the output holds the item of every selected entry and nothing else |
| MediaList.SelectionsAppend | api/drive/media.ts:153 | the selections of two runs of entries are the selections of each, in order |
| MediaList.FolderValues | api/drive/media.ts:159-161 | only folder ids, as strings, are queued |
| MediaList.FolderValuesAppend | api/drive/media.ts:160 | the folders of two runs of entries are queued in order |
| MediaList.TypeClause | api/drive/media.ts:104-106 | the query is narrowed by type exactly for `photo`, `gif` and `video` |
| MediaList.FlatQueryNamesFolder | api/drive/media.ts:101-106 | the flat query lists exactly the requested folder, followed only by the fixed filters |
| MediaList.FlatItems | api/drive/media.ts:121-123 | flat mode keeps at most one item per listed entry, each with every requested tag |
| MediaList.FlatItemsMembers | api/drive/media.ts:121-123 | flat mode outputs the item of every listed entry with an id and the requested tags, and nothing else |
| MediaList.FlatAgreesWithWalk | api/drive/media.ts:98-126 | when the listing honours the not-a-folder clause, flat mode with type `all` returns what the walk would select from the same entries |
| MediaList.FlatRequest | api/drive/media.ts:99-119 | the flat listing call names the requested folder and passes the page token only when it is non-empty |
| MediaList.FolderQueryFilters | api/drive/media.ts:137-138 | with a search text, every folder listing of the walk carries the name clause for exactly that text |
| MediaList.Pop | api/drive/media.ts:134 | with no truthy current folder, the queue's head becomes current; the page token is left as it is |
| MediaList.Enqueue | api/drive/media.ts:159-161 | an entry appends to the queue exactly the folder it is, if any |
| MediaList.Emit | api/drive/media.ts:164-170 | an entry appends to the output exactly its item, when it is selected |
| MediaList.ScanPage | api/drive/media.ts:153-172 | the scan never overfills the output and stops before the end of the page only when the output is full |
| MediaList.ScanPageOut | api/drive/media.ts:164-170 | the scan outputs exactly the selected entries of what it read |
| MediaList.ScanPageQueue | api/drive/media.ts:159-161 | the scan queues exactly the folders among what it read |
| MediaList.ScanPageFill | api/drive/media.ts:171 | when the scan fills the output, the entry it read last filled it |
| MediaList.Settle | api/drive/media.ts:174-179 | the folder keeps its next page only when there is one and the output is not full; otherwise it is finished |
| MediaList.PageListed | api/drive/media.ts:140-153 | every entry scanned came back from a folder listing of the walk |
| MediaList.ListStep | api/drive/media.ts:137-179 | one listing step never overfills the output, reads only what the listing returned, and on filling drops the folder |
| MediaList.ListStepContents | api/drive/media.ts:153-172 | one step outputs the selected entries it read and queues the folders it read |
| MediaList.WalkFrom | api/drive/media.ts:131-180 | the output grows by exactly the selected entries read, never past the page size; everything queued was queued before or read on the way; a full page drops the folder being listed |
| MediaList.HonoursFolderListings | api/drive/media.ts:137-138 | a provider that honours the name clause returns only passing names for every folder listing of the walk |
| MediaList.ListedPasses | api/drive/media.ts:138 | every entry that came back from such listings passes the name clause |
| MediaList.TextLimitsDescent | api/drive/media.ts:137-138 | with a search text, every entry the walk reads, subfolders included, passes the text, so a failing subfolder is never entered |
| MediaList.FillAbandonsFolder | api/drive/media.ts:171-179 | when a page fills the output, the folder is dropped with its token, and folders after the filling entry are never queued |
| MediaList.WalkStart | api/drive/media.ts:128-129 | the walk starts from the decoded cursor, or with only the requested folder queued |
| MediaList.Handler | api/drive/media.ts:58-192 | a missing folder is a 400; flat output has every requested tag; walked output has at most a page of selected items; the cursor is absent exactly when nothing is left and resumes the returned state |
| MediaList.Resumes | api/drive/media.ts:185 | the cursor in a response resumes from the normalised state |
| Sorting.Insert | api/drive/search.ts:143-147 | inserting one element lengthens the sequence by one |
| Sorting.Sort | api/drive/search.ts:143-147 | the sort keeps the length |
| Sorting.Filter | api/drive/search.ts:126-140 | the filter keeps only elements the predicate accepts |
| Sorting.FilterMembers | api/drive/search.ts:126-140 | an element is in the filtered list exactly when it is in the list and the predicate accepts it |
| Sorting.FilterAppend | api/drive/search.ts:126 | filtering a concatenation filters each part |
| Sorting.FilterKeepsAll | api/drive/search.ts:124-125 | a filter that accepts every element changes nothing |
| Sorting.RunOfFilter | api/drive/search.ts:126-147 | the elements of one key commute with filtering |
| Sorting.SortSorted | api/drive/search.ts:143-147 | the sort orders timestamps non-increasing for newest first and non-decreasing otherwise |
| Sorting.SortPermutes | api/drive/search.ts:143-147 | the sort neither loses nor duplicates an element |
| Sorting.SortStable | api/drive/search.ts:143-147 | the elements with equal keys keep their original order |
| Sorting.SortUnique | api/drive/search.ts:143-147 | two sorted sequences with the same elements per key are equal |
| Sorting.SortCharacterised | api/drive/search.ts:143-147 | any sorted sequence with the same elements per key as the input is the sort of the input |
| Sorting.Resort | api/drive/search.ts:143-147 | sorting an already sorted sequence, in either direction, gives what sorting the original gives |
| Sorting.FilterResort | api/drive/search.ts:124-147 | filtering an earlier sort and sorting again gives what filtering and sorting the original gives |
| Paging.Offset | api/drive/search.ts:81 | the offset is 0 for an absent or unparsable cursor and the parsed value otherwise, negative values included |
| Paging.OffsetOfIntString | api/drive/search.ts:154 | every integer of fewer than 22 digits written as a cursor reads back as itself |
| Paging.SliceIndex | api/drive/search.ts:152 | a slice position is clamped to the list, and a negative one counts from the end |
| Paging.Slice | api/drive/search.ts:152 | a slice is a contiguous part of the list, and exactly `xs[start..end]` for in-range positions |
| Paging.Paginate | api/drive/search.ts:149-154 | the page holds at most a page of consecutive items from the start; the next cursor is present exactly while the page stops short of the total, and names the position after the page |
| Paging.PageAnyStart | api/drive/search.ts:150-152 | for any start, the page is the list between the start and the end that `slice` clamps, counting a negative position from the end, and is empty when the end does not come after the start |
| Paging.PageLast | api/drive/search.ts:149-154 | a page from a position within the list that carries no next cursor holds the whole rest of the list |
| Paging.PageNext | api/drive/search.ts:149-154 | a page with a next cursor is followed, at the position the cursor reads back as, by exactly the rest of the list |
| Paging.CursorReadsBack | api/drive/search.ts:154 | the next cursor reads back as the position after the page |
| Paging.FollowStep | api/drive/search.ts:149-154 | following a cursor reads a full page and then the pages after it, or the rest of the list once a page reaches the end |
| Paging.FollowCovers | api/drive/search.ts:149-154 | following the cursors from a start position reads every item from there exactly once, in order |
| SearchItems.Coalesce | api/drive/search.ts:107-116 | `d.k ?? default` takes the stored value exactly when it is present and not null |
| SearchItems.ToItem | api/drive/search.ts:104-119 | a document maps exactly when its name and MIME type are strings or missing; the title and tags come from the name, a stored type wins, and a falsy creation time sorts as 0 |
| SearchItems.ToItems | api/drive/search.ts:104 | the list maps every document in order, or fails when any one fails |
| SearchItems.FileDocFields | api/admin/index-drive.ts:186-201 | a crawled file document holds the name, type, id and thumbnail route the search reads |
| SearchItems.CrawledFileReadsBack | api/drive/search.ts:104-119 | every crawled file document maps, and its item shows the listed file's id, title, tags, type and thumbnail |
| Search.ReadQuery | api/drive/search.ts:59-81 | the folder is the parameter, or the root only when absent; subtree mode is on unless `sub` is `0`; the text is trimmed and lowercased; type defaults to `all`; an absent sort or `new` sorts newest first, any other value oldest first; the page size is the clamped parameter within [1, 200]; the tags are the parsed list; the offset is the parsed cursor, 0 without one |
| Search.ReadQuerySpelled | api/drive/search.ts:59-81 | parameters spelled from a read request, with the same tags, read back as the same request |
| Search.LowerTrimSettled | api/drive/search.ts:61 | a trimmed and lowercased text is unchanged by another trim and by another lowercasing |
| Search.CacheKeyInjective | api/drive/search.ts:83 | no two requests for different folders or modes share a cache entry |
| Search.Snapshot | api/drive/search.ts:92-102 | the query returns only file documents of the store that match it |
| Search.SnapshotComplete | api/drive/search.ts:102 | every matching document that the order names is returned |
| Search.SnapshotFromOrder | api/drive/search.ts:102 | every returned document is one the order names |
| Search.SnapshotOnce | api/drive/search.ts:102 | an order naming no document twice returns no document twice |
| Search.SnapshotExact | api/drive/search.ts:102 | over an order of the store's file documents, every matching document is returned, and each exactly once |
| Search.FlatModeReadsFolder | api/drive/search.ts:96-97 | flat mode reads only the folder's own files under the root |
| Search.NoMatchNoSnapshot | api/drive/search.ts:102 | when no document matches, the query returns nothing |
| Search.Processed | api/drive/search.ts:124-141 | skipping the filter when none is asked for loses nothing: the list is always the filtered list |
| Search.FilterKeepsExactly | api/drive/search.ts:126-140 | an item is kept exactly when its type matches, the text occurs in its title or a tag, and it has every requested tag |
| Search.UnfilteredShowsAll | api/drive/search.ts:124-125 | without a filter the total is the size of the whole list, and the sorted list holds every item |
| Search.PageOfSorted | api/drive/search.ts:143-152 | a page of a sorted list is sorted |
| Search.Respond | api/drive/search.ts:124-154 | the total counts the kept items; for a start within the list, the page is the sorted kept list from the start, at most a page long, and sorted (any start: Search.RespondAnyStart); the next cursor is present exactly while the page stops short of the total, and names the position after the page |
| Search.RespondAnyStart | api/drive/search.ts:149-152 | for any start, negative or past the end, the page is the sorted kept list between the two positions as `slice` clamps them, empty when the end does not come after the start |
| Search.NextCursorAsks | api/drive/search.ts:81-154 | handing back the next cursor asks for the same request a page further on |
| Search.PageAt | api/drive/search.ts:149-154 | at any start within the kept list, the page is the sorted list from there, a page long or to the end, with a cursor exactly when items remain |
| Search.Pages | api/drive/search.ts:149-154 | following the cursors from a start reads the sorted kept list from that start to the end |
| Search.ListsEveryKeptItemOnce | api/drive/search.ts:124-154 | following the cursors from the first page lists every kept item exactly once, in sorted order |
| Search.RespondEmpty | api/drive/search.ts:149-154 | an empty list gives no items and a total of 0, but still a next cursor for a start more than a page below 0 |
| Search.RespondIgnoresSort | api/drive/search.ts:143-147 | a list sorted by time in either direction gives the same response as the unsorted list |
| Search.Serve | api/drive/search.ts:124-147 | the response comes from the cached list; only an unfiltered request sorts the cached list in place, and no other entry changes |
| Search.Answer | api/drive/search.ts:83-154 | the request is answered or fails, and a failure leaves the cache as it was and happens only without a fresh entry |
| Search.Handler | api/drive/search.ts:51-166 | only a missing root is refused before any work, and a request that is not answered leaves the cache as it was |
| Search.AnswerPage | api/drive/search.ts:83-154 | an answer shows at most a page of items the filter keeps, in the requested order |
| Search.AnswerCache | api/drive/search.ts:85-122 | after an answer the cache differs only in the request's entry, which is stamped now unless it was fresh |
| Search.FreshEntryServes | api/drive/search.ts:89-90 | a fresh entry answers from the cached list without reading the store |
| Search.StaleEntryRereads | api/drive/search.ts:91-122 | without a fresh entry the store is read, the request fails exactly when a document cannot be mapped, and the list read is cached with the current time |
| Search.SortedEntryInvisible | api/drive/search.ts:143-147 | sorting a cache entry in place never changes a later response |
| Search.CrawlerWritesNoAncestors | api/admin/index-drive.ts:155-204 | the crawler never writes an `ancestors` field |
| Search.CommitKeepsNoAncestors | api/admin/index-drive.ts:117 | committing such writes keeps a store free of `ancestors` fields |
| Search.SubtreeBelowRootFindsNothing | api/drive/search.ts:98-99 | over such a store, a subtree search below any folder but the root that reads the store finds nothing |
| Crumbs.FolderMap | src/features/drive/buildCrumbs.ts:4 | the map stores every listed folder under its own id, and holds exactly the listed ids |
| Crumbs.FolderMapLastWins | src/features/drive/buildCrumbs.ts:4 | of several folders with one id, the map keeps the last listed |
| Crumbs.Reverse | src/features/drive/buildCrumbs.ts:25 | reversing keeps the length and mirrors the positions |
| Crumbs.Walk | src/features/drive/buildCrumbs.ts:10-23 | the walk is empty exactly when the start is falsy, visited, or neither the root nor listed, and otherwise starts there |
| Crumbs.WalkStep | src/features/drive/buildCrumbs.ts:18-22 | a listed folder other than the root is shown by name, and the walk goes on from its parent |
| Crumbs.WalkFresh | src/features/drive/buildCrumbs.ts:8-11 | the walk shows each folder at most once and none visited before |
| Crumbs.WalkRootLast | src/features/drive/buildCrumbs.ts:13-16 | only the walk's last crumb can be the root's, and it reads "All media" |
| Crumbs.WalkNames | src/features/drive/buildCrumbs.ts:21 | every crumb other than the root's shows a listed folder by its name |
| Crumbs.WalkParents | src/features/drive/buildCrumbs.ts:21-22 | each crumb but the last is a listed folder whose parent is the next crumb |
| Crumbs.WalkEnds | src/features/drive/buildCrumbs.ts:10-22 | the walk stops only at the root, or at a listed folder whose parent is falsy, already visited, or neither the root nor listed |
| Crumbs.Trail | src/features/drive/buildCrumbs.ts:3-26 | the trail is empty exactly when the folder is empty or neither the root nor listed, and otherwise ends at that folder |
| Crumbs.TrailDistinct | src/features/drive/buildCrumbs.ts:7-11 | no folder appears twice in a trail, even with cyclic parents |
| Crumbs.TrailRootFirst | src/features/drive/buildCrumbs.ts:13-16 | the root can only be the first crumb, and it reads "All media" |
| Crumbs.TrailNames | src/features/drive/buildCrumbs.ts:21 | every other crumb shows a listed folder by its name |
| Crumbs.TrailParents | src/features/drive/buildCrumbs.ts:21-25 | each crumb after the first is a listed folder whose parent is the crumb before it |
| Crumbs.TrailStart | src/features/drive/buildCrumbs.ts:10-25 | the first crumb is the root, or a listed folder whose parent is falsy, already on the trail, or neither the root nor listed |
| Crumbs.TrailOfRoot | src/features/drive/buildCrumbs.ts:13-16 | opening the root shows the single crumb "All media" |
| Crumbs.TrailUnderRoot | src/features/drive/buildCrumbs.ts:18-25 | a listed folder directly under the root shows the root and then the folder |
| DriveCrumbs.BuildCrumbs | src/features/drive/buildCrumbs.ts:3-26 | the loop with its `seen` set computes the trail |
| PathCrumbs.BuildCrumbs | src/features/drive/path.ts:3-26 | the loop with its `guard` set computes the same trail, so the two copies agree on every input |
| FolderTree.IdsOf | src/components/FolderTree/FolderTree.tsx:23 | the ids are those of the folders, position by position |
| FolderTree.MapSet | src/components/FolderTree/FolderTree.tsx:25 | after `set`, the map holds the new folder and otherwise only earlier entries |
| FolderTree.MapSetIds | src/components/FolderTree/FolderTree.tsx:25 | `set` keeps the order of the ids and adds a new id last |
| FolderTree.MapSetKeeps | src/components/FolderTree/FolderTree.tsx:25 | `set` replaces the folder with that id and keeps every other |
| FolderTree.EntriesOrder | src/components/FolderTree/FolderTree.tsx:23 | the map iterates each listed id once, in order of first listing |
| FolderTree.EntriesLastWins | src/components/FolderTree/FolderTree.tsx:23 | each entry is the last listed folder with its id |
| FolderTree.EntriesCover | src/components/FolderTree/FolderTree.tsx:23 | the entries hold every listed id |
| FolderTree.ById | src/components/FolderTree/FolderTree.tsx:23-26 | the map stores every folder under its own id, holds the root, and agrees with the listing on every listed id |
| FolderTree.ValuesAreById | src/components/FolderTree/FolderTree.tsx:29 | the iterated values are exactly the map's folders |
| FolderTree.Group | src/components/FolderTree/FolderTree.tsx:28-34 | every group in the children map is non-empty |
| FolderTree.GroupFilters | src/components/FolderTree/FolderTree.tsx:28-34 | the group of a key is the folders with that parent key, in iteration order |
| FolderTree.SortGroups | src/components/FolderTree/FolderTree.tsx:36-39 | sorting the groups keeps the keys |
| FolderTree.ChildrenFiled | src/components/FolderTree/FolderTree.tsx:28-39 | the children filed under a key are the folders with that parent key, sorted by name, ties in iteration order |
| FolderTree.SortMembers | src/components/FolderTree/FolderTree.tsx:37 | sorting a group keeps exactly its folders |
| FolderTree.Make | src/components/FolderTree/FolderTree.tsx:41-45 | a call on an id already open has no end; a call that ends builds the node of that id, with every node's children the folders filed under it |
| FolderTree.MakeAll | src/components/FolderTree/FolderTree.tsx:44 | the children's calls, when they all end, build one node per child, in order |
| FolderTree.KidFiled | src/components/FolderTree/FolderTree.tsx:30-32 | a folder filed under a key is a value of the map whose parent key it is |
| FolderTree.GroupIsFiled | src/components/FolderTree/FolderTree.tsx:28-39 | every group holds only values of the map filed under their own parent key |
| FolderTree.ValueFiled | src/components/FolderTree/FolderTree.tsx:29-33 | every value of the map is filed under its parent key |
| FolderTree.ChildrenFiledById | src/components/FolderTree/FolderTree.tsx:28-39 | the children map files only values of the map, each under its own parent key |
| FolderTree.ChildrenComplete | src/components/FolderTree/FolderTree.tsx:28-39 | the children map files every value of the map |
| FolderTree.BuildTree | src/components/FolderTree/FolderTree.tsx:22-48 | the root node is the last listed root or the stand-in "Root", and every node's children are the folders filed under it |
| FolderTree.NodeChildren | src/components/FolderTree/FolderTree.tsx:41-45 | the children of every node are the folders whose parent is that node, sorted by name, ties in order of first listing |
| FolderTree.NodeChildrenSorted | src/components/FolderTree/FolderTree.tsx:36-39 | siblings appear in collation order of their names |
| FolderTree.Up | src/components/FolderTree/FolderTree.tsx:30 | a parent step exists exactly from a listed id |
| FolderTree.MakeAllStops | src/components/FolderTree/FolderTree.tsx:44 | a child call without end makes its parent's call endless |
| FolderTree.MakeAllStopped | src/components/FolderTree/FolderTree.tsx:44 | an endless children call has a child call without end |
| FolderTree.MakeStopped | src/components/FolderTree/FolderTree.tsx:41-45 | an endless call has a filed child, whose parent it is, whose call is endless |
| FolderTree.StoppedOnCycle | src/components/FolderTree/FolderTree.tsx:41-47 | an endless call reached from the root means the root lies on a cycle of parent keys |
| FolderTree.DescendStops | src/components/FolderTree/FolderTree.tsx:41-45 | going down a cycle through the root, every call is endless |
| FolderTree.ChildStops | src/components/FolderTree/FolderTree.tsx:44 | a listed child whose call is endless makes its parent's call endless |
| FolderTree.CycleStops | src/components/FolderTree/FolderTree.tsx:41-47 | a root on a cycle of parent keys makes the recursion endless |
| FolderTree.BuildTreeEndsIff | src/components/FolderTree/FolderTree.tsx:22-48 | `buildTree` returns exactly when following parent keys from the root never comes back to the root |
| FolderTree.EmptyListingTree | src/components/FolderTree/FolderTree.tsx:24-26 | with nothing listed, the tree is the stand-in root alone |
| FolderTree.SelfParentRootStops | src/components/FolderTree/FolderTree.tsx:41-45 | a root listed as its own parent makes the recursion endless |
| FolderTree.NullKeyRootStops | src/components/FolderTree/FolderTree.tsx:25-30 | a root id of "__null__" with nothing listed makes the recursion endless |

## Left out

- The Firestore and Drive clients, sign-in (`requireDrive`), the admin's
  e-mail lookup and `getDb`: the e-mail, the listing function and the store
  are parameters.
- Console logging.
- The platform's time limit is modelled only as the `fuel` count of
  listing calls.
- `serverTimestamp()`: the model stores a clock reading instead.
- Overlapping crawl invocations: the code has no locking, and the model is
  sequential.
- The text of `JSON.stringify` and the parser of `JSON.parse`: they are an
  abstract codec, with `Json.Faithful` as its only assumption.
- Non-ASCII case mapping: `toLowerCase` lowercases ASCII letters only.
- The details of JavaScript's regular expression engine beyond the two
  patterns of `extractTags`: these are explicit scans.
- `localeCompare`'s collation: it is the integer rank `collate`.
- `new Date(...).getTime()`, including NaN for unparsable dates: it is the
  `Render.time` parameter.
- The rest of `FolderTree.tsx` after line 48: the React rendering.
- The other handlers and pages of the repository are not part of this
  model.
- `Base64Url.Decode` follows Node's lenient decoder as documented: it skips
  foreign characters, stops at `=`, and drops a final lone character.
  Corner cases of particular Node versions are not modelled.
- A rejected Drive listing or Firestore commit: the code answers 500 with
  the error's message, the batches committed before persist, and the
  pending operations are lost (api/admin/index-drive.ts:257-261,
  api/drive/media.ts:187-190, api/drive/search.ts:161-165). The model's
  listing function and store never fail.
- Firestore's limit of 500 writes per batch: the sweep's single batch is
  modelled without it, so an oversized batch commits here
  (`Sweep.OneBatchOfAnySize`) where Firestore would reject it.
- The width of a JavaScript Number: integers are unbounded, `String(n)` is
  always plain digits (JavaScript switches to an exponent from 10^21), and
  decimal texts are read exactly rather than rounded to a double. Cursors
  carry safe integers (below 2^53, `Json.Plain`).
- IndexDrive.Skip: a stored `syncId` that is not a number, met when a real
  run skips the loop and has nothing left, ends as `OutsideModel` instead
  of being passed on to the meta record and the sweep.
- CrawlCursor.Entered: a cursor object that enters the loop with counters
  that are not safe integers, a queue that is not an array but is read only
  later, or a page token that is neither a string nor null beside a truthy
  folder ends as `OutsideModel`.
- CrawlCursor.CursorRoundTrip: it holds for plain states only; re-encoding
  a parsed object ignores JavaScript's ordering of integer-like keys and
  its dropping of duplicate keys.
- CrawlCursor.Entered: a `writes` member that is not a number but coerces
  to an integer is carried as that number, so a run that writes nothing
  echoes a number where the code echoes the original value.
- Folders whose parent chain never reaches the root are absent from the
  tree: this follows from `FolderTree.NodeChildren`, but is not stated as a
  lemma of its own.
- FolderTree.BuildTree: does not state as its own lemma that each folder
  reachable from the root appears exactly once. It states the children of
  every node exactly, which implies it when the recursion ends.
- CrawlLoop.Crawl and MediaList.WalkFrom: a run that uses up its `fuel`
  ends as `TimedOut` / `Stalled`, where the source would be stopped by the
  platform's time limit.
- Sorting.Sort: `Array.prototype.sort` is stable by the language standard,
  and the model is the stable insertion sort; `processed.sort` returning
  the same array object (aliasing) is modelled only for the cache entry
  (`Search.Serve`).
