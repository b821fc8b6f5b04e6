/** The crawler's resumable state (`CursorState` in
    api/admin/index-drive.ts) and its cursor codec: base64url of the JSON
    text. Decoding checks nothing about the shape of what it parses, so the
    start of a run is decided by how the loop's JavaScript reads the parsed
    value. */
module CrawlCursor {
  import opened Wrappers
  import opened Text
  import Json
  import Base64Url
  import Coerce

  /** The folders still to list (FIFO), the folder being listed and the page
      token within it, the generation stamp, and the running counters. The
      queue and `current` hold whatever a cursor put there: the loop only
      finds out when it takes a folder up whether it is a string. */
  datatype CrawlState = CrawlState(
    queue: seq<Json.Value>,
    current: Json.Value,
    pageToken: Option<string>,
    syncId: int,
    folders: int,
    files: int,
    writes: int)

  /** The state of a new generation: only the root is queued, `syncId` is the
      clock reading, every counter is zero. */
  function Fresh(rootId: string, clock: int): CrawlState {
    CrawlState([Json.Str(rootId)], Json.Null, None, clock, 0, 0, 0)
  }

  /** `!!state.current || state.queue.length > 0`. */
  predicate HasMore(st: CrawlState) {
    Json.Truthy(st.current) || |st.queue| > 0
  }

  /** A folder being listed is named by a string. */
  predicate Placed(st: CrawlState) {
    Json.Truthy(st.current) ==> st.current.Str?
  }

  // ------------------------------------------------------------ JSON shape

  function OptStr(o: Option<string>): Json.Value {
    match o
    case None => Json.Null
    case Some(s) => Json.Str(s)
  }

  /** The object `JSON.stringify(state)` writes, member by member. */
  function ToJson(st: CrawlState): Json.Value {
    Json.Obj([
      ("queue", Json.Arr(st.queue)),
      ("current", st.current),
      ("pageToken", OptStr(st.pageToken)),
      ("syncId", Json.Num(st.syncId)),
      ("folders", Json.Num(st.folders)),
      ("files", Json.Num(st.files)),
      ("writes", Json.Num(st.writes))])
  }

  lemma ToJsonPosition(st: CrawlState)
    ensures var f := ToJson(st).fields;
            && Json.Get(f, "queue") == Some(Json.Arr(st.queue))
            && Json.Get(f, "current") == Some(st.current)
            && Json.Get(f, "pageToken") == Some(OptStr(st.pageToken))
  {
    var f := ToJson(st).fields;
    Json.GetLast(f, 0, "queue");
    Json.GetLast(f, 1, "current");
    Json.GetLast(f, 2, "pageToken");
  }

  lemma ToJsonCounters(st: CrawlState)
    ensures var f := ToJson(st).fields;
            && Json.Get(f, "syncId") == Some(Json.Num(st.syncId))
            && Json.Get(f, "folders") == Some(Json.Num(st.folders))
            && Json.Get(f, "files") == Some(Json.Num(st.files))
            && Json.Get(f, "writes") == Some(Json.Num(st.writes))
  {
    var f := ToJson(st).fields;
    Json.GetLast(f, 3, "syncId");
    Json.GetLast(f, 4, "folders");
    Json.GetLast(f, 5, "files");
    Json.GetLast(f, 6, "writes");
  }

  // ------------------------------------------------------- how a run starts

  /** How the handler's code treats the state it starts from: the loop runs
      from a crawl state; the loop is skipped and the parsed object is used
      as it is; a `TypeError` is thrown before anything is written; or the
      value is one whose handling this model does not follow (counters that
      are not integers, a queue that is not an array but is read only
      later, a page token that is neither a string nor null). */
  datatype Start =
    | Begin(st: CrawlState)
    | Idle(fields: seq<(string, Json.Value)>)
    | Throws
    | Unmodelled

  /** Line 120 on a parsed object: `state.writes < maxWrites`, with the
      member coerced to a Number (a missing one is NaN, which compares
      false). */
  predicate Enters(f: seq<(string, Json.Value)>, maxWrites: int) {
    Coerce.Below(Coerce.MemberToNumber(Json.Get(f, "writes")), maxWrites)
  }

  /** A counter the model carries: a safe integer number. */
  function Counter(v: Option<Json.Value>): Option<int> {
    match v
    case Some(Num(n)) => if -Json.MaxSafe <= n <= Json.MaxSafe then Some(n) else None
    case _ => None
  }

  /** The write counter once coerced, when it is a safe integer. */
  function WriteCount(v: Option<Json.Value>): Option<int> {
    match Coerce.MemberToNumber(v)
    case Whole(n) => if -Json.MaxSafe <= n <= Json.MaxSafe then Some(n) else None
    case _ => None
  }

  /** Lines 121-128 on a parsed object whose write counter compares below the
      budget. A truthy `current` that is not a string makes `escapeQ` throw;
      a falsy one makes the loop call `queue.shift()`, which throws unless
      the queue is an array; a falsy `current` also drops the page token. */
  function Entered(f: seq<(string, Json.Value)>): (r: Start)
    ensures r.Begin? ==> Placed(r.st) && (!Json.Truthy(r.st.current) ==> r.st.pageToken.None?)
  {
    EnteredFrom(Json.Get(f, "current").GetOr(Json.Null), Json.Get(f, "queue"), Json.Get(f, "pageToken").GetOr(Json.Null),
                Counter(Json.Get(f, "syncId")), Counter(Json.Get(f, "folders")), Counter(Json.Get(f, "files")),
                WriteCount(Json.Get(f, "writes")))
  }

  /** `Entered` on the members once read. */
  function EnteredFrom(cur: Json.Value, q: Option<Json.Value>, tok: Json.Value,
                       sid: Option<int>, nf: Option<int>, nx: Option<int>, nw: Option<int>): (r: Start)
    ensures r.Begin? ==> Placed(r.st) && (!Json.Truthy(r.st.current) ==> r.st.pageToken.None?)
  {
    var queued := q.Some? && q.value.Arr?;
    if Json.Truthy(cur) && !cur.Str? then Throws
    else if !Json.Truthy(cur) && !queued then Throws
    else if !queued || (Json.Truthy(cur) && !tok.Null? && !tok.Str?) then Unmodelled
    else if sid.None? || nf.None? || nx.None? || nw.None? then Unmodelled
    else
      var token := if Json.Truthy(cur) && tok.Str? then Some(tok.s) else None;
      Begin(CrawlState(q.value.elems, cur, token, sid.value, nf.value, nx.value, nw.value))
  }

  // ------------------------------------------------------------------ codec

  /** `encodeCursor`: base64url (unpadded) of the UTF-8 JSON text. */
  function EncodeCursor(c: Json.Codec, st: CrawlState): string {
    Base64Url.Encode(c.stringify(ToJson(st)))
  }

  /** `decodeCursor`: an absent or empty cursor gives nothing; otherwise the
      base64url text is decoded leniently and parsed, and a parse failure
      gives nothing. The parsed value is returned whatever its shape. */
  function DecodeCursor(c: Json.Codec, cursor: Option<string>): (r: Option<Json.Value>)
    ensures !Truthy(cursor) ==> r.None?
    ensures Truthy(cursor) ==> r == c.parse(Base64Url.Decode(cursor.value))
  {
    if !Truthy(cursor) then None else c.parse(Base64Url.Decode(cursor.value))
  }

  /** `cursor ?? { fresh state }`: no cursor, an undecodable one, and one whose
      JSON is `null` start a new generation. An object runs the loop when its
      write counter compares below the budget and is otherwise handed to the
      code after the loop as it is; any other value has no `queue`, so the
      code after the loop throws reading its length. */
  function StartState(c: Json.Codec, cursor: Option<string>, rootId: string, clock: int, maxWrites: int): (r: Start)
    ensures !Truthy(cursor) ==> r == Begin(Fresh(rootId, clock))
    ensures Truthy(cursor) && c.parse(Base64Url.Decode(cursor.value)).None? ==> r == Begin(Fresh(rootId, clock))
    ensures Truthy(cursor) && c.parse(Base64Url.Decode(cursor.value)) == Some(Json.Null) ==> r == Begin(Fresh(rootId, clock))
    ensures r.Idle? ==> Truthy(cursor) && c.parse(Base64Url.Decode(cursor.value)) == Some(Json.Obj(r.fields))
                        && !Enters(r.fields, maxWrites)
    ensures Truthy(cursor) ==>
              var v := c.parse(Base64Url.Decode(cursor.value));
              v.Some? && v.value.Obj? && !Enters(v.value.fields, maxWrites) ==> r == Idle(v.value.fields)
    ensures r.Begin? ==> Placed(r.st)
    ensures Truthy(cursor) ==>
              var v := c.parse(Base64Url.Decode(cursor.value));
              v.Some? && !v.value.Null? && !v.value.Obj? ==> r == Throws
  {
    match DecodeCursor(c, cursor)
    case None => Begin(Fresh(rootId, clock))
    case Some(Null) => Begin(Fresh(rootId, clock))
    case Some(Obj(f)) => if Enters(f, maxWrites) then Entered(f) else Idle(f)
    case Some(_) => Throws
  }

  /** The state a run resumes from after the cursor round trip: with no
      folder current the page token is dropped. */
  function Settled(st: CrawlState): (r: CrawlState)
    ensures Json.Truthy(st.current) ==> r == st
    ensures !Json.Truthy(st.current) ==> r == st.(pageToken := None)
  {
    if Json.Truthy(st.current) then st else st.(pageToken := None)
  }

  /** How a run that receives `st`'s cursor starts: the loop resumes from it
      while the write counter is below the budget; otherwise the loop is
      skipped and the object is used as it is. */
  function Resume(st: CrawlState, maxWrites: int): Start {
    if st.writes < maxWrites then Begin(Settled(st)) else Idle(ToJson(st).fields)
  }

  /** Every state whose JSON is plain and whose current folder, if any, is a
      string survives the cursor round trip when JSON text parses back to
      what was stringified: decoding yields exactly its JSON object, and the
      next run starts from it as `Resume` says. */
  lemma CursorRoundTrip(c: Json.Codec, st: CrawlState, rootId: string, clock: int, maxWrites: int)
    requires Json.Faithful(c) && Json.Plain(ToJson(st)) && Placed(st)
    ensures Truthy(Some(EncodeCursor(c, st)))
    ensures DecodeCursor(c, Some(EncodeCursor(c, st))) == Some(ToJson(st))
    ensures StartState(c, Some(EncodeCursor(c, st)), rootId, clock, maxWrites) == Resume(st, maxWrites)
  {
    var bytes := c.stringify(ToJson(st));
    assert |bytes| > 0 && c.parse(bytes) == Some(ToJson(st));
    Base64Url.DecodeEncode(bytes);
    var f := ToJson(st).fields;
    ToJsonCounters(st);
    assert Enters(f, maxWrites) <==> st.writes < maxWrites;
    if st.writes < maxWrites {
      EnteredToJson(st);
    }
  }

  /** The counters of a plain state are safe integers. */
  lemma PlainCounters(st: CrawlState)
    requires Json.Plain(ToJson(st))
    ensures -Json.MaxSafe <= st.syncId <= Json.MaxSafe && -Json.MaxSafe <= st.folders <= Json.MaxSafe
    ensures -Json.MaxSafe <= st.files <= Json.MaxSafe && -Json.MaxSafe <= st.writes <= Json.MaxSafe
  {
    var f := ToJson(st).fields;
    assert Json.Plain(f[3].1) && Json.Plain(f[4].1) && Json.Plain(f[5].1) && Json.Plain(f[6].1);
  }

  lemma EnteredToJson(st: CrawlState)
    requires Json.Plain(ToJson(st)) && Placed(st)
    ensures Entered(ToJson(st).fields) == Begin(Settled(st))
  {
    ToJsonPosition(st);
    CountersRead(st);
    var f := ToJson(st).fields;
    assert Entered(f) == EnteredFrom(st.current, Some(Json.Arr(st.queue)), OptStr(st.pageToken),
                                     Some(st.syncId), Some(st.folders), Some(st.files), Some(st.writes));
    EnteredFromState(st);
  }

  lemma EnteredFromState(st: CrawlState)
    requires Placed(st)
    ensures EnteredFrom(st.current, Some(Json.Arr(st.queue)), OptStr(st.pageToken),
                        Some(st.syncId), Some(st.folders), Some(st.files), Some(st.writes)) == Begin(Settled(st))
  {
    var tok := OptStr(st.pageToken);
    assert tok.Null? || tok.Str?;
    if Json.Truthy(st.current) {
      assert (if tok.Str? then Some(tok.s) else None) == st.pageToken;
    }
  }

  /** The counters of a plain state read back as they were. */
  lemma CountersRead(st: CrawlState)
    requires Json.Plain(ToJson(st))
    ensures var f := ToJson(st).fields;
            && Counter(Json.Get(f, "syncId")) == Some(st.syncId)
            && Counter(Json.Get(f, "folders")) == Some(st.folders)
            && Counter(Json.Get(f, "files")) == Some(st.files)
            && WriteCount(Json.Get(f, "writes")) == Some(st.writes)
  {
    ToJsonCounters(st);
    PlainCounters(st);
  }

  /** Lines 121-124: when no folder is current, the head of the queue (or
      null, when the queue is empty) becomes current and its listing starts
      from the first page; the counters never change. */
  function Advance(st: CrawlState): (r: CrawlState)
    ensures Json.Truthy(st.current) ==> r == st
    ensures !Json.Truthy(st.current) ==> r.pageToken.None?
    ensures !Json.Truthy(st.current) && st.queue != [] ==> r.current == st.queue[0] && r.queue == st.queue[1..]
    ensures !Json.Truthy(st.current) && st.queue == [] ==> r.current == Json.Null && r.queue == []
    ensures r.syncId == st.syncId && r.folders == st.folders && r.files == st.files && r.writes == st.writes
  {
    if Json.Truthy(st.current) then st
    else if st.queue == [] then st.(current := Json.Null, pageToken := None)
    else st.(current := st.queue[0], queue := st.queue[1..], pageToken := None)
  }
}
