/** The indexing handler of api/admin/index-drive.ts (lines 66-262): the
    admin check, the request parameters, the start state, the crawl loop,
    the final flush, and — only once the generation is complete and the run
    is not dry — the meta record and the sweep of both collections. */
module IndexDrive {
  import opened Wrappers
  import opened Text
  import opened Request
  import opened Store
  import opened WriteBuffer
  import opened CrawlCursor
  import opened CrawlLoop
  import opened Sweep
  import Provider
  import Json
  import Base64Url
  import Coerce

  const AdminEmail: string := "ryan.polasky@acmutd.co"
  const DefaultMaxWrites: nat := 800
  const MaxWritesCap: nat := 4000

  /** One request and what the handler reads from its surroundings: the
      signed-in account's address, the configured root folder, the shared
      drive, the wall clock (`Date.now()`) and the server timestamp. */
  datatype Invocation = Invocation(
    email: Option<string>,
    rootId: Option<string>,
    driveId: string,
    dry: Param,
    maxWrites: Param,
    cursor: Param,
    clock: int,
    now: int)

  /** The body of the 200 response. `scanned` holds the three counters as
      the state holds them; a member the state lacks is `undefined`, which
      JSON leaves out. */
  datatype Report = Report(dry: bool, scanned: Json.Value, nextCursor: Option<string>)

  /** The responses: 403; the 500 for a missing root; the 500 of an exception
      (the batches committed before it persist); an invocation that ran out
      of time (likewise); the 200 of a run of the loop, with the state it
      ended in; the 200 of a run whose loop never started, which uses the
      parsed cursor object as it is; and a cursor whose handling the model
      does not follow. */
  datatype Outcome =
    | Forbidden
    | MissingRoot
    | Failed(store: Store)
    | TimedOut(store: Store)
    | Indexed(report: Report, state: CrawlState, store: Store)
    | Skipped(report: Report, store: Store)
    | OutsideModel

  /** Line 79: only the exact value `1` asks for a dry run. */
  predicate IsDry(p: Param) {
    First(p) == Some("1")
  }

  /** Lines 80-86: the write budget, within [1, 4000]. An absent value, one
      that does not parse and one that parses to 0 give 800; a negative one
      gives 1 and one above 4000 gives 4000. */
  function MaxWrites(p: Param): (n: int)
    ensures 1 <= n <= MaxWritesCap
    ensures First(p).None? ==> n == DefaultMaxWrites
    ensures First(p).Some? && ParseInt(First(p).value).None? ==> n == DefaultMaxWrites
    ensures First(p).Some? && ParseInt(First(p).value) == Some(0) ==> n == DefaultMaxWrites
    ensures First(p).Some? && ParseInt(First(p).value).Some? && 1 <= ParseInt(First(p).value).value <= MaxWritesCap ==>
              n == ParseInt(First(p).value).value
    ensures First(p).Some? && ParseInt(First(p).value).Some? && ParseInt(First(p).value).value < 0 ==> n == 1
    ensures First(p).Some? && ParseInt(First(p).value).Some? && ParseInt(First(p).value).value > MaxWritesCap ==>
              n == MaxWritesCap
  {
    ClampedInt(First(p), DefaultMaxWrites, MaxWritesCap)
  }

  /** Lines 230-239: the record of the completed generation. */
  function MetaOp(env: Env, email: string, syncId: int): (op: Op)
    ensures op.Upsert? && op.ref == DocRef(Index, "meta")
  {
    Upsert(DocRef(Index, "meta"), map[
      "rootId" := FStr(env.rootId),
      "driveId" := FStr(env.driveId),
      "lastRunBy" := FStr(email),
      "lastRunAt" := FTime(env.now),
      "lastSyncId" := FNum(syncId)])
  }

  /** Lines 243-244: the sweep of folders, then of files. */
  function SweepBoth(s: Store, rootId: string, syncId: int, query: Query): Store {
    DeleteOrphans(DeleteOrphans(s, Folders, rootId, syncId, query), Files, rootId, syncId, query)
  }

  /** Lines 250-254 for a crawl state. */
  function Counts(st: CrawlState): Json.Value {
    Json.Obj([("folders", Json.Num(st.folders)), ("files", Json.Num(st.files)), ("writes", Json.Num(st.writes))])
  }

  function Present(key: string, v: Option<Json.Value>): seq<(string, Json.Value)> {
    if v.Some? then [(key, v.value)] else []
  }

  /** Lines 250-254 for a parsed object the loop never touched. */
  function ScannedOf(f: seq<(string, Json.Value)>): Json.Value {
    Json.Obj(Present("folders", Json.Get(f, "folders")) + Present("files", Json.Get(f, "files"))
             + Present("writes", Json.Get(f, "writes")))
  }

  /** An object written from a crawl state reports its counters as the state
      itself would. */
  lemma ScannedOfState(st: CrawlState)
    ensures ScannedOf(ToJson(st).fields) == Counts(st)
  {
    ToJsonCounters(st);
  }

  /** Lines 225-256, after the loop: the final flush, the quiescence test,
      and the response. A next cursor is given exactly when a folder is
      current or queued, and the next run starts from this state as `Resume`
      says; a dry run leaves the store untouched; a real run commits every
      buffered write, and adds the meta record and the sweep only when
      nothing is left. */
  function Conclude(st: CrawlState, buf: Buffer, env: Env, email: string, c: Json.Codec, query: Query, s: Store): (r: (Report, Store))
    requires Healthy(buf, env.dry)
    ensures r.0.nextCursor.None? <==> !HasMore(st)
    ensures r.0.dry == env.dry && r.0.scanned == Counts(st)
    ensures Json.Faithful(c) && Json.Plain(ToJson(st)) && Placed(st) && r.0.nextCursor.Some? ==>
              forall rootId, clock, max :: StartState(c, r.0.nextCursor, rootId, clock, max) == Resume(st, max)
    ensures env.dry ==> r.1 == s
    ensures !env.dry && HasMore(st) ==> r.1 == Commit(s, buf.AllOps())
    ensures !env.dry && !HasMore(st) ==>
              r.1 == SweepBoth(ApplyOp(Commit(s, buf.AllOps()), MetaOp(env, email, st.syncId)), env.rootId, st.syncId, query)
  {
    var done := Flush(buf, env.dry);
    FinalFlush(buf, env.dry);
    CommitAllFlatten(s, done.committed);
    assert !env.dry ==> done.AllOps() == Flatten(done.committed);
    var s1 := CommitAll(s, done.committed);
    var more := HasMore(st);
    var s2 :=
      if !more && !env.dry then SweepBoth(ApplyOp(s1, MetaOp(env, email, st.syncId)), env.rootId, st.syncId, query)
      else s1;
    var next := if more then Some(EncodeCursor(c, st)) else None;
    ResumesFrom(c, st);
    (Report(env.dry, Counts(st), next), s2)
  }

  lemma ResumesFrom(c: Json.Codec, st: CrawlState)
    ensures Json.Faithful(c) && Json.Plain(ToJson(st)) && Placed(st) ==>
              forall rootId, clock, max :: StartState(c, Some(EncodeCursor(c, st)), rootId, clock, max) == Resume(st, max)
  {
    if Json.Faithful(c) && Json.Plain(ToJson(st)) && Placed(st) {
      forall rootId, clock, max ensures StartState(c, Some(EncodeCursor(c, st)), rootId, clock, max) == Resume(st, max) {
        CursorRoundTrip(c, st, rootId, clock, max);
      }
    }
  }

  /** `state.queue.length > 0` on whatever the queue member holds: reading
      the length of `undefined` or `null` throws (`None`); an array or a
      string has one; an object has whatever its `length` member coerces
      to; a number or a boolean has none, which compares false. */
  function QueueNonEmpty(q: Option<Json.Value>): (r: Option<bool>)
    ensures r.None? <==> q.None? || q.value.Null?
    ensures q.Some? && q.value.Arr? ==> r == Some(|q.value.elems| > 0)
  {
    match q
    case None => None
    case Some(Null) => None
    case Some(Arr(e)) => Some(|e| > 0)
    case Some(Str(t)) => Some(|t| > 0)
    case Some(Obj(g)) => Some(Coerce.Above(Coerce.MemberToNumber(Json.Get(g, "length")), 0))
    case Some(_) => Some(false)
  }

  /** `state.current || state.queue.length > 0` on a parsed object: `None`
      when the length cannot be read. */
  function MoreOf(f: seq<(string, Json.Value)>): Option<bool> {
    if Json.Truthy(Json.Get(f, "current").GetOr(Json.Null)) then Some(true) else QueueNonEmpty(Json.Get(f, "queue"))
  }

  /** Lines 225-256 when the loop never ran (the write counter did not
      compare below the budget): nothing is flushed; the parsed object is
      the state. A truthy `current` or a non-empty queue hands the object
      back re-encoded, as it is; otherwise a real run writes the meta record
      and sweeps with the object's `syncId`. A queue whose length cannot be
      read throws, and a generation stamp that is not a number is not
      followed. */
  function Skip(f: seq<(string, Json.Value)>, env: Env, email: string, c: Json.Codec, query: Query, s: Store): (o: Outcome)
    ensures o.Skipped? || o.Failed? || o.OutsideModel?
    ensures o.Failed? <==> MoreOf(f).None?
    ensures o.Failed? ==> o.store == s
    ensures o.Skipped? ==> o.report.dry == env.dry && o.report.scanned == ScannedOf(f)
    ensures o.Skipped? ==> (o.report.nextCursor.Some? <==> MoreOf(f) == Some(true))
    ensures o.Skipped? && o.report.nextCursor.Some? ==>
              o.store == s && o.report.nextCursor.value == Base64Url.Encode(c.stringify(Json.Obj(f)))
    ensures env.dry ==> !o.OutsideModel? && (o.Skipped? ==> o.store == s)
    ensures o.Skipped? && !env.dry && o.report.nextCursor.None? ==>
              var sid := Json.Get(f, "syncId");
              sid.Some? && sid.value.Num? &&
              o.store == SweepBoth(ApplyOp(s, MetaOp(env, email, sid.value.n)), env.rootId, sid.value.n, query)
    ensures o.OutsideModel? ==> MoreOf(f) == Some(false) && !env.dry && !Json.Get(f, "syncId").GetOr(Json.Null).Num?
  {
    match MoreOf(f)
    case None => Failed(s)
    case Some(true) =>
      Skipped(Report(env.dry, ScannedOf(f), Some(Base64Url.Encode(c.stringify(Json.Obj(f))))), s)
    case Some(false) =>
      if env.dry then Skipped(Report(true, ScannedOf(f), None), s)
      else match Json.Get(f, "syncId")
        case Some(Num(n)) =>
          Skipped(Report(false, ScannedOf(f), None), SweepBoth(ApplyOp(s, MetaOp(env, email, n)), env.rootId, n, query))
        case _ => OutsideModel
  }

  /** Lines 120-256 from a start state: the crawl, then the conclusion. */
  function Proceed(st: CrawlState, env: Env, c: Json.Codec, list: Provider.Lister, query: Query, s: Store, fuel: nat): (o: Outcome)
    ensures o.Indexed? || o.TimedOut? || o.Failed?
    ensures env.dry ==> o.store == s
    ensures o.Indexed? ==> (o.report.nextCursor.None? <==> !HasMore(o.state))
    ensures o.Indexed? ==> o.report.dry == env.dry && o.report.scanned == Counts(o.state)
    ensures o.Indexed? ==> o.state.writes >= env.maxWrites || !Json.Truthy(o.state.current)
    ensures o.Indexed? && st.writes < env.maxWrites ==> o.state.writes <= env.maxWrites
    ensures o.Indexed? ==> o.state.syncId == st.syncId
    ensures o.Indexed? && Placed(st) ==> Placed(o.state)
  {
    assert Healthy(Empty, env.dry);
    match Crawl(st, Empty, list, env, fuel)
    case OutOfTime(buf) => TimedOut(CommitAll(s, buf.committed))
    case Threw(buf) => Failed(CommitAll(s, buf.committed))
    case Finished(st1, buf) =>
      var r := Conclude(st1, buf, env, AdminEmail, c, query, s);
      Indexed(r.0, st1, r.1)
  }

  /** Lines 112-256 from how the run starts. */
  function Started(start: Start, env: Env, c: Json.Codec, list: Provider.Lister, query: Query, s: Store, fuel: nat): (o: Outcome)
    ensures start.Begin? ==> o.Indexed? || o.TimedOut? || o.Failed?
    ensures start.Throws? <==> o == Failed(s) && !start.Begin? && !start.Idle?
    ensures start.Unmodelled? <==> o.OutsideModel? && !start.Idle?
    ensures env.dry && (o.Failed? || o.TimedOut? || o.Indexed? || o.Skipped?) ==> o.store == s
    ensures o.Indexed? ==> (o.report.nextCursor.None? <==> !HasMore(o.state))
    ensures o.Indexed? || o.Skipped? ==> o.report.dry == env.dry
    ensures o.Indexed? ==> o.state.writes >= env.maxWrites || !Json.Truthy(o.state.current)
  {
    match start
    case Begin(st) => Proceed(st, env, c, list, query, s, fuel)
    case Idle(f) => Skip(f, env, AdminEmail, c, query, s)
    case Throws => Failed(s)
    case Unmodelled => OutsideModel
  }

  /** The handler; `list` is the provider's listing call, `query` the store's
      query of a root's documents, and `fuel` the number of listing calls
      the invocation has time for. A request without a cursor always runs
      the loop. */
  function Handler(inv: Invocation, c: Json.Codec, list: Provider.Lister, query: Query, s: Store, fuel: nat): (o: Outcome)
    ensures inv.email != Some(AdminEmail) ==> o == Forbidden
    ensures inv.email == Some(AdminEmail) && !Truthy(inv.rootId) ==> o == MissingRoot
    ensures inv.email == Some(AdminEmail) && Truthy(inv.rootId) && !Truthy(First(inv.cursor)) ==>
              o.Indexed? || o.TimedOut? || o.Failed?
    ensures IsDry(inv.dry) && (o.Failed? || o.TimedOut? || o.Indexed? || o.Skipped?) ==> o.store == s
    ensures o.Indexed? ==> (o.report.nextCursor.None? <==> !HasMore(o.state))
    ensures o.Indexed? || o.Skipped? ==> o.report.dry == IsDry(inv.dry)
    ensures o.Indexed? ==> o.state.writes >= MaxWrites(inv.maxWrites) || !Json.Truthy(o.state.current)
  {
    if inv.email != Some(AdminEmail) then Forbidden
    else if !Truthy(inv.rootId) then MissingRoot
    else
      var rootId := inv.rootId.value;
      var env := Env(rootId, inv.driveId, IsDry(inv.dry), MaxWrites(inv.maxWrites), inv.now);
      Started(StartState(c, First(inv.cursor), rootId, inv.clock, env.maxWrites), env, c, list, query, s, fuel)
  }

  /** A request without a cursor starts a new generation from the root
      alone, and that run never throws: every folder the loop queues or
      makes current is a string. */
  lemma FreshRunNeverThrows(inv: Invocation, c: Json.Codec, list: Provider.Lister, query: Query, s: Store, fuel: nat)
    requires inv.email == Some(AdminEmail) && Truthy(inv.rootId) && !Truthy(First(inv.cursor))
    ensures Handler(inv, c, list, query, s, fuel).Indexed? || Handler(inv, c, list, query, s, fuel).TimedOut?
  {
    var env := Env(inv.rootId.value, inv.driveId, IsDry(inv.dry), MaxWrites(inv.maxWrites), inv.now);
    var st := Fresh(inv.rootId.value, inv.clock);
    assert Named(st);
    NamedNeverThrows(st, Empty, list, env, fuel);
  }

  /** A state whose write counter is already at the budget is handed back
      unchanged when the loop is entered with it: nothing is listed or
      written, and the response carries the same state again. */
  lemma ResumeAtBudget(st: CrawlState, env: Env, c: Json.Codec, list: Provider.Lister, query: Query, s: Store, fuel: nat)
    requires st.writes >= env.maxWrites
    ensures Proceed(st, env, c, list, query, s, fuel).Indexed?
    ensures Proceed(st, env, c, list, query, s, fuel).state == st
    ensures Proceed(st, env, c, list, query, s, fuel).report.scanned == Counts(st)
  {
  }

  /** The cursor of a state at the budget with folders left: the next run
      skips the loop and hands back the very same cursor, so resuming from it
      never progresses. */
  lemma SkipAtBudget(st: CrawlState, env: Env, email: string, c: Json.Codec, query: Query, s: Store)
    requires HasMore(st)
    ensures Skip(ToJson(st).fields, env, email, c, query, s)
         == Skipped(Report(env.dry, Counts(st), Some(EncodeCursor(c, st))), s)
  {
    MoreOfState(st);
    ScannedOfState(st);
  }

  lemma MoreOfState(st: CrawlState)
    ensures MoreOf(ToJson(st).fields) == Some(HasMore(st))
  {
    ToJsonPosition(st);
  }

  /** A cursor without a write counter, such as
      `{"queue":[],"current":null,"pageToken":null,"syncId":N,"folders":0,"files":0}`:
      `undefined < maxWrites` is false, so the loop never runs; nothing is
      left to crawl, so a real run writes the meta record for generation N
      and sweeps every document under the root whose stamp is below N. */
  lemma MissingWritesSweeps(inv: Invocation, c: Json.Codec, list: Provider.Lister, query: Query, s: Store, fuel: nat, n: int)
    requires inv.email == Some(AdminEmail) && Truthy(inv.rootId) && !IsDry(inv.dry)
    requires Truthy(First(inv.cursor))
    requires c.parse(Base64Url.Decode(First(inv.cursor).value)) == Some(Json.Obj(MissingWrites(n)))
    ensures Handler(inv, c, list, query, s, fuel)
         == Skipped(Report(false, Json.Obj([("folders", Json.Num(0)), ("files", Json.Num(0))]), None),
                    SweepBoth(ApplyOp(s, MetaOp(Env(inv.rootId.value, inv.driveId, false, MaxWrites(inv.maxWrites), inv.now), AdminEmail, n)),
                              inv.rootId.value, n, query))
  {
    var env := Env(inv.rootId.value, inv.driveId, false, MaxWrites(inv.maxWrites), inv.now);
    MissingWritesStart(c, First(inv.cursor), env.rootId, inv.clock, env.maxWrites, n);
    MissingWritesSkip(n, env, c, query, s);
  }

  lemma MissingWritesStart(c: Json.Codec, cursor: Option<string>, rootId: string, clock: int, max: int, n: int)
    requires Truthy(cursor) && c.parse(Base64Url.Decode(cursor.value)) == Some(Json.Obj(MissingWrites(n)))
    ensures StartState(c, cursor, rootId, clock, max) == Idle(MissingWrites(n))
  {
    assert Json.Get(MissingWrites(n), "writes").None?;
  }

  lemma MissingWritesSkip(n: int, env: Env, c: Json.Codec, query: Query, s: Store)
    requires !env.dry
    ensures Skip(MissingWrites(n), env, AdminEmail, c, query, s)
         == Skipped(Report(false, Json.Obj([("folders", Json.Num(0)), ("files", Json.Num(0))]), None),
                    SweepBoth(ApplyOp(s, MetaOp(env, AdminEmail, n)), env.rootId, n, query))
  {
    var f := MissingWrites(n);
    Json.GetLast(f, 0, "queue");
    Json.GetLast(f, 1, "current");
    assert MoreOf(f) == Some(false);
    Json.GetLast(f, 3, "syncId");
    MissingWritesScanned(f, n);
  }

  lemma MissingWritesScanned(f: seq<(string, Json.Value)>, n: int)
    requires f == MissingWrites(n)
    ensures ScannedOf(f) == Json.Obj([("folders", Json.Num(0)), ("files", Json.Num(0))])
  {
    Json.GetLast(f, 4, "folders");
    Json.GetLast(f, 5, "files");
    assert Json.Get(f, "writes").None?;
  }

  function MissingWrites(n: int): seq<(string, Json.Value)> {
    [("queue", Json.Arr([])), ("current", Json.Null), ("pageToken", Json.Null),
     ("syncId", Json.Num(n)), ("folders", Json.Num(0)), ("files", Json.Num(0))]
  }

  /** A real run that completes the generation writes every document it
      listed, stamped with the generation, and none of those documents is
      swept away (unless the generation stamp is 0). */
  lemma CompletedRunKeepsItsWrites(st: CrawlState, buf: Buffer, env: Env, email: string, c: Json.Codec, query: Query, s: Store, ref: DocRef)
    requires Healthy(buf, env.dry) && !env.dry && !HasMore(st)
    requires Stamped(buf.AllOps(), st.syncId) && Touches(buf.AllOps(), ref) && st.syncId != 0
    requires ref.col != Index
    ensures ref in Conclude(st, buf, env, email, c, query, s).1
  {
    CommitStamps(s, buf.AllOps(), st.syncId, ref);
    var s1 := ApplyOp(Commit(s, buf.AllOps()), MetaOp(env, email, st.syncId));
    assert ref in s1 && s1[ref] == Commit(s, buf.AllOps())[ref];
    SparesCurrent(s1, Folders, env.rootId, st.syncId, query, ref);
    var s2 := DeleteOrphans(s1, Folders, env.rootId, st.syncId, query);
    SparesCurrent(s2, Files, env.rootId, st.syncId, query, ref);
  }
}
