/** `deleteOrphanedDocs` (api/admin/index-drive.ts, lines 264-291): after a
    completed generation, the documents of a collection under the same root
    are read, and every one whose `syncId` is falsy or compares below the
    generation is deleted, all in one batch, whatever its size. */
module Sweep {
  import opened Store
  import Coerce
  import Text
  import WriteBuffer

  /** `where("rootId", "==", rootId)`. */
  predicate UnderRoot(d: Doc, rootId: string) {
    "rootId" in d && d["rootId"] == FStr(rootId)
  }

  // ------------------------------------------- `!syncId || syncId < current`

  /** The seconds from the year 1 to 1970: `Timestamp.valueOf()` writes the
      seconds counted from the year 1, then a point and the nanoseconds. */
  const TimestampOffset: int := 62135596800

  /** The Number a stored value turns into when compared with a Number: a
      string is read as `Number` reads it; an array through its `join(",")`
      text; a timestamp through `valueOf()`, whose text reads as the seconds
      since the year 1 (the nanoseconds only add a fraction, which no
      comparison with an integer notices). */
  function FieldToNumber(v: Field): Coerce.JsNumber
    decreases v
  {
    match v
    case FNull => Coerce.Whole(0)
    case FBool(b) => Coerce.Whole(if b then 1 else 0)
    case FNum(n) => Coerce.Whole(n)
    case FStr(s) => Coerce.StringToNumber(s)
    case FArr(e) => if e == [] then Coerce.Whole(0) else if |e| == 1 then ElementToNumber(e[0]) else Coerce.NaN
    case FTime(t) => Coerce.Whole(t + TimestampOffset)
  }

  /** `Number(String(x))` for the only element of an array: `null` joins as
      the empty text, a boolean as `true` or `false`, a timestamp as text
      that is no number. */
  function ElementToNumber(x: Field): Coerce.JsNumber
    decreases x, 0
  {
    match x
    case FNull => Coerce.Whole(0)
    case FBool(_) => Coerce.NaN
    case FNum(n) => Coerce.Whole(n)
    case FStr(s) => Coerce.StringToNumber(s)
    case FArr(e) => if e == [] then Coerce.Whole(0) else if |e| == 1 then ElementToNumber(e[0]) else Coerce.NaN
    case FTime(_) => Coerce.NaN
  }

  /** Line 281 for a stored `syncId`. */
  predicate StaleValue(v: Field, current: int) {
    !FieldTruthy(v) || Coerce.Below(FieldToNumber(v), current)
  }

  /** Line 281 for a document; a missing `syncId` is `undefined`, which is
      falsy. */
  predicate Stale(d: Doc, current: int) {
    "syncId" !in d || StaleValue(d["syncId"], current)
  }

  /** A number stamp is stale exactly when it is 0 or older than the
      generation; a string stamp is read as a number. */
  lemma StaleNumbers(n: int, s: string, current: int)
    ensures StaleValue(FNum(n), current) <==> n == 0 || n < current
    ensures s != "" ==> (StaleValue(FStr(s), current) <==> Coerce.Below(Coerce.StringToNumber(s), current))
  {
  }

  // ---------------------------------------------------------- the batch

  /** The documents the sweep must delete. */
  function Orphans(s: Store, col: Collection, rootId: string, current: int): set<DocRef> {
    set r | r in s.Keys && r.col == col && UnderRoot(s[r], rootId) && Stale(s[r], current)
  }

  /** The store with exactly the orphans removed: the reference the batch is
      measured against. */
  function WithoutOrphans(s: Store, col: Collection, rootId: string, current: int): (r: Store)
    ensures forall ref :: ref in r <==> ref in s && ref !in Orphans(s, col, rootId, current)
    ensures forall ref :: ref in r ==> r[ref] == s[ref]
  {
    map ref | ref in s.Keys && ref !in Orphans(s, col, rootId, current) :: s[ref]
  }

  /** The query (lines 269-272): the ids of a collection's documents under a
      root, in the order the store returns them. */
  type Query = (Store, Collection, string) -> seq<string>

  /** `ids` names every document of `col` under `rootId`, each once. */
  predicate Listing(s: Store, col: Collection, rootId: string, ids: seq<string>) {
    && Text.Distinct(ids)
    && (forall id :: id in ids ==> DocRef(col, id) in s && UnderRoot(s[DocRef(col, id)], rootId))
    && (forall ref :: ref in s && ref.col == col && UnderRoot(s[ref], rootId) ==> ref.id in ids)
  }

  /** The store's query returns exactly the documents asked for. */
  ghost predicate Lists(query: Query) {
    forall s, col, rootId :: Listing(s, col, rootId, query(s, col, rootId))
  }

  /** One delete per id that `condemned` picks, in order. */
  function DeletesWhere(col: Collection, ids: seq<string>, condemned: string -> bool): (b: Batch)
    ensures |b| <= |ids|
    ensures DeletesOnly(b)
    ensures forall k :: 0 <= k < |b| ==> b[k].ref.col == col && b[k].ref.id in ids && condemned(b[k].ref.id)
    ensures forall id :: id in ids && condemned(id) ==> DocRef(col, id) in Targets(b)
    decreases |ids|
  {
    if ids == [] then []
    else
      var rest := DeletesWhere(col, ids[1..], condemned);
      assert forall id :: id in ids && id != ids[0] ==> id in ids[1..] by {
        forall id | id in ids && id != ids[0] ensures id in ids[1..] {
          var j :| 0 <= j < |ids| && ids[j] == id;
          assert ids[1..][j - 1] == id;
        }
      }
      if condemned(ids[0]) then
        var b := [Delete(DocRef(col, ids[0]))] + rest;
        TargetsCons(Delete(DocRef(col, ids[0])), rest);
        b
      else rest
  }

  /** Lines 276-285: one delete per listed document whose stamp is stale, in
      listing order, all in one batch. */
  function SweepBatch(s: Store, col: Collection, current: int, ids: seq<string>): (b: Batch)
    ensures |b| <= |ids|
    ensures DeletesOnly(b)
    ensures forall k :: 0 <= k < |b| ==>
              b[k].ref.col == col && b[k].ref.id in ids && Stale(Existing(s, b[k].ref), current)
    ensures forall id :: id in ids && Stale(Existing(s, DocRef(col, id)), current) ==> DocRef(col, id) in Targets(b)
  {
    DeletesWhere(col, ids, id => Stale(Existing(s, DocRef(col, id)), current))
  }

  /** Lines 269-290: the sweep of one collection, committed as one batch (an
      empty batch, like an empty query result, changes nothing). Documents
      of other collections and documents whose stamp is not stale stay as
      they were, and nothing is added. */
  function DeleteOrphans(s: Store, col: Collection, rootId: string, current: int, query: Query): (r: Store)
    ensures forall ref :: ref in r ==> ref in s && r[ref] == s[ref]
    ensures forall ref :: ref in s && (ref.col != col || !Stale(s[ref], current)) ==> ref in r
  {
    var b := SweepBatch(s, col, current, query(s, col, rootId));
    CommitDeletes(s, b);
    Commit(s, b)
  }

  /** With a faithful query the batch addresses exactly the orphans. */
  lemma BatchTargets(s: Store, col: Collection, rootId: string, current: int, ids: seq<string>)
    requires Listing(s, col, rootId, ids)
    ensures Targets(SweepBatch(s, col, current, ids)) == Orphans(s, col, rootId, current)
  {
    var b := SweepBatch(s, col, current, ids);
    forall ref | ref in Orphans(s, col, rootId, current) ensures ref in Targets(b) {
      assert ref == DocRef(col, ref.id);
    }
  }

  /** With a faithful query the sweep removes exactly the orphans. */
  lemma SweepRemovesOrphans(s: Store, col: Collection, rootId: string, current: int, query: Query)
    requires Lists(query)
    ensures DeleteOrphans(s, col, rootId, current, query) == WithoutOrphans(s, col, rootId, current)
  {
    var ids := query(s, col, rootId);
    var b := SweepBatch(s, col, current, ids);
    BatchTargets(s, col, rootId, current, ids);
    CommitDeletes(s, b);
    var r := DeleteOrphans(s, col, rootId, current, query);
    var w := WithoutOrphans(s, col, rootId, current);
    assert r.Keys == w.Keys;
  }

  /** The batch's deletes address different documents when the listed ids
      differ. */
  lemma BatchDistinct(s: Store, col: Collection, current: int, ids: seq<string>)
    requires Text.Distinct(ids)
    ensures |Targets(SweepBatch(s, col, current, ids))| == |SweepBatch(s, col, current, ids)|
  {
    DeletesDistinct(col, ids, id => Stale(Existing(s, DocRef(col, id)), current));
  }

  lemma {:induction false} DeletesDistinct(col: Collection, ids: seq<string>, condemned: string -> bool)
    requires Text.Distinct(ids)
    ensures |Targets(DeletesWhere(col, ids, condemned))| == |DeletesWhere(col, ids, condemned)|
    decreases |ids|
  {
    if ids != [] {
      var rest := DeletesWhere(col, ids[1..], condemned);
      var b := DeletesWhere(col, ids, condemned);
      Text.DistinctTail(ids);
      DeletesDistinct(col, ids[1..], condemned);
      if condemned(ids[0]) {
        var ref := DocRef(col, ids[0]);
        assert b == [Delete(ref)] + rest;
        assert ref !in Targets(rest) by {
          forall k | 0 <= k < |rest| ensures rest[k].ref != ref {
            assert rest[k].ref.id in ids[1..];
          }
        }
        TargetsCons(Delete(ref), rest);
      } else {
        assert b == rest;
      }
    }
  }

  /** The sweep's one batch holds one delete per orphan, however many there
      are: unlike the crawl's flushes it is never cut into chunks. */
  lemma SweepBatchSize(s: Store, col: Collection, rootId: string, current: int, query: Query)
    requires Lists(query)
    ensures |SweepBatch(s, col, current, query(s, col, rootId))| == |Orphans(s, col, rootId, current)|
  {
    var ids := query(s, col, rootId);
    BatchTargets(s, col, rootId, current, ids);
    BatchDistinct(s, col, current, ids);
  }

  /** A document stamped with the current generation survives the sweep,
      unless the generation stamp is 0, which is falsy. */
  lemma SparesCurrent(s: Store, col: Collection, rootId: string, current: int, query: Query, ref: DocRef)
    requires ref in s && "syncId" in s[ref] && s[ref]["syncId"] == FNum(current) && current != 0
    ensures ref in DeleteOrphans(s, col, rootId, current, query)
    ensures DeleteOrphans(s, col, rootId, current, query)[ref] == s[ref]
  {
  }

  /** Every document a batch of this generation wrote survives the sweeps of
      both crawled collections when the generation stamp is not 0. */
  lemma SweepKeepsGeneration(s: Store, ops: seq<Op>, rootId: string, current: int, query: Query, ref: DocRef)
    requires Stamped(ops, current) && Touches(ops, ref) && current != 0
    ensures var s1 := Commit(s, ops);
            ref in DeleteOrphans(DeleteOrphans(s1, Folders, rootId, current, query), Files, rootId, current, query)
  {
    CommitStamps(s, ops, current, ref);
    var s1 := Commit(s, ops);
    SparesCurrent(s1, Folders, rootId, current, query, ref);
    SparesCurrent(DeleteOrphans(s1, Folders, rootId, current, query), Files, rootId, current, query, ref);
  }

  // ------------------------------------------- a batch of any size

  /** `n` documents of a collection under `rootId`, none carrying a stamp. */
  function Unstamped(col: Collection, rootId: string, ids: seq<string>): (s: Store)
    ensures forall id :: DocRef(col, id) in s <==> id in ids
    ensures forall ref :: ref in s ==> ref.col == col && s[ref] == map["rootId" := FStr(rootId)]
  {
    var refs := set id | id in ids :: DocRef(col, id);
    map ref | ref in refs :: map["rootId" := FStr(rootId)]
  }

  /** Different one-character ids, as many as asked for. */
  function ManyIds(n: nat): (ids: seq<string>)
    requires n <= 0xD000
    ensures |ids| == n && Text.Distinct(ids)
  {
    var ids := seq(n, i requires 0 <= i < n => [(i + 0x100) as char]);
    assert forall i, j :: 0 <= i < j < n ==> ids[i][0] != ids[j][0];
    ids
  }

  /** A sweep of `n` unstamped documents deletes them all in one batch of `n`
      deletes; at 451 that is more than a crawl flush (`ChunkSize`, 450)
      ever commits at once. */
  lemma OneBatchOfAnySize(n: nat, rootId: string, current: int)
    requires n <= 0xD000
    ensures var ids := ManyIds(n);
            var s := Unstamped(Folders, rootId, ids);
            && Listing(s, Folders, rootId, ids)
            && |SweepBatch(s, Folders, current, ids)| == n
            && (n == 451 ==> |SweepBatch(s, Folders, current, ids)| > WriteBuffer.ChunkSize)
  {
    var ids := ManyIds(n);
    var s := Unstamped(Folders, rootId, ids);
    BatchTargets(s, Folders, rootId, current, ids);
    BatchDistinct(s, Folders, current, ids);
    assert Orphans(s, Folders, rootId, current) == s.Keys;
    assert s.Keys == set id | id in ids :: DocRef(Folders, id);
    DistinctCount(ids, Folders);
  }

  /** Distinct ids name as many documents as there are ids. */
  lemma {:induction false} DistinctCount(ids: seq<string>, col: Collection)
    requires Text.Distinct(ids)
    ensures |set id | id in ids :: DocRef(col, id)| == |ids|
    decreases |ids|
  {
    if ids != [] {
      var rest := ids[1..];
      Text.DistinctTail(ids);
      DistinctCount(rest, col);
      var all := set id | id in ids :: DocRef(col, id);
      var tail := set id | id in rest :: DocRef(col, id);
      assert all == {DocRef(col, ids[0])} + tail;
      assert DocRef(col, ids[0]) !in tail;
    }
  }
}
