/** The crawler's pending-operation buffer (`ops` and `flush` in
    api/admin/index-drive.ts): operations queue up, a flush commits at most
    450 of them as one batch, and a dry run never commits. */
module WriteBuffer {
  import opened Store

  /** `ops.splice(0, 450)`. */
  const ChunkSize: nat := 450
  /** `if (ops.length >= 400) await flush()`. */
  const FlushAt: nat := 400

  /** The operations of several batches, in commit order. */
  function Flatten(bs: seq<Batch>): seq<Op>
    decreases |bs|
  {
    if bs == [] then [] else Flatten(bs[..|bs| - 1]) + bs[|bs| - 1]
  }

  /** The pending operations, and the batches committed so far. */
  datatype Buffer = Buffer(pending: seq<Op>, committed: seq<Batch>) {
    /** Every operation ever pushed, in push order. */
    function AllOps(): seq<Op> { Flatten(committed) + pending }
  }

  const Empty: Buffer := Buffer([], [])

  /** What the crawl keeps true of its buffer: no committed batch is empty or
      larger than a chunk, a dry run has committed nothing, and a real run
      never holds 400 or more pending operations between items. */
  predicate Healthy(buf: Buffer, dry: bool) {
    && (forall k :: 0 <= k < |buf.committed| ==> 0 < |buf.committed[k]| <= ChunkSize)
    && (dry ==> buf.committed == [])
    && (!dry ==> |buf.pending| < FlushAt)
  }

  lemma FlattenSnoc(bs: seq<Batch>, b: Batch)
    ensures Flatten(bs + [b]) == Flatten(bs) + b
  {
    assert (bs + [b])[..|bs|] == bs;
  }

  /** `flush`: nothing when dry or when nothing is pending; otherwise the
      first 450 pending operations (all of them, if fewer) are committed as
      one batch and the rest stay pending. No operation is lost or
      reordered. */
  function Flush(buf: Buffer, dry: bool): (r: Buffer)
    ensures r.AllOps() == buf.AllOps()
    ensures dry || buf.pending == [] ==> r == buf
    ensures !dry && buf.pending != [] ==>
              && |r.committed| == |buf.committed| + 1
              && r.committed[..|buf.committed|] == buf.committed
              && |r.committed[|buf.committed|]| == (if |buf.pending| < ChunkSize then |buf.pending| else ChunkSize)
              && r.committed[|buf.committed|] + r.pending == buf.pending
  {
    if dry || buf.pending == [] then buf
    else
      var n := if |buf.pending| < ChunkSize then |buf.pending| else ChunkSize;
      var r := Buffer(buf.pending[n..], buf.committed + [buf.pending[..n]]);
      FlattenSnoc(buf.committed, buf.pending[..n]);
      assert buf.pending[..n] + buf.pending[n..] == buf.pending;
      assert r.committed[..|buf.committed|] == buf.committed;
      r
  }

  /** One `ops.push(...)` followed by the size check: a real run flushes as
      soon as 400 operations are pending. */
  function Push(buf: Buffer, op: Op, dry: bool): (r: Buffer)
    ensures r.AllOps() == buf.AllOps() + [op]
    ensures Healthy(buf, dry) ==> Healthy(r, dry)
    ensures |buf.pending| + 1 < FlushAt ==> r == Buffer(buf.pending + [op], buf.committed)
    ensures !dry && |buf.pending| + 1 >= FlushAt ==> |r.committed| == |buf.committed| + 1
  {
    var b := Buffer(buf.pending + [op], buf.committed);
    assert b.AllOps() == buf.AllOps() + [op];
    if |b.pending| >= FlushAt then Flush(b, dry) else b
  }

  /** The flush after the loop: a real run that kept its buffer healthy ends
      with nothing pending, and a dry run with nothing committed. */
  lemma FinalFlush(buf: Buffer, dry: bool)
    requires Healthy(buf, dry)
    ensures Healthy(Flush(buf, dry), dry)
    ensures !dry ==> Flush(buf, dry).pending == []
    ensures dry ==> Flush(buf, dry).committed == []
    ensures Flush(buf, dry).AllOps() == buf.AllOps()
  {
  }

  /** Committing the batches one by one is committing all their operations
      in order: the chunking is invisible in the resulting store. */
  lemma {:induction false} CommitAllFlatten(s: Store, bs: seq<Batch>)
    ensures CommitAll(s, bs) == Commit(s, Flatten(bs))
    decreases |bs|
  {
    if bs != [] {
      CommitAllFlatten(s, bs[..|bs| - 1]);
      CommitAppend(s, Flatten(bs[..|bs| - 1]), bs[|bs| - 1]);
    }
  }
}
