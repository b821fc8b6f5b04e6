/** The document store, reduced to what the handlers use: a document is a map
    of fields addressed by collection and id; `set(..., {merge: true})`
    overlays the given fields on whatever is stored; a batch applies its
    operations in order and commits them together. */
module Store {

  datatype Field =
    | FNull
    | FBool(b: bool)
    | FNum(n: int)
    | FStr(s: string)
    | FArr(elems: seq<Field>)
    | FTime(t: int)   // a server-assigned write timestamp

  type Doc = map<string, Field>

  /** JavaScript truthiness of a stored value; arrays and timestamps are
      objects, so they are truthy. */
  predicate FieldTruthy(v: Field) {
    match v
    case FNull => false
    case FBool(b) => b
    case FNum(n) => n != 0
    case FStr(s) => s != ""
    case FArr(_) => true
    case FTime(_) => true
  }

  /** `drive_folders`, `drive_files` and `drive_index`. */
  datatype Collection = Folders | Files | Index

  datatype DocRef = DocRef(col: Collection, id: string)

  type Store = map<DocRef, Doc>

  datatype Op = Upsert(ref: DocRef, data: Doc) | Delete(ref: DocRef)

  type Batch = seq<Op>

  function Existing(m: map<DocRef, Doc>, r: DocRef): Doc {
    if r in m then m[r] else map[]
  }

  /** One operation: a merge-upsert keeps every stored field it does not name
      and sets every field it names; a delete removes the document. */
  function ApplyOp(s: Store, op: Op): (s': Store)
    ensures op.Upsert? ==> s'.Keys == s.Keys + {op.ref}
    ensures op.Upsert? ==> forall f :: f in op.data ==> f in s'[op.ref] && s'[op.ref][f] == op.data[f]
    ensures op.Upsert? ==> forall f :: f in Existing(s, op.ref) && f !in op.data ==>
              f in s'[op.ref] && s'[op.ref][f] == Existing(s, op.ref)[f]
    ensures op.Upsert? ==> s'[op.ref].Keys == Existing(s, op.ref).Keys + op.data.Keys
    ensures op.Delete? ==> s'.Keys == s.Keys - {op.ref}
    ensures forall r :: r in s && r != op.ref ==> r in s' && s'[r] == s[r]
  {
    match op
    case Upsert(r, data) => s[r := Existing(s, r) + data]
    case Delete(r) => s - {r}
  }

  /** `batch.commit()`: the operations in order. */
  function Commit(s: Store, b: Batch): Store
    decreases |b|
  {
    if b == [] then s else Commit(ApplyOp(s, b[0]), b[1..])
  }

  /** Several batches committed one after another. */
  function CommitAll(s: Store, bs: seq<Batch>): Store
    decreases |bs|
  {
    if bs == [] then s else Commit(CommitAll(s, bs[..|bs| - 1]), bs[|bs| - 1])
  }

  /** Committing two batches in turn is committing their concatenation. */
  lemma {:induction false} CommitAppend(s: Store, a: Batch, b: Batch)
    ensures Commit(s, a + b) == Commit(Commit(s, a), b)
    decreases |a|
  {
    if a == [] {
      assert a + b == b;
    } else {
      assert (a + b)[0] == a[0] && (a + b)[1..] == a[1..] + b;
      CommitAppend(ApplyOp(s, a[0]), a[1..], b);
    }
  }

  // ------------------------------------------------ idempotence of upserts

  predicate UpsertsOnly(b: Batch) {
    forall k :: 0 <= k < |b| ==> b[k].Upsert?
  }

  /** The merged fields a batch of upserts writes to each document. */
  function Summary(b: Batch): map<DocRef, Doc>
    requires UpsertsOnly(b)
    decreases |b|
  {
    if b == [] then map[]
    else
      var rest := Summary(b[1..]);
      rest[b[0].ref := b[0].data + Existing(rest, b[0].ref)]
  }

  /** Every document of `m` merged over the store. */
  function Overlay(s: Store, m: map<DocRef, Doc>): (s': Store)
    ensures s'.Keys == s.Keys + m.Keys
  {
    map r | r in s.Keys + m.Keys :: Existing(s, r) + Existing(m, r)
  }

  lemma MergeAssoc(a: Doc, b: Doc, c: Doc)
    ensures (a + b) + c == a + (b + c)
  {
  }

  lemma MergeAbsorb(a: Doc, b: Doc)
    ensures (a + b) + b == a + b
  {
  }

  lemma OverlayEmpty(s: Store)
    ensures Overlay(s, map[]) == s
  {
    var o := Overlay(s, map[]);
    forall k | k in o ensures o[k] == s[k] {
      assert Existing(map[], k) == map[];
      assert s[k] + map[] == s[k];
    }
  }

  lemma OverlayStepAt(s: Store, r: DocRef, d: Doc, rest: map<DocRef, Doc>, k: DocRef)
    requires k in s.Keys + rest.Keys + {r}
    ensures Overlay(s[r := Existing(s, r) + d], rest)[k]
         == Overlay(s, rest[r := d + Existing(rest, r)])[k]
  {
    var s1 := s[r := Existing(s, r) + d];
    var sum := rest[r := d + Existing(rest, r)];
    assert Overlay(s1, rest)[k] == Existing(s1, k) + Existing(rest, k);
    assert Overlay(s, sum)[k] == Existing(s, k) + Existing(sum, k);
    if k == r {
      assert Existing(s1, k) == Existing(s, r) + d;
      assert Existing(sum, k) == d + Existing(rest, r);
      MergeAssoc(Existing(s, r), d, Existing(rest, r));
    } else {
      assert Existing(s1, k) == Existing(s, k);
      assert Existing(sum, k) == Existing(rest, k);
    }
  }

  /** Applying one upsert and then a summary is overlaying the summary
      extended by that upsert. */
  lemma OverlayStep(s: Store, r: DocRef, d: Doc, rest: map<DocRef, Doc>)
    ensures Overlay(s[r := Existing(s, r) + d], rest) == Overlay(s, rest[r := d + Existing(rest, r)])
  {
    var lhs := Overlay(s[r := Existing(s, r) + d], rest);
    var rhs := Overlay(s, rest[r := d + Existing(rest, r)]);
    assert lhs.Keys == rhs.Keys;
    forall k | k in lhs.Keys ensures lhs[k] == rhs[k] {
      OverlayStepAt(s, r, d, rest, k);
    }
  }

  lemma {:induction false} CommitIsOverlay(s: Store, b: Batch)
    requires UpsertsOnly(b)
    ensures Commit(s, b) == Overlay(s, Summary(b))
    decreases |b|
  {
    if b == [] {
      OverlayEmpty(s);
    } else {
      var r, d := b[0].ref, b[0].data;
      assert ApplyOp(s, b[0]) == s[r := Existing(s, r) + d];
      CommitIsOverlay(ApplyOp(s, b[0]), b[1..]);
      OverlayStep(s, r, d, Summary(b[1..]));
    }
  }

  lemma OverlayTwice(s: Store, m: map<DocRef, Doc>)
    ensures Overlay(Overlay(s, m), m) == Overlay(s, m)
  {
    var once := Overlay(s, m);
    var twice := Overlay(once, m);
    forall k | k in twice.Keys ensures twice[k] == once[k] {
      MergeAbsorb(Existing(s, k), Existing(m, k));
    }
  }

  /** Committing the same batch of merge-upserts twice leaves the store as
      committing it once: a retried batch is harmless. */
  lemma CommitIdempotent(s: Store, b: Batch)
    requires UpsertsOnly(b)
    ensures Commit(Commit(s, b), b) == Commit(s, b)
  {
    CommitIsOverlay(s, b);
    CommitIsOverlay(Commit(s, b), b);
    OverlayTwice(s, Summary(b));
  }

  // ------------------------------------------------ generation stamps

  /** Every operation is a merge-upsert that sets `syncId` to the given
      generation. */
  predicate Stamped(ops: seq<Op>, syncId: int) {
    forall k :: 0 <= k < |ops| ==>
      ops[k].Upsert? && "syncId" in ops[k].data && ops[k].data["syncId"] == FNum(syncId)
  }

  /** Some operation of the batch addresses `r`. */
  predicate Touches(ops: seq<Op>, r: DocRef) {
    exists k :: 0 <= k < |ops| && ops[k].ref == r
  }

  /** A document no operation addresses is left as it was. */
  lemma {:induction false} CommitUntouched(s: Store, ops: seq<Op>, r: DocRef)
    requires !Touches(ops, r)
    ensures r in Commit(s, ops) <==> r in s
    ensures r in s ==> Commit(s, ops)[r] == s[r]
    decreases |ops|
  {
    if ops != [] {
      assert !Touches(ops[1..], r) by {
        forall k | 0 <= k < |ops[1..]| ensures ops[1..][k].ref != r {
          assert ops[1..][k] == ops[k + 1];
        }
      }
      assert ops[0].ref != r;
      CommitUntouched(ApplyOp(s, ops[0]), ops[1..], r);
    }
  }

  /** After a batch stamped with one generation, every document it addresses
      exists and carries that generation. */
  lemma {:induction false} CommitStamps(s: Store, ops: seq<Op>, syncId: int, r: DocRef)
    requires Stamped(ops, syncId) && Touches(ops, r)
    ensures r in Commit(s, ops)
    ensures "syncId" in Commit(s, ops)[r] && Commit(s, ops)[r]["syncId"] == FNum(syncId)
    decreases |ops|
  {
    var rest := ops[1..];
    var s1 := ApplyOp(s, ops[0]);
    assert Stamped(rest, syncId) by {
      forall k | 0 <= k < |rest| ensures rest[k] == ops[k + 1] { }
    }
    if Touches(rest, r) {
      CommitStamps(s1, rest, syncId, r);
    } else {
      CommitUntouched(s1, rest, r);
    }
  }

  // ------------------------------------------------ batches of deletes

  predicate DeletesOnly(b: Batch) {
    forall k :: 0 <= k < |b| ==> b[k].Delete?
  }

  /** The documents a batch addresses. */
  function Targets(b: Batch): set<DocRef> {
    set k | 0 <= k < |b| :: b[k].ref
  }

  /** The documents of a batch with one more operation in front. */
  lemma TargetsCons(op: Op, rest: Batch)
    ensures Targets([op] + rest) == {op.ref} + Targets(rest)
  {
    var b := [op] + rest;
    assert b[0].ref == op.ref;
    forall r | r in Targets(b) ensures r in {op.ref} + Targets(rest) {
      var k :| 0 <= k < |b| && b[k].ref == r;
      if k > 0 {
        assert b[k] == rest[k - 1];
        assert rest[k - 1].ref == r;
      }
    }
    forall r | r in Targets(rest) ensures r in Targets(b) {
      var k :| 0 <= k < |rest| && rest[k].ref == r;
      assert b[k + 1] == rest[k];
    }
  }

  /** A batch of deletes removes exactly the documents it addresses and
      leaves every other one as it was. */
  lemma {:induction false} CommitDeletes(s: Store, b: Batch)
    requires DeletesOnly(b)
    ensures forall r :: r in Commit(s, b) <==> r in s && r !in Targets(b)
    ensures forall r :: r in Commit(s, b) ==> Commit(s, b)[r] == s[r]
    decreases |b|
  {
    if b != [] {
      var rest := b[1..];
      assert DeletesOnly(rest) by {
        forall k | 0 <= k < |rest| ensures rest[k] == b[k + 1] { }
      }
      assert b == [b[0]] + rest;
      TargetsCons(b[0], rest);
      CommitDeletes(ApplyOp(s, b[0]), rest);
    }
  }
}
