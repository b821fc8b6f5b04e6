/** Offset pagination of the indexed search (api/drive/search.ts, lines 81
    and 149-154): the cursor is the decimal text of the next start index,
    `Array.prototype.slice` cuts the page, and a next cursor is given while
    the page ends before the total. The cursor is parsed with `parseInt`, so
    a negative value is accepted and `slice` counts it from the end. */
module Paging {
  import opened Wrappers
  import Seqs
  import opened Text

  function Min(a: int, b: int): int { if a < b then a else b }

  function Max(a: int, b: int): int { if a < b then b else a }

  /** `String(n)` writes an integer in plain decimal only below 10^21; at
      and above it the text has an exponent. The read-back lemmas stay
      below that bound. */
  const DecimalLimit: int := 1_000_000_000_000_000_000_000

  /** `String(n)` for an integer. */
  function IntString(n: int): string {
    if n < 0 then "-" + IntToString(-n) else IntToString(n)
  }

  /** `parseInt(cursor ?? "0", 10) || 0`. */
  function Offset(c: Option<string>): (n: int)
    ensures c.None? ==> n == 0
    ensures c.Some? && ParseInt(c.value).None? ==> n == 0
    ensures c.Some? && ParseInt(c.value).Some? ==> n == ParseInt(c.value).value
  {
    ParseIntOfString(0);
    OrElse(ParseInt(c.GetOr("0")), 0)
  }

  /** Every integer `String` writes in plain decimal reads back as itself. */
  lemma OffsetOfIntString(n: int)
    requires -DecimalLimit < n < DecimalLimit
    ensures Offset(Some(IntString(n))) == n
  {
    if n < 0 {
      ParseIntOfNegative(-n);
    } else {
      ParseIntOfString(n);
    }
  }

  /** The position `Array.prototype.slice` makes of an index argument: a
      negative one counts from the end, and both are clamped to the bounds. */
  function SliceIndex(i: int, len: nat): (r: nat)
    ensures r <= len
    ensures 0 <= i <= len ==> r == i
    ensures i < 0 && 0 <= len + i ==> r == len + i
    ensures i > len ==> r == len
    ensures len + i < 0 ==> r == 0
  {
    if i < 0 then (if len + i < 0 then 0 else len + i) else if i > len then len else i
  }

  /** `xs.slice(start, end)`: empty when the end position is not after the
      start position. */
  function Slice<T>(xs: seq<T>, start: int, end: int): (r: seq<T>)
    ensures 0 <= start <= end <= |xs| ==> r == xs[start..end]
    ensures forall k :: 0 <= k < |r| ==> r[k] in xs
    ensures exists a: nat, b: nat :: a <= b <= |xs| && r == xs[a..b]
  {
    var a := SliceIndex(start, |xs|);
    var b := SliceIndex(end, |xs|);
    var r := xs[a..if b < a then a else b];
    assert forall k :: 0 <= k < |r| ==> r[k] == xs[a + k];
    r
  }

  datatype Page<T> = Page(items: seq<T>, nextCursor: Option<string>, total: nat)

  /** Lines 149-154: the page from `start`, at most `pageSize` long; the
      next cursor, present exactly while the page stops short of the total,
      reads back as the position after the page. */
  function Paginate<T>(xs: seq<T>, start: int, pageSize: int): (pg: Page<T>)
    requires pageSize >= 1
    ensures pg.total == |xs|
    ensures |pg.items| <= pageSize
    ensures forall k :: 0 <= k < |pg.items| ==> pg.items[k] in xs
    ensures exists a: nat, b: nat :: a <= b <= |xs| && pg.items == xs[a..b]
    ensures 0 <= start <= |xs| ==> pg.items == xs[start..Min(start + pageSize, |xs|)]
    ensures pg.nextCursor.Some? <==> start + pageSize < |xs|
    ensures pg.nextCursor.Some? ==> pg.nextCursor.value == IntString(start + pageSize)
  {
    var end := Min(start + pageSize, |xs|);
    Page(Slice(xs, start, end), if end < |xs| then Some(IntString(end)) else None, |xs|)
  }

  /** A page from a position within the list without a next cursor holds
      the rest of the list. */
  lemma PageLast<T>(xs: seq<T>, start: nat, pageSize: int)
    requires pageSize >= 1 && start <= |xs|
    requires Paginate(xs, start, pageSize).nextCursor.None?
    ensures Paginate(xs, start, pageSize).items == xs[start..]
  {
    assert Min(start + pageSize, |xs|) == |xs|;
  }

  /** A page from a position within the list with a next cursor is followed
      by the rest of the list from the position that cursor reads back as. */
  lemma PageNext<T>(xs: seq<T>, start: nat, pageSize: int)
    requires pageSize >= 1 && start <= |xs| < DecimalLimit
    requires Paginate(xs, start, pageSize).nextCursor.Some?
    ensures var pg := Paginate(xs, start, pageSize);
            var next := Offset(pg.nextCursor);
            start < next <= |xs| && xs[start..] == pg.items + xs[next..]
  {
    var pg := Paginate(xs, start, pageSize);
    var next := start + pageSize;
    assert Offset(pg.nextCursor) == next by { OffsetOfIntString(next); }
    assert xs[start..] == pg.items + xs[next..] by {
      assert pg.items == xs[start..next];
      assert xs[start..] == xs[start..next] + xs[next..];
    }
  }

  /** The page for any start, a negative one included: `slice` takes the
      start and the end `Math.min(start + pageSize, total)` as positions,
      counting a negative one from the end and clamping both to the list,
      and gives nothing when the end position is not after the start. */
  lemma PageAnyStart<T>(xs: seq<T>, start: int, pageSize: int)
    requires pageSize >= 1
    ensures var a := SliceIndex(start, |xs|);
            var b := SliceIndex(Min(start + pageSize, |xs|), |xs|);
            Paginate(xs, start, pageSize).items == xs[a..Max(a, b)]
  {
  }

  /** The next cursor reads back as the position after the page. */
  lemma CursorReadsBack<T>(xs: seq<T>, start: int, pageSize: int)
    requires pageSize >= 1 && |xs| < DecimalLimit && -DecimalLimit < start + pageSize
    ensures var pg := Paginate(xs, start, pageSize);
            pg.nextCursor.Some? ==> Offset(pg.nextCursor) == start + pageSize
  {
    if start + pageSize < |xs| {
      OffsetOfIntString(start + pageSize);
    }
  }

  /** Everything a client reads by starting at `start` and following each
      next cursor until there is none. */
  function Follow<T>(xs: seq<T>, pageSize: int, start: nat): seq<T>
    requires pageSize >= 1 && start <= |xs| < DecimalLimit
    decreases |xs| - start
  {
    var pg := Paginate(xs, start, pageSize);
    if pg.nextCursor.None? then pg.items
    else
      var next := Offset(pg.nextCursor);
      assert next == start + pageSize by { OffsetOfIntString(start + pageSize); }
      pg.items + Follow(xs, pageSize, next)
  }

  /** One page of following: a full page and the pages after it, or the
      rest of the list when the page reaches its end. */
  lemma FollowStep<T>(xs: seq<T>, pageSize: int, start: nat)
    requires pageSize >= 1 && start <= |xs| < DecimalLimit
    ensures start + pageSize < |xs| ==>
              Follow(xs, pageSize, start) == xs[start..start + pageSize] + Follow(xs, pageSize, start + pageSize)
    ensures start + pageSize >= |xs| ==> Follow(xs, pageSize, start) == xs[start..]
  {
    if start + pageSize < |xs| {
      FollowNext(xs, pageSize, start);
      assert Paginate(xs, start, pageSize).items == xs[start..start + pageSize];
    } else {
      assert Paginate(xs, start, pageSize).items == xs[start..|xs|];
    }
  }

  /** A page with a next cursor is followed by the pages from the position
      after it. */
  lemma FollowNext<T>(xs: seq<T>, pageSize: int, start: nat)
    requires pageSize >= 1 && start + pageSize < |xs| < DecimalLimit
    ensures Follow(xs, pageSize, start) == Paginate(xs, start, pageSize).items + Follow(xs, pageSize, start + pageSize)
  {
    var pg := Paginate(xs, start, pageSize);
    assert pg.nextCursor == Some(IntString(start + pageSize));
    assert Offset(pg.nextCursor) == start + pageSize by {
      OffsetOfIntString(start + pageSize);
    }
    assert Follow(xs, pageSize, start) == pg.items + Follow(xs, pageSize, Offset(pg.nextCursor));
  }

  /** Following the cursors from the first page reads every item exactly
      once, in order. */
  lemma {:induction false} FollowCovers<T>(xs: seq<T>, pageSize: int, start: nat)
    requires pageSize >= 1 && start <= |xs| < DecimalLimit
    ensures Follow(xs, pageSize, start) == xs[start..]
    decreases |xs| - start
  {
    FollowStep(xs, pageSize, start);
    if start + pageSize < |xs| {
      var next := start + pageSize;
      FollowCovers(xs, pageSize, next);
      Seqs.SplitAt(xs, start, next);
    }
  }
}
