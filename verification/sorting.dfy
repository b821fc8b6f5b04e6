/** `Array.prototype.sort` with a comparator that subtracts integer keys, as
    the indexed search orders its results (api/drive/search.ts, lines
    143-147). The language guarantees a stable sort, so the model is a stable
    insertion sort, characterised by three facts: the result is ordered, it is
    a permutation, and the elements of each key keep their relative order.
    Those three determine the result, so sorting again by the same key, in
    either direction, forgets any earlier sort. */
module Sorting {
  import Seqs

  /** `a` may come before `b`: ascending keys, or descending ones. */
  predicate Before<T>(a: T, b: T, key: T -> int, desc: bool) {
    if desc then key(b) <= key(a) else key(a) <= key(b)
  }

  predicate Sorted<T>(xs: seq<T>, key: T -> int, desc: bool) {
    forall i, j :: 0 <= i < j < |xs| ==> Before(xs[i], xs[j], key, desc)
  }

  /** Places `x` after every element that may come before it. */
  function Insert<T>(x: T, ys: seq<T>, key: T -> int, desc: bool): (r: seq<T>)
    ensures |r| == |ys| + 1
    decreases |ys|
  {
    if ys == [] then [x]
    else if !Before(ys[0], x, key, desc) then [x] + ys
    else [ys[0]] + Insert(x, ys[1..], key, desc)
  }

  /** The stable sort: each element in turn is inserted after the sorted
      elements before it. */
  function Sort<T>(xs: seq<T>, key: T -> int, desc: bool): (r: seq<T>)
    ensures |r| == |xs|
    decreases |xs|
  {
    if xs == [] then [] else Insert(xs[|xs| - 1], Sort(xs[..|xs| - 1], key, desc), key, desc)
  }

  /** `xs.filter(p)`. */
  function Filter<T>(xs: seq<T>, p: T -> bool): (r: seq<T>)
    ensures |r| <= |xs|
    ensures forall k :: 0 <= k < |r| ==> p(r[k])
    decreases |xs|
  {
    if xs == [] then [] else (if p(xs[0]) then [xs[0]] else []) + Filter(xs[1..], p)
  }

  /** The elements whose key is `k`, in order. */
  function Run<T>(xs: seq<T>, key: T -> int, k: int): seq<T>
    decreases |xs|
  {
    if xs == [] then [] else (if key(xs[0]) == k then [xs[0]] else []) + Run(xs[1..], key, k)
  }

  /** Every key has the same run in both sequences. */
  ghost predicate SameRuns<T>(ys: seq<T>, zs: seq<T>, key: T -> int) {
    forall k :: Run(ys, key, k) == Run(zs, key, k)
  }

  // ---------------------------------------------------------------- filters

  lemma {:induction false} FilterMembers<T>(xs: seq<T>, p: T -> bool, x: T)
    ensures x in Filter(xs, p) <==> x in xs && p(x)
    decreases |xs|
  {
    if xs != [] {
      FilterMembers(xs[1..], p, x);
      assert xs == [xs[0]] + xs[1..];
    }
  }

  lemma {:induction false} FilterAppend<T>(a: seq<T>, b: seq<T>, p: T -> bool)
    ensures Filter(a + b, p) == Filter(a, p) + Filter(b, p)
    decreases |a|
  {
    if a == [] {
      assert a + b == b;
    } else {
      assert (a + b)[0] == a[0] && (a + b)[1..] == a[1..] + b;
      FilterAppend(a[1..], b, p);
    }
  }

  /** A filter that keeps every element changes nothing. */
  lemma {:induction false} FilterKeepsAll<T>(xs: seq<T>, p: T -> bool)
    requires forall k :: 0 <= k < |xs| ==> p(xs[k])
    ensures Filter(xs, p) == xs
    decreases |xs|
  {
    if xs != [] {
      FilterKeepsAll(xs[1..], p);
    }
  }

  // ---------------------------------------------------------------- runs

  lemma {:induction false} RunAppend<T>(a: seq<T>, b: seq<T>, key: T -> int, k: int)
    ensures Run(a + b, key, k) == Run(a, key, k) + Run(b, key, k)
    decreases |a|
  {
    if a == [] {
      assert a + b == b;
    } else {
      assert (a + b)[0] == a[0] && (a + b)[1..] == a[1..] + b;
      RunAppend(a[1..], b, key, k);
      var g := if key(a[0]) == k then [a[0]] else [];
      Seqs.AppendAssoc(g, Run(a[1..], key, k), Run(b, key, k));
    }
  }

  lemma {:induction false} RunMember<T>(xs: seq<T>, key: T -> int, k: int)
    requires Run(xs, key, k) != []
    ensures exists i :: 0 <= i < |xs| && key(xs[i]) == k
    decreases |xs|
  {
    if key(xs[0]) != k {
      RunMember(xs[1..], key, k);
      var i :| 0 <= i < |xs[1..]| && key(xs[1..][i]) == k;
      assert xs[i + 1] == xs[1..][i];
    }
  }

  /** A key that no element of the sequence has gets an empty run. */
  lemma {:induction false} RunAbsent<T>(xs: seq<T>, key: T -> int, k: int)
    requires forall i :: 0 <= i < |xs| ==> key(xs[i]) != k
    ensures Run(xs, key, k) == []
    decreases |xs|
  {
    if xs != [] {
      RunAbsent(xs[1..], key, k);
    }
  }

  /** Runs commute with filters. */
  lemma {:induction false} RunOfFilter<T>(xs: seq<T>, p: T -> bool, key: T -> int, k: int)
    ensures Run(Filter(xs, p), key, k) == Filter(Run(xs, key, k), p)
    decreases |xs|
  {
    if xs != [] {
      var h := if p(xs[0]) then [xs[0]] else [];
      RunOfFilter(xs[1..], p, key, k);
      RunAppend(h, Filter(xs[1..], p), key, k);
      var g := if key(xs[0]) == k then [xs[0]] else [];
      FilterAppend(g, Run(xs[1..], key, k), p);
    }
  }

  lemma SortedSlice<T>(xs: seq<T>, key: T -> int, desc: bool, a: int, b: int)
    requires Sorted(xs, key, desc) && 0 <= a <= b <= |xs|
    ensures Sorted(xs[a..b], key, desc)
  {
    forall i, j | 0 <= i < j < b - a ensures Before(xs[a..b][i], xs[a..b][j], key, desc) {
      assert xs[a..b][i] == xs[a + i] && xs[a..b][j] == xs[a + j];
    }
  }

  // ---------------------------------------------------------------- insertion

  lemma {:induction false} InsertSorted<T>(x: T, ys: seq<T>, key: T -> int, desc: bool)
    requires Sorted(ys, key, desc)
    ensures Sorted(Insert(x, ys, key, desc), key, desc)
    ensures forall i :: 0 <= i < |Insert(x, ys, key, desc)| ==>
              Insert(x, ys, key, desc)[i] == x || Insert(x, ys, key, desc)[i] in ys
    decreases |ys|
  {
    if ys != [] && Before(ys[0], x, key, desc) {
      var t := Insert(x, ys[1..], key, desc);
      assert Sorted(ys[1..], key, desc);
      InsertSorted(x, ys[1..], key, desc);
      var r := [ys[0]] + t;
      forall i, j | 0 <= i < j < |r| ensures Before(r[i], r[j], key, desc) {
        if i == 0 {
          assert r[j] == t[j - 1];
          assert r[j] == x || r[j] in ys[1..];
        }
      }
      forall i | 0 <= i < |r| ensures r[i] == x || r[i] in ys {
        if i > 0 { assert r[i] == t[i - 1]; }
      }
    }
  }

  lemma {:induction false} SortSorted<T>(xs: seq<T>, key: T -> int, desc: bool)
    ensures Sorted(Sort(xs, key, desc), key, desc)
    decreases |xs|
  {
    if xs != [] {
      SortSorted(xs[..|xs| - 1], key, desc);
      InsertSorted(xs[|xs| - 1], Sort(xs[..|xs| - 1], key, desc), key, desc);
    }
  }

  lemma {:induction false} InsertPermutes<T>(x: T, ys: seq<T>, key: T -> int, desc: bool)
    ensures multiset(Insert(x, ys, key, desc)) == multiset(ys) + multiset{x}
    decreases |ys|
  {
    if ys != [] && Before(ys[0], x, key, desc) {
      InsertPermutes(x, ys[1..], key, desc);
      assert ys == [ys[0]] + ys[1..];
    }
  }

  /** The sort neither loses nor duplicates an element. */
  lemma {:induction false} SortPermutes<T>(xs: seq<T>, key: T -> int, desc: bool)
    ensures multiset(Sort(xs, key, desc)) == multiset(xs)
    decreases |xs|
  {
    if xs != [] {
      SortPermutes(xs[..|xs| - 1], key, desc);
      InsertPermutes(xs[|xs| - 1], Sort(xs[..|xs| - 1], key, desc), key, desc);
      assert xs == xs[..|xs| - 1] + [xs[|xs| - 1]];
    }
  }

  /** An element placed in front of a sorted sequence that it strictly
      precedes has no equal keys behind it. */
  lemma InsertRunFront<T>(x: T, ys: seq<T>, key: T -> int, desc: bool, k: int)
    requires Sorted(ys, key, desc) && ys != [] && !Before(ys[0], x, key, desc)
    ensures Run([x] + ys, key, k) == Run(ys, key, k) + (if key(x) == k then [x] else [])
  {
    assert ([x] + ys)[1..] == ys;
    if key(x) == k {
      forall i | 0 <= i < |ys| ensures key(ys[i]) != k {
        if i > 0 { assert Before(ys[0], ys[i], key, desc); }
      }
      RunAbsent(ys, key, k);
    }
  }

  lemma InsertRunStep<T>(x: T, ys: seq<T>, key: T -> int, desc: bool, k: int)
    requires ys != []
    requires Run(Insert(x, ys[1..], key, desc), key, k) == Run(ys[1..], key, k) + (if key(x) == k then [x] else [])
    ensures Run([ys[0]] + Insert(x, ys[1..], key, desc), key, k) == Run(ys, key, k) + (if key(x) == k then [x] else [])
  {
    var g := if key(ys[0]) == k then [ys[0]] else [];
    Seqs.ConsTail(ys[0], Insert(x, ys[1..], key, desc));
    Seqs.AppendAssoc(g, Run(ys[1..], key, k), if key(x) == k then [x] else []);
  }

  lemma {:induction false} InsertRun<T>(x: T, ys: seq<T>, key: T -> int, desc: bool, k: int)
    requires Sorted(ys, key, desc)
    ensures Run(Insert(x, ys, key, desc), key, k) == Run(ys, key, k) + (if key(x) == k then [x] else [])
    decreases |ys|
  {
    if ys == [] {
    } else if !Before(ys[0], x, key, desc) {
      InsertRunFront(x, ys, key, desc, k);
    } else {
      assert Sorted(ys[1..], key, desc);
      InsertRun(x, ys[1..], key, desc, k);
      InsertRunStep(x, ys, key, desc, k);
    }
  }

  /** Stability: the elements of each key come out in their original order. */
  lemma {:induction false} SortStable<T>(xs: seq<T>, key: T -> int, desc: bool, k: int)
    ensures Run(Sort(xs, key, desc), key, k) == Run(xs, key, k)
    decreases |xs|
  {
    if xs != [] {
      var init, last := xs[..|xs| - 1], xs[|xs| - 1];
      SortStable(init, key, desc, k);
      SortSorted(init, key, desc);
      InsertRun(last, Sort(init, key, desc), key, desc, k);
      assert xs == init + [last];
      RunAppend(init, [last], key, k);
    }
  }

  // ---------------------------------------------------------------- uniqueness

  lemma SortedHeadFirst<T>(zs: seq<T>, key: T -> int, desc: bool, j: int)
    requires Sorted(zs, key, desc) && 0 <= j < |zs|
    ensures Before(zs[0], zs[j], key, desc)
  {
  }

  /** The first element of a non-empty sorted sequence has a key that comes
      no later than any key in the run-equivalent sequence. */
  lemma HeadKeyFirst<T>(ys: seq<T>, zs: seq<T>, key: T -> int, desc: bool)
    requires ys != [] && zs != []
    requires Sorted(zs, key, desc) && SameRuns(ys, zs, key)
    ensures Before(zs[0], ys[0], key, desc)
  {
    var m := key(ys[0]);
    assert Run(ys, key, m) != [];
    assert Run(zs, key, m) == Run(ys, key, m);
    RunMember(zs, key, m);
    var j :| 0 <= j < |zs| && key(zs[j]) == m;
    SortedHeadFirst(zs, key, desc, j);
  }

  lemma TailsSameRuns<T>(ys: seq<T>, zs: seq<T>, key: T -> int)
    requires ys != [] && zs != [] && key(ys[0]) == key(zs[0])
    requires SameRuns(ys, zs, key)
    ensures ys[0] == zs[0]
    ensures SameRuns(ys[1..], zs[1..], key)
  {
    var m := key(ys[0]);
    assert Run(ys, key, m) == Run(zs, key, m);
    assert Run(ys[1..], key, m) == Run(ys, key, m)[1..];
    assert Run(zs[1..], key, m) == Run(zs, key, m)[1..];
    forall k ensures Run(ys[1..], key, k) == Run(zs[1..], key, k) {
      assert Run(ys, key, k) == Run(zs, key, k);
      if k != m {
        assert Run(ys, key, k) == Run(ys[1..], key, k);
        assert Run(zs, key, k) == Run(zs[1..], key, k);
      }
    }
  }

  /** A non-empty sequence has a non-empty run: that of its first key. */
  lemma RunsCover<T>(xs: seq<T>, key: T -> int)
    ensures xs == [] || Run(xs, key, key(xs[0])) != []
  {
  }

  /** Two sorted sequences with the same runs are equal. */
  lemma {:induction false} SortUnique<T>(ys: seq<T>, zs: seq<T>, key: T -> int, desc: bool)
    requires Sorted(ys, key, desc) && Sorted(zs, key, desc)
    requires SameRuns(ys, zs, key)
    ensures ys == zs
    decreases |ys|
  {
    if ys == [] || zs == [] {
      RunsCover(ys, key);
      RunsCover(zs, key);
    } else {
      HeadKeyFirst(ys, zs, key, desc);
      HeadKeyFirst(zs, ys, key, desc);
      TailsSameRuns(ys, zs, key);
      assert Sorted(ys[1..], key, desc) && Sorted(zs[1..], key, desc);
      SortUnique(ys[1..], zs[1..], key, desc);
      assert ys == [ys[0]] + ys[1..] && zs == [zs[0]] + zs[1..];
    }
  }

  /** Any sorted sequence with the runs of `xs` is the sort of `xs`. */
  lemma SortCharacterised<T>(xs: seq<T>, ys: seq<T>, key: T -> int, desc: bool)
    requires Sorted(ys, key, desc)
    requires forall k :: Run(ys, key, k) == Run(xs, key, k)
    ensures ys == Sort(xs, key, desc)
  {
    SortSorted(xs, key, desc);
    forall k ensures Run(ys, key, k) == Run(Sort(xs, key, desc), key, k) {
      SortStable(xs, key, desc, k);
    }
    SortUnique(ys, Sort(xs, key, desc), key, desc);
  }

  /** Sorting a sorted sequence again, in either direction, gives what
      sorting the original gives. */
  lemma Resort<T>(xs: seq<T>, key: T -> int, d1: bool, d2: bool)
    ensures Sort(Sort(xs, key, d1), key, d2) == Sort(xs, key, d2)
  {
    var ys := Sort(Sort(xs, key, d1), key, d2);
    SortSorted(Sort(xs, key, d1), key, d2);
    forall k ensures Run(ys, key, k) == Run(xs, key, k) {
      SortStable(Sort(xs, key, d1), key, d2, k);
      SortStable(xs, key, d1, k);
    }
    SortCharacterised(xs, ys, key, d2);
  }

  /** Filtering an earlier sort and sorting the result gives what filtering
      and sorting the original gives. */
  lemma FilterResort<T>(xs: seq<T>, p: T -> bool, key: T -> int, d1: bool, d2: bool)
    ensures Sort(Filter(Sort(xs, key, d1), p), key, d2) == Sort(Filter(xs, p), key, d2)
  {
    var ys := Sort(Filter(Sort(xs, key, d1), p), key, d2);
    SortSorted(Filter(Sort(xs, key, d1), p), key, d2);
    forall k ensures Run(ys, key, k) == Run(Filter(xs, p), key, k) {
      SortStable(Filter(Sort(xs, key, d1), p), key, d2, k);
      RunOfFilter(Sort(xs, key, d1), p, key, k);
      SortStable(xs, key, d1, k);
      RunOfFilter(xs, p, key, k);
    }
    SortCharacterised(Filter(xs, p), ys, key, d2);
  }
}
