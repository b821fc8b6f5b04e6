/** The breadcrumb trail of the folder view (src/features/drive/buildCrumbs.ts
    and its copy src/features/drive/path.ts): starting at the open folder, walk
    up the parent links of the listed folders until the root, an unknown
    folder, an empty or null parent, or a folder already visited; then show
    the walk from the top down. The root always reads "All media". */
module Crumbs {
  import opened Wrappers
  import opened Text
  import Seqs

  /** A listed folder, as the folder listing returns it. */
  datatype Folder = Folder(id: string, name: string, parentId: Option<string>)

  datatype Crumb = Crumb(id: string, name: string)

  const RootName := "All media"

  /** Every entry of the map is stored under its own id. */
  predicate IdKeyed(m: map<string, Folder>) {
    forall k :: k in m ==> m[k].id == k
  }

  /** The ids of the listed folders. */
  function Ids(folders: seq<Folder>): set<string> {
    set f | f in folders :: f.id
  }

  /** `new Map(folders.map(f => [f.id, f]))`: a later folder with an id
      already seen replaces the earlier one. */
  function FolderMap(folders: seq<Folder>): (m: map<string, Folder>)
    ensures IdKeyed(m)
    ensures m.Keys == Ids(folders)
    decreases |folders|
  {
    if folders == [] then map[]
    else
      var init := folders[..|folders| - 1];
      var f := folders[|folders| - 1];
      var m := FolderMap(init)[f.id := f];
      Seqs.Snoc(folders);
      m
  }

  /** The folder stored under an id is the last listed folder with it. */
  lemma {:induction false} FolderMapLastWins(folders: seq<Folder>, i: int)
    requires 0 <= i < |folders|
    requires forall j :: i < j < |folders| ==> folders[j].id != folders[i].id
    ensures folders[i].id in FolderMap(folders)
    ensures FolderMap(folders)[folders[i].id] == folders[i]
    decreases |folders|
  {
    if i < |folders| - 1 {
      var init := folders[..|folders| - 1];
      assert init[i] == folders[i];
      FolderMapLastWins(init, i);
    }
  }

  function Reverse<T>(s: seq<T>): (r: seq<T>)
    ensures |r| == |s|
    ensures forall i :: 0 <= i < |s| ==> r[i] == s[|s| - 1 - i]
  {
    if s == [] then [] else Reverse(s[1..]) + [s[0]]
  }

  /** The walk up from `cur`, bottom first, having visited `seen`: empty
      exactly when `cur` is falsy, visited, or neither the root nor a listed
      folder, and otherwise starting at `cur`. */
  function Walk(m: map<string, Folder>, rootId: string, cur: Option<string>, seen: set<string>): (r: seq<Crumb>)
    ensures |r| > 0 <==> Truthy(cur) && cur.value !in seen && (cur.value == rootId || cur.value in m)
    ensures |r| > 0 ==> r[0].id == cur.value
    decreases |m.Keys - seen|
  {
    if !Truthy(cur) || cur.value in seen then []
    else if cur.value == rootId then [Crumb(rootId, RootName)]
    else if cur.value !in m then []
    else
      var f := m[cur.value];
      FewerUnseen(m.Keys, seen, cur.value);
      [Crumb(cur.value, f.name)] + Walk(m, rootId, f.parentId, seen + {cur.value})
  }

  lemma FewerUnseen(keys: set<string>, seen: set<string>, x: string)
    requires x in keys && x !in seen
    ensures |keys - (seen + {x})| < |keys - seen|
  {
    assert keys - (seen + {x}) == (keys - seen) - {x};
  }

  /** One step of the walk: a listed folder other than the root is shown,
      and the walk goes on from its parent. */
  lemma WalkStep(m: map<string, Folder>, rootId: string, cur: Option<string>, seen: set<string>)
    requires Truthy(cur) && cur.value !in seen && cur.value != rootId && cur.value in m
    ensures |m.Keys - (seen + {cur.value})| < |m.Keys - seen|
    ensures Walk(m, rootId, cur, seen) ==
            [Crumb(cur.value, m[cur.value].name)] + Walk(m, rootId, m[cur.value].parentId, seen + {cur.value})
  {
    FewerUnseen(m.Keys, seen, cur.value);
  }

  /** No crumb repeats a folder, and none is in `seen`. */
  predicate Fresh(r: seq<Crumb>, seen: set<string>) {
    && (forall i :: 0 <= i < |r| ==> r[i].id !in seen)
    && (forall i, j :: 0 <= i < j < |r| ==> r[i].id != r[j].id)
  }

  /** Only the last crumb can be the root's, and it then reads "All media". */
  predicate RootLast(r: seq<Crumb>, rootId: string) {
    forall i :: 0 <= i < |r| && r[i].id == rootId ==> i == |r| - 1 && r[i] == Crumb(rootId, RootName)
  }

  /** Every crumb other than the root's names a listed folder by its name. */
  predicate Named(r: seq<Crumb>, m: map<string, Folder>, rootId: string) {
    forall i :: 0 <= i < |r| && r[i].id != rootId ==> r[i].id in m && r[i].name == m[r[i].id].name
  }

  /** Each crumb but the last is a listed folder whose parent is the next. */
  predicate Linked(r: seq<Crumb>, m: map<string, Folder>) {
    forall i :: 0 <= i < |r| - 1 ==> r[i].id in m && m[r[i].id].parentId == Some(r[i + 1].id)
  }

  /** The walk visits each folder at most once and none visited before. */
  lemma {:induction false} WalkFresh(m: map<string, Folder>, rootId: string, cur: Option<string>, seen: set<string>)
    ensures Fresh(Walk(m, rootId, cur, seen), seen)
    decreases |m.Keys - seen|
  {
    if Truthy(cur) && cur.value !in seen && cur.value != rootId && cur.value in m {
      var next := m[cur.value].parentId;
      WalkStep(m, rootId, cur, seen);
      WalkFresh(m, rootId, next, seen + {cur.value});
      var rest := Walk(m, rootId, next, seen + {cur.value});
      assert Fresh(rest, seen + {cur.value});
      var r := [Crumb(cur.value, m[cur.value].name)] + rest;
      assert forall i :: 1 <= i < |r| ==> r[i] == rest[i - 1];
    }
  }

  lemma {:induction false} WalkRootLast(m: map<string, Folder>, rootId: string, cur: Option<string>, seen: set<string>)
    ensures RootLast(Walk(m, rootId, cur, seen), rootId)
    decreases |m.Keys - seen|
  {
    if Truthy(cur) && cur.value !in seen && cur.value != rootId && cur.value in m {
      var next := m[cur.value].parentId;
      WalkStep(m, rootId, cur, seen);
      WalkRootLast(m, rootId, next, seen + {cur.value});
      var rest := Walk(m, rootId, next, seen + {cur.value});
      assert RootLast(rest, rootId);
      var r := [Crumb(cur.value, m[cur.value].name)] + rest;
      assert forall i :: 1 <= i < |r| ==> r[i] == rest[i - 1];
    }
  }

  lemma {:induction false} WalkNames(m: map<string, Folder>, rootId: string, cur: Option<string>, seen: set<string>)
    ensures Named(Walk(m, rootId, cur, seen), m, rootId)
    decreases |m.Keys - seen|
  {
    if Truthy(cur) && cur.value !in seen && cur.value != rootId && cur.value in m {
      var next := m[cur.value].parentId;
      WalkStep(m, rootId, cur, seen);
      WalkNames(m, rootId, next, seen + {cur.value});
      var rest := Walk(m, rootId, next, seen + {cur.value});
      assert Named(rest, m, rootId);
      var r := [Crumb(cur.value, m[cur.value].name)] + rest;
      assert forall i :: 1 <= i < |r| ==> r[i] == rest[i - 1];
    }
  }

  lemma {:induction false} WalkParents(m: map<string, Folder>, rootId: string, cur: Option<string>, seen: set<string>)
    ensures Linked(Walk(m, rootId, cur, seen), m)
    decreases |m.Keys - seen|
  {
    if Truthy(cur) && cur.value !in seen && cur.value != rootId && cur.value in m {
      var next := m[cur.value].parentId;
      WalkStep(m, rootId, cur, seen);
      WalkParents(m, rootId, next, seen + {cur.value});
      var rest := Walk(m, rootId, next, seen + {cur.value});
      assert Linked(rest, m);
      var r := [Crumb(cur.value, m[cur.value].name)] + rest;
      assert forall i :: 1 <= i < |r| ==> r[i] == rest[i - 1];
    }
  }

  /** The walk ends at the root, or at a listed folder whose parent is
      falsy, visited before or on the walk, or neither the root nor listed. */
  predicate Ends(r: seq<Crumb>, m: map<string, Folder>, rootId: string, seen: set<string>) {
    |r| > 0 ==>
      var top := r[|r| - 1];
      || top.id == rootId
      || (&& top.id in m
          && var p := m[top.id].parentId;
             || !Truthy(p)
             || p.value in seen
             || (exists i :: 0 <= i < |r| && r[i].id == p.value)
             || (p.value != rootId && p.value !in m))
  }

  /** The walk stops only where the loop's guards stop it. */
  lemma {:induction false} WalkEnds(m: map<string, Folder>, rootId: string, cur: Option<string>, seen: set<string>)
    ensures Ends(Walk(m, rootId, cur, seen), m, rootId, seen)
    decreases |m.Keys - seen|
  {
    if Truthy(cur) && cur.value !in seen && cur.value != rootId && cur.value in m {
      var next := m[cur.value].parentId;
      WalkStep(m, rootId, cur, seen);
      WalkEnds(m, rootId, next, seen + {cur.value});
      var rest := Walk(m, rootId, next, seen + {cur.value});
      var r := [Crumb(cur.value, m[cur.value].name)] + rest;
      assert forall i :: 1 <= i < |r| ==> r[i] == rest[i - 1];
      if rest != [] {
        var top := rest[|rest| - 1];
        assert r[|r| - 1] == top;
        if top.id != rootId && top.id in m {
          var p := m[top.id].parentId;
          if Truthy(p) && p.value == cur.value {
            assert r[0].id == p.value;
          } else if Truthy(p) && (exists i :: 0 <= i < |rest| && rest[i].id == p.value) {
            var i :| 0 <= i < |rest| && rest[i].id == p.value;
            assert r[i + 1].id == p.value;
          }
        }
      } else {
        var p := m[cur.value].parentId;
        if Truthy(p) && p.value == cur.value {
          assert r[0].id == p.value;
        }
      }
    }
  }

  /** The trail shown for `folderId`: the walk up from it, shown top first. */
  function Trail(rootId: string, folders: seq<Folder>, folderId: string): (r: seq<Crumb>)
    ensures |r| > 0 <==> folderId != "" && (folderId == rootId || folderId in FolderMap(folders))
    ensures |r| > 0 ==> r[|r| - 1].id == folderId
  {
    Reverse(Walk(FolderMap(folders), rootId, Some(folderId), {}))
  }

  /** No folder appears twice in a trail. */
  lemma TrailDistinct(rootId: string, folders: seq<Folder>, folderId: string)
    ensures var r := Trail(rootId, folders, folderId);
            forall i, j :: 0 <= i < j < |r| ==> r[i].id != r[j].id
  {
    var w := Walk(FolderMap(folders), rootId, Some(folderId), {});
    WalkFresh(FolderMap(folders), rootId, Some(folderId), {});
    assert Fresh(w, {});
    var r := Reverse(w);
    forall i, j | 0 <= i < j < |r| ensures r[i].id != r[j].id {
      assert r[i] == w[|w| - 1 - i] && r[j] == w[|w| - 1 - j];
    }
  }

  /** The root can only be the first crumb, and it reads "All media". */
  lemma TrailRootFirst(rootId: string, folders: seq<Folder>, folderId: string)
    ensures var r := Trail(rootId, folders, folderId);
            forall i :: 0 <= i < |r| && r[i].id == rootId ==> i == 0 && r[i] == Crumb(rootId, RootName)
  {
    var w := Walk(FolderMap(folders), rootId, Some(folderId), {});
    WalkRootLast(FolderMap(folders), rootId, Some(folderId), {});
    assert RootLast(w, rootId);
    var r := Reverse(w);
    forall i | 0 <= i < |r| && r[i].id == rootId ensures i == 0 && r[i] == Crumb(rootId, RootName) {
      assert r[i] == w[|w| - 1 - i];
    }
  }

  /** Every other crumb shows a listed folder by its name. */
  lemma TrailNames(rootId: string, folders: seq<Folder>, folderId: string)
    ensures var r := Trail(rootId, folders, folderId);
            var m := FolderMap(folders);
            forall i :: 0 <= i < |r| && r[i].id != rootId ==> r[i].id in m && r[i].name == m[r[i].id].name
  {
    var m := FolderMap(folders);
    var w := Walk(m, rootId, Some(folderId), {});
    WalkNames(m, rootId, Some(folderId), {});
    assert Named(w, m, rootId);
    var r := Reverse(w);
    forall i | 0 <= i < |r| && r[i].id != rootId ensures r[i].id in m && r[i].name == m[r[i].id].name {
      assert r[i] == w[|w| - 1 - i];
    }
  }

  /** Each crumb after the first is a listed folder whose parent is the
      crumb before it. */
  lemma TrailParents(rootId: string, folders: seq<Folder>, folderId: string)
    ensures var r := Trail(rootId, folders, folderId);
            var m := FolderMap(folders);
            forall i :: 0 < i < |r| ==> r[i].id in m && m[r[i].id].parentId == Some(r[i - 1].id)
  {
    var m := FolderMap(folders);
    var w := Walk(m, rootId, Some(folderId), {});
    WalkParents(m, rootId, Some(folderId), {});
    assert Linked(w, m);
    var r := Reverse(w);
    forall i | 0 < i < |r| ensures r[i].id in m && m[r[i].id].parentId == Some(r[i - 1].id) {
      var k := |w| - 1 - i;
      assert r[i] == w[k] && r[i - 1] == w[k + 1];
    }
  }

  /** The first crumb is where the walk up stopped: the root, or a listed
      folder whose parent is falsy, already on the trail, or neither the
      root nor listed. */
  lemma TrailStart(rootId: string, folders: seq<Folder>, folderId: string)
    ensures var r := Trail(rootId, folders, folderId);
            var m := FolderMap(folders);
            |r| > 0 ==>
              || r[0].id == rootId
              || (&& r[0].id in m
                  && var p := m[r[0].id].parentId;
                     || !Truthy(p)
                     || (exists i :: 0 <= i < |r| && r[i].id == p.value)
                     || (p.value != rootId && p.value !in m))
  {
    var m := FolderMap(folders);
    var w := Walk(m, rootId, Some(folderId), {});
    WalkEnds(m, rootId, Some(folderId), {});
    var r := Reverse(w);
    if |r| > 0 {
      assert r[0] == w[|w| - 1];
      if r[0].id != rootId && r[0].id in m {
        var p := m[r[0].id].parentId;
        if Truthy(p) && (exists i :: 0 <= i < |w| && w[i].id == p.value) {
          var i :| 0 <= i < |w| && w[i].id == p.value;
          assert r[|w| - 1 - i] == w[i];
        }
      }
    }
  }

  /** Opening the root shows the single crumb "All media". */
  lemma TrailOfRoot(rootId: string, folders: seq<Folder>)
    requires rootId != ""
    ensures Trail(rootId, folders, rootId) == [Crumb(rootId, RootName)]
  {
  }

  /** A listed folder directly under the root shows the root and then it. */
  lemma TrailUnderRoot(rootId: string, folders: seq<Folder>, i: int)
    requires 0 <= i < |folders|
    requires forall j :: i < j < |folders| ==> folders[j].id != folders[i].id
    requires folders[i].id != "" && folders[i].id != rootId
    requires folders[i].parentId == Some(rootId) && rootId != ""
    ensures Trail(rootId, folders, folders[i].id) ==
            [Crumb(rootId, RootName), Crumb(folders[i].id, folders[i].name)]
  {
    FolderMapLastWins(folders, i);
    var m := FolderMap(folders);
    var id := folders[i].id;
    WalkStep(m, rootId, Some(id), {});
    assert Walk(m, rootId, Some(rootId), {id}) == [Crumb(rootId, RootName)];
    assert Walk(m, rootId, Some(id), {}) == [Crumb(id, folders[i].name), Crumb(rootId, RootName)];
  }
}

/** src/features/drive/buildCrumbs.ts, lines 3-26, as written: a loop over the
    parent links guarded by a `seen` set. */
module DriveCrumbs {
  import opened Wrappers
  import opened Text
  import Seqs
  import opened Crumbs

  method BuildCrumbs(rootId: string, folders: seq<Folder>, folderId: string) returns (crumbs: seq<Crumb>)
    ensures crumbs == Trail(rootId, folders, folderId)
  {
    var byId := FolderMap(folders);
    var pushed: seq<Crumb> := [];
    var cur: Option<string> := Some(folderId);
    var seen: set<string> := {};
    var stop := false;
    while !stop && Truthy(cur) && cur.value !in seen
      invariant stop ==> pushed == Walk(byId, rootId, Some(folderId), {})
      invariant !stop ==> pushed + Walk(byId, rootId, cur, seen) == Walk(byId, rootId, Some(folderId), {})
      decreases if stop then 0 else 1, |byId.Keys - seen|
    {
      var c := cur.value;
      ghost var before := seen;
      seen := seen + {c};
      if c == rootId {
        pushed := pushed + [Crumb(rootId, RootName)];
        stop := true;
      } else if c !in byId {
        stop := true;
      } else {
        var f := byId[c];
        WalkStep(byId, rootId, cur, before);
        Seqs.AppendAssoc(pushed, [Crumb(c, f.name)], Walk(byId, rootId, f.parentId, seen));
        pushed := pushed + [Crumb(f.id, f.name)];
        cur := f.parentId;
      }
    }
    if !stop {
      assert Walk(byId, rootId, cur, seen) == [];
      assert pushed + [] == pushed;
    }
    assert pushed == Walk(byId, rootId, Some(folderId), {});
    crumbs := Reverse(pushed);
  }
}

/** src/features/drive/path.ts, lines 3-26: the same walk, its visited set
    named `guard`. Both copies compute `Crumbs.Trail`, so the two pages that
    use them show the same trail for every folder list. */
module PathCrumbs {
  import opened Wrappers
  import opened Text
  import Seqs
  import opened Crumbs

  method BuildCrumbs(rootId: string, folders: seq<Folder>, folderId: string) returns (crumbs: seq<Crumb>)
    ensures crumbs == Trail(rootId, folders, folderId)
  {
    var byId := FolderMap(folders);
    var trail: seq<Crumb> := [];
    var cur: Option<string> := Some(folderId);
    var guard: set<string> := {};
    var done := false;
    while !done && Truthy(cur) && cur.value !in guard
      invariant done ==> trail == Walk(byId, rootId, Some(folderId), {})
      invariant !done ==> trail + Walk(byId, rootId, cur, guard) == Walk(byId, rootId, Some(folderId), {})
      decreases if done then 0 else 1, |byId.Keys - guard|
    {
      var c := cur.value;
      ghost var before := guard;
      guard := guard + {c};
      if c == rootId {
        trail := trail + [Crumb(rootId, RootName)];
        done := true;
      } else if c !in byId {
        done := true;
      } else {
        var f := byId[c];
        WalkStep(byId, rootId, cur, before);
        Seqs.AppendAssoc(trail, [Crumb(c, f.name)], Walk(byId, rootId, f.parentId, guard));
        trail := trail + [Crumb(f.id, f.name)];
        cur := f.parentId;
      }
    }
    if !done {
      assert Walk(byId, rootId, cur, guard) == [];
      assert trail + [] == trail;
    }
    assert trail == Walk(byId, rootId, Some(folderId), {});
    crumbs := Reverse(trail);
  }
}
