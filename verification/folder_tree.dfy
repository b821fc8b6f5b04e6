/** The folder tree of the side panel (components/FolderTree/FolderTree.tsx,
    lines 22-48): the listed folders keyed by id, a stand-in root when the
    root is not listed, each folder filed under its parent (a null parent
    under the key "__null__"), every group sorted by name, and the tree
    grown from the root by recursion. The recursion has no guard: when the
    parent links lead from the root back to the root it never returns. The
    model returns `None` exactly then. */
module FolderTree {
  import opened Wrappers
  import Seqs
  import Text
  import Sorting
  import Crumbs

  type Folder = Crumbs.Folder

  /** The key a folder without a parent is filed under. */
  const NullKey := "__null__"

  /** The name of the stand-in root. */
  const StandInName := "Root"

  function StandIn(rootId: string): Folder {
    Crumbs.Folder(rootId, StandInName, None)
  }

  // ------------------------------------------------------------ the map

  /** The ids of a sequence of folders, in order. */
  function IdsOf(es: seq<Folder>): (r: seq<string>)
    ensures |r| == |es|
    ensures forall k :: 0 <= k < |es| ==> r[k] == es[k].id
  {
    if es == [] then [] else [es[0].id] + IdsOf(es[1..])
  }

  lemma IdsOfSnoc(es: seq<Folder>, f: Folder)
    ensures IdsOf(es + [f]) == IdsOf(es) + [f.id]
  {
    assert IdsOf(es + [f]) == IdsOf(es) + [f.id];
  }

  /** `Map.prototype.set` on the map's entries in insertion order: an id
      already present keeps its place and takes the new folder, a new id
      goes last. */
  function MapSet(es: seq<Folder>, f: Folder): (r: seq<Folder>)
    ensures forall k :: 0 <= k < |r| ==> r[k] == f || r[k] in es
    ensures f in r
  {
    if es == [] then [f]
    else if es[0].id == f.id then [f] + es[1..]
    else [es[0]] + MapSet(es[1..], f)
  }

  /** Setting an id keeps the order of the ids, adding the id last when new. */
  lemma {:induction false} MapSetIds(es: seq<Folder>, f: Folder)
    ensures IdsOf(MapSet(es, f)) == if f.id in IdsOf(es) then IdsOf(es) else IdsOf(es) + [f.id]
  {
    if es != [] {
      assert IdsOf(es) == [es[0].id] + IdsOf(es[1..]);
      if es[0].id == f.id {
        assert IdsOf([f] + es[1..]) == [f.id] + IdsOf(es[1..]);
      } else {
        MapSetIds(es[1..], f);
        var rest := MapSet(es[1..], f);
        assert IdsOf([es[0]] + rest) == [es[0].id] + IdsOf(rest);
      }
    }
  }

  /** With distinct ids, setting an id replaces the folder with that id and
      keeps every other. */
  lemma {:induction false} MapSetKeeps(es: seq<Folder>, f: Folder)
    requires Text.Distinct(IdsOf(es))
    ensures forall e :: e in MapSet(es, f) ==> e == f || (e in es && e.id != f.id)
  {
    if es != [] {
      var ids := IdsOf(es);
      if es[0].id == f.id {
        var r := [f] + es[1..];
        forall e | e in r ensures e == f || (e in es && e.id != f.id) {
          if e != f {
            var k :| 1 <= k < |r| && r[k] == e;
            assert ids[k] == e.id && ids[0] == f.id;
          }
        }
      } else {
        assert IdsOf(es[1..]) == ids[1..];
        MapSetKeeps(es[1..], f);
      }
    }
  }

  /** The entries of `new Map(folders.map(f => [f.id, f]))`, in the order
      the map iterates them. */
  function Entries(folders: seq<Folder>): (r: seq<Folder>)
    decreases |folders|
  {
    if folders == [] then [] else MapSet(Entries(folders[..|folders| - 1]), folders[|folders| - 1])
  }

  /** The map iterates each listed id once, in order of first listing. */
  lemma {:induction false} EntriesOrder(folders: seq<Folder>)
    ensures IdsOf(Entries(folders)) == Text.Dedupe(IdsOf(folders))
    decreases |folders|
  {
    if folders != [] {
      var init := folders[..|folders| - 1];
      var f := folders[|folders| - 1];
      EntriesOrder(init);
      MapSetIds(Entries(init), f);
      Seqs.Snoc(folders);
      IdsOfSnoc(init, f);
      Text.DedupeSnoc(IdsOf(init), f.id);
      assert f.id in IdsOf(Entries(init)) <==> f.id in IdsOf(init);
    }
  }

  /** Each entry is the folder `Crumbs.FolderMap` keeps for its id: the last
      listed one. */
  lemma {:induction false} EntriesLastWins(folders: seq<Folder>)
    ensures forall e :: e in Entries(folders) ==> e.id in Crumbs.FolderMap(folders) && Crumbs.FolderMap(folders)[e.id] == e
    decreases |folders|
  {
    if folders != [] {
      var init := folders[..|folders| - 1];
      EntriesLastWins(init);
      EntriesOrder(init);
      MapSetKeeps(Entries(init), folders[|folders| - 1]);
    }
  }

  /** The entries hold every listed id. */
  lemma EntriesCover(folders: seq<Folder>)
    ensures forall id :: id in Crumbs.FolderMap(folders) ==> id in IdsOf(Entries(folders))
  {
    EntriesOrder(folders);
    forall id | id in Crumbs.FolderMap(folders) ensures id in IdsOf(Entries(folders)) {
      var f :| f in folders && f.id == id;
      var i :| 0 <= i < |folders| && folders[i] == f;
      assert IdsOf(folders)[i] == id;
    }
  }

  /** `byId` after line 25: the listed folders, and the stand-in root when
      the root is not listed. */
  function ById(folders: seq<Folder>, rootId: string): (m: map<string, Folder>)
    ensures Crumbs.IdKeyed(m)
    ensures rootId in m
    ensures forall id :: id in Crumbs.FolderMap(folders) ==> id in m && m[id] == Crumbs.FolderMap(folders)[id]
  {
    var listed := Crumbs.FolderMap(folders);
    if rootId in listed then listed else listed[rootId := StandIn(rootId)]
  }

  /** `byId.values()` in iteration order: the stand-in root, if set, comes
      last. */
  function Values(folders: seq<Folder>, rootId: string): seq<Folder> {
    var es := Entries(folders);
    if rootId in Crumbs.FolderMap(folders) then es else es + [StandIn(rootId)]
  }

  /** Every value is the entry its id maps to, and every id has its value. */
  lemma ValuesAreById(folders: seq<Folder>, rootId: string)
    ensures var m := ById(folders, rootId);
            && (forall e :: e in Values(folders, rootId) ==> e.id in m && m[e.id] == e)
            && (forall id :: id in m ==> m[id] in Values(folders, rootId))
  {
    var m := ById(folders, rootId);
    var es := Entries(folders);
    EntriesLastWins(folders);
    EntriesCover(folders);
    forall id | id in m ensures m[id] in Values(folders, rootId) {
      if id in Crumbs.FolderMap(folders) {
        var k :| 0 <= k < |IdsOf(es)| && IdsOf(es)[k] == id;
        assert es[k] in es;
      }
    }
  }

  // ------------------------------------------------------------ grouping

  /** `f.parentId ?? '__null__'`. */
  function ParentKey(f: Folder): string {
    if f.parentId.Some? then f.parentId.value else NullKey
  }

  function HasParent(key: string): Folder -> bool {
    (f: Folder) => ParentKey(f) == key
  }

  /** `childrenMap.get(key) ?? []`. */
  function Kids(g: map<string, seq<Folder>>, key: string): seq<Folder> {
    if key in g then g[key] else []
  }

  /** Lines 28-34: each value pushed onto the group of its parent key, in
      iteration order. */
  function Group(es: seq<Folder>): (g: map<string, seq<Folder>>)
    ensures forall key :: key in g ==> Kids(g, key) != []
    decreases |es|
  {
    if es == [] then map[]
    else
      var g := Group(es[..|es| - 1]);
      var f := es[|es| - 1];
      g[ParentKey(f) := Kids(g, ParentKey(f)) + [f]]
  }

  /** Every group is the values with that parent key, in their order, and a
      key without a group has no such values. */
  lemma {:induction false} GroupFilters(es: seq<Folder>, key: string)
    ensures Kids(Group(es), key) == Sorting.Filter(es, HasParent(key))
    decreases |es|
  {
    if es != [] {
      var init := es[..|es| - 1];
      var f := es[|es| - 1];
      GroupFilters(init, key);
      Seqs.Snoc(es);
      Sorting.FilterAppend(init, [f], HasParent(key));
      assert [f][1..] == [];
    }
  }

  /** The collation `localeCompare` applies, as a rank of each name. */
  function NameKey(collate: string -> int): Folder -> int {
    (f: Folder) => collate(f.name)
  }

  /** Lines 36-39: every group sorted by name; the sort is stable. */
  function SortGroups(g: map<string, seq<Folder>>, collate: string -> int): (r: map<string, seq<Folder>>)
    ensures r.Keys == g.Keys
  {
    map key | key in g :: Sorting.Sort(g[key], NameKey(collate), false)
  }

  /** Lines 28-39: the children filed under a key are the values with that
      parent key, sorted by name, ties kept in iteration order. */
  function Children(folders: seq<Folder>, rootId: string, collate: string -> int): (g: map<string, seq<Folder>>)
  {
    SortGroups(Group(Values(folders, rootId)), collate)
  }

  lemma ChildrenFiled(folders: seq<Folder>, rootId: string, collate: string -> int, key: string)
    ensures Kids(Children(folders, rootId, collate), key) ==
            Sorting.Sort(Sorting.Filter(Values(folders, rootId), HasParent(key)), NameKey(collate), false)
  {
    GroupFilters(Values(folders, rootId), key);
  }

  lemma SortMembers(xs: seq<Folder>, key: Folder -> int, x: Folder)
    ensures x in Sorting.Sort(xs, key, false) <==> x in xs
  {
    Sorting.SortPermutes(xs, key, false);
    assert x in multiset(Sorting.Sort(xs, key, false)) <==> x in multiset(xs);
  }

  // ------------------------------------------------------------ the tree

  /** A node: the folder's fields and its children. */
  datatype Tree = Node(folder: Folder, children: seq<Tree>)

  /** Every group holds values of `byId` filed under their own parent key. */
  predicate Filed(g: map<string, seq<Folder>>, byId: map<string, Folder>) {
    && Crumbs.IdKeyed(byId)
    && forall key :: key in g ==> GroupFiled(g[key], key, byId)
  }

  /** Every folder of a group is a value of `byId` with that parent key. */
  predicate GroupFiled(kids: seq<Folder>, key: string, byId: map<string, Folder>) {
    forall c :: c in kids ==> c.id in byId && byId[c.id] == c && ParentKey(c) == key
  }

  /** Every value of `byId` is filed under its parent key. */
  predicate Complete(g: map<string, seq<Folder>>, byId: map<string, Folder>) {
    forall id :: id in byId ==> byId[id] in Kids(g, ParentKey(byId[id]))
  }

  /** Every node's children are the folders filed under its id, in order. */
  predicate WellBuilt(t: Tree, g: map<string, seq<Folder>>)
    decreases t
  {
    var kids := Kids(g, t.folder.id);
    && |t.children| == |kids|
    && forall k :: 0 <= k < |kids| ==> t.children[k].folder == kids[k] && WellBuilt(t.children[k], g)
  }

  /** Lines 41-45, `make(id)`, entered with the ids of the calls still open
      in `path`. A call on an id that is still open repeats that call with
      the same argument, which the source does without end; the model
      returns `None` for it, and for any call that contains one. */
  function Make(g: map<string, seq<Folder>>, byId: map<string, Folder>, id: string, path: set<string>): (r: Option<Tree>)
    requires Filed(g, byId) && id in byId
    ensures id in path ==> r.None?
    ensures r.Some? ==> r.value.folder == byId[id] && WellBuilt(r.value, g)
    decreases |byId.Keys - path|, 0
  {
    if id in path then None
    else
      Crumbs.FewerUnseen(byId.Keys, path, id);
      match MakeAll(g, byId, Kids(g, id), path + {id})
      case None => None
      case Some(ts) => Some(Node(byId[id], ts))
  }

  /** `kids.map(c => make(c.id))`. */
  function MakeAll(g: map<string, seq<Folder>>, byId: map<string, Folder>, kids: seq<Folder>, path: set<string>): (r: Option<seq<Tree>>)
    requires Filed(g, byId)
    requires forall c :: c in kids ==> c.id in byId && byId[c.id] == c
    ensures r.Some? ==> |r.value| == |kids|
    ensures r.Some? ==> forall k :: 0 <= k < |kids| ==> r.value[k].folder == kids[k] && WellBuilt(r.value[k], g)
    decreases |byId.Keys - path|, |kids| + 1
  {
    if kids == [] then Some([])
    else
      match Make(g, byId, kids[0].id, path)
      case None => None
      case Some(t) =>
        match MakeAll(g, byId, kids[1..], path)
        case None => None
        case Some(ts) => Some([t] + ts)
  }

  /** A folder filed under a key is a value of `byId` whose parent key it
      is. */
  lemma KidFiled(folders: seq<Folder>, rootId: string, collate: string -> int, key: string, c: Folder)
    requires c in Kids(Children(folders, rootId, collate), key)
    ensures var byId := ById(folders, rootId);
            c.id in byId && byId[c.id] == c && ParentKey(c) == key
  {
    var vs := Values(folders, rootId);
    ValuesAreById(folders, rootId);
    ChildrenFiled(folders, rootId, collate, key);
    SortMembers(Sorting.Filter(vs, HasParent(key)), NameKey(collate), c);
    Sorting.FilterMembers(vs, HasParent(key), c);
  }

  lemma GroupIsFiled(folders: seq<Folder>, rootId: string, collate: string -> int, key: string)
    ensures GroupFiled(Kids(Children(folders, rootId, collate), key), key, ById(folders, rootId))
  {
    forall c | c in Kids(Children(folders, rootId, collate), key)
      ensures c.id in ById(folders, rootId) && ById(folders, rootId)[c.id] == c && ParentKey(c) == key
    {
      KidFiled(folders, rootId, collate, key, c);
    }
  }

  /** Every value of `byId` is filed under its parent key. */
  lemma ValueFiled(folders: seq<Folder>, rootId: string, collate: string -> int, id: string)
    requires id in ById(folders, rootId)
    ensures var f := ById(folders, rootId)[id];
            f in Kids(Children(folders, rootId, collate), ParentKey(f))
  {
    var vs := Values(folders, rootId);
    var f := ById(folders, rootId)[id];
    ValuesAreById(folders, rootId);
    ChildrenFiled(folders, rootId, collate, ParentKey(f));
    SortMembers(Sorting.Filter(vs, HasParent(ParentKey(f))), NameKey(collate), f);
    Sorting.FilterMembers(vs, HasParent(ParentKey(f)), f);
  }

  /** The groups built from the folders file only values of `byId`, each
      under its own parent key. */
  lemma ChildrenFiledById(folders: seq<Folder>, rootId: string, collate: string -> int)
    ensures Filed(Children(folders, rootId, collate), ById(folders, rootId))
  {
    var g := Children(folders, rootId, collate);
    var byId := ById(folders, rootId);
    forall key | key in g ensures GroupFiled(g[key], key, byId) {
      GroupIsFiled(folders, rootId, collate, key);
    }
  }

  /** They file every value of `byId`. */
  lemma ChildrenComplete(folders: seq<Folder>, rootId: string, collate: string -> int)
    ensures Complete(Children(folders, rootId, collate), ById(folders, rootId))
  {
    var g := Children(folders, rootId, collate);
    var byId := ById(folders, rootId);
    forall id | id in byId ensures byId[id] in Kids(g, ParentKey(byId[id])) {
      ValueFiled(folders, rootId, collate, id);
    }
    CompleteIntro(g, byId);
  }

  lemma CompleteIntro(g: map<string, seq<Folder>>, byId: map<string, Folder>)
    requires forall id :: id in byId ==> byId[id] in Kids(g, ParentKey(byId[id]))
    ensures Complete(g, byId)
  {
  }

  /** `buildTree(folders, rootId)` with `localeCompare` ranking names by
      `collate`; `None` where the source recurses without end. The root
      node is the listed root (the last one listed) or the stand-in, and
      every node's children are the folders filed under it. */
  function BuildTree(folders: seq<Folder>, rootId: string, collate: string -> int): (r: Option<Tree>)
    ensures r.Some? ==>
              r.value.folder == if rootId in Crumbs.FolderMap(folders) then Crumbs.FolderMap(folders)[rootId] else StandIn(rootId)
    ensures r.Some? ==> WellBuilt(r.value, Children(folders, rootId, collate))
  {
    ChildrenFiledById(folders, rootId, collate);
    Make(Children(folders, rootId, collate), ById(folders, rootId), rootId, {})
  }

  /** The children of every node of a built tree are the folders whose
      parent is that node (a parentless folder counting as filed under
      "__null__"), sorted by name, ties in order of first listing. */
  lemma NodeChildren(folders: seq<Folder>, rootId: string, collate: string -> int, t: Tree)
    requires WellBuilt(t, Children(folders, rootId, collate))
    ensures var sorted := Sorting.Sort(Sorting.Filter(Values(folders, rootId), HasParent(t.folder.id)), NameKey(collate), false);
            && |t.children| == |sorted|
            && forall k :: 0 <= k < |t.children| ==> t.children[k].folder == sorted[k]
  {
    ChildrenFiled(folders, rootId, collate, t.folder.id);
  }

  /** Siblings appear in collation order of their names. */
  lemma NodeChildrenSorted(folders: seq<Folder>, rootId: string, collate: string -> int, t: Tree)
    requires WellBuilt(t, Children(folders, rootId, collate))
    ensures forall i, j :: 0 <= i < j < |t.children| ==>
              collate(t.children[i].folder.name) <= collate(t.children[j].folder.name)
  {
    var sorted := Sorting.Sort(Sorting.Filter(Values(folders, rootId), HasParent(t.folder.id)), NameKey(collate), false);
    NodeChildren(folders, rootId, collate, t);
    Sorting.SortSorted(Sorting.Filter(Values(folders, rootId), HasParent(t.folder.id)), NameKey(collate), false);
    forall i, j | 0 <= i < j < |t.children| ensures collate(t.children[i].folder.name) <= collate(t.children[j].folder.name) {
      assert Sorting.Before(sorted[i], sorted[j], NameKey(collate), false);
    }
  }

  // ------------------------------------------------------------ divergence

  /** The parent key of a listed id. */
  function Up(byId: map<string, Folder>, x: string): (r: Option<string>)
    ensures r.Some? <==> x in byId
  {
    if x in byId then Some(ParentKey(byId[x])) else None
  }

  /** `n` parent steps from `x`, each from a listed id. */
  function UpN(byId: map<string, Folder>, x: string, n: nat): Option<string>
    decreases n
  {
    if n == 0 then Some(x)
    else match Up(byId, x)
      case None => None
      case Some(y) => UpN(byId, y, n - 1)
  }

  /** Following parent keys from `x` leads back to `x`. */
  ghost predicate OnCycle(byId: map<string, Folder>, x: string) {
    exists n: nat :: 1 <= n && UpN(byId, x, n) == Some(x)
  }

  /** The ids `d` parent steps above `x` passes through, `x` excluded. */
  function Ancestors(byId: map<string, Folder>, x: string, d: nat): set<string>
    decreases d
  {
    if d == 0 then {}
    else match Up(byId, x)
      case None => {}
      case Some(y) => {y} + Ancestors(byId, y, d - 1)
  }

  lemma {:induction false} UpNAdd(byId: map<string, Folder>, x: string, a: nat, b: nat)
    ensures UpN(byId, x, a + b) == if UpN(byId, x, a).Some? then UpN(byId, UpN(byId, x, a).value, b) else None
    decreases a
  {
    if a > 0 && Up(byId, x).Some? {
      UpNAdd(byId, Up(byId, x).value, a - 1, b);
    }
  }

  lemma {:induction false} AncestorsReached(byId: map<string, Folder>, x: string, d: nat, z: string)
    requires z in Ancestors(byId, x, d)
    ensures exists j: nat :: 1 <= j <= d && UpN(byId, x, j) == Some(z)
    decreases d
  {
    var y := Up(byId, x).value;
    if z == y {
      assert UpN(byId, x, 1) == Some(z);
    } else {
      AncestorsReached(byId, y, d - 1, z);
      var j: nat :| 1 <= j <= d - 1 && UpN(byId, y, j) == Some(z);
      assert UpN(byId, x, j + 1) == Some(z);
    }
  }

  /** A call whose children contain a call without end has no end. */
  lemma {:induction false} MakeAllStops(g: map<string, seq<Folder>>, byId: map<string, Folder>, kids: seq<Folder>, path: set<string>, k: int)
    requires Filed(g, byId)
    requires forall c :: c in kids ==> c.id in byId && byId[c.id] == c
    requires 0 <= k < |kids| && Make(g, byId, kids[k].id, path).None?
    ensures MakeAll(g, byId, kids, path).None?
    decreases k
  {
    if k > 0 {
      MakeAllStops(g, byId, kids[1..], path, k - 1);
    }
  }

  /** A call of `kids.map(make)` without end has a child call without end. */
  lemma {:induction false} MakeAllStopped(g: map<string, seq<Folder>>, byId: map<string, Folder>, kids: seq<Folder>, path: set<string>)
    returns (k: int)
    requires Filed(g, byId)
    requires forall c :: c in kids ==> c.id in byId && byId[c.id] == c
    requires MakeAll(g, byId, kids, path).None?
    ensures 0 <= k < |kids| && Make(g, byId, kids[k].id, path).None?
    decreases |kids|
  {
    if Make(g, byId, kids[0].id, path).None? {
      k := 0;
    } else {
      k := MakeAllStopped(g, byId, kids[1..], path);
      k := k + 1;
    }
  }

  /** The step of a call without end: `make(x)` with `x` open, or a child
      call without end. */
  lemma MakeStopped(g: map<string, seq<Folder>>, byId: map<string, Folder>, x: string, path: set<string>)
    returns (c: Folder)
    requires Filed(g, byId) && x in byId && x !in path
    requires Make(g, byId, x, path).None?
    ensures c in Kids(g, x) && c.id in byId && Up(byId, c.id) == Some(x)
    ensures |byId.Keys - (path + {x})| < |byId.Keys - path|
    ensures Make(g, byId, c.id, path + {x}).None?
  {
    Crumbs.FewerUnseen(byId.Keys, path, x);
    assert GroupFiled(Kids(g, x), x, byId);
    var k := MakeAllStopped(g, byId, Kids(g, x), path + {x});
    c := Kids(g, x)[k];
  }

  /** A call without end, entered with its open calls being the ancestors
      of `x` up to the root, means the root lies on a cycle of parent keys. */
  lemma {:induction false} StoppedOnCycle(g: map<string, seq<Folder>>, byId: map<string, Folder>, rootId: string, x: string, path: set<string>, d: nat)
    requires Filed(g, byId) && x in byId
    requires UpN(byId, x, d) == Some(rootId) && path == Ancestors(byId, x, d)
    requires Make(g, byId, x, path).None?
    ensures OnCycle(byId, rootId)
    decreases |byId.Keys - path|
  {
    if x in path {
      AncestorsReached(byId, x, d, x);
      var j: nat :| 1 <= j <= d && UpN(byId, x, j) == Some(x);
      UpNAdd(byId, x, j, d);
      UpNAdd(byId, x, d, j);
      assert UpN(byId, rootId, j) == Some(rootId);
    } else {
      var c := MakeStopped(g, byId, x, path);
      assert UpN(byId, c.id, d + 1) == Some(rootId);
      assert Ancestors(byId, c.id, d + 1) == path + {x};
      StoppedOnCycle(g, byId, rootId, c.id, path + {x}, d + 1);
    }
  }

  /** Going down the cycle: the call on the id `r` parent steps above the
      root, entered with the root open, has no end. */
  lemma {:induction false} DescendStops(g: map<string, seq<Folder>>, byId: map<string, Folder>, rootId: string, r: nat, path: set<string>)
    requires Filed(g, byId) && Complete(g, byId)
    requires rootId in path
    requires UpN(byId, rootId, r).Some? && UpN(byId, rootId, r).value in byId
    ensures Make(g, byId, UpN(byId, rootId, r).value, path).None?
    decreases r
  {
    var x := UpN(byId, rootId, r).value;
    if r > 0 && x !in path {
      UpNAdd(byId, rootId, r - 1, 1);
      var y := UpN(byId, rootId, r - 1).value;
      assert Up(byId, y) == Some(x);
      DescendStops(g, byId, rootId, r - 1, path + {x});
      ChildStops(g, byId, x, path, y);
    }
  }

  /** A listed child whose call has no end stops its parent's call. */
  lemma ChildStops(g: map<string, seq<Folder>>, byId: map<string, Folder>, x: string, path: set<string>, y: string)
    requires Filed(g, byId) && Complete(g, byId) && x in byId && x !in path
    requires y in byId && Up(byId, y) == Some(x)
    requires Make(g, byId, y, path + {x}).None?
    ensures Make(g, byId, x, path).None?
  {
    var kids := Kids(g, x);
    assert byId[y] in kids;
    assert GroupFiled(kids, x, byId);
    var k :| 0 <= k < |kids| && kids[k] == byId[y];
    MakeAllStops(g, byId, kids, path + {x}, k);
  }

  /** A root on a cycle of parent keys makes the tree's recursion endless. */
  lemma CycleStops(g: map<string, seq<Folder>>, byId: map<string, Folder>, rootId: string)
    requires Filed(g, byId) && Complete(g, byId) && rootId in byId
    requires OnCycle(byId, rootId)
    ensures Make(g, byId, rootId, {}).None?
  {
    var n: nat :| 1 <= n && UpN(byId, rootId, n) == Some(rootId);
    UpNAdd(byId, rootId, n - 1, 1);
    var y := UpN(byId, rootId, n - 1).value;
    assert Up(byId, y) == Some(rootId);
    var none: set<string> := {};
    DescendStops(g, byId, rootId, n - 1, none + {rootId});
    ChildStops(g, byId, rootId, none, y);
  }

  /** `buildTree` returns exactly when following parent keys from the root
      (a null parent read as "__null__") never comes back to the root. */
  lemma BuildTreeEndsIff(folders: seq<Folder>, rootId: string, collate: string -> int)
    ensures BuildTree(folders, rootId, collate).None? <==> OnCycle(ById(folders, rootId), rootId)
  {
    var g := Children(folders, rootId, collate);
    var byId := ById(folders, rootId);
    ChildrenFiledById(folders, rootId, collate);
    ChildrenComplete(folders, rootId, collate);
    if OnCycle(byId, rootId) {
      CycleStops(g, byId, rootId);
    }
    if Make(g, byId, rootId, {}).None? {
      StoppedOnCycle(g, byId, rootId, rootId, {}, 0);
    }
  }

  /** With nothing listed, the tree is the stand-in root alone. */
  lemma EmptyListingTree(rootId: string, collate: string -> int)
    requires rootId != NullKey
    ensures BuildTree([], rootId, collate) == Some(Node(StandIn(rootId), []))
  {
    var byId := ById([], rootId);
    BuildTreeEndsIff([], rootId, collate);
    assert UpN(byId, rootId, 1) == Some(NullKey);
    forall n: nat | 2 <= n ensures UpN(byId, rootId, n) == None {
      assert UpN(byId, NullKey, n - 1) == None;
    }
    var t := BuildTree([], rootId, collate).value;
    NodeChildren([], rootId, collate, t);
    assert Values([], rootId) == [StandIn(rootId)];
    assert Sorting.Filter([StandIn(rootId)], HasParent(rootId)) == [];
  }

  /** A root listed (last) with itself as parent makes the recursion
      endless. */
  lemma SelfParentRootStops(folders: seq<Folder>, rootId: string, collate: string -> int, i: int)
    requires 0 <= i < |folders| && folders[i].id == rootId && folders[i].parentId == Some(rootId)
    requires forall j :: i < j < |folders| ==> folders[j].id != rootId
    ensures BuildTree(folders, rootId, collate).None?
  {
    Crumbs.FolderMapLastWins(folders, i);
    BuildTreeEndsIff(folders, rootId, collate);
    assert UpN(ById(folders, rootId), rootId, 1) == Some(rootId);
  }

  /** A root id equal to "__null__" with nothing listed also recurses
      without end: the stand-in root has a null parent, so it is filed under
      its own id. */
  lemma NullKeyRootStops(collate: string -> int)
    ensures BuildTree([], NullKey, collate).None?
  {
    BuildTreeEndsIff([], NullKey, collate);
    assert UpN(ById([], NullKey), NullKey, 1) == Some(NullKey);
  }
}
