/** The index together with its cache of tree objects, over any run of changes and updates. */
module CacheState {
  import opened CacheIndex
  import opened CacheRead
  import opened CacheTree
  import opened CacheUpdate

  /** The entries for other paths than `path`. */
  function Others(es: seq<CacheEntry>, path: string): seq<CacheEntry> {
    if es == [] then []
    else if es[0].name == path then Others(es[1..], path)
    else [es[0]] + Others(es[1..], path)
  }

  lemma {:induction false} BelowOthers(es: seq<CacheEntry>, path: string, base: string)
    requires !(base <= path)
    ensures Below(Others(es, path), base) == Below(es, base)
  {
    if es != [] {
      BelowOthers(es[1..], path, base);
      if es[0].name != path {
        assert Others(es, path)[1..] == Others(es[1..], path);
      }
    }
  }

  /** A change of the entry for one path shows only in the directories above it. */
  lemma ChangeIsLocal(es: seq<CacheEntry>, es': seq<CacheEntry>, path: string)
    requires Others(es', path) == Others(es, path)
    ensures OnlyDiffer(es, es', path)
  {
    forall base: string | !(base <= path) ensures Below(es', base) == Below(es, base) {
      BelowOthers(es, path, base);
      BelowOthers(es', path, base);
    }
  }

  class IndexState {
    var entries: seq<CacheEntry>
    var tree: Tree
    const hash: Hash

    /** Every node of the cache that claims to be valid is right. */
    ghost predicate Valid()
      reads this
    {
      IndexOk(entries) && TreeOk(tree, entries, "", hash)
    }

    constructor (hash: Hash)
      ensures Valid() && entries == [] && this.hash == hash
    {
      entries, tree := [], NO_TREE;
      this.hash := hash;
    }

    /** Add, replace or remove the entry for one path: the cache is invalidated along it. */
    method Change(path: string, changed: seq<CacheEntry>)
      requires Valid() && IndexOk(changed) && Others(changed, path) == Others(entries, path)
      modifies this
      ensures Valid() && entries == changed && tree == Invalidated(old(tree), path, 0)
    {
      ChangeIsLocal(entries, changed, path);
      assert path[..0] == "";
      tree := Invalidate(tree, path, 0, entries, changed, hash);
      entries := changed;
    }

    /** cache_tree_update: after success the root has the tree object a build from scratch
        gives for the whole index. */
    method Update(present: Oid -> bool) returns (ok: bool)
      requires Valid()
      modifies this
      ensures Valid() && entries == old(entries)
      ensures ok ==> Updated(tree, entries, "", hash) && tree.oid == DirOid(entries, "", hash)
      ensures ok ==> tree.count == (if HasIta(entries) then -1 else |entries|)
      ensures ok ==> LeavesKept(old(tree).down, tree.down, entries, "")
      ensures AllPresent(entries, hash, present) ==> ok
      ensures ok && KnowsEmpty(hash) ==> ReadsBack(tree.oid, entries, "", hash)
    {
      BelowRoot(entries);
      var n;
      ok, n, tree := UpdateOne(tree, entries, 0, "", hash, present);
    }
  }

  // ---- a node below a sparse directory

  const FILE := CacheEntry("d/x/f", 0x81a4, 5, false, false)
  const SPARSE := CacheEntry("d/", DIRECTORY_MODE, 7, false, true)

  lemma OneEntry(e: CacheEntry, base: string)
    requires e.Proper()
    ensures IndexOk([e]) && Below([e], base) == if Under(e, base) then [e] else []
    ensures Others([e], e.name) == [] && Others([], e.name) == []
  {
    assert [e][1..] == [];
  }

  /** The name of a node that an update makes. */
  lemma SubListed(down: seq<Sub>, list: seq<CacheEntry>, base: string, name: string)
    requires Complete(down, list, base) && list != [] && Plain(name) && Child(base, name) <= list[0].name
    ensures exists y :: y in down && y.name == name
  {
    ChildUnique(list[0].name, base, name);
    assert Listed(down, NameIn(list[0].name, base));
  }

  /** The node of directory `d` has a node `x` below it, which is invalid if `stale`. */
  ghost predicate AboveX(y: Sub, stale: bool) {
    y.name == "d" && exists x :: x in y.tree.down && x.name == "x" && (stale ==> x.tree.count == -1)
  }

  ghost predicate HasX(t: Tree, stale: bool) {
    exists y :: y in t.down && AboveX(y, stale)
  }

  lemma FilePaths()
    ensures Child("", "d") == "d/" && Child("d/", "x") == "d/x/" && "d/" <= FILE.name && "d/x/" <= FILE.name
    ensures FILE.Proper() && Under(FILE, "") && Under(FILE, "d/") && SPARSE.Proper() && !("d/x/" <= SPARSE.name)
  {}

  /** An update finds a node for each directory with entries. */
  lemma NodeListed(t: Tree, hash: Hash, base: string, name: string) returns (y: Sub)
    requires Updated(t, [FILE], base, hash) && Under(FILE, base) && Plain(name) && Child(base, name) <= FILE.name
    ensures y in t.down && y.name == name && Updated(y.tree, [FILE], Child(base, name), hash)
  {
    hide Child, Complete, HasIta, DirOid;
    OneEntry(FILE, base);
    SubListed(t.down, [FILE], base, name);
    y :| y in t.down && y.name == name;
    var i :| 0 <= i < |t.down| && t.down[i] == y;
  }

  lemma FileUpdated(t: Tree, hash: Hash)
    requires Updated(t, [FILE], "", hash)
    ensures HasX(t, false)
  {
    hide Updated;
    FilePaths();
    var y := NodeListed(t, hash, "", "d");
    var x := NodeListed(y.tree, hash, "d/", "x");
    assert AboveX(y, false);
  }

  lemma Slashes()
    ensures SlashAt("d/x/f", 0) == 1 && SlashAt("d/x/f", 2) == 3 && SlashAt("d/", 0) == 1 && SlashAt("d/", 2) == 2
    ensures "d/x/f"[0..1] == "d" && "d/x/f"[2..3] == "x" && "d/"[0..1] == "d" && "d/"[2..2] == ""
  {
    assert SlashAt("d/x/f", 2) == SlashAt("d/x/f", 3);
  }

  lemma FileRemoved(t: Tree)
    requires HasX(t, false)
    ensures HasX(Invalidated(t, "d/x/f", 0), true)
  {
    Slashes();
    var y :| y in t.down && AboveX(y, false);
    var x :| x in y.tree.down && x.name == "x";
    var i :| 0 <= i < |t.down| && t.down[i] == y;
    var j :| 0 <= j < |y.tree.down| && y.tree.down[j] == x;
    var d := Invalidated(y.tree, "d/x/f", 2);
    assert d.down[j] == x.(tree := Invalidated(x.tree, "d/x/f", 4));
    assert d.down[j] in d.down;
    assert AboveX(y.(tree := d), true);
    assert Invalidated(t, "d/x/f", 0).down[i] == y.(tree := d);
  }

  lemma SparseAdded(t: Tree)
    requires HasX(t, true)
    ensures HasX(Invalidated(t, "d/", 0), true)
  {
    Slashes();
    var y :| y in t.down && AboveX(y, true);
    var x :| x in y.tree.down && x.name == "x" && x.tree.count == -1;
    var i :| 0 <= i < |t.down| && t.down[i] == y;
    var d := Invalidated(y.tree, "d/", 2);
    WithoutKeeps(y.tree.down, "", x);
    assert AboveX(y.(tree := d), true);
    assert Invalidated(t, "d/", 0).down[i] == y.(tree := d);
  }

  lemma SparseUpdated(before: Tree, after: Tree)
    requires HasX(before, true) && LeavesKept(before.down, after.down, [SPARSE], "")
    ensures HasX(after, true)
  {
    FilePaths();
    var y :| y in before.down && AboveX(y, true);
    assert [SPARSE][0].sparse && [SPARSE][0].name == Child("", "d");
    assert LeafAt([SPARSE], Child("", "d"));
    assert SameBelow(y, after.down);
    var z :| z in after.down && z.name == y.name && z.tree.down == y.tree.down;
    assert AboveX(z, true);
  }

  /** Nodes below a sparse directory are not brought up to date.  A file d/x/f is added and the
      cache updated, the file is removed, and d becomes a sparse directory: after the next
      update the node of d/x is still there and invalid, though no entry is intent-to-add. */
  method StaleUnderLeaf(hash: Hash) returns (state: IndexState)
    ensures state.Valid() && state.entries == [SPARSE] && Updated(state.tree, state.entries, "", hash)
    ensures HasX(state.tree, true) && !HasIta(Below(state.entries, "d/x/"))
  {
    hide Updated, HasX, LeavesKept, Invalidated, IndexOk, Others;
    FilePaths();
    OneEntry(FILE, "");
    OneEntry(SPARSE, "d/x/");
    NoEntries();
    state := new IndexState(hash);
    state.Change("d/x/f", [FILE]);
    var ok := state.Update(_ => true);
    ghost var t1 := state.tree;
    FileUpdated(t1, hash);
    state.Change("d/x/f", []);
    FileRemoved(t1);
    ghost var t2 := state.tree;
    state.Change("d/", [SPARSE]);
    SparseAdded(t2);
    ghost var t3 := state.tree;
    ok := state.Update(_ => true);
    SparseUpdated(t3, state.tree);
  }

  lemma NoEntries()
    ensures IndexOk([]) && !HasIta([])
  {}
}
