/** The cache of tree objects kept beside the index: cache-tree.c. */
module CacheTree {
  import opened CacheIndex

  /** A cached directory: `count` is entry_count, negative when the node is invalid. */
  datatype Tree = Tree(count: int, oid: Oid, down: seq<Sub>)

  /** A cached subdirectory; `count` and `used` are scratch fields of an update. */
  datatype Sub = Sub(name: string, tree: Tree, count: int, used: bool)

  const NO_TREE := Tree(-1, 0, [])

  // ---- the order of subdirectories

  /** subtree_name_cmp: shorter names first. */
  predicate NameLess(a: string, b: string) {
    |a| < |b| || (|a| == |b| && Less(a, b))
  }

  lemma {:induction false} LessTotal(a: string, b: string)
    requires |a| == |b| && a != b
    ensures Less(a, b) != Less(b, a)
  {
    if a[0] == b[0] {
      assert a == [a[0]] + a[1..] && b == [b[0]] + b[1..];
      LessTotal(a[1..], b[1..]);
    }
  }

  lemma {:induction false} LessTransitive(a: string, b: string, c: string)
    requires Less(a, b) && Less(b, c)
    ensures Less(a, c)
  {
    if a != "" && a[0] == b[0] && b[0] == c[0] { LessTransitive(a[1..], b[1..], c[1..]); }
  }

  lemma NameOrder(a: string, b: string, c: string)
    ensures a != b ==> NameLess(a, b) != NameLess(b, a)
    ensures !NameLess(a, a)
    ensures NameLess(a, b) && NameLess(b, c) ==> NameLess(a, c)
  {
    LessIrreflexive(a);
    if a != b && |a| == |b| { LessTotal(a, b); }
    if Less(a, b) && Less(b, c) { LessTransitive(a, b, c); }
  }

  ghost predicate SortedDown(down: seq<Sub>) {
    forall i, j | 0 <= i < j < |down| :: NameLess(down[i].name, down[j].name)
  }

  /** cache_tree_subtree_pos: the index of a subdirectory, or -1 minus where it belongs. */
  method SubtreePos(down: seq<Sub>, name: string) returns (pos: int)
    requires SortedDown(down)
    ensures pos >= 0 ==> pos < |down| && down[pos].name == name
    ensures pos < 0 ==> 0 <= -pos - 1 <= |down|
    ensures pos < 0 ==> (forall i | 0 <= i < -pos - 1 :: NameLess(down[i].name, name))
    ensures pos < 0 ==> (forall i | -pos - 1 <= i < |down| :: NameLess(name, down[i].name))
  {
    hide NameLess;
    var lo, hi := 0, |down|;
    while lo < hi
      invariant 0 <= lo <= hi <= |down|
      invariant forall i | 0 <= i < lo :: NameLess(down[i].name, name)
      invariant forall i | hi <= i < |down| :: NameLess(name, down[i].name)
    {
      var mi := lo + (hi - lo) / 2;
      var mdl := down[mi];
      if name == mdl.name {
        return mi;
      }
      NameOrder(name, mdl.name, name);
      if NameLess(name, mdl.name) {
        forall i | mi <= i < |down| ensures NameLess(name, down[i].name) {
          NameOrder(name, mdl.name, down[i].name);
        }
        hi := mi;
      } else {
        forall i | 0 <= i <= mi ensures NameLess(down[i].name, name) {
          NameOrder(down[i].name, mdl.name, name);
        }
        lo := mi + 1;
      }
    }
    return -lo - 1;
  }

  lemma NoDuplicates(down: seq<Sub>, i: int, j: int)
    requires SortedDown(down) && 0 <= i < |down| && 0 <= j < |down| && down[i].name == down[j].name
    ensures i == j
  {
    NameOrder(down[i].name, down[j].name, down[i].name);
  }

  /** find_subtree with `create`. */
  method FindOrCreate(down: seq<Sub>, name: string) returns (down': seq<Sub>, pos: nat)
    requires SortedDown(down)
    ensures SortedDown(down') && pos < |down'| && down'[pos].name == name
    ensures down' == down || (down'[pos] == Sub(name, NO_TREE, 0, false) && down == down'[..pos] + down'[pos + 1..])
  {
    hide SortedDown, NameLess;
    var p := SubtreePos(down, name);
    if p >= 0 {
      return down, p;
    }
    pos := -p - 1;
    down' := down[..pos] + [Sub(name, NO_TREE, 0, false)] + down[pos..];
    InsertedSorted(down, pos, Sub(name, NO_TREE, 0, false));
  }

  lemma InsertedSorted(down: seq<Sub>, pos: nat, sub: Sub)
    requires SortedDown(down) && pos <= |down|
    requires forall i | 0 <= i < pos :: NameLess(down[i].name, sub.name)
    requires forall i | pos <= i < |down| :: NameLess(sub.name, down[i].name)
    ensures var r := down[..pos] + [sub] + down[pos..]; SortedDown(r) && down == r[..pos] + r[pos + 1..]
  {
    hide NameLess;
    var r := down[..pos] + [sub] + down[pos..];
    assert forall i | 0 <= i < |r| :: r[i] == if i < pos then down[i] else if i == pos then sub else down[i - 1];
    assert down == r[..pos] + r[pos + 1..];
  }

  // ---- what a cached node promises

  ghost predicate Names(down: seq<Sub>) {
    forall i | 0 <= i < |down| :: Plain(down[i].name)
  }

  /** The subdirectory of `base` called `name` has a node. */
  ghost predicate Listed(down: seq<Sub>, name: string) {
    exists i | 0 <= i < |down| :: down[i].name == name
  }

  ghost predicate Populated(list: seq<CacheEntry>, base: string) {
    exists i | 0 <= i < |list| :: Under(list[i], base)
  }

  /** The nodes are exactly those of the subdirectories that have entries. */
  ghost predicate Complete(down: seq<Sub>, list: seq<CacheEntry>, base: string) {
    && (forall i | 0 <= i < |down| :: Populated(list, Child(base, down[i].name)))
    && (forall i | 0 <= i < |list| && base <= list[i].name && InSubdirectory(list[i].name, base) ::
          Listed(down, NameIn(list[i].name, base)))
  }

  /** A valid node has the count and the tree object a build from scratch gives. */
  ghost predicate NodeOk(t: Tree, es: seq<CacheEntry>, base: string, hash: Hash) {
    && SortedDown(t.down) && Names(t.down)
    && (t.count >= 0 ==>
          var list := Below(es, base);
          && t.count == |list| && t.oid == DirOid(list, base, hash) && !HasIta(list)
          && (!IsLeaf(list, base) ==> Complete(t.down, list, base) && forall i | 0 <= i < |t.down| ::
               t.down[i].tree.count >= 0))
  }

  ghost predicate TreeOk(t: Tree, es: seq<CacheEntry>, base: string, hash: Hash) {
    NodeOk(t, es, base, hash) && forall i | 0 <= i < |t.down| ::
      TreeOk(t.down[i].tree, es, Child(base, t.down[i].name), hash)
  }

  /** What an update leaves: every node, valid or not, has the tree object of its directory,
      and it is invalid exactly when the directory holds an intent-to-add entry. */
  ghost predicate Updated(t: Tree, es: seq<CacheEntry>, base: string, hash: Hash) {
    var list := Below(es, base);
    && t.oid == DirOid(list, base, hash)
    && t.count == (if HasIta(list) then -1 else |list|)
    && (!IsLeaf(list, base) ==>
          && Complete(t.down, list, base)
          && forall i | 0 <= i < |t.down| :: Updated(t.down[i].tree, es, Child(base, t.down[i].name), hash))
  }

  /** A valid node needs no update. */
  lemma {:induction false} ValidIsUpdated(t: Tree, es: seq<CacheEntry>, base: string, hash: Hash)
    requires TreeOk(t, es, base, hash) && t.count >= 0
    ensures Updated(t, es, base, hash)
  {
    if !IsLeaf(Below(es, base), base) {
      forall i | 0 <= i < |t.down| ensures Updated(t.down[i].tree, es, Child(base, t.down[i].name), hash) {
        ValidIsUpdated(t.down[i].tree, es, Child(base, t.down[i].name), hash);
      }
    }
  }

  // ---- invalidation

  /** Two indexes that differ at most in the entry for one path. */
  ghost predicate OnlyDiffer(es: seq<CacheEntry>, es': seq<CacheEntry>, path: string) {
    forall base: string :: !(base <= path) ==> Below(es', base) == Below(es, base)
  }

  lemma {:induction false} Unaffected(t: Tree, es: seq<CacheEntry>, es': seq<CacheEntry>, path: string, base: string,
                                      hash: Hash)
    requires TreeOk(t, es, base, hash) && OnlyDiffer(es, es', path) && !(base <= path)
    ensures TreeOk(t, es', base, hash)
  {
    hide DirOid;
    forall i | 0 <= i < |t.down| ensures TreeOk(t.down[i].tree, es', Child(base, t.down[i].name), hash) {
      assert base <= Child(base, t.down[i].name);
      Unaffected(t.down[i].tree, es, es', path, Child(base, t.down[i].name), hash);
    }
  }

  /** Of the subdirectories of `base`, only the one on the path is affected. */
  lemma OthersUnaffected(down: seq<Sub>, es: seq<CacheEntry>, es': seq<CacheEntry>, path: string, base: string, i: int,
                         hash: Hash)
    requires Names(down) && 0 <= i < |down| && OnlyDiffer(es, es', path) && base <= path
    requires TreeOk(down[i].tree, es, Child(base, down[i].name), hash)
    requires InSubdirectory(path, base) ==> down[i].name != NameIn(path, base)
    ensures TreeOk(down[i].tree, es', Child(base, down[i].name), hash)
  {
    if Child(base, down[i].name) <= path {
      ChildUnique(path, base, down[i].name);
    }
    Unaffected(down[i].tree, es, es', path, Child(base, down[i].name), hash);
  }

  /** A node that is invalid only needs its subdirectories to be right. */
  lemma InvalidOk(count: int, oid: Oid, down: seq<Sub>, es: seq<CacheEntry>, base: string, hash: Hash)
    requires count < 0 && SortedDown(down) && Names(down)
    requires forall i | 0 <= i < |down| :: TreeOk(down[i].tree, es, Child(base, down[i].name), hash)
    ensures TreeOk(Tree(count, oid, down), es, base, hash)
  {}

  /** The nodes of other names. */
  function Without(down: seq<Sub>, name: string): seq<Sub> {
    if down == [] then [] else (if down[0].name == name then [] else [down[0]]) + Without(down[1..], name)
  }

  lemma {:induction false} WithoutNone(down: seq<Sub>, name: string)
    requires forall i | 0 <= i < |down| :: down[i].name != name
    ensures Without(down, name) == down
  {
    if down != [] { WithoutNone(down[1..], name); }
  }

  lemma {:induction false} WithoutAt(down: seq<Sub>, name: string, pos: nat)
    requires pos < |down| && forall i | 0 <= i < |down| :: down[i].name == name <==> i == pos
    ensures Without(down, name) == down[..pos] + down[pos + 1..]
  {
    if pos == 0 {
      WithoutNone(down[1..], name);
    } else {
      WithoutAt(down[1..], name, pos - 1);
      assert down[..pos] + down[pos + 1..] == [down[0]] + (down[1..][..pos - 1] + down[1..][pos..]);
    }
  }

  /** The tree after do_invalidate_path: all nodes along the path are invalid, and a node with
      the name of the path itself is gone. */
  function Invalidated(t: Tree, path: string, from: nat): Tree
    requires from <= |path|
    decreases t
  {
    var slash := SlashAt(path, from);
    var name := path[from..slash];
    if slash == |path| then Tree(-1, t.oid, Without(t.down, name))
    else
      Tree(-1, t.oid, seq(|t.down|, i requires 0 <= i < |t.down| =>
        if t.down[i].name == name then t.down[i].(tree := Invalidated(t.down[i].tree, path, slash + 1)) else t.down[i]))
  }

  /** Node `n` is reached along `route`. */
  ghost predicate Holds(t: Tree, route: seq<string>, n: Tree)
    decreases |route|
  {
    if route == [] then n == t
    else exists x :: x in t.down && x.name == route[0] && Holds(x.tree, route[1..], n)
  }

  /** The route is that of a directory on the way to `path`, or leaves that way. */
  predicate OnTheWay(path: string, from: nat, route: seq<string>)
    requires from <= |path|
    decreases |route|
  {
    var slash := SlashAt(path, from);
    route == [] || (slash < |path| && route[0] == path[from..slash] && OnTheWay(path, slash + 1, route[1..]))
  }

  predicate Leaves(path: string, from: nat, route: seq<string>)
    requires from <= |path|
    decreases |route|
  {
    var slash := SlashAt(path, from);
    route != [] && (route[0] != path[from..slash] || (slash < |path| && Leaves(path, slash + 1, route[1..])))
  }

  lemma HoldsBelow(t: Tree, x: Sub, route: seq<string>, n: Tree)
    requires route != [] && x in t.down && x.name == route[0] && Holds(x.tree, route[1..], n)
    ensures Holds(t, route, n)
  {}

  /** What becomes of a node below. */
  lemma SubInvalidated(t: Tree, path: string, from: nat, x: Sub)
    requires from <= |path| && x in t.down
    ensures var slash := SlashAt(path, from);
            && (x.name != path[from..slash] ==> x in Invalidated(t, path, from).down)
            && (x.name == path[from..slash] && slash < |path| ==>
                  x.(tree := Invalidated(x.tree, path, slash + 1)) in Invalidated(t, path, from).down)
  {
    var slash := SlashAt(path, from);
    var i :| 0 <= i < |t.down| && t.down[i] == x;
    if slash == |path| {
      if x.name != path[from..slash] { WithoutKeeps(t.down, path[from..slash], x); }
    } else {
      var y := if x.name == path[from..slash] then x.(tree := Invalidated(x.tree, path, slash + 1)) else x;
      assert Invalidated(t, path, from).down[i] == y;
    }
  }

  /** Nodes that are not on the way to the path stay as they are. */
  lemma {:induction false} OthersKept(t: Tree, path: string, from: nat, route: seq<string>, n: Tree)
    requires from <= |path| && Holds(t, route, n) && Leaves(path, from, route)
    ensures Holds(Invalidated(t, path, from), route, n)
    decreases |route|
  {
    hide Invalidated;
    var slash := SlashAt(path, from);
    var x :| x in t.down && x.name == route[0] && Holds(x.tree, route[1..], n);
    SubInvalidated(t, path, from, x);
    hide Holds, SlashAt;
    if route[0] != path[from..slash] {
      HoldsBelow(Invalidated(t, path, from), x, route, n);
    } else {
      OthersKept(x.tree, path, slash + 1, route[1..], n);
      HoldsBelow(Invalidated(t, path, from), x.(tree := Invalidated(x.tree, path, slash + 1)), route, n);
    }
  }

  lemma {:induction false} WithoutKeeps(down: seq<Sub>, name: string, x: Sub)
    requires x in down && x.name != name
    ensures x in Without(down, name)
  {
    if down[0] != x { WithoutKeeps(down[1..], name, x); }
  }

  /** Those on the way become invalid. */
  lemma {:induction false} WayInvalid(t: Tree, path: string, from: nat, route: seq<string>, n: Tree) returns (m: Tree)
    requires from <= |path| && Holds(t, route, n) && OnTheWay(path, from, route)
    ensures Holds(Invalidated(t, path, from), route, m) && m.count == -1 && m.oid == n.oid
    decreases |route|
  {
    if route == [] { return Invalidated(t, path, from); }
    hide Invalidated;
    var slash := SlashAt(path, from);
    var x :| x in t.down && x.name == route[0] && Holds(x.tree, route[1..], n);
    SubInvalidated(t, path, from, x);
    hide Holds, SlashAt;
    m := WayInvalid(x.tree, path, slash + 1, route[1..], n);
    HoldsBelow(Invalidated(t, path, from), x.(tree := Invalidated(x.tree, path, slash + 1)), route, m);
  }

  /** do_invalidate_path from the node of directory path[..from] on. */
  method Invalidate(t: Tree, path: string, from: nat, ghost es: seq<CacheEntry>, ghost es': seq<CacheEntry>,
                    ghost hash: Hash)
    returns (t': Tree)
    requires from <= |path| && OnlyDiffer(es, es', path) && TreeOk(t, es, path[..from], hash)
    ensures t'.count == -1 && TreeOk(t', es', path[..from], hash)
    ensures t' == Invalidated(t, path, from)
    decreases t
  {
    hide *;
    ghost var base := path[..from];
    NodeShape(t, es, base, hash);
    var slash := SlashAt(path, from);
    var name := path[from..slash];
    var down := t.down;
    var pos := SubtreePos(down, name);
    Absent(down, pos, name);
    if slash == |path| {
      if pos >= 0 {
        down := down[..pos] + down[pos + 1..];
      }
      FileGone(t, path, from, es, es', hash, pos, down);
    } else {
      if pos >= 0 {
        BelowHere(path, from, slash, name);
        var sub := Invalidate(t.down[pos].tree, path, slash + 1, es, es', hash);
        down := down[pos := down[pos].(tree := sub)];
      }
      DirStep(t, path, from, es, es', hash, pos, down);
    }
    t' := Tree(-1, t.oid, down);
  }

  lemma BelowHere(path: string, from: nat, slash: nat, name: string)
    requires from <= slash < |path| && slash == SlashAt(path, from) && name == path[from..slash]
    ensures path[..slash + 1] == Child(path[..from], name)
    ensures NameIn(path, path[..from]) == name && InSubdirectory(path, path[..from])
  {
    NameInPlain(path, path[..from]);
  }

  lemma Absent(down: seq<Sub>, pos: int, name: string)
    requires SortedDown(down)
    requires pos < 0 ==> forall j | 0 <= j < -pos - 1 && j < |down| :: NameLess(down[j].name, name)
    requires pos < 0 ==> forall j | -pos - 1 <= j < |down| && 0 <= j :: NameLess(name, down[j].name)
    ensures pos < 0 ==> forall k | 0 <= k < |down| :: down[k].name != name
  {
    NameOrder(name, name, name);
  }

  /** The last step: a node with the name of the path is gone. */
  lemma FileGone(t: Tree, path: string, from: nat, es: seq<CacheEntry>, es': seq<CacheEntry>, hash: Hash, pos: int,
                 down: seq<Sub>)
    requires from <= |path| == SlashAt(path, from) && OnlyDiffer(es, es', path) && TreeOk(t, es, path[..from], hash)
    requires SortedDown(t.down)
    requires if pos < 0 then down == t.down && forall i | 0 <= i < |t.down| :: t.down[i].name != path[from..]
             else pos < |t.down| && t.down[pos].name == path[from..] && down == t.down[..pos] + t.down[pos + 1..]
    ensures TreeOk(Tree(-1, t.oid, down), es', path[..from], hash)
    ensures Tree(-1, t.oid, down) == Invalidated(t, path, from)
  {
    var base, name := path[..from], path[from..];
    assert path[from..SlashAt(path, from)] == name && !InSubdirectory(path, base);
    LastStep(t, path, from);
    hide *;
    NodeShape(t, es, base, hash);
    forall i | 0 <= i < |t.down| ensures TreeOk(t.down[i].tree, es', Child(base, t.down[i].name), hash) {
      OthersUnaffected(t.down, es, es', path, base, i, hash);
    }
    if pos >= 0 {
      OnlyAt(t.down, name, pos);
      WithoutAt(t.down, name, pos);
      OneLess(t.down, pos, down);
    } else {
      WithoutNone(t.down, name);
    }
    InvalidOk(-1, t.oid, down, es', base, hash);
  }

  lemma OneLess(down: seq<Sub>, pos: nat, down': seq<Sub>)
    requires SortedDown(down) && Names(down) && pos < |down| && down' == down[..pos] + down[pos + 1..]
    ensures SortedDown(down') && Names(down') && forall i | 0 <= i < |down'| :: down'[i] in down
  {
    hide NameLess, Plain;
    assert forall i | 0 <= i < |down'| :: down'[i] == down[if i < pos then i else i + 1];
  }

  /** An earlier step: the node on the way is replaced. */
  lemma DirStep(t: Tree, path: string, from: nat, es: seq<CacheEntry>, es': seq<CacheEntry>, hash: Hash, pos: int,
                down: seq<Sub>)
    requires from <= |path| && SlashAt(path, from) < |path| && OnlyDiffer(es, es', path)
    requires TreeOk(t, es, path[..from], hash) && SortedDown(t.down)
    requires var name := path[from..SlashAt(path, from)];
             if pos < 0 then down == t.down && forall i | 0 <= i < |t.down| :: t.down[i].name != name
             else
               && pos < |t.down| && t.down[pos].name == name
               && var sub := Invalidated(t.down[pos].tree, path, SlashAt(path, from) + 1);
               && down == t.down[pos := t.down[pos].(tree := sub)]
               && TreeOk(sub, es', path[..SlashAt(path, from) + 1], hash)
    ensures TreeOk(Tree(-1, t.oid, down), es', path[..from], hash)
    ensures Tree(-1, t.oid, down) == Invalidated(t, path, from)
  {
    var slash := SlashAt(path, from);
    var base, name := path[..from], path[from..slash];
    BelowHere(path, from, slash, name);
    hide TreeOk, OnlyDiffer, Invalidated, SlashAt, InSubdirectory, NameLess, NameIn, Child;
    if pos >= 0 { OnlyAt(t.down, name, pos); }
    FirstStep(t, path, from, pos);
    NodeShape(t, es, base, hash);
    forall i | 0 <= i < |t.down| && i != pos ensures TreeOk(t.down[i].tree, es', Child(base, t.down[i].name), hash) {
      OthersUnaffected(t.down, es, es', path, base, i, hash);
    }
    InvalidOk(-1, t.oid, down, es', base, hash);
  }

  lemma LastStep(t: Tree, path: string, from: nat)
    requires from <= |path| && SlashAt(path, from) == |path|
    ensures Invalidated(t, path, from) == Tree(-1, t.oid, Without(t.down, path[from..SlashAt(path, from)]))
  {}

  lemma FirstStep(t: Tree, path: string, from: nat, pos: int)
    requires from <= |path| && SlashAt(path, from) < |path| && pos < |t.down|
    requires forall i | 0 <= i < |t.down| :: t.down[i].name == path[from..SlashAt(path, from)] <==> i == pos
    ensures pos < 0 ==> Invalidated(t, path, from) == Tree(-1, t.oid, t.down)
    ensures pos >= 0 ==>
              var sub := Invalidated(t.down[pos].tree, path, SlashAt(path, from) + 1);
              Invalidated(t, path, from) == Tree(-1, t.oid, t.down[pos := t.down[pos].(tree := sub)])
  {
    var down := Invalidated(t, path, from).down;
    if pos < 0 {
      assert down == t.down;
    } else {
      var sub := Invalidated(t.down[pos].tree, path, SlashAt(path, from) + 1);
      assert down == t.down[pos := t.down[pos].(tree := sub)];
    }
  }

  lemma OnlyAt(down: seq<Sub>, name: string, pos: nat)
    requires SortedDown(down) && pos < |down| && down[pos].name == name
    ensures forall i | 0 <= i < |down| :: down[i].name == name <==> i == pos
  {
    forall i | 0 <= i < |down| && down[i].name == name ensures i == pos { NoDuplicates(down, i, pos); }
  }

  lemma NodeShape(t: Tree, es: seq<CacheEntry>, base: string, hash: Hash)
    requires TreeOk(t, es, base, hash)
    ensures SortedDown(t.down) && Names(t.down)
    ensures forall i | 0 <= i < |t.down| :: TreeOk(t.down[i].tree, es, Child(base, t.down[i].name), hash)
  {}
}
