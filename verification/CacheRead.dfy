/** Reading written trees back: what tree objects contain, said without the code that fills them. */
module CacheRead {
  import opened CacheIndex

  /** A tree object with all trees below it. */
  datatype Node = File(mode: int, name: string, oid: Oid) | Dir(name: string, nodes: seq<Node>)

  /** A path that is reached, with its mode and object. */
  datatype Found = Found(path: string, mode: int, oid: Oid)

  /** The lines of a tree object; a directory is named by the id of its own tree. */
  function Lines(nodes: seq<Node>, hash: Hash): (items: seq<Item>)
    ensures |items| == |nodes|
  {
    if nodes == [] then [] else
      [match nodes[0]
       case File(mode, name, oid) => Item(mode, name, oid)
       case Dir(name, below) => Item(0x4000, name, hash(Lines(below, hash)))] + Lines(nodes[1..], hash)
  }

  /** All paths reached from a tree object, in order. */
  function Paths(nodes: seq<Node>, base: string): seq<Found> {
    if nodes == [] then [] else
      (match nodes[0]
       case File(mode, name, oid) => [Found(base + name, mode, oid)]
       case Dir(name, below) => Paths(below, base + name + "/")) + Paths(nodes[1..], base)
  }

  /** No directory is empty. */
  predicate NoneEmpty(nodes: seq<Node>) {
    nodes == [] || ((nodes[0].Dir? ==> nodes[0].nodes != [] && NoneEmpty(nodes[0].nodes)) && NoneEmpty(nodes[1..]))
  }

  /** The entries that are to be found: all but those only intended to be added.  A sparse
      directory is found as a directory, without its slash. */
  function Visible(es: seq<CacheEntry>): seq<Found> {
    if es == [] then []
    else if es[0].ita then Visible(es[1..])
    else if es[0].sparse && es[0].name != "" then
      [Found(es[0].name[..|es[0].name| - 1], 0x4000, es[0].oid)] + Visible(es[1..])
    else [Found(es[0].name, es[0].mode, es[0].oid)] + Visible(es[1..])
  }

  /** From a tree with this content exactly the visible entries are reached, through directories
      none of which is empty. */
  ghost predicate Reaches(items: seq<Item>, es: seq<CacheEntry>, base: string, hash: Hash) {
    exists nodes: seq<Node> :: Lines(nodes, hash) == items && Paths(nodes, base) == Visible(es) && NoneEmpty(nodes)
  }

  /** Object `oid` is such a tree. */
  ghost predicate ReadsBack(oid: Oid, es: seq<CacheEntry>, base: string, hash: Hash) {
    exists items: seq<Item> :: oid == hash(items) && Reaches(items, es, base, hash)
  }

  /** Nothing else has the id of the empty tree. */
  ghost predicate KnowsEmpty(hash: Hash) {
    forall items: seq<Item> :: hash(items) == hash([]) ==> items == []
  }

  ghost predicate Injective(hash: Hash) {
    forall a: seq<Item>, b: seq<Item> :: hash(a) == hash(b) ==> a == b
  }

  // ---- joining

  lemma {:induction false} LinesJoin(a: seq<Node>, b: seq<Node>, hash: Hash)
    ensures Lines(a + b, hash) == Lines(a, hash) + Lines(b, hash)
  {
    if a == [] {
      assert a + b == b;
    } else {
      assert (a + b)[1..] == a[1..] + b;
      LinesJoin(a[1..], b, hash);
    }
  }

  lemma {:induction false} PathsJoin(a: seq<Node>, b: seq<Node>, base: string)
    ensures Paths(a + b, base) == Paths(a, base) + Paths(b, base)
    ensures NoneEmpty(a + b) <==> NoneEmpty(a) && NoneEmpty(b)
  {
    if a == [] {
      assert a + b == b;
    } else {
      assert (a + b)[1..] == a[1..] + b;
      PathsJoin(a[1..], b, base);
    }
  }

  lemma {:induction false} VisibleJoin(a: seq<CacheEntry>, b: seq<CacheEntry>)
    ensures Visible(a + b) == Visible(a) + Visible(b)
  {
    if a == [] {
      assert a + b == b;
    } else {
      assert (a + b)[1..] == a[1..] + b;
      VisibleJoin(a[1..], b);
    }
  }

  // ---- what the trees of an index contain

  /** The entries of a directory that is not a single sparse entry. */
  ghost predicate Within(es: seq<CacheEntry>, base: string) {
    IndexOk(es) && forall i | 0 <= i < |es| :: base <= es[i].name && |es[i].name| > |base|
  }

  lemma WithinSlice(es: seq<CacheEntry>, base: string, i: nat, j: nat)
    requires Within(es, base) && i <= j <= |es|
    ensures Within(es[i..j], base)
  {
    var r := es[i..j];
    assert forall k | 0 <= k < |r| :: r[k] == es[i + k];
  }

  /** The first group is a directory below: a single sparse entry, or entries inside it. */
  lemma GroupWithin(es: seq<CacheEntry>, base: string, k: nat)
    requires Within(es, base) && es != [] && InSubdirectory(es[0].name, base) && k == FirstGroup(es, base)
    ensures var child := Child(base, NameIn(es[0].name, base));
            if IsLeaf(es[..k], child) then k == 1 && es[0].sparse && es[0].name == child else Within(es[..k], child)
  {
    var child := Child(base, NameIn(es[0].name, base));
    NameInPlain(es[0].name, base);
    assert es[0].Proper();
    assert Under(es[0], child);
    if es[0].sparse && es[0].name == child {
      assert k == 1 || Under(es[1], child);
    } else {
      WithinSlice(es, base, 0, k);
      forall i | 0 <= i < k ensures child <= es[i].name && |es[i].name| > |child| {
        assert Under(es[i], child) && es[i].Proper();
        if i > 0 && es[i].name == child { PrefixFirst(child, es[0].name); }
      }
    }
  }

  /** Without intent-to-add entries something is visible. */
  lemma SomethingVisible(es: seq<CacheEntry>)
    requires es != [] && Visible(es) == []
    ensures es[0].ita && HasIta(es)
  {}

  /** Items are the lines of trees from which exactly the visible entries are reached. */
  lemma {:induction false} ItemsRead(es: seq<CacheEntry>, base: string, hash: Hash) returns (nodes: seq<Node>)
    requires Within(es, base) && KnowsEmpty(hash)
    ensures Lines(nodes, hash) == Items(es, base, hash) && Paths(nodes, base) == Visible(es) && NoneEmpty(nodes)
    decreases |es|, Depth(es, base)
  {
    hide Items, Lines, Paths, Visible, NoneEmpty, InSubdirectory, FirstGroup, NameIn, IsLeaf, Child, KnowsEmpty, HasIta,
      GroupLines, Depth, IndexOk;
    if es == [] {
      NothingRead(base, hash);
      return [];
    }
    var e := es[0];
    assert e.Proper() by { OneProper(es, base, 0); }
    if !InSubdirectory(e.name, base) {
      WithinSlice(es, base, 1, |es|);
      assert es[1..|es|] == es[1..];
      var rest := ItemsRead(es[1..], base, hash);
      var first := FileRead(e, base, hash);
      FileItems(es, base, hash);
      nodes := JoinRead(first, rest, [e], es[1..], base, hash);
      assert es == [e] + es[1..];
    } else {
      var k := FirstGroup(es, base);
      WithinSlice(es, base, k, |es|);
      assert es[k..|es|] == es[k..];
      var rest := ItemsRead(es[k..], base, hash);
      GroupWithin(es, base, k);
      var name := NameIn(e.name, base);
      NameInPlain(e.name, base);
      var sub := [];
      if !IsLeaf(es[..k], Child(base, name)) {
        Shallower(es, base, k, name);
        sub := ItemsRead(es[..k], Child(base, name), hash);
      }
      var first := GroupRead(es, base, hash, k, name, sub);
      GroupItems(es, base, hash, k, name);
      nodes := JoinRead(first, rest, es[..k], es[k..], base, hash);
      assert es == es[..k] + es[k..];
    }
  }

  lemma NothingRead(base: string, hash: Hash)
    ensures Lines([], hash) == Items([], base, hash) && Paths([], base) == Visible([]) && NoneEmpty([])
  {}

  lemma OneProper(es: seq<CacheEntry>, base: string, i: nat)
    requires Within(es, base) && i < |es|
    ensures es[i].Proper()
  {}

  lemma Shallower(es: seq<CacheEntry>, base: string, k: nat, name: string)
    requires es != [] && 0 < k <= |es| && base <= es[0].name && Child(base, name) <= es[0].name
    ensures Depth(es[..k], Child(base, name)) < Depth(es, base)
  {}

  lemma JoinRead(a: seq<Node>, b: seq<Node>, es: seq<CacheEntry>, fs: seq<CacheEntry>, base: string, hash: Hash)
    returns (nodes: seq<Node>)
    requires Paths(a, base) == Visible(es) && Paths(b, base) == Visible(fs) && NoneEmpty(a) && NoneEmpty(b)
    ensures nodes == a + b && Lines(nodes, hash) == Lines(a, hash) + Lines(b, hash)
    ensures Paths(nodes, base) == Visible(es + fs) && NoneEmpty(nodes)
  {
    hide *;
    nodes := a + b;
    LinesJoin(a, b, hash);
    PathsJoin(a, b, base);
    VisibleJoin(es, fs);
  }

  lemma FileRead(e: CacheEntry, base: string, hash: Hash) returns (nodes: seq<Node>)
    requires e.Proper() && base <= e.name && |e.name| > |base| && !InSubdirectory(e.name, base)
    ensures Lines(nodes, hash) == if e.ita then [] else [Item(e.mode, e.name[|base|..], e.oid)]
    ensures Paths(nodes, base) == Visible([e]) && NoneEmpty(nodes)
  {
    nodes := if e.ita then [] else [File(e.mode, e.name[|base|..], e.oid)];
    assert !e.sparse;
    assert [e][1..] == [] && base + e.name[|base|..] == e.name;
    if !e.ita { assert nodes[1..] == []; }
  }

  lemma FileItems(es: seq<CacheEntry>, base: string, hash: Hash)
    requires Within(es, base) && es != [] && !InSubdirectory(es[0].name, base)
    ensures Items(es, base, hash) == (if es[0].ita then [] else [Item(es[0].mode, es[0].name[|base|..], es[0].oid)])
                                     + Items(es[1..], base, hash)
  {
    hide InSubdirectory;
  }

  /** What a subdirectory contributes to the tree object. */
  function GroupLines(es: seq<CacheEntry>, base: string, hash: Hash, k: nat, name: string): seq<Item>
    requires k <= |es|
  {
    var oid := DirOid(es[..k], Child(base, name), hash);
    if HasIta(es[..k]) && oid == hash([]) then [] else [Item(DIRECTORY_MODE, name, oid)]
  }

  lemma GroupItems(es: seq<CacheEntry>, base: string, hash: Hash, k: nat, name: string)
    requires Within(es, base) && es != [] && InSubdirectory(es[0].name, base) && k == FirstGroup(es, base)
    requires name == NameIn(es[0].name, base)
    ensures Items(es, base, hash) == GroupLines(es, base, hash, k, name) + Items(es[k..], base, hash)
  {
    hide InSubdirectory, NameIn, FirstGroup, DirOid, HasIta;
  }

  lemma GroupRead(es: seq<CacheEntry>, base: string, hash: Hash, k: nat, name: string, sub: seq<Node>)
    returns (nodes: seq<Node>)
    requires Within(es, base) && 0 < k <= |es| && KnowsEmpty(hash)
    requires var child := Child(base, name);
             if IsLeaf(es[..k], child) then k == 1
             else
               && Lines(sub, hash) == Items(es[..k], child, hash) && Paths(sub, child) == Visible(es[..k])
               && NoneEmpty(sub)
    ensures Lines(nodes, hash) == GroupLines(es, base, hash, k, name)
    ensures Paths(nodes, base) == Visible(es[..k]) && NoneEmpty(nodes)
  {
    var child := Child(base, name);
    var group := es[..k];
    if IsLeaf(group, child) {
      LeafRead(group, base, hash, name);
      nodes := [File(0x4000, name, group[0].oid)];
    } else {
      hide Items, Lines, IsLeaf;
      assert DirOid(group, child, hash) == hash(Lines(sub, hash));
      if sub == [] {
        nodes := [];
        SomethingVisible(group);
        EmptyLines(hash);
      } else {
        nodes := [Dir(name, sub)];
        assert Lines(sub, hash) != [];
        DirRead(name, sub, base, hash);
      }
    }
  }

  lemma EmptyLines(hash: Hash)
    ensures Lines([], hash) == []
  {}

  lemma DirRead(name: string, sub: seq<Node>, base: string, hash: Hash)
    requires sub != [] && NoneEmpty(sub)
    ensures Lines([Dir(name, sub)], hash) == [Item(0x4000, name, hash(Lines(sub, hash)))]
    ensures Paths([Dir(name, sub)], base) == Paths(sub, base + name + "/") && NoneEmpty([Dir(name, sub)])
  {
    var nodes := [Dir(name, sub)];
    assert nodes[1..] == [];
  }

  lemma LeafRead(group: seq<CacheEntry>, base: string, hash: Hash, name: string)
    requires |group| == 1 && group[0].Proper() && IsLeaf(group, Child(base, name))
    ensures var nodes := [File(0x4000, name, group[0].oid)];
            && Lines(nodes, hash) == [Item(0x4000, name, group[0].oid)] && NoneEmpty(nodes)
            && Paths(nodes, base) == Visible(group) && !HasIta(group)
            && DirOid(group, Child(base, name), hash) == group[0].oid
  {
    var nodes := [File(0x4000, name, group[0].oid)];
    assert nodes[1..] == [] && group[1..] == [];
    assert Child(base, name)[..|base + name|] == base + name;
  }

  /** The id given to a directory reads back as its entries. */
  lemma DirReads(es: seq<CacheEntry>, base: string, hash: Hash)
    requires Within(es, base) && KnowsEmpty(hash)
    ensures Reaches(Items(es, base, hash), es, base, hash) && ReadsBack(DirOid(es, base, hash), es, base, hash)
  {
    var nodes := ItemsRead(es, base, hash);
    hide Items, Lines, Paths;
    assert DirOid(es, base, hash) == hash(Items(es, base, hash));
  }

  /** The id given to the whole index reads back as the index. */
  lemma RootReads(es: seq<CacheEntry>, hash: Hash)
    requires IndexOk(es) && KnowsEmpty(hash)
    ensures ReadsBack(DirOid(es, "", hash), es, "", hash)
  {
    assert forall i | 0 <= i < |es| :: es[i].Proper();
    DirReads(es, "", hash);
  }

  // ---- the other way round

  /** Trees whose files have other modes than directories. */
  predicate OnlyFiles(nodes: seq<Node>) {
    nodes == [] || ((if nodes[0].Dir? then OnlyFiles(nodes[0].nodes) else nodes[0].mode != 0x4000)
                    && OnlyFiles(nodes[1..]))
  }

  /** A tree object determines all that is reached from it. */
  lemma {:induction false} LinesDetermine(a: seq<Node>, b: seq<Node>, hash: Hash)
    requires Injective(hash) && OnlyFiles(a) && OnlyFiles(b) && Lines(a, hash) == Lines(b, hash)
    ensures a == b
    decreases a
  {
    if a != [] {
      assert Lines(a, hash)[0] == Lines(b, hash)[0] && Lines(a, hash)[1..] == Lines(b, hash)[1..];
      assert Lines(a, hash)[1..] == Lines(a[1..], hash) && Lines(b, hash)[1..] == Lines(b[1..], hash);
      LinesDetermine(a[1..], b[1..], hash);
      if a[0].Dir? && b[0].Dir? { LinesDetermine(a[0].nodes, b[0].nodes, hash); }
      assert a == [a[0]] + a[1..] && b == [b[0]] + b[1..];
    }
  }

  lemma {:induction false} PathsOnlyFiles(nodes: seq<Node>, base: string)
    requires forall f | f in Paths(nodes, base) :: f.mode != 0x4000
    ensures OnlyFiles(nodes)
  {
    if nodes != [] {
      PathsOnlyFiles(nodes[1..], base);
      if nodes[0].Dir? {
        PathsOnlyFiles(nodes[0].nodes, base + nodes[0].name + "/");
      } else {
        assert Found(base + nodes[0].name, nodes[0].mode, nodes[0].oid) in Paths(nodes, base);
      }
    }
  }

  /** Two indexes of files with the same tree id hold the same files. */
  lemma SameIdSameFiles(es: seq<CacheEntry>, fs: seq<CacheEntry>, hash: Hash)
    requires IndexOk(es) && IndexOk(fs) && Injective(hash) && DirOid(es, "", hash) == DirOid(fs, "", hash)
    requires forall f | f in Visible(es) + Visible(fs) :: f.mode != 0x4000
    ensures Visible(es) == Visible(fs)
  {
    RootReads(es, hash);
    RootReads(fs, hash);
    hide DirOid, IndexOk, Lines, Paths, Visible;
    var x: seq<Item> :| DirOid(es, "", hash) == hash(x) && Reaches(x, es, "", hash);
    var y: seq<Item> :| DirOid(fs, "", hash) == hash(y) && Reaches(y, fs, "", hash);
    var a: seq<Node> :| Lines(a, hash) == x && Paths(a, "") == Visible(es) && NoneEmpty(a);
    var b: seq<Node> :| Lines(b, hash) == y && Paths(b, "") == Visible(fs) && NoneEmpty(b);
    PathsOnlyFiles(a, "");
    PathsOnlyFiles(b, "");
    LinesDetermine(a, b, hash);
  }
}
