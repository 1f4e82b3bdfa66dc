/** Bringing the cache of tree objects up to date: update_one of cache-tree.c. */
module CacheUpdate {
  import opened CacheIndex
  import opened CacheRead
  import opened CacheTree

  // ---- positions in the index

  /** At position `i`, any subdirectory of `base` that starts there starts there first. */
  ghost predicate Boundary(es: seq<CacheEntry>, i: nat, base: string) {
    forall x: string :: Plain(x) && i < |es| && Under(es[i], Child(base, x)) ==> StartsAt(es, i, Child(base, x))
  }

  lemma UnderChild(e: CacheEntry, base: string, x: string)
    requires e.Proper() && Under(e, Child(base, x))
    ensures Under(e, base) && |e.name| > |base|
  {
    assert base <= Child(base, x);
  }

  lemma BoundaryStart(es: seq<CacheEntry>, pos: nat, base: string)
    requires IndexOk(es) && StartsAt(es, pos, base)
    ensures Boundary(es, pos, base)
  {
    forall x: string | Plain(x) && pos < |es| && Under(es[pos], Child(base, x))
           ensures StartsAt(es, pos, Child(base, x)) {
      forall i | 0 <= i < pos ensures !Under(es[i], Child(base, x)) {
        if Under(es[i], Child(base, x)) { UnderChild(es[i], base, x); }
      }
    }
  }

  /** Going past a file of the directory itself. */
  lemma BoundaryFile(es: seq<CacheEntry>, i: nat, base: string)
    requires IndexOk(es) && i < |es| && base <= es[i].name && !InSubdirectory(es[i].name, base)
    ensures Boundary(es, i + 1, base)
  {
    forall x: string | Plain(x) && i + 1 < |es| && Under(es[i + 1], Child(base, x))
           ensures StartsAt(es, i + 1, Child(base, x)) {
      forall j | 0 <= j < i + 1 ensures !Under(es[j], Child(base, x)) {
        if Under(es[i], Child(base, x)) { ChildUnique(es[i].name, base, x); }
        if Under(es[j], Child(base, x)) && j < i { Contiguous(es, Child(base, x), j, i, i + 1); }
      }
    }
  }

  /** Going past all of a subdirectory. */
  lemma BoundaryGroup(es: seq<CacheEntry>, i: nat, base: string, y: string)
    requires IndexOk(es) && i < |es| && Plain(y) && Under(es[i], Child(base, y))
    ensures Boundary(es, GroupEnd(es, i, Child(base, y)), base)
  {
    var end := GroupEnd(es, i, Child(base, y));
    forall x: string | Plain(x) && end < |es| && Under(es[end], Child(base, x))
           ensures StartsAt(es, end, Child(base, x)) {
      forall j | 0 <= j < end ensures !Under(es[j], Child(base, x)) {
        if Under(es[j], Child(base, x)) {
          if j < i { Contiguous(es, Child(base, x), j, i, end); }
          var k := if j < i then i else j;
          ChildUnique(es[k].name, base, x);
          ChildUnique(es[k].name, base, y);
        }
      }
    }
  }

  /** The entries of a directory that is not a sparse leaf are longer than its path. */
  lemma NotLeaf(es: seq<CacheEntry>, pos: nat, base: string, i: nat)
    requires IndexOk(es) && pos < |es| && pos <= i < GroupEnd(es, pos, base) && !IsLeaf(es[pos..], base)
    ensures base <= es[i].name && |es[i].name| > |base|
  {
    assert es[pos..][0] == es[pos];
    assert Under(es[i], base) && Under(es[pos], base);
  }

  lemma GroupSlice(es: seq<CacheEntry>, i: nat, end: nat, base: string)
    requires i <= end <= |es| && GroupEnd(es, i, base) <= end
    ensures GroupEnd(es[i..end], 0, base) == GroupEnd(es, i, base) - i
  {
    var n, m := GroupEnd(es[i..end], 0, base), GroupEnd(es, i, base) - i;
    assert n < end - i ==> es[i..end][n] == es[i + n];
    assert m < end - i ==> es[i..end][m] == es[i + m];
  }

  // ---- the first loop: subdirectories

  ghost predicate UsedFor(down: seq<Sub>, name: string) {
    exists k | 0 <= k < |down| :: down[k].name == name && down[k].used
  }

  /** A subdirectory this update has brought up to date. */
  ghost predicate SubDone(sub: Sub, es: seq<CacheEntry>, base: string, hash: Hash) {
    Updated(sub.tree, es, Child(base, sub.name), hash) && sub.count == |Below(es, Child(base, sub.name))|
  }

  ghost predicate Touched(es: seq<CacheEntry>, pos: nat, i: nat, base: string) {
    i <= |es| && exists j | pos <= j < i :: Under(es[j], base)
  }

  /** A subdirectory node is right, and up to date if this update has used it. */
  ghost predicate SubOk(sub: Sub, es: seq<CacheEntry>, pos: nat, i: nat, base: string, hash: Hash) {
    && Plain(sub.name) && TreeOk(sub.tree, es, Child(base, sub.name), hash)
    && (sub.used ==> SubDone(sub, es, base, hash) && Touched(es, pos, i, Child(base, sub.name)))
  }

  ghost predicate AllUsed(down: seq<Sub>, es: seq<CacheEntry>, pos: nat, i: nat, base: string) {
    i <= |es| &&
    forall j | pos <= j < i && base <= es[j].name && InSubdirectory(es[j].name, base) ::
           UsedFor(down, NameIn(es[j].name, base))
  }

  /** Entries [pos, i) of directory `base` have been scanned. */
  ghost predicate Scanned(down: seq<Sub>, es: seq<CacheEntry>, pos: nat, i: nat, base: string, hash: Hash) {
    && SortedDown(down) && AllUsed(down, es, pos, i, base)
    && forall k | 0 <= k < |down| :: SubOk(down[k], es, pos, i, base, hash)
  }

  lemma SubOkGrows(sub: Sub, es: seq<CacheEntry>, pos: nat, i: nat, end: nat, base: string, hash: Hash)
    requires SubOk(sub, es, pos, i, base, hash) && i <= end <= |es|
    ensures SubOk(sub, es, pos, end, base, hash)
  {
    hide TreeOk, SubDone, Under;
    if sub.used {
      var j :| pos <= j < i && Under(es[j], Child(base, sub.name));
      assert pos <= j < end;
    }
  }

  lemma ScannedFile(down: seq<Sub>, es: seq<CacheEntry>, pos: nat, i: nat, base: string, hash: Hash)
    requires Scanned(down, es, pos, i, base, hash) && i < |es| && base <= es[i].name
             && !InSubdirectory(es[i].name, base)
    ensures Scanned(down, es, pos, i + 1, base, hash)
  {
    hide SubOk, UsedFor;
    forall k | 0 <= k < |down| ensures SubOk(down[k], es, pos, i + 1, base, hash) {
      SubOkGrows(down[k], es, pos, i, i + 1, base, hash);
    }
  }

  /** One more subdirectory, updated and stored at index `k`. */
  lemma ScannedGroup(down: seq<Sub>, down': seq<Sub>, es: seq<CacheEntry>, pos: nat, i: nat, end: nat, base: string,
                     hash: Hash, k: nat, sub: Sub)
    requires Scanned(down, es, pos, i, base, hash) && i < end <= |es|
    requires SortedDown(down') && k < |down'| && down'[k].name == sub.name && sub.used
    requires down' == down || down == down'[..k] + down'[k + 1..]
    requires SubOk(sub, es, pos, end, base, hash)
    requires forall j | i <= j < end :: Under(es[j], Child(base, sub.name))
    ensures Scanned(down'[k := sub], es, pos, end, base, hash)
  {
    var d := down'[k := sub];
    assert Plain(sub.name);
    hide SubOk, Under, UsedFor, InSubdirectory;
    forall m | 0 <= m < |d| ensures SubOk(d[m], es, pos, end, base, hash) {
      if m != k {
        var n := if down' == down || m < k then m else m - 1;
        assert down[n] == d[m];
        SubOkGrows(down[n], es, pos, i, end, base, hash);
      }
    }
    forall j | pos <= j < end && base <= es[j].name && InSubdirectory(es[j].name, base)
      ensures UsedFor(d, NameIn(es[j].name, base))
    {
      StillUsed(down, down', k, sub, es[j], base, i <= j);
    }
    assert forall m | 0 <= m < |d| :: d[m].name == down'[m].name;
  }

  lemma StillUsed(down: seq<Sub>, down': seq<Sub>, k: nat, sub: Sub, e: CacheEntry, base: string, here: bool)
    requires k < |down'| && down'[k].name == sub.name && sub.used && Plain(sub.name)
    requires down' == down || down == down'[..k] + down'[k + 1..]
    requires base <= e.name && InSubdirectory(e.name, base)
    requires if here then Under(e, Child(base, sub.name)) else UsedFor(down, NameIn(e.name, base))
    ensures UsedFor(down'[k := sub], NameIn(e.name, base))
  {
    var d := down'[k := sub];
    if here {
      ChildUnique(e.name, base, sub.name);
      assert d[k].used;
    } else {
      var n :| 0 <= n < |down| && down[n].name == NameIn(e.name, base) && down[n].used;
      var m := if down' == down then n else if n < k then n else n + 1;
      assert down'[m] == down[n];
      assert d[m].used && d[m].name == NameIn(e.name, base);
    }
  }

  /** discard_unused_subtrees. */
  method DiscardUnused(down: seq<Sub>) returns (kept: seq<Sub>)
    requires SortedDown(down)
    ensures SortedDown(kept) && forall k | 0 <= k < |kept| :: kept[k].used && kept[k] in down
    ensures forall k | 0 <= k < |down| && down[k].used :: down[k] in kept
  {
    hide NameLess;
    kept := [];
    for src := 0 to |down|
      invariant SortedDown(kept) && forall k | 0 <= k < |kept| :: kept[k].used && kept[k] in down[..src]
      invariant forall k | 0 <= k < src && down[k].used :: down[k] in kept
    {
      assert down[..src + 1] == down[..src] + [down[src]];
      if down[src].used {
        forall k | 0 <= k < |kept| ensures NameLess(kept[k].name, down[src].name) {
          var m :| 0 <= m < src && down[m] == kept[k];
        }
        kept := kept + [down[src]];
      }
    }
  }

  lemma DiscardedScanned(down: seq<Sub>, kept: seq<Sub>, es: seq<CacheEntry>, pos: nat, end: nat, base: string,
                         hash: Hash)
    requires Scanned(down, es, pos, end, base, hash)
    requires SortedDown(kept) && forall k | 0 <= k < |kept| :: kept[k].used && kept[k] in down
    requires forall k | 0 <= k < |down| && down[k].used :: down[k] in kept
    ensures Scanned(kept, es, pos, end, base, hash)
  {
    hide SubOk, InSubdirectory;
    forall j | pos <= j < end && base <= es[j].name && InSubdirectory(es[j].name, base)
      ensures UsedFor(kept, NameIn(es[j].name, base))
    {
      var n :| 0 <= n < |down| && down[n].name == NameIn(es[j].name, base) && down[n].used;
      var m :| 0 <= m < |kept| && kept[m] == down[n];
    }
  }

  // ---- the second loop: the tree object

  lemma ItemsFile(es: seq<CacheEntry>, i: nat, end: nat, base: string, hash: Hash)
    requires i < end <= |es| && base <= es[i].name && |es[i].name| > |base| && !InSubdirectory(es[i].name, base)
    ensures Items(es[i..end], base, hash)
         == (if es[i].ita then [] else [Item(es[i].mode, es[i].name[|base|..], es[i].oid)])
           + Items(es[i + 1..end], base, hash)
  {
    assert es[i..end][0] == es[i] && es[i..end][1..] == es[i + 1..end];
  }

  /** What a subdirectory adds to a tree object. */
  function SubItem(name: string, ita: bool, oid: Oid, hash: Hash): seq<Item> {
    if ita && oid == hash([]) then [] else [Item(DIRECTORY_MODE, name, oid)]
  }

  lemma ItemsSub(list: seq<CacheEntry>, base: string, hash: Hash, k: nat)
    requires list != [] && base <= list[0].name && |list[0].name| > |base| && InSubdirectory(list[0].name, base)
    requires k == FirstGroup(list, base)
    ensures Items(list, base, hash)
         == SubItem(NameIn(list[0].name, base), HasIta(list[..k]),
                    DirOid(list[..k], Child(base, NameIn(list[0].name, base)), hash), hash)
            + Items(list[k..], base, hash)
  {
    hide DirOid, FirstGroup, HasIta, NameIn, InSubdirectory, Child;
  }

  lemma ItemsGroup(es: seq<CacheEntry>, i: nat, end: nat, base: string, hash: Hash, m: nat)
    requires i < end <= |es| && base <= es[i].name && |es[i].name| > |base| && InSubdirectory(es[i].name, base)
    requires m == GroupEnd(es, i, Child(base, NameIn(es[i].name, base))) && i < m <= end
    ensures Items(es[i..end], base, hash)
         == SubItem(NameIn(es[i].name, base), HasIta(es[i..m]),
                    DirOid(es[i..m], Child(base, NameIn(es[i].name, base)), hash), hash)
            + Items(es[m..end], base, hash)
  {
    hide *;
    var list := es[i..end];
    assert list[0] == es[i];
    FirstGroupIs(es, i, end, base, m);
    assert list[..m - i] == es[i..m] && list[m - i..] == es[m..end];
    ItemsSub(list, base, hash, m - i);
  }

  lemma FirstGroupIs(es: seq<CacheEntry>, i: nat, end: nat, base: string, m: nat)
    requires i < end <= |es| && base <= es[i].name && |es[i].name| > |base| && InSubdirectory(es[i].name, base)
    requires m == GroupEnd(es, i, Child(base, NameIn(es[i].name, base))) && i < m <= end
    ensures FirstGroup(es[i..end], base) == m - i
  {
    hide GroupEnd, InSubdirectory, NameIn, Child, Under;
    assert es[i..end][0] == es[i];
    GroupSlice(es, i, end, Child(base, NameIn(es[i].name, base)));
  }

  lemma ItaJoin(a: seq<CacheEntry>, b: seq<CacheEntry>)
    ensures HasIta(a + b) == (HasIta(a) || HasIta(b))
  {
    assert forall k | 0 <= k < |a| :: (a + b)[k] == a[k];
    assert forall k | 0 <= k < |b| :: (a + b)[|a| + k] == b[k];
  }

  lemma ItaSlices(es: seq<CacheEntry>, pos: nat, i: nat, m: nat)
    requires pos <= i <= m <= |es|
    ensures HasIta(es[pos..m]) == (HasIta(es[pos..i]) || HasIta(es[i..m]))
  {
    hide HasIta;
    assert es[pos..m] == es[pos..i] + es[i..m];
    ItaJoin(es[pos..i], es[i..m]);
  }

  lemma ItaOne(es: seq<CacheEntry>, i: nat)
    requires i < |es|
    ensures HasIta(es[i..i + 1]) == es[i].ita
  {
    assert es[i..i + 1] == [es[i]];
    assert es[i].ita ==> es[i..i + 1][0].ita;
  }

  /** The entries at [pos, end) are those of directory `base`, which is not a sparse leaf. */
  ghost predicate DirAt(es: seq<CacheEntry>, pos: nat, end: nat, base: string) {
    && IndexOk(es) && pos <= end <= |es| && StartsAt(es, pos, base) && Below(es, base) == es[pos..end]
    && (end < |es| ==> !Under(es[end], base))
    && forall i | pos <= i < end :: base <= es[i].name && |es[i].name| > |base|
  }

  /** The sub that stands for the subdirectory entry at `i`. */
  lemma SubAt(down: seq<Sub>, es: seq<CacheEntry>, pos: nat, end: nat, base: string, hash: Hash, i: nat, p: int)
    requires DirAt(es, pos, end, base) && Scanned(down, es, pos, end, base, hash) && forall k | 0 <= k < |down| ::
             down[k].used
    requires pos <= i < end && Boundary(es, i, base) && InSubdirectory(es[i].name, base)
    requires p >= 0 ==> p < |down| && down[p].name == NameIn(es[i].name, base)
    requires p < 0 ==> forall k | 0 <= k < |down| :: down[k].name != NameIn(es[i].name, base)
    ensures p >= 0
    ensures var m := GroupEnd(es, i, Child(base, NameIn(es[i].name, base)));
            && i < m <= end && down[p].count == m - i && Boundary(es, m, base)
            && down[p].tree.oid == DirOid(es[i..m], Child(base, NameIn(es[i].name, base)), hash)
            && (down[p].tree.count < 0 <==> HasIta(es[i..m]))
  {
    hide *;
    DirEntry(es, pos, end, base, i);
    var name := NameIn(es[i].name, base);
    StartsHere(es, pos, end, base, i, name);
    ScannedName(down, es, pos, end, base, hash, i);
    GroupIsBelow(es, i, Child(base, name));
    BoundaryGroup(es, i, base, name);
    EndInside(es, pos, end, base, i, name);
    ScannedSub(down, es, pos, end, base, hash, p);
  }

  lemma StartsHere(es: seq<CacheEntry>, pos: nat, end: nat, base: string, i: nat, name: string)
    requires DirAt(es, pos, end, base) && pos <= i < end && Boundary(es, i, base) && InSubdirectory(es[i].name, base)
    requires name == NameIn(es[i].name, base)
    ensures IndexOk(es) && Plain(name) && Under(es[i], Child(base, name)) && StartsAt(es, i, Child(base, name))
  {
    hide Below;
    NameInPlain(es[i].name, base);
    assert es[i].Proper();
  }

  /** There is a node for the directory of an entry. */
  lemma ScannedName(down: seq<Sub>, es: seq<CacheEntry>, pos: nat, end: nat, base: string, hash: Hash, i: nat)
    requires DirAt(es, pos, end, base) && Scanned(down, es, pos, end, base, hash) && pos <= i < end
    requires InSubdirectory(es[i].name, base)
    ensures exists k :: 0 <= k < |down| && down[k].name == NameIn(es[i].name, base)
  {
    hide SubOk, Below, InSubdirectory, NameIn;
    assert UsedFor(down, NameIn(es[i].name, base));
  }

  /** The nodes that are used are up to date. */
  lemma ScannedSub(down: seq<Sub>, es: seq<CacheEntry>, pos: nat, end: nat, base: string, hash: Hash, p: nat)
    requires Scanned(down, es, pos, end, base, hash) && p < |down| && down[p].used
    ensures var list := Below(es, Child(base, down[p].name));
            && down[p].count == |list| && down[p].tree.oid == DirOid(list, Child(base, down[p].name), hash)
            && (down[p].tree.count < 0 <==> HasIta(list))
  {
    hide DirOid, HasIta, Below, Child, Complete, TreeOk, AllUsed, SortedDown;
    assert SubOk(down[p], es, pos, end, base, hash);
  }

  lemma EndInside(es: seq<CacheEntry>, pos: nat, end: nat, base: string, i: nat, name: string)
    requires DirAt(es, pos, end, base) && pos <= i < end && Under(es[i], Child(base, name))
    ensures i < GroupEnd(es, i, Child(base, name)) <= end
  {
    if end < GroupEnd(es, i, Child(base, name)) {
      UnderChild(es[end], base, name);
    }
  }

  /** The objects of all entries and all trees are in the repository. */
  ghost predicate AllPresent(es: seq<CacheEntry>, hash: Hash, present: Oid -> bool) {
    (forall i | 0 <= i < |es| :: present(es[i].oid)) && forall items: seq<Item> :: present(hash(items))
  }

  lemma DirPresent(es: seq<CacheEntry>, i: nat, m: nat, base: string, hash: Hash, present: Oid -> bool)
    requires AllPresent(es, hash, present) && i < m <= |es|
    ensures present(DirOid(es[i..m], base, hash))
  {
    assert es[i..m][0] == es[i];
  }

  /** The second loop of update_one: the content of the tree object.  It fails when an object is
      missing; the ones not known to be `present` may be there or not. */
  method WriteTree(down: seq<Sub>, es: seq<CacheEntry>, pos: nat, base: string, hash: Hash, present: Oid -> bool,
                   ghost end: nat)
    returns (ok: bool, items: seq<Item>, ita: bool, n: nat)
    requires DirAt(es, pos, end, base) && Scanned(down, es, pos, end, base, hash) && forall k | 0 <= k < |down| ::
             down[k].used
    ensures ok ==> items == Items(es[pos..end], base, hash) && ita == HasIta(es[pos..end]) && n == end - pos
    ensures ok && KnowsEmpty(hash) ==> Reaches(items, es[pos..end], base, hash)
    ensures AllPresent(es, hash, present) ==> ok
  {
    hide AllPresent;
    hide Scanned, DirOid, Items, HasIta, Boundary, InSubdirectory, NameLess, SubItem, GroupEnd, Below, IndexOk,
      StartsAt;
    items, ita := [], false;
    BoundaryStart(es, pos, base);
    NothingIta(es, pos);
    ScannedSorted(down, es, pos, end, base, hash);
    var i := pos;
    while i < |es| && base <= es[i].name && |es[i].name| > |base|
      invariant pos <= i <= end && Boundary(es, i, base)
      invariant items + Items(es[i..end], base, hash) == Items(es[pos..end], base, hash)
      invariant ita == HasIta(es[pos..i])
      decreases |es| - i
    {
      var e := es[i];
      var missing: bool := *;
      assert Under(e, base) && i < end;
      if InSubdirectory(e.name, base) {
        var name := NameIn(e.name, base);
        var p := SubtreePos(down, name);
        Absent(down, p, name);
        SubAt(down, es, pos, end, base, hash, i, p);
        var sub := down[p];
        ghost var m := i + sub.count;
        if AllPresent(es, hash, present) { DirPresent(es, i, m, Child(base, name), hash, present); }
        if missing && !present(sub.tree.oid) {
          return false, items, ita, 0;
        }
        ItemsGroup(es, i, end, base, hash, m);
        ItaSlices(es, pos, i, m);
        Regroup(items, SubItem(name, sub.tree.count < 0, sub.tree.oid, hash), Items(es[m..end], base, hash));
        items := items + SubItem(name, sub.tree.count < 0, sub.tree.oid, hash);
        ita := ita || sub.tree.count < 0;
        i := i + sub.count;
      } else {
        if AllPresent(es, hash, present) { EntryPresent(es, i, hash, present); }
        if missing && !present(e.oid) {
          return false, items, ita, 0;
        }
        ItemsFile(es, i, end, base, hash);
        BoundaryFile(es, i, base);
        ItaSlices(es, pos, i, i + 1);
        ItaOne(es, i);
        if e.ita {
          ita := true;
        } else {
          Regroup(items, [Item(e.mode, e.name[|base|..], e.oid)], Items(es[i + 1..end], base, hash));
          items := items + [Item(e.mode, e.name[|base|..], e.oid)];
        }
        i := i + 1;
      }
    }
    ItemsNothing(es, end, base, hash);
    if KnowsEmpty(hash) { DirAtReads(es, pos, end, base, hash); }
    ok, n := true, i - pos;
  }

  lemma DirAtReads(es: seq<CacheEntry>, pos: nat, end: nat, base: string, hash: Hash)
    requires DirAt(es, pos, end, base) && KnowsEmpty(hash)
    ensures Reaches(Items(es[pos..end], base, hash), es[pos..end], base, hash)
    ensures ReadsBack(DirOid(Below(es, base), base, hash), Below(es, base), base, hash)
  {
    var r := es[pos..end];
    assert Within(r, base) by { assert forall k | 0 <= k < |r| :: r[k] == es[pos + k]; }
    hide *;
    DirReads(r, base, hash);
    DirIs(es, pos, end, base);
  }

  lemma DirIs(es: seq<CacheEntry>, pos: nat, end: nat, base: string)
    requires DirAt(es, pos, end, base)
    ensures Below(es, base) == es[pos..end]
  {}

  lemma EntryPresent(es: seq<CacheEntry>, i: nat, hash: Hash, present: Oid -> bool)
    requires AllPresent(es, hash, present) && i < |es|
    ensures present(es[i].oid)
  {}

  lemma Regroup(a: seq<Item>, b: seq<Item>, c: seq<Item>)
    ensures a + (b + c) == (a + b) + c
  {}

  lemma NothingIta(es: seq<CacheEntry>, pos: nat)
    requires pos <= |es|
    ensures !HasIta(es[pos..pos])
  {}

  lemma ItemsNothing(es: seq<CacheEntry>, end: nat, base: string, hash: Hash)
    requires end <= |es|
    ensures Items(es[end..end], base, hash) == []
  {}

  lemma ScannedSorted(down: seq<Sub>, es: seq<CacheEntry>, pos: nat, end: nat, base: string, hash: Hash)
    requires Scanned(down, es, pos, end, base, hash)
    ensures SortedDown(down)
  {}

  // ---- the whole update

  /** No subdirectory appears or disappears and none becomes invalid. */
  ghost predicate Kept(before: seq<Sub>, after: seq<Sub>) {
    |after| == |before| && forall k | 0 <= k < |after| :: after[k].name == before[k].name && after[k].tree.count >= 0
  }

  /** Reset the marks of all subdirectories. */
  function Unmarked(down: seq<Sub>): (r: seq<Sub>)
    ensures |r| == |down| && forall k | 0 <= k < |down| :: r[k] == down[k].(used := false)
  {
    seq(|down|, i requires 0 <= i < |down| => down[i].(used := false))
  }

  lemma ScannedNothing(t: Tree, es: seq<CacheEntry>, pos: nat, base: string, hash: Hash)
    requires TreeOk(t, es, base, hash) && pos <= |es|
    ensures Scanned(Unmarked(t.down), es, pos, pos, base, hash)
    ensures t.count >= 0 && !IsLeaf(Below(es, base), base) ==> Kept(t.down, Unmarked(t.down))
  {
    hide NameLess, DirOid, Complete;
  }

  lemma ScannedOk(down: seq<Sub>, es: seq<CacheEntry>, pos: nat, i: nat, base: string, hash: Hash)
    requires Scanned(down, es, pos, i, base, hash)
    ensures SortedDown(down) && Names(down)
    ensures forall k | 0 <= k < |down| :: TreeOk(down[k].tree, es, Child(base, down[k].name), hash)
  {
    hide TreeOk, NameLess;
    forall k | 0 <= k < |down| ensures TreeOk(down[k].tree, es, Child(base, down[k].name), hash)
           && Plain(down[k].name) {
      assert SubOk(down[k], es, pos, i, base, hash);
    }
  }

  /** After the scan the nodes are exactly those of the populated subdirectories. */
  lemma ScannedComplete(down: seq<Sub>, es: seq<CacheEntry>, pos: nat, end: nat, base: string, hash: Hash)
    requires DirAt(es, pos, end, base) && Scanned(down, es, pos, end, base, hash) && forall k | 0 <= k < |down| ::
             down[k].used
    ensures Complete(down, es[pos..end], base)
  {
    var list := es[pos..end];
    hide InSubdirectory, TreeOk, SubDone, NameLess;
    forall k | 0 <= k < |down| ensures Populated(list, Child(base, down[k].name)) {
      assert SubOk(down[k], es, pos, end, base, hash);
      var j :| pos <= j < end && Under(es[j], Child(base, down[k].name));
      assert list[j - pos] == es[j];
    }
    forall j | 0 <= j < |list| && base <= list[j].name && InSubdirectory(list[j].name, base)
      ensures Listed(down, NameIn(list[j].name, base))
    {
      assert list[j] == es[pos + j];
      assert UsedFor(down, NameIn(es[pos + j].name, base));
    }
  }

  lemma CompleteKept(before: seq<Sub>, after: seq<Sub>, list: seq<CacheEntry>, base: string)
    requires Complete(before, list, base) && Kept(before, after)
    ensures Complete(after, list, base)
  {
    hide InSubdirectory, Populated;
    forall i | 0 <= i < |list| && base <= list[i].name && InSubdirectory(list[i].name, base)
      ensures Listed(after, NameIn(list[i].name, base))
    {
      var k :| 0 <= k < |before| && before[k].name == NameIn(list[i].name, base);
      assert after[k].name == before[k].name;
    }
  }

  /** A node whose update failed keeps its count and id, and is as right as before. */
  lemma FailedOk(t: Tree, down: seq<Sub>, es: seq<CacheEntry>, pos: nat, i: nat, base: string, hash: Hash)
    requires TreeOk(t, es, base, hash) && !IsLeaf(Below(es, base), base) && Scanned(down, es, pos, i, base, hash)
    requires t.count >= 0 ==> Complete(down, Below(es, base), base) && forall k | 0 <= k < |down| ::
             down[k].tree.count >= 0
    ensures TreeOk(Tree(t.count, t.oid, down), es, base, hash)
  {
    ScannedOk(down, es, pos, i, base, hash);
    hide Scanned, SortedDown, Names, DirOid, Complete, HasIta;
  }

  lemma WrittenOk(down: seq<Sub>, es: seq<CacheEntry>, pos: nat, end: nat, base: string, hash: Hash, count: int)
    requires DirAt(es, pos, end, base) && Scanned(down, es, pos, end, base, hash) && forall k | 0 <= k < |down| ::
             down[k].used
    requires count == if HasIta(es[pos..end]) then -1 else end - pos
    ensures var t := Tree(count, hash(Items(es[pos..end], base, hash)), down);
            TreeOk(t, es, base, hash) && Updated(t, es, base, hash)
  {
    ScannedOk(down, es, pos, end, base, hash);
    ScannedComplete(down, es, pos, end, base, hash);
    UsedUpdated(down, es, pos, end, base, hash, count);
    hide Items, Complete, SortedDown, Names, HasIta, Scanned, IndexOk, StartsAt, Under, Child;
  }

  lemma UsedUpdated(down: seq<Sub>, es: seq<CacheEntry>, pos: nat, end: nat, base: string, hash: Hash, count: int)
    requires DirAt(es, pos, end, base) && Scanned(down, es, pos, end, base, hash)
    requires forall k | 0 <= k < |down| :: down[k].used
    requires count == if HasIta(es[pos..end]) then -1 else end - pos
    ensures forall k | 0 <= k < |down| :: Updated(down[k].tree, es, Child(base, down[k].name), hash)
    ensures forall k | 0 <= k < |down| :: count >= 0 ==> down[k].tree.count >= 0
  {
    hide TreeOk, HasIta, IndexOk, Touched, Complete, DirOid, Child;
    forall k | 0 <= k < |down|
      ensures Updated(down[k].tree, es, Child(base, down[k].name), hash)
      ensures count >= 0 ==> down[k].tree.count >= 0
    {
      assert SubOk(down[k], es, pos, end, base, hash);
      if HasIta(Below(es, Child(base, down[k].name))) { SubIta(es, pos, end, base, down[k].name); }
    }
  }

  lemma SubIta(es: seq<CacheEntry>, pos: nat, end: nat, base: string, name: string)
    requires DirAt(es, pos, end, base) && HasIta(Below(es, Child(base, name)))
    ensures HasIta(es[pos..end])
  {
    var sub := Below(es, Child(base, name));
    var k :| 0 <= k < |sub| && sub[k].ita;
    var j := BelowFrom(es, Child(base, name), k);
    UnderChild(es[j], base, name);
    var m := BelowHas(es, base, j);
  }

  lemma {:induction false} BelowFrom(es: seq<CacheEntry>, base: string, k: nat) returns (j: nat)
    requires k < |Below(es, base)|
    ensures j < |es| && es[j] == Below(es, base)[k] && Under(es[j], base)
  {
    if Under(es[0], base) && k == 0 {
      return 0;
    }
    var i := BelowFrom(es[1..], base, if Under(es[0], base) then k - 1 else k);
    return i + 1;
  }

  lemma {:induction false} BelowHas(es: seq<CacheEntry>, base: string, j: nat) returns (k: nat)
    requires j < |es| && Under(es[j], base)
    ensures k < |Below(es, base)| && Below(es, base)[k] == es[j]
  {
    if j == 0 {
      return 0;
    }
    k := BelowHas(es[1..], base, j - 1);
    k := if Under(es[0], base) then k + 1 else k;
  }

  ghost function Left(es: seq<CacheEntry>, pos: nat, base: string): nat {
    if pos < |es| && |es[pos].name| >= |base| then |es[pos].name| - |base| else 0
  }

  // ---- what lies below a sparse directory

  /** The directory is a sparse one. */
  ghost predicate LeafAt(es: seq<CacheEntry>, base: string) {
    exists j :: 0 <= j < |es| && es[j].sparse && es[j].name == base
  }

  ghost predicate SameBelow(sub: Sub, after: seq<Sub>) {
    exists y :: y in after && y.name == sub.name && y.tree.down == sub.tree.down
  }

  /** The nodes below sparse directories are as they were. */
  ghost predicate LeavesKept(before: seq<Sub>, after: seq<Sub>, es: seq<CacheEntry>, base: string) {
    forall x | x in before && LeafAt(es, Child(base, x.name)) :: SameBelow(x, after)
  }

  lemma LeavesSame(down: seq<Sub>, es: seq<CacheEntry>, base: string)
    ensures LeavesKept(down, down, es, base)
  {
    forall x | x in down ensures SameBelow(x, down) {}
  }

  lemma LeavesUnmarked(down: seq<Sub>, es: seq<CacheEntry>, base: string)
    ensures LeavesKept(down, Unmarked(down), es, base)
  {
    forall x | x in down ensures SameBelow(x, Unmarked(down)) {
      var i :| 0 <= i < |down| && down[i] == x;
      assert Unmarked(down)[i] in Unmarked(down);
    }
  }

  lemma LeavesReplaced(before: seq<Sub>, down: seq<Sub>, down': seq<Sub>, es: seq<CacheEntry>, at: nat, base: string,
                       k: nat, name: string, tree: Tree)
    requires SortedDown(down') && k < |down'| && down'[k].name == name
    requires down' == down || (down'[k] == Sub(name, NO_TREE, 0, false) && down == down'[..k] + down'[k + 1..])
    requires IndexOk(es) && at < |es| && Under(es[at], Child(base, name))
    requires es[at].sparse && es[at].name == Child(base, name) ==> tree.down == down'[k].tree.down
    ensures forall count, used :: LeavesKept(before, down, es, base) ==>
              LeavesKept(before, down'[k := down'[k].(tree := tree, count := count, used := used)], es, base)
  {
    hide IndexOk, Child, Under;
    forall count, used, x | LeavesKept(before, down, es, base) && x in before && LeafAt(es, Child(base, x.name))
      ensures SameBelow(x, down'[k := down'[k].(tree := tree, count := count, used := used)])
    {
      assert SameBelow(x, down);
      if x.name == name { LeafEntry(es, at, Child(base, name)); }
      SameReplaced(x, down, down', k, name, down'[k].(tree := tree, count := count, used := used));
    }
  }

  /** The only entry of a sparse directory is its own. */
  lemma LeafEntry(es: seq<CacheEntry>, at: nat, base: string)
    requires IndexOk(es) && at < |es| && Under(es[at], base) && LeafAt(es, base)
    ensures es[at].sparse && es[at].name == base
  {}

  lemma SameReplaced(x: Sub, down: seq<Sub>, down': seq<Sub>, k: nat, name: string, sub: Sub)
    requires SortedDown(down') && k < |down'| && down'[k].name == name == sub.name && SameBelow(x, down)
    requires down' == down || (down'[k] == Sub(name, NO_TREE, 0, false) && down == down'[..k] + down'[k + 1..])
    requires x.name == name ==> sub.tree.down == down'[k].tree.down
    ensures SameBelow(x, down'[k := sub])
  {
    hide NameLess;
    var y :| y in down && y.name == x.name && y.tree.down == x.tree.down;
    var i :| 0 <= i < |down| && down[i] == y;
    var j := if down' == down || i < k then i else i + 1;
    if down' != down {
      assert down[i] == if i < k then down'[i] else down'[k + 1..][i - k];
    }
    assert down'[j] == y;
    if j == k {
      assert down'[k := sub][k] == sub;
    } else {
      if x.name == name { NoDuplicates(down', j, k); }
      assert down'[k := sub][j] == y;
    }
  }

  /** The node of a sparse directory has been used. */
  lemma LeavesUsed(t: Tree, down: seq<Sub>, kept: seq<Sub>, es: seq<CacheEntry>, pos: nat, end: nat, base: string,
                   hash: Hash)
    requires DirAt(es, pos, end, base) && TreeOk(t, es, base, hash) && Scanned(down, es, pos, end, base, hash)
    requires LeavesKept(t.down, down, es, base)
    requires forall k | 0 <= k < |down| && down[k].used :: down[k] in kept
    ensures LeavesKept(t.down, kept, es, base)
  {
    NodeShape(t, es, base, hash);
    hide TreeOk, SubOk, NameLess;
    forall x | x in t.down && LeafAt(es, Child(base, x.name)) ensures SameBelow(x, kept) {
      var y :| y in down && y.name == x.name && y.tree.down == x.tree.down;
      var i :| 0 <= i < |down| && down[i] == y;
      var j :| 0 <= j < |es| && es[j].sparse && es[j].name == Child(base, x.name);
      LeafInside(es, pos, end, base, j, x.name);
      var n :| 0 <= n < |down| && down[n].name == x.name && down[n].used;
      NoDuplicates(down, i, n);
    }
  }

  lemma LeafInside(es: seq<CacheEntry>, pos: nat, end: nat, base: string, j: nat, name: string)
    requires DirAt(es, pos, end, base) && j < |es| && es[j].sparse && es[j].name == Child(base, name) && Plain(name)
    ensures pos <= j < end && base <= es[j].name && InSubdirectory(es[j].name, base) && NameIn(es[j].name, base) == name
  {
    assert es[j].Proper();
    UnderChild(es[j], base, name);
    InsideDir(es, pos, end, base, j);
    hide DirAt;
    ChildUnique(es[j].name, base, name);
  }

  /** Entries below a directory are in its stretch of the index. */
  lemma InsideDir(es: seq<CacheEntry>, pos: nat, end: nat, base: string, j: nat)
    requires DirAt(es, pos, end, base) && j < |es| && Under(es[j], base)
    ensures pos <= j < end
  {
    var k := BelowHas(es, base, j);
    assert es[pos + k] == es[j];
    LessIrreflexive(es[j].name);
  }

  /** The first loop of update_one: bring every subdirectory up to date. */
  method UpdateSubs(t: Tree, es: seq<CacheEntry>, pos: nat, base: string, hash: Hash, present: Oid -> bool,
                    ghost end: nat)
    returns (ok: bool, down: seq<Sub>, ghost i: nat)
    requires DirAt(es, pos, end, base) && TreeOk(t, es, base, hash) && !IsLeaf(Below(es, base), base)
    ensures Scanned(down, es, pos, i, base, hash) && (ok ==> i == end)
    ensures t.count >= 0 ==> Kept(t.down, down)
    ensures LeavesKept(t.down, down, es, base)
    ensures AllPresent(es, hash, present) ==> ok
    decreases |es| - pos, Left(es, pos, base), 1
  {
    hide AllPresent, Scanned, DirOid, Boundary, TreeOk, NameLess, Complete, LeavesKept;
    LeavesUnmarked(t.down, es, base);
    BoundaryStart(es, pos, base);
    ScannedNothing(t, es, pos, base, hash);
    down := Unmarked(t.down);
    var at := pos;
    i := pos;
    while at < |es| && base <= es[at].name && |es[at].name| > |base|
      invariant pos <= at == i <= end && Boundary(es, at, base) && Scanned(down, es, pos, at, base, hash)
      invariant (t.count >= 0 ==> Kept(t.down, down)) && LeavesKept(t.down, down, es, base)
      decreases |es| - at
    {
      assert Under(es[at], base) && at < end;
      if !InSubdirectory(es[at].name, base) {
        ScannedFile(down, es, pos, at, base, hash);
        BoundaryFile(es, at, base);
        at := at + 1;
        i := at;
      } else {
        var n;
        ok, down, n := UpdateSub(t, down, es, pos, at, base, hash, present, end);
        if !ok {
          return;
        }
        at := at + n;
        i := at;
      }
    }
    ok := true;
  }

  /** One subdirectory of that loop. */
  method UpdateSub(ghost t: Tree, down: seq<Sub>, es: seq<CacheEntry>, ghost pos: nat, at: nat, base: string,
                   hash: Hash, present: Oid -> bool, ghost end: nat)
    returns (ok: bool, down': seq<Sub>, n: nat)
    requires DirAt(es, pos, end, base) && pos <= at < end && InSubdirectory(es[at].name, base) && Boundary(es, at, base)
    requires TreeOk(t, es, base, hash) && !IsLeaf(Below(es, base), base)
    requires Scanned(down, es, pos, at, base, hash) && (t.count >= 0 ==> Kept(t.down, down))
    ensures ok ==> n > 0 && at + n <= end && Boundary(es, at + n, base) && Scanned(down', es, pos, at + n, base, hash)
    ensures !ok ==> Scanned(down', es, pos, at, base, hash)
    ensures t.count >= 0 ==> Kept(t.down, down')
    ensures LeavesKept(t.down, down, es, base) ==> LeavesKept(t.down, down', es, base)
    ensures AllPresent(es, hash, present) ==> ok
    decreases |es| - at, Left(es, at, base), 0
  {
    hide *;
    DirEntry(es, pos, end, base, at);
    var name := NameIn(es[at].name, base);
    SubHere(es, pos, at, end, base, name);
    SameSub(t, down, es, pos, at, end, base, hash);
    ScannedOk(down, es, pos, at, base, hash);
    var k;
    down', k := FindOrCreate(down, name);
    Made(down, down', k, name, es, base, hash);
    var sub;
    ok, n, sub := UpdateOne(down'[k].tree, es, at, Child(base, name), hash, present);
    LeavesReplaced(t.down, down, down', es, at, base, k, name, sub);
    if ok {
      var updated := down'[k].(tree := sub, count := n, used := true);
      MakeDone(updated, es, base, hash);
      Replaced(down, down', es, pos, at, at + n, base, hash, k, updated);
      KeptReplaced(t, down, down', k, updated);
      down' := down'[k := updated];
    } else {
      var failed := down'[k].(tree := sub);
      Replaced(down, down', es, pos, at, at, base, hash, k, failed);
      KeptReplaced(t, down, down', k, failed);
      down' := down'[k := failed];
    }
  }

  lemma DirEntry(es: seq<CacheEntry>, pos: nat, end: nat, base: string, at: nat)
    requires DirAt(es, pos, end, base) && pos <= at < end
    ensures end <= |es| && |base| < |es[at].name|
  {}

  lemma MakeDone(sub: Sub, es: seq<CacheEntry>, base: string, hash: Hash)
    requires Updated(sub.tree, es, Child(base, sub.name), hash) && sub.count == |Below(es, Child(base, sub.name))|
    ensures SubDone(sub, es, base, hash)
  {}

  lemma KeptReplaced(t: Tree, down: seq<Sub>, down': seq<Sub>, k: nat, sub: Sub)
    requires t.count >= 0 ==> Kept(t.down, down) && down' == down
    requires k < |down'| && sub.name == down'[k].name && (down'[k].tree.count >= 0 ==> sub.tree.count >= 0)
    ensures t.count >= 0 ==> Kept(t.down, down'[k := sub])
  {}

  lemma SubHere(es: seq<CacheEntry>, pos: nat, at: nat, end: nat, base: string, name: string)
    requires DirAt(es, pos, end, base) && pos <= at < end && InSubdirectory(es[at].name, base) && Boundary(es, at, base)
    requires name == NameIn(es[at].name, base)
    ensures IndexOk(es) && StartsAt(es, at, Child(base, name)) && Under(es[at], Child(base, name)) && Plain(name)
    ensures Left(es, at, Child(base, name)) < Left(es, at, base)
    ensures var n := |Below(es, Child(base, name))|;
            && n > 0 && at + n <= end <= |es| && Boundary(es, at + n, base)
            && forall j | at <= j < at + n :: Under(es[j], Child(base, name))
  {
    hide *;
    ChildHere(es, pos, at, end, base, name);
    GroupIsBelow(es, at, Child(base, name));
    BoundaryGroup(es, at, base, name);
    EndInside(es, pos, end, base, at, name);
  }

  lemma ChildHere(es: seq<CacheEntry>, pos: nat, at: nat, end: nat, base: string, name: string)
    requires DirAt(es, pos, end, base) && pos <= at < end && InSubdirectory(es[at].name, base) && Boundary(es, at, base)
    requires name == NameIn(es[at].name, base)
    ensures IndexOk(es) && end <= |es| && Plain(name) && Under(es[at], Child(base, name))
    ensures StartsAt(es, at, Child(base, name)) && Left(es, at, Child(base, name)) < Left(es, at, base)
  {
    hide Below;
    NameInPlain(es[at].name, base);
    assert es[at].Proper();
    assert Under(es[at], Child(base, name));
  }

  /** While a valid node is updated, the subdirectory of the entry at `at` is there already. */
  lemma SameSub(t: Tree, down: seq<Sub>, es: seq<CacheEntry>, pos: nat, at: nat, end: nat, base: string, hash: Hash)
    requires DirAt(es, pos, end, base) && pos <= at < end && InSubdirectory(es[at].name, base)
    requires TreeOk(t, es, base, hash) && !IsLeaf(Below(es, base), base) && (t.count >= 0 ==> Kept(t.down, down))
    ensures t.count >= 0 ==> Listed(down, NameIn(es[at].name, base))
  {
    hide DirOid, HasIta, InSubdirectory;
    if t.count >= 0 {
      assert Below(es, base)[at - pos] == es[at];
      assert Listed(t.down, NameIn(es[at].name, base));
      var k :| 0 <= k < |t.down| && t.down[k].name == NameIn(es[at].name, base);
      assert down[k].name == NameIn(es[at].name, base);
    }
  }

  /** The node FindOrCreate gives is right, and new only if there was none. */
  lemma Made(down: seq<Sub>, down': seq<Sub>, k: nat, name: string, es: seq<CacheEntry>, base: string, hash: Hash)
    requires SortedDown(down') && k < |down'| && down'[k].name == name
    requires down' == down || (down'[k] == Sub(name, NO_TREE, 0, false) && down == down'[..k] + down'[k + 1..])
    requires forall k | 0 <= k < |down| :: TreeOk(down[k].tree, es, Child(base, down[k].name), hash)
    ensures TreeOk(down'[k].tree, es, Child(base, name), hash)
    ensures Listed(down, name) ==> down' == down
  {
    hide NameLess;
    if Listed(down, name) && down' != down {
      var j :| 0 <= j < |down| && down[j].name == name;
      NoDuplicates(down', k, if j < k then j else j + 1);
    }
  }

  /** UpdateOne's outcome for a subdirectory put back in its place. */
  lemma Replaced(down: seq<Sub>, down': seq<Sub>, es: seq<CacheEntry>, pos: nat, at: nat, m: nat, base: string,
                 hash: Hash, k: nat, sub: Sub)
    requires Scanned(down, es, pos, at, base, hash) && pos <= at < |es| && at <= m <= |es|
    requires SortedDown(down') && k < |down'| && down'[k].name == sub.name && Plain(sub.name)
    requires down' == down || (down'[k] == Sub(sub.name, NO_TREE, 0, false) && down == down'[..k] + down'[k + 1..])
    requires TreeOk(sub.tree, es, Child(base, sub.name), hash) && StartsAt(es, at, Child(base, sub.name))
    requires at == m ==> sub.used == down'[k].used
    requires at < m ==> sub.used && SubDone(sub, es, base, hash)
    requires at < m ==> forall j | at <= j < m :: Under(es[j], Child(base, sub.name))
    ensures Scanned(down'[k := sub], es, pos, m, base, hash)
  {
    hide SubDone, TreeOk, Under, NameLess, InSubdirectory;
    if at < m {
      assert Under(es[at], Child(base, sub.name));
      assert Touched(es, pos, m, Child(base, sub.name));
      ScannedGroup(down, down', es, pos, at, m, base, hash, k, sub);
    } else {
      NotYetUsed(down, down', es, pos, at, base, hash, k, sub.name);
      ScannedSame(down, down', es, pos, at, base, hash, k, sub);
    }
  }

  lemma NotYetUsed(down: seq<Sub>, down': seq<Sub>, es: seq<CacheEntry>, pos: nat, at: nat, base: string, hash: Hash,
                   k: nat, name: string)
    requires Scanned(down, es, pos, at, base, hash) && k < |down'| && down'[k].name == name
             && StartsAt(es, at, Child(base, name))
    requires down' == down || down'[k] == Sub(name, NO_TREE, 0, false)
    ensures !down'[k].used
  {
    if down' == down {
      hide TreeOk, SubDone, Under;
      assert SubOk(down[k], es, pos, at, base, hash);
    }
  }

  lemma ScannedSame(down: seq<Sub>, down': seq<Sub>, es: seq<CacheEntry>, pos: nat, at: nat, base: string, hash: Hash,
                    k: nat, sub: Sub)
    requires Scanned(down, es, pos, at, base, hash)
    requires SortedDown(down') && k < |down'| && down'[k].name == sub.name && Plain(sub.name) && !sub.used
             && !down'[k].used
    requires down' == down || down == down'[..k] + down'[k + 1..]
    requires TreeOk(sub.tree, es, Child(base, sub.name), hash)
    ensures Scanned(down'[k := sub], es, pos, at, base, hash)
  {
    var d := down'[k := sub];
    assert SubOk(sub, es, pos, at, base, hash);
    hide SubOk, TreeOk, NameLess, InSubdirectory, UsedFor;
    forall m | 0 <= m < |d| ensures SubOk(d[m], es, pos, at, base, hash) {
      if m != k {
        var n := if down' == down || m < k then m else m - 1;
        assert down[n] == d[m];
      }
    }
    forall j | pos <= j < at && base <= es[j].name && InSubdirectory(es[j].name, base)
      ensures UsedFor(d, NameIn(es[j].name, base))
    {
      UsedStays(down, down', k, sub, NameIn(es[j].name, base));
    }
    assert forall m | 0 <= m < |d| :: d[m].name == down'[m].name;
  }

  lemma UsedStays(down: seq<Sub>, down': seq<Sub>, k: nat, sub: Sub, name: string)
    requires k < |down'| && !down'[k].used && (down' == down || down == down'[..k] + down'[k + 1..])
             && UsedFor(down, name)
    ensures UsedFor(down'[k := sub], name)
  {
    var n :| 0 <= n < |down| && down[n].name == name && down[n].used;
    var m := if down' == down || n < k then n else n + 1;
    assert down'[m] == down[n] && down'[k := sub][m] == down[n];
  }

  /** A directory that is a single sparse entry. */
  lemma LeafOk(t: Tree, es: seq<CacheEntry>, pos: nat, base: string, hash: Hash)
    requires IndexOk(es) && StartsAt(es, pos, base) && pos < |es| && es[pos].sparse && es[pos].name == base
    requires TreeOk(t, es, base, hash)
    ensures TreeOk(Tree(1, es[pos].oid, t.down), es, base, hash)
            && Updated(Tree(1, es[pos].oid, t.down), es, base, hash)
    ensures |Below(es, base)| == 1
  {
    GroupIsBelow(es, pos, base);
    assert pos + 1 < |es| ==> !Under(es[pos + 1], base);
    assert Below(es, base) == [es[pos]];
    hide Complete, SortedDown, Names;
  }

  lemma BelowRoot(es: seq<CacheEntry>)
    requires IndexOk(es)
    ensures forall i | 0 <= i < |es| :: Under(es[i], "")
    ensures Below(es, "") == es
  {
    BelowAll(es, "", true);
  }

  lemma DirHere(es: seq<CacheEntry>, pos: nat, base: string) returns (end: nat)
    requires IndexOk(es) && StartsAt(es, pos, base) && (if pos < |es| then Under(es[pos], base) else base == "")
    requires pos < |es| ==> !(es[pos].sparse && es[pos].name == base)
    ensures DirAt(es, pos, end, base) && !IsLeaf(Below(es, base), base) && (pos < |es| ==> pos < end)
  {
    end := GroupEnd(es, pos, base);
    if pos < |es| {
      GroupIsBelow(es, pos, base);
      forall i | pos <= i < end ensures base <= es[i].name && |es[i].name| > |base| {
        NotLeaf(es, pos, base, i);
      }
    } else {
      BelowRoot(es);
    }
  }

  /** update_one: after success the node has the count and the tree object of its directory,
      recursively; after a failure no node that claims to be valid is wrong.  It succeeds if no
      object is missing. */
  method UpdateOne(t: Tree, es: seq<CacheEntry>, pos: nat, base: string, hash: Hash, present: Oid -> bool)
    returns (ok: bool, n: nat, t': Tree)
    requires IndexOk(es) && StartsAt(es, pos, base) && (if pos < |es| then Under(es[pos], base) else base == "")
    requires TreeOk(t, es, base, hash)
    ensures TreeOk(t', es, base, hash) && (t.count >= 0 ==> t'.count >= 0)
    ensures ok ==> Updated(t', es, base, hash) && n == |Below(es, base)|
    ensures ok ==> LeavesKept(t.down, t'.down, es, base)
    ensures pos < |es| && es[pos].sparse && es[pos].name == base ==> ok && t'.down == t.down && t'.oid == es[pos].oid
    ensures ok && KnowsEmpty(hash) && !(pos < |es| && es[pos].sparse && es[pos].name == base) ==>
              ReadsBack(t'.oid, Below(es, base), base, hash)
    ensures AllPresent(es, hash, present) ==> ok
    decreases |es| - pos, Left(es, pos, base), 2
  {
    LeavesSame(t.down, es, base);
    if pos < |es| && es[pos].sparse && es[pos].name == base {
      LeafOk(t, es, pos, base, hash);
      return true, 1, Tree(1, es[pos].oid, t.down);
    }
    ghost var end := DirHere(es, pos, base);
    hide ReadsBack, KnowsEmpty;
    if KnowsEmpty(hash) { DirAtReads(es, pos, end, base, hash); }
    var found: bool := *;
    if 0 <= t.count && (found || present(t.oid)) {
      ValidIsUpdated(t, es, base, hash);
      return true, t.count, t;
    }
    hide TreeOk, Updated, DirOid, Scanned, HasIta, Complete, IndexOk, Under, Items, LeavesKept, AllPresent;
    var down;
    ghost var i;
    ok, down, i := UpdateSubs(t, es, pos, base, hash, present, end);
    if t.count >= 0 { StillComplete(t, down, es, base, hash); }
    if !ok {
      FailedOk(t, down, es, pos, i, base, hash);
      return false, 0, Tree(t.count, t.oid, down);
    }
    ScannedSorted(down, es, pos, end, base, hash);
    var kept := DiscardUnused(down);
    DiscardedScanned(down, kept, es, pos, end, base, hash);
    LeavesUsed(t, down, kept, es, pos, end, base, hash);
    var items, ita;
    ok, items, ita, n := WriteTree(kept, es, pos, base, hash, present, end);
    if !ok {
      ScannedComplete(kept, es, pos, end, base, hash);
      FailedOk(t, kept, es, pos, end, base, hash);
      return false, 0, Tree(t.count, t.oid, kept);
    }
    t' := Tree(if ita then -1 else n, hash(items), kept);
    WrittenOk(kept, es, pos, end, base, hash, t'.count);
    if t.count >= 0 { NoIta(t, es, base, hash); }
  }

  lemma StillComplete(t: Tree, down: seq<Sub>, es: seq<CacheEntry>, base: string, hash: Hash)
    requires TreeOk(t, es, base, hash) && t.count >= 0 && !IsLeaf(Below(es, base), base) && Kept(t.down, down)
    ensures Complete(down, Below(es, base), base)
  {
    CompleteKept(t.down, down, Below(es, base), base);
  }

  lemma NoIta(t: Tree, es: seq<CacheEntry>, base: string, hash: Hash)
    requires TreeOk(t, es, base, hash) && t.count >= 0
    ensures !HasIta(Below(es, base))
  {}
}
