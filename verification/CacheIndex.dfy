/** The index as cache-tree.c sees it: a sorted list of paths, and the tree objects its
    directories stand for. */
module CacheIndex {

  type Oid = int

  /** An index entry.  A sparse directory is one entry for a whole directory; its name
      ends in a slash.  `ita` is CE_INTENT_TO_ADD. */
  datatype CacheEntry = CacheEntry(name: string, mode: int, oid: Oid, ita: bool, sparse: bool) {
    predicate Proper() {
      name != "" && (sparse <==> name[|name| - 1] == '/') && !(sparse && ita)
    }
  }

  /** The order of memcmp with shorter strings first. */
  predicate Less(a: string, b: string) {
    if b == "" then false
    else if a == "" then true
    else a[0] < b[0] || (a[0] == b[0] && Less(a[1..], b[1..]))
  }

  /** An index: proper entries in strictly ascending order, and nothing below a sparse
      directory but its own entry. */
  ghost predicate IndexOk(es: seq<CacheEntry>) {
    && (forall i | 0 <= i < |es| :: es[i].Proper())
    && (forall i, j | 0 <= i < j < |es| :: Less(es[i].name, es[j].name))
    && (forall i, j | 0 <= i < |es| && 0 <= j < |es| && es[i].sparse && es[i].name <= es[j].name :: i == j)
  }

  // ---- prefixes

  lemma {:induction false} LessPrefix(p: string, a: string, b: string, c: string)
    requires p <= a && p <= c && Less(a, b) && Less(b, c)
    ensures p <= b
  {
    if p != "" {
      assert b != "" && a[0] == b[0] == c[0] == p[0];
      LessPrefix(p[1..], a[1..], b[1..], c[1..]);
      assert b == [b[0]] + b[1..] && p == [p[0]] + p[1..];
    }
  }

  lemma {:induction false} LessIrreflexive(a: string)
    ensures !Less(a, a)
  {
    if a != "" { LessIrreflexive(a[1..]); }
  }

  /** An entry lies below the directory with path `base` (empty, or ending in a slash). */
  predicate Under(e: CacheEntry, base: string) {
    base <= e.name && (|e.name| > |base| || e.sparse)
  }

  /** Entries below a directory are contiguous. */
  lemma Contiguous(es: seq<CacheEntry>, base: string, i: int, j: int, k: int)
    requires IndexOk(es) && 0 <= i < j < k < |es| && Under(es[i], base) && Under(es[k], base)
    ensures Under(es[j], base)
  {
    LessPrefix(base, es[i].name, es[j].name, es[k].name);
    if es[j].name == base {
      // the directory's own name sorts first
      PrefixFirst(base, es[i].name);
    }
  }

  lemma {:induction false} PrefixFirst(p: string, a: string)
    requires p <= a
    ensures !Less(a, p)
  {
    if p != "" {
      PrefixFirst(p[1..], a[1..]);
    }
  }

  /** Where the run of entries below `base` that starts at `pos` ends. */
  function GroupEnd(es: seq<CacheEntry>, pos: nat, base: string): (end: nat)
    requires pos <= |es|
    ensures pos <= end <= |es| && (forall i | pos <= i < end :: Under(es[i], base))
            && (end < |es| ==> !Under(es[end], base))
    decreases |es| - pos
  {
    if pos == |es| || !Under(es[pos], base) then pos else GroupEnd(es, pos + 1, base)
  }

  /** The entries below `base`, wherever they are. */
  function Below(es: seq<CacheEntry>, base: string): seq<CacheEntry> {
    if es == [] then []
    else if Under(es[0], base) then [es[0]] + Below(es[1..], base)
    else Below(es[1..], base)
  }

  lemma {:induction false} BelowJoin(a: seq<CacheEntry>, b: seq<CacheEntry>, base: string)
    ensures Below(a + b, base) == Below(a, base) + Below(b, base)
  {
    if a == [] {
      assert a + b == b;
    } else {
      assert (a + b)[1..] == a[1..] + b;
      BelowJoin(a[1..], b, base);
    }
  }

  lemma {:induction false} BelowAll(es: seq<CacheEntry>, base: string, b: bool)
    requires forall i | 0 <= i < |es| :: Under(es[i], base) == b
    ensures Below(es, base) == if b then es else []
  {
    if es != [] {
      BelowAll(es[1..], base, b);
      assert es == [es[0]] + es[1..];
    }
  }

  /** No entry before `pos` lies below `base`. */
  ghost predicate StartsAt(es: seq<CacheEntry>, pos: nat, base: string) {
    pos <= |es| && forall i | 0 <= i < pos :: !Under(es[i], base)
  }

  lemma AfterGroup(es: seq<CacheEntry>, pos: nat, base: string, i: int)
    requires IndexOk(es) && pos < |es| && Under(es[pos], base) && GroupEnd(es, pos, base) <= i < |es|
    ensures !Under(es[i], base)
  {
    if Under(es[i], base) {
      Contiguous(es, base, pos, GroupEnd(es, pos, base), i);
    }
  }

  /** The entries below `base` are the group that starts where the first of them is. */
  lemma GroupIsBelow(es: seq<CacheEntry>, pos: nat, base: string)
    requires IndexOk(es) && StartsAt(es, pos, base) && pos < |es| && Under(es[pos], base)
    ensures Below(es, base) == es[pos..GroupEnd(es, pos, base)]
  {
    var end := GroupEnd(es, pos, base);
    forall i | end <= i < |es| ensures !Under(es[i], base) {
      AfterGroup(es, pos, base, i);
    }
    hide IndexOk, Under;
    ThreeParts(es, pos, end);
    BelowMiddle(es[..pos], es[pos..end], es[end..], base);
  }

  lemma ThreeParts<T>(s: seq<T>, i: nat, j: nat)
    requires i <= j <= |s|
    ensures s == s[..i] + (s[i..j] + s[j..])
  {}

  lemma BelowMiddle(before: seq<CacheEntry>, group: seq<CacheEntry>, after: seq<CacheEntry>, base: string)
    requires forall i | 0 <= i < |before| :: !Under(before[i], base)
    requires forall i | 0 <= i < |group| :: Under(group[i], base)
    requires forall i | 0 <= i < |after| :: !Under(after[i], base)
    ensures Below(before + (group + after), base) == group
  {
    hide Under, Below;
    BelowJoin(before, group + after, base);
    BelowJoin(group, after, base);
    BelowAll(before, base, false);
    BelowAll(group, base, true);
    BelowAll(after, base, false);
  }

  // ---- directories

  /** The first slash of a path from `from` on, or its end. */
  function SlashAt(name: string, from: nat): (k: nat)
    requires from <= |name|
    ensures from <= k <= |name| && (k < |name| ==> name[k] == '/') && forall i | from <= i < k :: name[i] != '/'
    decreases |name| - from
  {
    if from == |name| || name[from] == '/' then from else SlashAt(name, from + 1)
  }

  /** The directory of an entry just below `base`. */
  function Child(base: string, name: string): string {
    base + name + "/"
  }

  /** An entry's name in the directory `base`, up to the next slash. */
  function NameIn(name: string, base: string): string
    requires |base| <= |name|
  {
    name[|base|..SlashAt(name, |base|)]
  }

  predicate InSubdirectory(name: string, base: string)
    requires |base| <= |name|
  {
    SlashAt(name, |base|) < |name|
  }

  predicate Plain(name: string) {
    '/' !in name
  }

  lemma NameInPlain(name: string, base: string)
    requires base <= name
    ensures Plain(NameIn(name, base))
    ensures InSubdirectory(name, base) ==> Child(base, NameIn(name, base)) <= name
    ensures InSubdirectory(name, base) ==> Child(base, NameIn(name, base)) == name[..SlashAt(name, |base|) + 1]
  {
    var k := SlashAt(name, |base|);
    if k < |name| {
      assert name[..k + 1] == name[..|base|] + name[|base|..k] + "/";
    }
  }

  /** A path lies below at most one child directory. */
  lemma ChildUnique(name: string, base: string, x: string)
    requires Plain(x) && Child(base, x) <= name
    ensures base <= name && InSubdirectory(name, base) && NameIn(name, base) == x
  {
    var k := SlashAt(name, |base|);
    assert name[|base| + |x|] == '/';
    assert forall i | 0 <= i < |x| :: name[|base| + i] == x[i];
    assert k == |base| + |x|;
    assert name[|base|..k] == x;
  }

  // ---- the tree objects of a directory, from scratch

  const DIRECTORY_MODE := 0x4000

  /** One line of a tree object. */
  datatype Item = Item(mode: int, name: string, oid: Oid)

  type Hash = seq<Item> -> Oid

  predicate HasIta(es: seq<CacheEntry>) {
    exists i | 0 <= i < |es| :: es[i].ita
  }

  /** A directory that is a single sparse entry. */
  predicate IsLeaf(es: seq<CacheEntry>, base: string) {
    es != [] && es[0].sparse && es[0].name == base
  }

  /** The entries of the first entry's directory below `base`. */
  function FirstGroup(es: seq<CacheEntry>, base: string): (k: nat)
    requires es != [] && base <= es[0].name
    ensures 1 <= k <= |es|
  {
    var k := GroupEnd(es, 0, Child(base, NameIn(es[0].name, base)));
    if k == 0 then 1 else k
  }

  ghost function Depth(es: seq<CacheEntry>, base: string): nat {
    if es == [] || |es[0].name| < |base| then 0 else |es[0].name| - |base|
  }

  /** The id of the tree object for directory `base` with entries `es`. */
  function DirOid(es: seq<CacheEntry>, base: string, hash: Hash): Oid
    decreases |es|, Depth(es, base), 1
  {
    if IsLeaf(es, base) then es[0].oid else hash(Items(es, base, hash))
  }

  /** Its content: files, except those only intended to be added, and subdirectories, except
      those that hold nothing else. */
  function Items(es: seq<CacheEntry>, base: string, hash: Hash): seq<Item>
    decreases |es|, Depth(es, base), 0
  {
    if es == [] || !(base <= es[0].name) || |es[0].name| <= |base| then []
    else
      var e := es[0];
      if !InSubdirectory(e.name, base) then
        (if e.ita then [] else [Item(e.mode, e.name[|base|..], e.oid)]) + Items(es[1..], base, hash)
      else
        var name := NameIn(e.name, base);
        var k := FirstGroup(es, base);
        var oid := DirOid(es[..k], Child(base, name), hash);
        (if HasIta(es[..k]) && oid == hash([]) then [] else [Item(DIRECTORY_MODE, name, oid)])
          + Items(es[k..], base, hash)
  }
}
