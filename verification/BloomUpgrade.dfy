/** Relabelling a version-1 Bloom filter as version 2: upgrade_filter of bloom.c. */
module BloomUpgrade {
  import opened BloomHash
  import opened BloomFilter

  type Oid = nat

  datatype Entry = Entry(name: Bytes, dir: bool, oid: Oid)

  type Store = map<Oid, seq<Entry>>

  /** Tree objects do not contain themselves. */
  ghost predicate Ranked(store: Store, rank: Oid -> nat) {
    forall t, i | t in store && 0 <= i < |store[t]| && store[t][i].dir :: rank(store[t][i].oid) < rank(t)
  }

  /** Some name in or below a tree has a high bit, or some object is missing. */
  ghost predicate High(store: Store, rank: Oid -> nat, t: Oid)
    requires Ranked(store, rank)
    decreases rank(t)
  {
    t !in store || exists i | 0 <= i < |store[t]| :: HighEntry(store, rank, t, i)
  }

  ghost predicate HighEntry(store: Store, rank: Oid -> nat, t: Oid, i: nat)
    requires Ranked(store, rank) && t in store && i < |store[t]|
    decreases rank(t), 0
  {
    !SevenBit(store[t][i].name) || (store[t][i].dir && High(store, rank, store[t][i].oid))
  }

  /** A path names something in a tree. */
  ghost predicate HasPath(store: Store, t: Oid, path: Bytes)
    decreases |path|
  {
    t in store && exists i | 0 <= i < |store[t]| :: PathAt(store, t, i, path)
  }

  ghost predicate PathAt(store: Store, t: Oid, i: nat, path: Bytes)
    requires t in store && i < |store[t]|
    decreases |path|, 0
  {
    var e := store[t][i];
    path == e.name || (e.dir && |e.name| < |path| && path[..|e.name|] == e.name && path[|e.name|] == SLASH
                       && HasPath(store, e.oid, path[|e.name| + 1..]))
  }

  /** In a tree without high bits every path is in seven bits. */
  lemma {:induction false} PathsSevenBit(store: Store, rank: Oid -> nat, t: Oid, path: Bytes)
    requires Ranked(store, rank) && !High(store, rank, t) && HasPath(store, t, path)
    ensures SevenBit(path)
    decreases |path|
  {
    var i :| 0 <= i < |store[t]| && PathAt(store, t, i, path);
    var e := store[t][i];
    assert !HighEntry(store, rank, t, i);
    if path != e.name {
      var rest := path[|e.name| + 1..];
      PathsSevenBit(store, rank, e.oid, rest);
      Joined(e.name, rest, path);
    }
  }

  /** All trees are there. */
  ghost predicate AllThere(store: Store) {
    forall t, i | t in store && 0 <= i < |store[t]| && store[t][i].dir :: store[t][i].oid in store
  }

  /** If all trees are there, a tree has high bits exactly if some path in it has. */
  lemma HighExact(store: Store, rank: Oid -> nat, t: Oid)
    requires Ranked(store, rank) && AllThere(store) && t in store
    ensures High(store, rank, t) <==> exists path :: HasPath(store, t, path) && !SevenBit(path)
  {
    hide SevenBit, HasPath, High;
    if High(store, rank, t) {
      var path := HighPath(store, rank, t);
    } else {
      forall path | HasPath(store, t, path) ensures SevenBit(path) { PathsSevenBit(store, rank, t, path); }
    }
  }

  lemma {:induction false} HighPath(store: Store, rank: Oid -> nat, t: Oid) returns (path: Bytes)
    requires Ranked(store, rank) && AllThere(store) && t in store && High(store, rank, t)
    ensures HasPath(store, t, path) && !SevenBit(path)
    decreases rank(t)
  {
    var i :| 0 <= i < |store[t]| && HighEntry(store, rank, t, i);
    var e := store[t][i];
    if !SevenBit(e.name) {
      path := e.name;
      assert PathAt(store, t, i, path);
    } else {
      var rest := HighPath(store, rank, e.oid);
      path := e.name + [SLASH] + rest;
      var k :| 0 <= k < |rest| && rest[k] >= 0x80;
      assert path[|e.name| + 1 + k] == rest[k];
      assert path[..|e.name|] == e.name && path[|e.name| + 1..] == rest;
      assert PathAt(store, t, i, path);
    }
  }

  lemma Joined(name: Bytes, rest: Bytes, path: Bytes)
    requires SevenBit(name) && SevenBit(rest) && |name| < |path| && path[..|name|] == name && path[|name|] == SLASH
             && path[|name| + 1..] == rest
    ensures SevenBit(path)
  {
    forall i | 0 <= i < |path| ensures path[i] < 0x80 {
      if i < |name| {
        assert path[i] == name[i];
      } else if i > |name| {
        assert path[i] == rest[i - |name| - 1];
      }
    }
  }

  class Trees {
    const store: Store
    var visited: set<Oid>
    var high: set<Oid>

    /** The flags left on trees are right. */
    ghost predicate Valid(rank: Oid -> nat)
      reads this
    {
      Ranked(store, rank) && high <= visited && forall t | t in visited ::
        t in store && (t in high <==> High(store, rank, t))
    }

    constructor (store: Store)
      ensures this.store == store && visited == {} && high == {}
    {
      this.store, visited, high := store, {}, {};
    }

    /** has_entries_with_high_bit, with its flags as a memory across calls. */
    method HasHighBit(t: Oid, ghost rank: Oid -> nat) returns (r: bool)
      requires Valid(rank)
      modifies this
      ensures Valid(rank) && r == High(store, rank, t)
      decreases rank(t)
    {
      if t !in store {
        return true;
      }
      if t !in visited {
        var entries := store[t];
        var found := false;
        var i := 0;
        while i < |entries| && !found
          invariant 0 <= i <= |entries| && Valid(rank) && t in store && entries == store[t]
          invariant if found then High(store, rank, t) else forall k | 0 <= k < i :: !HighEntry(store, rank, t, k)
          decreases |entries| - i, !found
        {
          var name := HighName(entries[i].name);
          var below := false;
          if !name && entries[i].dir {
            below := HasHighBit(entries[i].oid, rank);
          }
          assert (name || below) == HighEntry(store, rank, t, i);
          found := name || below;
          i := i + 1;
        }
        if found {
          high := high + {t};
        }
        visited := visited + {t};
      }
      return t in high;
    }

    /** upgrade_filter: whether the filter may be relabelled. */
    method Upgrade(tree: Oid, hasParent: bool, parentTree: Oid, ghost rank: Oid -> nat) returns (ok: bool)
      requires Valid(rank)
      modifies this
      ensures Valid(rank)
      ensures ok <==> !High(store, rank, tree) && (hasParent ==> !High(store, rank, parentTree))
    {
      var h := HasHighBit(tree, rank);
      if h {
        return false;
      }
      if hasParent {
        h := HasHighBit(parentTree, rank);
        return !h;
      }
      return true;
    }
  }

  method HighName(name: Bytes) returns (r: bool)
    ensures r == !SevenBit(name)
  {
    for i := 0 to |name|
      invariant forall k | 0 <= k < i :: name[k] < 0x80
    {
      if name[i] >= 0x80 {
        return true;
      }
    }
    return false;
  }

  /** A changed path is in the tree of the commit or of its first parent. */
  ghost predicate ChangeOf(store: Store, tree: Oid, hasParent: bool, parentTree: Oid, paths: seq<Bytes>) {
    forall i | 0 <= i < |paths| :: HasPath(store, tree, paths[i]) || (hasParent && HasPath(store, parentTree, paths[i]))
  }

  lemma LeadingSevenBit(q: Bytes, p: Bytes)
    requires Leads(q, p) && SevenBit(p)
    ensures SevenBit(q)
  {
    forall i | 0 <= i < |q| ensures q[i] < 0x80 { assert q[i] == p[i]; }
  }

  /** Relabelled with either version the filter gives the same answer for every changed path and
      leading directory. */
  lemma UpgradedHasKeys(store: Store, rank: Oid -> nat, tree: Oid, hasParent: bool, parentTree: Oid, paths: seq<Bytes>,
                        data: seq<bv8>, st: Settings, q: Bytes)
    requires Ranked(store, rank) && ChangeOf(store, tree, hasParent, parentTree, paths)
    requires !High(store, rank, tree) && (hasParent ==> !High(store, rank, parentTree))
    requires Changed(paths, q)
    ensures HasKey(data, Key(q, st.(version2 := false))) <==> HasKey(data, Key(q, st.(version2 := true)))
  {
    var i :| 0 <= i < |paths| && Leads(q, paths[i]);
    hide High, HasPath, Ranked, HasKey, KeyHash;
    if HasPath(store, tree, paths[i]) {
      PathsSevenBit(store, rank, tree, paths[i]);
    } else {
      PathsSevenBit(store, rank, parentTree, paths[i]);
    }
    LeadingSevenBit(q, paths[i]);
    forall k | 0 <= k < st.numHashes ensures KeyHash(q, k, false) == KeyHash(q, k, true) { KeysAgree(q, k); }
    assert Key(q, st.(version2 := false)) == Key(q, st.(version2 := true));
  }
}
