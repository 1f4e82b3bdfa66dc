/** The crit-bit tree of cbtree.c on the heap: a tagged pointer is a `Ptr`, and the
    pointer-to-pointer that cb_insert walks with is a `Slot`. */
module CritBitTree {
  import opened Wrappers
  import opened CritBits
  import opened CritBitTrie

  /** The mutable fields of one node, and of a set of nodes. */
  datatype Fields = Fields(child0: Ptr, child1: Ptr, at: Crit)
  type Snapshot = map<CbNode, Fields>

  ghost function FieldsOf(n: CbNode): Fields
    reads n
  {
    Fields(n.child0, n.child1, Crit(n.byte, n.otherbits))
  }

  ghost function Snap(ns: set<CbNode>): Snapshot
    reads ns
  {
    map n | n in ns :: FieldsOf(n)
  }

  /** In snapshot `h` the nodes below `p` form exactly the tree `t`. */
  ghost predicate Represents(h: Snapshot, p: Ptr, t: Trie)
    decreases t
  {
    match t
    case Tip(n) => p == Leaf(n)
    case Fork(n, at, l, r) =>
      n in h && p == Inner(n) && h[n].at == at && Represents(h, h[n].child0, l) && Represents(h, h[n].child1, r)
  }

  lemma {:induction false} RepresentsFrame(h: Snapshot, h': Snapshot, p: Ptr, t: Trie)
    requires Represents(h, p, t)
    requires forall n | n in Inners(t) && n in h :: n in h' && h'[n] == h[n]
    ensures Represents(h', p, t)
    decreases t
  {
    if t.Fork? {
      RepresentsFrame(h, h', h[t.node].child0, t.left);
      RepresentsFrame(h, h', h[t.node].child1, t.right);
    }
  }

  datatype Slot = RootSlot | ChildSlot(q: CbNode, d: bool)

  /** Where the descent of cb_insert stops, and the subtree hanging there. */
  ghost function Stop(t: Trie, k: Key, at: Crit, here: Slot): (Slot, Trie) {
    if Passes(t, at) then Stop(Side(t, k), k, at, ChildSlot(t.node, Bit(k, t.at)))
    else (here, t)
  }

  lemma {:induction false} StopBelow(t: Trie, k: Key, at: Crit, here: Slot)
    requires Linked(t)
    ensures Passes(t, at) ==> Stop(t, k, at, here).0.ChildSlot?
                              && Stop(t, k, at, here).0.q in Inners(t)
                              && Stop(t, k, at, here).0.q !in Inners(Stop(t, k, at, here).1)
    ensures Inners(Stop(t, k, at, here).1) <= Inners(t)
  {
    if Passes(t, at) {
      StopBelow(Side(t, k), k, at, ChildSlot(t.node, Bit(k, t.at)));
    }
  }

  /** The fields of a node after its child on side `d` is set to `p`. */
  ghost function WithChild(f: Fields, d: bool, p: Ptr): Fields {
    if d then f.(child1 := p) else f.(child0 := p)
  }

  /** Redirecting the one child pointer where the descent stopped turns the heap
      form of `t` into that of `t` with the new node inserted. */
  lemma {:induction false} Rewire(h: Snapshot, h': Snapshot, p: Ptr, t: Trie, node: CbNode, at: Crit, d: bool,
                                  here: Slot)
    requires Linked(t) && Passes(t, at) && Represents(h, p, t)
    requires var (slot, sub) := Stop(t, node.k, at, here);
             && slot.ChildSlot? && slot.q in h && slot.q in h'
             && Represents(h', Inner(node), Insert(sub, node, at, d))
             && h'[slot.q] == WithChild(h[slot.q], slot.d, Inner(node))
             && forall n | n in Inners(t) && n in h && n != slot.q :: n in h' && h'[n] == h[n]
    ensures Represents(h', p, Insert(t, node, at, d))
    decreases t
  {
    var side := Side(t, node.k);
    var b := Bit(node.k, t.at);
    var below := ChildSlot(t.node, b);
    StopBelow(side, node.k, at, below);
    if Passes(side, at) {
      Rewire(h, h', if b then h[t.node].child1 else h[t.node].child0, side, node, at, d, below);
    }
    RepresentsFrame(h, h', if b then h[t.node].child0 else h[t.node].child1, if b then t.left else t.right);
  }

  class CbTree {
    ghost const klen: nat
    var root: Ptr
    ghost var trie: Option<Trie>

    /** The nodes that branch. */
    ghost var branching: set<CbNode>

    /** The stored nodes in ascending key order. */
    ghost function Nodes(): seq<CbNode>
      reads this
    {
      if trie.Some? then Leaves(trie.value) else []
    }

    ghost function NodeSet(): set<CbNode>
      reads this
    {
      if trie.Some? then LeafSet(trie.value) else {}
    }

    ghost predicate Valid()
      reads this, branching
    {
      match trie
      case None => root == Null && branching == {}
      case Some(t) =>
        && branching == Inners(t)
        && Represents(Snap(branching), root, t)
        && CritOrdered(t, klen)
        && Linked(t)
    }

    ghost predicate Stored(k: Key)
      reads this
    {
      exists x :: x in Nodes() && x.k == k
    }

    constructor (klen: nat)
      ensures Valid() && Nodes() == [] && this.klen == klen
    {
      this.klen := klen;
      root, trie, branching := Null, None, {};
    }

    /** cb_internal_best_match. */
    method BestMatchIn(k: Key) returns (n: CbNode)
      requires Valid() && trie.Some?
      ensures n == BestMatch(trie.value, k)
    {
      var p := root;
      ghost var sub, h := trie.value, Snap(branching);
      while p.Inner?
        invariant Represents(h, p, sub) && CritOrdered(sub, klen)
        invariant BestMatch(sub, k) == BestMatch(trie.value, k)
        decreases sub
      {
        var q := p.node;
        assert h[q] == FieldsOf(q);
        DirectionIsBit(k, sub.at);
        if Direction(q.otherbits, ByteAt(k, q.byte)) == 0 {
          p, sub := q.child0, sub.left;
        } else {
          p, sub := q.child1, sub.right;
        }
      }
      n := p.node;
    }

    /** cb_lookup: finds a node iff some stored key starts with `k`; for a full-length
        `k` that is the node storing `k` itself. */
    method Lookup(k: Key) returns (r: CbNode?)
      requires Valid() && |k| <= klen
      ensures r != null ==> r in Nodes() && k <= r.k
      ensures r == null ==> forall x | x in Nodes() :: !(k <= x.k)
      ensures |k| == klen ==> (r != null <==> Stored(k))
    {
      if root == Null { return null; }
      ghost var t := trie.value;
      var n := BestMatchIn(k);
      BestMatchIsLeaf(t, k);
      LeafLength(t, klen);
      if k <= n.k {
        assert |k| == klen ==> n.k == k;
        return n;
      }
      forall x | x in Leaves(t) ensures !(k <= x.k) {
        if k <= x.k { BestMatchDecides(t, klen, k, x); }
      }
      return null;
    }

    /** cb_insert: null on success, otherwise the node that already stores the key. */
    method Insert(node: CbNode) returns (existing: CbNode?)
      requires Valid() && |node.k| == klen
      modifies this, branching, node
      ensures Valid()
      ensures existing != null <==> old(Stored(node.k))
      ensures existing != null ==> existing in Nodes() && existing.k == node.k
      ensures existing != null ==> unchanged(this) && unchanged(node) && Snap(branching) == old(Snap(branching))
      ensures existing == null ==> NodeSet() == old(NodeSet()) + {node}
    {
      if root == Null {
        root := Leaf(node);
        trie := Some(Tip(node));
        return null;
      }
      ghost var t := trie.value;
      var p := BestMatchIn(node.k);
      BestMatchIsLeaf(t, node.k);
      LeafLength(t, klen);
      var at, newdirection := FirstDifference(p.k, node.k);
      if at.None? {
        return p;
      }
      forall x | x in Leaves(t) ensures x.k != node.k {
        if x.k == node.k { BestMatchDecides(t, klen, node.k, x); }
      }
      Place(node, at.value, newdirection == 1);
      return null;
    }

    /** The second half of cb_insert: `d` is the side of the keys already there. */
    method Place(node: CbNode, at: Crit, d: bool)
      requires Valid() && trie.Some? && node !in Nodes()
      requires CriticalFor(trie.value, klen, node, at, d)
      modifies this, branching, node
      ensures Valid()
      ensures NodeSet() == old(NodeSet()) + {node}
    {
      ghost var t, h, p := trie.value, Snap(branching), root;
      InnersAreLeaves(t);
      var slot, below, sub := FindSlot(node.k, at);
      Redirect(node, at, d, slot, below);
      ghost var t' := HookedTrie(h, Snap(branching + {node}), p, t, klen, node, at, d, slot, sub, below, root);
      Adopt(t', branching + {node});
    }

    ghost method Adopt(t: Trie, ns: set<CbNode>)
      requires ns == Inners(t) && Represents(Snap(ns), root, t) && CritOrdered(t, klen) && Linked(t)
      modifies this`trie, this`branching
      ensures Valid() && trie == Some(t) && branching == ns
    {
      ghost var h := Snap(ns);
      trie, branching := Some(t), ns;
      assert Snap(branching) == h;
    }

    /** The writes of cb_insert: fill in the new node and redirect one pointer to it. */
    method Redirect(node: CbNode, at: Crit, d: bool, wherep: Slot, p: Ptr)
      requires node !in branching && (wherep.ChildSlot? ==> wherep.q in branching)
      modifies this`root, branching, node
      ensures Hooked(old(Snap(branching)), Snap(branching + {node}), branching, wherep, node, at, d, p)
      ensures root == if wherep.ChildSlot? then old(root) else Inner(node)
    {
      node.byte, node.otherbits := at.byte, at.otherbits;
      if d {
        node.child0, node.child1 := Leaf(node), p;
      } else {
        node.child0, node.child1 := p, Leaf(node);
      }
      if wherep.RootSlot? {
        root := Inner(node);
      } else if wherep.d {
        wherep.q.child1 := Inner(node);
      } else {
        wherep.q.child0 := Inner(node);
      }
    }

    /** The loop of cb_insert that finds the pointer to redirect. */
    method FindSlot(k: Key, at: Crit) returns (wherep: Slot, p: Ptr, ghost sub: Trie)
      requires Valid() && trie.Some?
      ensures Stop(trie.value, k, at, RootSlot) == (wherep, sub)
      ensures wherep.RootSlot? <==> !Passes(trie.value, at)
      ensures wherep.RootSlot? ==> p == root
      ensures wherep.ChildSlot? ==> wherep.q in branching
      ensures Represents(Snap(branching), p, sub)
    {
      ghost var t, h := trie.value, Snap(branching);
      wherep, p, sub := RootSlot, root, t;
      while p.Inner? && !at.Before(Crit(p.node.byte, p.node.otherbits))
        invariant Represents(h, p, sub) && CritOrdered(sub, klen) && Inners(sub) <= Inners(t)
        invariant Stop(sub, k, at, wherep) == Stop(t, k, at, RootSlot)
        invariant wherep.ChildSlot? ==> wherep.q in branching && Passes(t, at)
        invariant wherep.RootSlot? ==> sub == t && p == root
        decreases sub
      {
        var q := p.node;
        assert h[q] == FieldsOf(q);
        DirectionIsBit(k, sub.at);
        if Direction(q.otherbits, ByteAt(k, q.byte)) == 0 {
          wherep, p, sub := ChildSlot(q, false), q.child0, sub.left;
        } else {
          wherep, p, sub := ChildSlot(q, true), q.child1, sub.right;
        }
      }
      assert p.Inner? ==> h[p.node] == FieldsOf(p.node);
    }

    /** The walk of cb_each: the best match of the prefix, and the subtree where keys with the
        prefix are if there are any. */
    method FindTop(kpfx: Key) returns (p: Ptr, top: Ptr, ghost topTrie: Trie)
      requires Valid() && |kpfx| <= klen && root != Null
      ensures p.Leaf? && p.node == BestMatch(trie.value, kpfx) && p.node in Leaves(trie.value)
      ensures topTrie == TopFor(trie.value, kpfx) && Represents(Snap(branching), top, topTrie)
      ensures Inners(topTrie) <= Inners(trie.value)
    {
      ghost var t, h := trie.value, Snap(branching);
      ghost var sub;
      p, top, sub, topTrie := root, root, t, t;
      while p.Inner?
        invariant Represents(h, p, sub) && CritOrdered(sub, klen) && Inners(sub) <= Inners(t)
        invariant Represents(h, top, topTrie) && Inners(topTrie) <= Inners(t)
        invariant BestMatch(sub, kpfx) == BestMatch(t, kpfx)
        invariant sub == topTrie || (Beyond(topTrie, |kpfx|) && (sub.Fork? ==> Beyond(sub, |kpfx|)))
        invariant TopFor(topTrie, kpfx) == TopFor(t, kpfx)
        decreases sub
      {
        var q := p.node;
        assert h[q] == FieldsOf(q);
        DirectionIsBit(kpfx, sub.at);
        if Direction(q.otherbits, ByteAt(kpfx, q.byte)) == 0 {
          p, sub := q.child0, sub.left;
        } else {
          p, sub := q.child1, sub.right;
        }
        if q.byte < |kpfx| {
          top, topTrie := p, sub;
        }
      }
      BestMatchIsLeaf(t, kpfx);
      LeafLength(t, klen);
    }

    /** cb_each: `brk` decides, from the nodes shown so far, whether the callback breaks;
        `depth` is how deep cb_descend recursed. */
    method Each(kpfx: Key, brk: seq<CbNode> -> bool) returns (shown: seq<CbNode>, ghost depth: nat)
      requires Valid() && |kpfx| <= klen
      ensures exists matching: seq<CbNode> ::
                && (forall x | x in matching :: x in Nodes() && kpfx <= x.k)
                && (forall x | x in Nodes() && kpfx <= x.k :: x in matching)
                && Ascending(matching)
                && shown == UpToBreak(matching, [], brk)
      ensures depth <= 8 * klen
    {
      if root == Null {
        assert UpToBreak([], [], brk) == [];
        return [], 0;
      }
      ghost var t := trie.value;
      var p, top;
      ghost var topTrie;
      p, top, topTrie := FindTop(kpfx);
      if !(kpfx <= p.node.k) {
        forall x | x in Leaves(t) ensures !(kpfx <= x.k) {
          if kpfx <= x.k { BestMatchDecides(t, klen, kpfx, x); }
        }
        assert UpToBreak([], [], brk) == [];
        return [], 0;
      }
      TopForSound(t, klen, kpfx);
      TopForWithin(t, kpfx);
      LeavesAscending(TopFor(t, kpfx), klen);
      var stopped;
      shown, stopped, depth := Descend(top, [], brk, topTrie);
      HeightBound(topTrie, klen);
    }

    /** cb_descend, threading the list of nodes shown so far. */
    method Descend(p: Ptr, before: seq<CbNode>, brk: seq<CbNode> -> bool, ghost t: Trie)
      returns (shown: seq<CbNode>, stopped: bool, ghost depth: nat)
      requires Inners(t) <= branching && Represents(Snap(branching), p, t)
      ensures shown == UpToBreak(Leaves(t), before, brk)
      ensures stopped == Breaks(Leaves(t), before, brk)
      ensures depth <= Height(t)
      decreases t
    {
      if p.Inner? {
        var q := p.node;
        assert Snap(branching)[q] == FieldsOf(q);
        shown, stopped, depth := Descend(q.child0, before, brk, t.left);
        BreakSplits(Leaves(t.left), Leaves(t.right), before, brk);
        if !stopped {
          ghost var depth1;
          shown, stopped, depth1 := Descend(q.child1, shown, brk, t.right);
          depth := if depth < depth1 then depth1 else depth;
        }
        depth := depth + 1;
      } else {
        shown := before + [p.node];
        stopped, depth := brk(shown), 0;
      }
    }
  }

  /** `t` branches on a bit after the first `n` bytes. */
  ghost predicate Beyond(t: Trie, n: nat) {
    t.Fork? && n <= t.at.byte
  }

  /** What an iteration over `s` shows, after `before`: everything up to and including
      the first node the callback breaks on. */
  ghost function UpToBreak(s: seq<CbNode>, before: seq<CbNode>, brk: seq<CbNode> -> bool): seq<CbNode> {
    if s == [] then before
    else if brk(before + [s[0]]) then before + [s[0]]
    else UpToBreak(s[1..], before + [s[0]], brk)
  }

  ghost predicate Breaks(s: seq<CbNode>, before: seq<CbNode>, brk: seq<CbNode> -> bool) {
    s != [] && (brk(before + [s[0]]) || Breaks(s[1..], before + [s[0]], brk))
  }

  lemma {:induction false} BreakSplits(a: seq<CbNode>, b: seq<CbNode>, before: seq<CbNode>, brk: seq<CbNode> -> bool)
    ensures Breaks(a, before, brk) ==>
              UpToBreak(a + b, before, brk) == UpToBreak(a, before, brk) && Breaks(a + b, before, brk)
    ensures !Breaks(a, before, brk) ==>
              && UpToBreak(a + b, before, brk) == UpToBreak(b, UpToBreak(a, before, brk), brk)
              && Breaks(a + b, before, brk) == Breaks(b, UpToBreak(a, before, brk), brk)
  {
    if a == [] {
      assert a + b == b;
    } else {
      assert (a + b)[1..] == a[1..] + b;
      BreakSplits(a[1..], b, before + [a[0]], brk);
    }
  }

  /** Snapshot `h'` is `h` with the new node filled in and one pointer redirected to it. */
  ghost predicate Hooked(h: Snapshot, h': Snapshot, ns: set<CbNode>, slot: Slot, node: CbNode, at: Crit, d: bool,
                         below: Ptr) {
    && node in h'
    && h'[node] == (if d then Fields(Leaf(node), below, at) else Fields(below, Leaf(node), at))
    && (slot.ChildSlot? ==> slot.q in h && slot.q in h' && h'[slot.q] == WithChild(h[slot.q], slot.d, Inner(node)))
    && forall n | n in ns && (slot.ChildSlot? ==> n != slot.q) :: n in h && n in h' && h'[n] == h[n]
  }

  /** After the two pointer writes of cb_insert the snapshot is a tree again. */
  lemma HookedTrie(h: Snapshot, h': Snapshot, p: Ptr, t: Trie, klen: nat, node: CbNode, at: Crit, d: bool,
                   slot: Slot, sub: Trie, below: Ptr, p': Ptr) returns (t': Trie)
    requires CritOrdered(t, klen) && Linked(t) && node !in Leaves(t) && Represents(h, p, t)
    requires CriticalFor(t, klen, node, at, d) && Hooked(h, h', Inners(t), slot, node, at, d, below)
    requires Stop(t, node.k, at, RootSlot) == (slot, sub) && Represents(h, below, sub)
    requires slot.RootSlot? <==> !Passes(t, at)
    requires p' == if slot.ChildSlot? then p else Inner(node)
    ensures Represents(h', p', t') && CritOrdered(t', klen) && Linked(t')
    ensures Inners(t') == Inners(t) + {node}
    ensures LeafSet(t') == LeafSet(t) + {node}
  {
    t' := Insert(t, node, at, d);
    InnersAreLeaves(t);
    StopBelow(t, node.k, at, RootSlot);
    StopStops(t, node.k, at, RootSlot);
    RepresentsFrame(h, h', below, sub);
    assert Represents(h', Inner(node), Insert(sub, node, at, d));
    if Passes(t, at) {
      Rewire(h, h', p, t, node, at, d, RootSlot);
    }
    InsertLeaves(t, node, at, d);
    InsertOrdered(t, klen, node, at, d);
    InsertLinked(t, node, at, d);
  }

  lemma {:induction false} StopStops(t: Trie, k: Key, at: Crit, here: Slot)
    ensures !Passes(Stop(t, k, at, here).1, at)
  {
    if Passes(t, at) { StopStops(Side(t, k), k, at, ChildSlot(t.node, Bit(k, t.at))); }
  }

  /** The first differing byte of two keys and, in it, the most significant differing
      bit, with the side of the first key; nothing when the keys are equal. */
  method FirstDifference(a: Key, b: Key) returns (r: Option<Crit>, direction: bv16)
    requires |a| == |b|
    ensures r.None? <==> a == b
    ensures r.Some? ==> r.value.Proper(|a|) && Agree(a, b, r.value) && Bit(a, r.value) != Bit(b, r.value)
    ensures r.Some? ==> direction == if Bit(a, r.value) then 1 else 0
  {
    for newbyte := 0 to |a|
      invariant a[..newbyte] == b[..newbyte]
    {
      if a[newbyte] != b[newbyte] {
        var newotherbits := OtherBits(a[newbyte], b[newbyte]);
        var at := Crit(newbyte, newotherbits);
        OtherBitsIsTopDifference(a[newbyte], b[newbyte]);
        forall j: nat | j < newbyte ensures ByteAt(a, j) == ByteAt(b, j) {
          assert a[..newbyte][j] == b[..newbyte][j];
        }
        DirectionIsBit(a, at);
        return Some(at), Direction(newotherbits, a[newbyte]);
      }
    }
    return None, 0;
  }
}
