/** The shape of a crit-bit tree and what every reachable tree satisfies, free of
    the heap.  A node occurs once as a leaf and, for all nodes but one, once more
    as a branching node. */
module CritBitTrie {
  import opened CritBits

  datatype Ptr = Null | Leaf(node: CbNode) | Inner(node: CbNode)

  /** A cb_node: `k` is caller data and never changes; the other fields are
      meaningful once the node branches. */
  class CbNode {
    const k: Key
    var child0: Ptr
    var child1: Ptr
    var byte: nat
    var otherbits: bv8

    constructor (k: Key)
      ensures this.k == k
    {
      this.k := k;
      child0, child1, byte, otherbits := Null, Null, 0, 0;
    }
  }

  datatype Trie = Tip(node: CbNode) | Fork(node: CbNode, at: Crit, left: Trie, right: Trie)

  /** The leaves in left-to-right order. */
  ghost function Leaves(t: Trie): (s: seq<CbNode>)
    ensures |s| > 0
  {
    match t
    case Tip(n) => [n]
    case Fork(_, _, l, r) => Leaves(l) + Leaves(r)
  }

  ghost function Inners(t: Trie): set<CbNode> {
    match t
    case Tip(_) => {}
    case Fork(n, _, l, r) => {n} + Inners(l) + Inners(r)
  }

  /** The root of `t`, when it branches, branches on a bit after `at`. */
  ghost predicate After(at: Crit, t: Trie) {
    t.Fork? ==> at.Before(t.at)
  }

  /** All leaves have bit `at` equal to `b`. */
  ghost predicate AllBit(s: seq<CbNode>, at: Crit, b: bool) {
    forall x | x in s :: Bit(x.k, at) == b
  }

  /** All leaves agree with key `k` before bit `at`. */
  ghost predicate AllAgree(s: seq<CbNode>, k: Key, at: Crit) {
    forall x | x in s :: Agree(x.k, k, at)
  }

  /** The trie invariant: critical bits increase down every path, and the leaves
      below a branch agree before its critical bit and are separated by it. */
  ghost predicate CritOrdered(t: Trie, klen: nat) {
    match t
    case Tip(n) => |n.k| == klen
    case Fork(_, at, l, r) =>
      && CritOrdered(l, klen) && CritOrdered(r, klen)
      && at.Proper(klen) && After(at, l) && After(at, r)
      && AllBit(Leaves(l), at, false) && AllBit(Leaves(r), at, true)
      && AllAgree(Leaves(t), Leaves(t)[0].k, at)
  }

  /** Every branching node branches once and is also a leaf below itself. */
  ghost predicate Linked(t: Trie) {
    match t
    case Tip(_) => true
    case Fork(n, _, l, r) =>
      && Linked(l) && Linked(r)
      && n !in Inners(l) && n !in Inners(r) && Inners(l) !! Inners(r)
      && n in Leaves(t)
  }

  lemma {:induction false} InnersAreLeaves(t: Trie)
    requires Linked(t)
    ensures forall n | n in Inners(t) :: n in Leaves(t)
  {
    if t.Fork? { InnersAreLeaves(t.left); InnersAreLeaves(t.right); }
  }

  lemma {:induction false} LeafLength(t: Trie, klen: nat)
    requires CritOrdered(t, klen)
    ensures forall x | x in Leaves(t) :: |x.k| == klen
  {
    if t.Fork? { LeafLength(t.left, klen); LeafLength(t.right, klen); }
  }

  // ---- searching

  /** The leaf cb_internal_best_match ends in. */
  ghost function BestMatch(t: Trie, k: Key): CbNode {
    match t
    case Tip(n) => n
    case Fork(_, at, l, r) => if Bit(k, at) then BestMatch(r, k) else BestMatch(l, k)
  }

  lemma {:induction false} BestMatchIsLeaf(t: Trie, k: Key)
    ensures BestMatch(t, k) in Leaves(t)
  {
    match t
    case Tip(_) =>
    case Fork(_, at, l, r) =>
      if Bit(k, at) { BestMatchIsLeaf(r, k); } else { BestMatchIsLeaf(l, k); }
  }

  /** If any leaf starts with `k` then the best match does. */
  lemma {:induction false} BestMatchDecides(t: Trie, klen: nat, k: Key, x: CbNode)
    requires CritOrdered(t, klen) && x in Leaves(t) && k <= x.k
    ensures k <= BestMatch(t, k).k
  {
    match t
    case Tip(_) =>
    case Fork(_, at, l, r) =>
      if at.byte < |k| {
        assert ByteAt(k, at.byte) == ByteAt(x.k, at.byte);
        BestMatchDecides(if Bit(k, at) then r else l, klen, k, x);
      } else {
        var y := BestMatch(t, k);
        BestMatchIsLeaf(t, k);
        LeafLength(t, klen);
        SharedBytes(y.k, x.k, Leaves(t)[0].k, at, |k|);
      }
  }

  lemma SharedBytes(a: Key, b: Key, c: Key, at: Crit, n: nat)
    requires Agree(a, c, at) && Agree(b, c, at)
    requires n <= at.byte && n <= |a| && n <= |b|
    ensures a[..n] == b[..n]
  {
    forall i: nat | i < n ensures a[i] == b[i] {
      assert ByteAt(a, i) == ByteAt(c, i) == ByteAt(b, i);
    }
  }

  /** The subtree that holds all keys with a prefix of `n` bytes along the search
      path of `k`: what cb_each calls `top`. */
  ghost function TopFor(t: Trie, k: Key): Trie {
    match t
    case Tip(_) => t
    case Fork(_, at, l, r) =>
      if at.byte < |k| then (if Bit(k, at) then TopFor(r, k) else TopFor(l, k)) else t
  }

  lemma {:induction false} TopForSound(t: Trie, klen: nat, k: Key)
    requires CritOrdered(t, klen) && k <= BestMatch(t, k).k
    ensures CritOrdered(TopFor(t, k), klen)
    ensures BestMatch(TopFor(t, k), k) == BestMatch(t, k)
    ensures forall x | x in Leaves(t) :: x in Leaves(TopFor(t, k)) <==> k <= x.k
  {
    match t
    case Tip(_) =>
    case Fork(_, at, l, r) =>
      LeafLength(t, klen);
      BestMatchIsLeaf(t, k);
      var y := BestMatch(t, k);
      if at.byte < |k| {
        assert ByteAt(k, at.byte) == ByteAt(y.k, at.byte);
        var side, other := if Bit(k, at) then r else l, if Bit(k, at) then l else r;
        TopForSound(side, klen, k);
        forall x | x in Leaves(t) ensures x in Leaves(TopFor(t, k)) <==> k <= x.k {
          if x in Leaves(other) {
            assert ByteAt(x.k, at.byte) != ByteAt(k, at.byte);
            TopForWithin(side, k);
          }
        }
      } else {
        forall x | x in Leaves(t) ensures k <= x.k {
          SharedBytes(x.k, y.k, Leaves(t)[0].k, at, |k|);
        }
      }
  }

  lemma {:induction false} TopForWithin(t: Trie, k: Key)
    ensures forall x | x in Leaves(TopFor(t, k)) :: x in Leaves(t)
  {
    match t
    case Tip(_) =>
    case Fork(_, at, l, r) => TopForWithin(l, k); TopForWithin(r, k);
  }

  // ---- order and depth

  ghost predicate Ascending(s: seq<CbNode>) {
    forall i, j | 0 <= i < j < |s| :: Less(s[i].k, s[j].k)
  }

  /** Left-to-right order of the leaves is memcmp order of the keys. */
  lemma {:induction false} LeavesAscending(t: Trie, klen: nat)
    requires CritOrdered(t, klen)
    ensures Ascending(Leaves(t))
  {
    match t
    case Tip(_) =>
    case Fork(_, at, l, r) =>
      LeavesAscending(l, klen);
      LeavesAscending(r, klen);
      LeafLength(t, klen);
      forall i, j | 0 <= i < |Leaves(l)| && 0 <= j < |Leaves(r)|
        ensures Less(Leaves(l)[i].k, Leaves(r)[j].k)
      {
        var x, y := Leaves(l)[i], Leaves(r)[j];
        assert x in Leaves(t) && y in Leaves(t);
        BitOrdersKeys(x.k, y.k, at);
      }
  }

  ghost function Height(t: Trie): nat {
    match t
    case Tip(_) => 0
    case Fork(_, _, l, r) => 1 + if Height(l) < Height(r) then Height(r) else Height(l)
  }

  /** cb_descend recurses at most eight times per key byte. */
  lemma {:induction false} HeightBound(t: Trie, klen: nat)
    requires CritOrdered(t, klen)
    ensures Height(t) <= 8 * klen
    ensures t.Fork? ==> Height(t) <= 8 * klen - Index(t.at)
  {
    match t
    case Tip(_) =>
    case Fork(_, at, l, r) =>
      HeightBound(l, klen);
      HeightBound(r, klen);
      if l.Fork? { IndexOrder(at, l.at); ProperAt(l, klen); }
      if r.Fork? { IndexOrder(at, r.at); }
  }

  lemma ProperAt(t: Trie, klen: nat)
    requires CritOrdered(t, klen) && t.Fork?
    ensures t.at.Proper(klen)
  {}

  // ---- inserting

  /** The descent of cb_insert goes past the root of `t`. */
  ghost predicate Passes(t: Trie, at: Crit) {
    t.Fork? && !at.Before(t.at)
  }

  /** The tree after inserting `node` with critical bit `at`; `d` is the side of the
      keys that were there before. */
  ghost function Insert(t: Trie, node: CbNode, at: Crit, d: bool): Trie {
    if Passes(t, at) then
      if Bit(node.k, t.at) then t.(right := Insert(t.right, node, at, d))
      else t.(left := Insert(t.left, node, at, d))
    else if d then Fork(node, at, Tip(node), t)
    else Fork(node, at, t, Tip(node))
  }

  /** `at` is the first bit in which the key of `node` differs from its best match. */
  ghost predicate CriticalFor(t: Trie, klen: nat, node: CbNode, at: Crit, d: bool) {
    && |node.k| == klen && at.Proper(klen)
    && Agree(BestMatch(t, node.k).k, node.k, at)
    && Bit(BestMatch(t, node.k).k, at) == d
    && Bit(node.k, at) == !d
  }

  ghost function LeafSet(t: Trie): (s: set<CbNode>)
    ensures forall x | x in s :: x in Leaves(t)
    ensures forall x | x in Leaves(t) :: x in s
  {
    match t
    case Tip(n) => {n}
    case Fork(_, _, l, r) => LeafSet(l) + LeafSet(r)
  }

  lemma {:induction false} InsertLeaves(t: Trie, node: CbNode, at: Crit, d: bool)
    ensures forall x :: x in Leaves(Insert(t, node, at, d)) <==> x == node || x in Leaves(t)
    ensures LeafSet(Insert(t, node, at, d)) == LeafSet(t) + {node}
    ensures Inners(Insert(t, node, at, d)) == Inners(t) + {node}
  {
    if Passes(t, at) {
      InsertLeaves(Side(t, node.k), node, at, d);
    }
  }

  /** The descent follows the best match, so both keys stay on one side. */
  lemma CriticalBelow(t: Trie, klen: nat, node: CbNode, at: Crit, d: bool)
    requires CritOrdered(t, klen) && CriticalFor(t, klen, node, at, d) && Passes(t, at)
    ensures t.at.Before(at)
    ensures CriticalFor(Side(t, node.k), klen, node, at, d)
    ensures AllAgree(Leaves(t), node.k, t.at)
  {
    var p := BestMatch(t, node.k);
    BestMatchIsLeaf(t, node.k);
    BestMatchIsLeaf(t.left, node.k);
    BestMatchIsLeaf(t.right, node.k);
    assert t.at != at;
    assert t.at.Before(at) by {
      if t.at.byte == at.byte { assert t.at.otherbits != at.otherbits; }
    }
    AgreeEarlier(p.k, node.k, t.at, at);
  }

  /** Where the descent stops, all keys agree with the new one before `at` and have
      the bit of the best match. */
  lemma CriticalHere(t: Trie, klen: nat, node: CbNode, at: Crit, d: bool)
    requires CritOrdered(t, klen) && CriticalFor(t, klen, node, at, d) && !Passes(t, at)
    ensures AllAgree(Leaves(t), node.k, at) && AllBit(Leaves(t), at, d)
  {
    BestMatchIsLeaf(t, node.k);
    if t.Fork? {
      var p := BestMatch(t, node.k);
      forall x | x in Leaves(t) ensures Agree(x.k, node.k, at) && Bit(x.k, at) == d {
        AgreeEarlier(x.k, Leaves(t)[0].k, at, t.at);
        AgreeEarlier(p.k, Leaves(t)[0].k, at, t.at);
      }
    }
  }

  lemma ForkOrdered(t: Trie, klen: nat, k: Key)
    requires t.Fork? && CritOrdered(t.left, klen) && CritOrdered(t.right, klen)
    requires t.at.Proper(klen) && After(t.at, t.left) && After(t.at, t.right)
    requires AllBit(Leaves(t.left), t.at, false) && AllBit(Leaves(t.right), t.at, true)
    requires AllAgree(Leaves(t.left), k, t.at) && AllAgree(Leaves(t.right), k, t.at)
    ensures CritOrdered(t, klen)
  {
    assert Leaves(t)[0] == Leaves(t.left)[0];
    assert forall x | x in Leaves(t) :: x in Leaves(t.left) || x in Leaves(t.right);
  }

  /** The subtree the descent goes into. */
  ghost function Side(t: Trie, k: Key): Trie
    requires t.Fork?
  {
    if Bit(k, t.at) then t.right else t.left
  }

  /** Inserting keeps the trie invariant. */
  lemma {:induction false} InsertOrdered(t: Trie, klen: nat, node: CbNode, at: Crit, d: bool)
    requires CritOrdered(t, klen) && CriticalFor(t, klen, node, at, d)
    ensures CritOrdered(Insert(t, node, at, d), klen)
  {
    if Passes(t, at) {
      var side := Side(t, node.k);
      CriticalBelow(t, klen, node, at, d);
      InsertOrdered(side, klen, node, at, d);
      InsertOrderedBelow(t, klen, node, at, d);
    } else {
      CriticalHere(t, klen, node, at, d);
      assert CritOrdered(Tip(node), klen);
      assert AllAgree([node], node.k, at);
      assert AllBit([node], at, !d);
      ForkOrdered(Insert(t, node, at, d), klen, node.k);
    }
  }

  lemma InsertOrderedBelow(t: Trie, klen: nat, node: CbNode, at: Crit, d: bool)
    requires CritOrdered(t, klen) && CriticalFor(t, klen, node, at, d) && Passes(t, at)
    requires t.at.Before(at) && AllAgree(Leaves(t), node.k, t.at)
    requires CritOrdered(Insert(Side(t, node.k), node, at, d), klen)
    ensures CritOrdered(Insert(t, node, at, d), klen)
  {
    var t' := Insert(t, node, at, d);
    assert After(t.at, t'.left) && After(t.at, t'.right);
    InsertBelowLeaves(t, klen, node, at, d);
    hide After, AllBit, AllAgree, Insert;
    ForkOrdered(t', klen, node.k);
  }

  lemma InsertBelowLeaves(t: Trie, klen: nat, node: CbNode, at: Crit, d: bool)
    requires CritOrdered(t, klen) && Passes(t, at) && AllAgree(Leaves(t), node.k, t.at)
    ensures var t' := Insert(t, node, at, d);
            && t'.Fork? && t'.at == t.at
            && AllBit(Leaves(t'.left), t.at, false) && AllBit(Leaves(t'.right), t.at, true)
            && AllAgree(Leaves(t'.left), node.k, t.at) && AllAgree(Leaves(t'.right), node.k, t.at)
  {
    InsertLeaves(Side(t, node.k), node, at, d);
  }

  lemma {:induction false} InsertLinked(t: Trie, node: CbNode, at: Crit, d: bool)
    requires Linked(t) && node !in Leaves(t)
    ensures Linked(Insert(t, node, at, d))
  {
    InnersAreLeaves(t);
    InsertLeaves(t, node, at, d);
    if Passes(t, at) {
      InsertLinked(t.left, node, at, d);
      InsertLinked(t.right, node, at, d);
      InsertLeaves(t.left, node, at, d);
      InsertLeaves(t.right, node, at, d);
    }
  }
}
