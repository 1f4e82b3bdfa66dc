/** The fingerprints of blame.c: a hash map from byte pairs to counts, and the multiset
    of byte pairs it stands for.  `order` is the order in which the hash map iterates. */
module Fingerprints {

  type Counts = map<int, int>

  function Count(m: Counts, pair: int): int {
    if pair in m then m[pair] else 0
  }

  /** The map counts exactly the byte pairs of `bag`, and holds no zero counts. */
  ghost predicate Stands(m: Counts, bag: multiset<int>) {
    (forall k | k in m :: m[k] > 0) && forall k :: bag[k] == Count(m, k)
  }

  ghost predicate Enumerates(order: seq<int>, m: Counts) {
    && (forall k :: k in order <==> k in m)
    && (forall i, j | 0 <= i < j < |order| :: order[i] != order[j])
  }

  function Min(x: int, y: int): int {
    if x < y then x else y
  }

  /** fingerprint_similarity: the size of the intersection. */
  method Similarity(a: Counts, b: Counts, order: seq<int>, ghost bagA: multiset<int>, ghost bagB: multiset<int>)
    returns (intersection: int)
    requires Stands(a, bagA) && Stands(b, bagB) && Enumerates(order, b)
    ensures intersection == |bagA * bagB|
  {
    intersection := 0;
    ghost var seen: multiset<int> := multiset{};
    for i := 0 to |order|
      invariant forall k :: seen[k] == if k in order[..i] then Min(Count(a, k), Count(b, k)) else 0
      invariant intersection == |seen|
    {
      var k := order[i];
      assert k !in order[..i] && order[..i + 1] == order[..i] + [k];
      if k in a {
        intersection := intersection + if a[k] < b[k] then a[k] else b[k];
        seen := seen[k := Min(a[k], b[k])];
      }
    }
    assert order[..|order|] == order;
    assert forall k :: seen[k] == (bagA * bagB)[k];
    assert seen == bagA * bagB;
  }

  /** fingerprint_subtract: take the byte pairs of `b` out of `a`. */
  method Subtract(a: Counts, b: Counts, order: seq<int>, ghost bagA: multiset<int>, ghost bagB: multiset<int>)
    returns (r: Counts)
    requires Stands(a, bagA) && Stands(b, bagB) && Enumerates(order, b)
    ensures Stands(r, bagA - bagB)
  {
    r := a;
    for i := 0 to |order|
      invariant forall k | k in r :: r[k] > 0
      invariant forall k :: Count(r, k) == if k !in order[..i] then Count(a, k)
                                           else if Count(a, k) <= Count(b, k) then 0 else Count(a, k) - Count(b, k)
    {
      var k := order[i];
      assert k !in order[..i] && order[..i + 1] == order[..i] + [k];
      assert Count(r, k) == Count(a, k);
      if k in r {
        if r[k] <= b[k] {
          r := r - {k};
        } else {
          r := r[k := r[k] - b[k]];
        }
      }
    }
    assert order[..|order|] == order;
  }

  type Byte = x: int | 0 <= x < 256

  /** A byte as a fingerprint sees it: white space is 0, letters are lower case. */
  function Normal(ch: Byte): Byte {
    if ch == 32 || ch == 9 || ch == 10 || ch == 13 then 0
    else if 65 <= ch <= 90 then ch + 32
    else ch
  }

  /** A line with white space at both ends. */
  function Padded(line: seq<Byte>): (s: seq<Byte>)
    ensures |s| == |line| + 2 && s[0] == 0 && s[|line| + 1] == 0
    ensures forall i | 0 <= i < |line| :: s[i + 1] == Normal(line[i])
  {
    [0] + seq(|line|, i requires 0 <= i < |line| => Normal(line[i])) + [0]
  }

  function Hash(c0: Byte, c1: Byte): int {
    c0 + 256 * c1
  }

  /** The pairs of neighbouring bytes among the first `n`, without those that are all
      white space. */
  function Pairs(s: seq<Byte>, n: nat): multiset<int>
    requires n <= |s|
  {
    if n < 2 then multiset{}
    else Pairs(s, n - 1) + if Hash(s[n - 2], s[n - 1]) == 0 then multiset{} else multiset{Hash(s[n - 2], s[n - 1])}
  }

  predicate PairAt(s: seq<Byte>, p: int, c0: Byte, c1: Byte) {
    0 <= p < |s| - 1 && s[p] == c0 && s[p + 1] == c1
  }

  /** Each pair that is not all white space is counted as often as it occurs. */
  lemma {:induction false} PairsCount(s: seq<Byte>, n: nat, c0: Byte, c1: Byte)
    requires n <= |s| && (c0 != 0 || c1 != 0)
    ensures Pairs(s, n)[Hash(c0, c1)] == |set p | 0 <= p < n - 1 && PairAt(s, p, c0, c1)|
  {
    if n >= 2 {
      PairsCount(s, n - 1, c0, c1);
      NextPlace(s, n, c0, c1);
      NextPair(s, n - 2);
      DifferentPairs(s[n - 2], s[n - 1], c0, c1);
      hide *;
      PairAtIs(s, n - 2, c0, c1);
    }
  }

  lemma PairAtIs(s: seq<Byte>, p: nat, c0: Byte, c1: Byte)
    requires p < |s| - 1
    ensures PairAt(s, p, c0, c1) <==> s[p] == c0 && s[p + 1] == c1
  {}

  lemma NextPlace(s: seq<Byte>, n: nat, c0: Byte, c1: Byte)
    requires 2 <= n <= |s|
    ensures |set p | 0 <= p < n - 1 && PairAt(s, p, c0, c1)|
         == |set p | 0 <= p < n - 2 && PairAt(s, p, c0, c1)| + if PairAt(s, n - 2, c0, c1) then 1 else 0
  {
    hide PairAt;
    var before := set p | 0 <= p < n - 2 && PairAt(s, p, c0, c1);
    var after := set p | 0 <= p < n - 1 && PairAt(s, p, c0, c1);
    assert after == before + if PairAt(s, n - 2, c0, c1) then {n - 2} else {};
  }

  lemma DifferentPairs(a0: Byte, a1: Byte, c0: Byte, c1: Byte)
    ensures Hash(a0, a1) == Hash(c0, c1) <==> a0 == c0 && a1 == c1
    ensures Hash(a0, a1) == 0 <==> a0 == 0 && a1 == 0
  {}

  /** get_fingerprint. */
  method GetFingerprint(line: seq<Byte>) returns (m: Counts)
    ensures Stands(m, Pairs(Padded(line), |line| + 2))
  {
    m := map[];
    var c0: Byte := 0;
    ghost var s := Padded(line);
    hide Padded, Hash, Stands, Pairs;
    NoPairs(s);
    for p := 0 to |line| + 1
      invariant c0 == s[p] && Stands(m, Pairs(s, p + 1))
    {
      var c1: Byte := if p == |line| then 0 else Normal(line[p]);
      var hash := Hash(c0, c1);
      NextPair(s, p);
      if hash != 0 {
        OneMore(m, Pairs(s, p + 1), hash);
        m := m[hash := if hash in m then m[hash] + 1 else 1];
      }
      c0 := c1;
    }
  }

  lemma NoPairs(s: seq<Byte>)
    requires |s| > 0
    ensures Stands(map[], Pairs(s, 1))
  {}

  lemma NextPair(s: seq<Byte>, p: nat)
    requires p + 2 <= |s|
    ensures Pairs(s, p + 2) == if Hash(s[p], s[p + 1]) == 0 then Pairs(s, p + 1)
            else Pairs(s, p + 1) + multiset{Hash(s[p], s[p + 1])}
  {
    hide Hash;
  }

  lemma OneMore(m: Counts, bag: multiset<int>, hash: int)
    requires Stands(m, bag)
    ensures Stands(m[hash := if hash in m then m[hash] + 1 else 1], bag + multiset{hash})
  {}
}
