/** Changed-path Bloom filters: building, asking and upgrading them, from bloom.c. */
module BloomFilter {
  import opened BloomHash

  const BITS := 8

  datatype Settings = Settings(version2: bool, numHashes: nat, bitsPerEntry: nat, maxPaths: nat)

  /** get_bitmask. */
  function Mask(pos: nat): bv8 {
    var k := pos % 8;
    if k == 0 then 1 else if k == 1 then 2 else if k == 2 then 4 else if k == 3 then 8
    else if k == 4 then 16 else if k == 5 then 32 else if k == 6 then 64 else 128
  }

  predicate Has(byte: bv8, pos: nat) { byte & Mask(pos) != 0 }

  function With(byte: bv8, pos: nat): bv8 { byte | Mask(pos) }

  lemma MaskBits(x: bv8, p: nat, m: nat)
    ensures Has(With(x, p), m) <==> Has(x, m) || p % 8 == m % 8
    ensures Has(0xff, m) && !Has(0, m)
  {}

  predicate BitAt(data: seq<bv8>, pos: nat)
    requires pos / BITS < |data|
  {
    Has(data[pos / BITS], pos)
  }

  lemma Within(hash: nat, len: nat)
    requires len > 0
    ensures hash % (len * BITS) < len * BITS && hash % (len * BITS) / BITS < len
  {}

  /** Every bit of a key is set. */
  ghost predicate HasKey(data: seq<bv8>, key: seq<nat>) {
    data != [] && forall i | 0 <= i < |key| :: KeyBit(data, key[i])
  }

  predicate KeyBit(data: seq<bv8>, hash: nat)
    requires data != []
  {
    Within(hash, |data|);
    BitAt(data, hash % (|data| * BITS))
  }

  /** bloom_filter_contains: 1 when the key may be there, 0 when it is not, -1 for no filter. */
  method Contains(data: seq<bv8>, key: seq<nat>) returns (r: int)
    ensures data == [] <==> r == -1
    ensures r == 1 <==> HasKey(data, key)
    ensures -1 <= r <= 1
  {
    if |data| * BITS == 0 {
      return -1;
    }
    for i := 0 to |key|
      invariant forall k | 0 <= k < i :: KeyBit(data, key[k])
    {
      var pos := key[i] % (|data| * BITS);
      Within(key[i], |data|);
      if !Has(data[pos / BITS], pos) {
        assert !KeyBit(data, key[i]);
        return 0;
      }
    }
    return 1;
  }

  /** `pos` is one of the first `n` bits of a key in a filter of `len` bytes. */
  ghost predicate KeyHas(key: seq<nat>, n: nat, len: nat, pos: nat)
    requires n <= |key| && len > 0
  {
    exists i | 0 <= i < n :: key[i] % (len * BITS) == pos
  }

  /** add_key_to_filter, in place: exactly the bits of the key are added. */
  method AddKey(data: array<bv8>, key: seq<nat>)
    requires data.Length > 0
    modifies data
    ensures forall pos: nat | pos / BITS < data.Length ::
              BitAt(data[..], pos) <==> BitAt(old(data[..]), pos) || KeyHas(key, |key|, data.Length, pos)
  {
    hide Has, With;
    ghost var before := data[..];
    for i := 0 to |key|
      invariant forall pos: nat | pos / BITS < data.Length :: BitAt(data[..], pos) <==>
                BitAt(before, pos) || KeyHas(key, i, data.Length, pos)
    {
      var at := key[i] % (data.Length * BITS);
      Within(key[i], data.Length);
      ghost var was := data[..];
      data[at / BITS] := With(data[at / BITS], at);
      forall pos: nat | pos / BITS < data.Length
        ensures BitAt(data[..], pos) <==> BitAt(before, pos) || KeyHas(key, i + 1, data.Length, pos)
      {
        SetBit(was, data[..], at, pos);
        KeyNext(key, i, data.Length, pos);
      }
    }
  }

  lemma SetBit(was: seq<bv8>, data: seq<bv8>, at: nat, pos: nat)
    requires at / BITS < |was| && data == was[at / BITS := With(was[at / BITS], at)] && pos / BITS < |was|
    ensures BitAt(data, pos) <==> BitAt(was, pos) || pos == at
  {
    hide Has, With;
    MaskBits(was[at / BITS], at, pos);
    SamePlace(at, pos, at / BITS, pos / BITS);
  }

  lemma SamePlace(at: nat, pos: nat, i: nat, j: nat)
    requires i == at / BITS && j == pos / BITS
    ensures i == j && at % 8 == pos % 8 <==> pos == at
  {}

  lemma KeyNext(key: seq<nat>, i: nat, len: nat, pos: nat)
    requires i < |key| && len > 0
    ensures KeyHas(key, i + 1, len, pos) <==> KeyHas(key, i, len, pos) || key[i] % (len * BITS) == pos
  {}

  // ---- the paths of a filter

  const SLASH: Byte := 0x2f

  /** `q` is the path `p` or one of its leading directories. */
  predicate Leads(q: Bytes, p: Bytes) {
    q != [] && (q == p || (|q| < |p| && p[|q|] == SLASH && q == p[..|q|]))
  }

  /** strrchr. */
  method LastSlash(path: Bytes) returns (k: int)
    ensures -1 <= k < |path| && (k >= 0 ==> path[k] == SLASH) && forall i | k < i < |path| :: path[i] != SLASH
  {
    k := |path| - 1;
    while k >= 0 && path[k] != SLASH
      invariant -1 <= k < |path| && forall i | k < i < |path| :: path[i] != SLASH
    {
      k := k - 1;
    }
  }

  /** The entries of the path map are `entries` and no other, each once. */
  ghost predicate Distinct(entries: seq<Bytes>) {
    forall i, j | 0 <= i < j < |entries| :: entries[i] != entries[j]
  }

  /** The leading directories of one path, from the path up. */
  method AddLeading(entries: seq<Bytes>, path: Bytes) returns (more: seq<Bytes>)
    requires path != [] && Distinct(entries)
    ensures Distinct(more) && forall q :: q in more <==> q in entries || Leads(q, path)
  {
    more := entries;
    var cut := |path|;
    while cut > 0
      invariant 0 <= cut <= |path| && (0 < cut < |path| ==> path[cut] == SLASH) && Distinct(more)
      invariant forall q :: q in more <==> q in entries || (Leads(q, path) && |q| > cut)
    {
      var here := path[..cut];
      assert Leads(here, path);
      if here !in more {
        more := more + [here];
      }
      var slash := LastSlash(here);
      var next := if slash < 0 then 0 else slash;
      forall q | Leads(q, path) && |q| > next ensures q == here || |q| > cut { BetweenCuts(path, cut, next, q); }
      cut := next;
    }
  }

  lemma BetweenCuts(path: Bytes, cut: nat, next: nat, q: Bytes)
    requires next < cut <= |path| && (forall i | next < i < cut :: path[i] != SLASH) && Leads(q, path) && |q| > next
    ensures |q| >= cut && (|q| == cut ==> q == path[..cut])
  {}

  // ---- building a filter

  /** The hashes of a path under some settings. */
  function Key(path: Bytes, st: Settings): (key: seq<nat>)
    ensures |key| == st.numHashes && forall i | 0 <= i < |key| :: key[i] == KeyHash(path, i, st.version2)
  {
    seq(st.numHashes, i requires 0 <= i < st.numHashes => KeyHash(path, i, st.version2))
  }

  ghost predicate EntryHas(path: Bytes, st: Settings, len: nat, pos: nat)
    requires len > 0
  {
    KeyHas(Key(path, st), st.numHashes, len, pos)
  }

  /** The filter has the bits of the entries and no others. */
  ghost predicate Exact(data: seq<bv8>, entries: seq<Bytes>, st: Settings) {
    && data != []
    && forall pos: nat | pos / BITS < |data| :: BitAt(data, pos) <==>
       exists e | e in entries :: EntryHas(e, st, |data|, pos)
  }

  /** A changed path, or a leading directory of one. */
  ghost predicate Changed(paths: seq<Bytes>, q: Bytes) {
    exists i | 0 <= i < |paths| :: Leads(q, paths[i])
  }

  method CollectPaths(paths: seq<Bytes>) returns (entries: seq<Bytes>)
    requires forall i | 0 <= i < |paths| :: paths[i] != []
    ensures Distinct(entries) && forall q :: q in entries <==> Changed(paths, q)
  {
    hide Leads;
    entries := [];
    for i := 0 to |paths|
      invariant Distinct(entries) && forall q :: q in entries <==> Changed(paths[..i], q)
    {
      entries := AddLeading(entries, paths[i]);
      forall q ensures Changed(paths[..i + 1], q) <==> Changed(paths[..i], q) || Leads(q, paths[i]) {
        ChangedNext(paths, i, q);
      }
    }
    assert paths[..|paths|] == paths;
  }

  lemma ChangedNext(paths: seq<Bytes>, i: nat, q: Bytes)
    requires i < |paths|
    ensures Changed(paths[..i + 1], q) <==> Changed(paths[..i], q) || Leads(q, paths[i])
  {
    hide Leads;
    assert paths[..i + 1] == paths[..i] + [paths[i]];
    if Leads(q, paths[i]) { assert Leads(q, paths[..i + 1][i]); }
    if Changed(paths[..i], q) {
      var k :| 0 <= k < i && Leads(q, paths[..i][k]);
      assert Leads(q, paths[..i + 1][k]);
    }
  }

  /** An exact filter answers yes for its entries. */
  lemma ExactHasKey(data: seq<bv8>, entries: seq<Bytes>, st: Settings, q: Bytes)
    requires Exact(data, entries, st) && q in entries
    ensures HasKey(data, Key(q, st))
  {
    hide KeyHash, Has;
    var key := Key(q, st);
    forall i | 0 <= i < |key| ensures KeyBit(data, key[i]) {
      Within(key[i], |data|);
      assert EntryHas(q, st, |data|, key[i] % (|data| * BITS));
    }
  }

  /** The truncated filter answers yes for everything. */
  lemma TruncatedHasKey(key: seq<nat>)
    ensures HasKey([0xff], key)
  {
    forall i | 0 <= i < |key| ensures KeyBit([0xff], key[i]) {
      Within(key[i], 1);
      MaskBits(0, 0, key[i] % (1 * BITS));
    }
  }

  /** The filter-building part of get_or_compute_bloom_filter. */
  method Build(paths: seq<Bytes>, st: Settings) returns (data: seq<bv8>, ghost entries: seq<Bytes>)
    requires forall i | 0 <= i < |paths| :: paths[i] != []
    ensures Distinct(entries) && forall q :: q in entries <==> Changed(paths, q)
    ensures if |paths| > st.maxPaths || |entries| > st.maxPaths then data == [0xff]
            else
              && |data| == (if |entries| * st.bitsPerEntry == 0 then 1 else (|entries| * st.bitsPerEntry + 7) / 8)
              && Exact(data, entries, st)
    ensures forall q | Changed(paths, q) :: HasKey(data, Key(q, st))
  {
    var list := CollectPaths(paths);
    entries := list;
    hide Changed, HasKey, KeyHash, Has;
    forall key: seq<nat> ensures HasKey([0xff], key) { TruncatedHasKey(key); }
    if |paths| > st.maxPaths || |list| > st.maxPaths {
      return [0xff], list;
    }
    var len := (|list| * st.bitsPerEntry + BITS - 1) / BITS;
    if len == 0 {
      len := 1;
    }
    var words := Fill(list, len, st);
    data := words;
    forall q | Changed(paths, q) ensures HasKey(data, Key(q, st)) { ExactHasKey(data, list, st, q); }
  }

  method Fill(list: seq<Bytes>, len: nat, st: Settings) returns (data: seq<bv8>)
    requires len > 0
    ensures |data| == len && Exact(data, list, st)
  {
    hide KeyHash, KeyHas, Has, EntryHas;
    var words := new bv8[len](_ => 0);
    Zero(words[..]);
    for k := 0 to |list|
      invariant Exact(words[..], list[..k], st)
    {
      var key := FillKey(list[k], st.numHashes, st.version2);
      assert key == Key(list[k], st);
      ghost var was := words[..];
      AddKey(words, key);
      MoreExact(was, words[..], list, k, st);
    }
    assert list[..|list|] == list;
    data := words[..];
  }

  lemma Zero(data: seq<bv8>)
    requires forall i | 0 <= i < |data| :: data[i] == 0
    ensures forall pos: nat | pos / BITS < |data| :: !BitAt(data, pos)
  {
    forall pos: nat | pos / BITS < |data| ensures !BitAt(data, pos) { MaskBits(0, 0, pos); }
  }

  lemma MoreExact(was: seq<bv8>, data: seq<bv8>, list: seq<Bytes>, k: nat, st: Settings)
    requires k < |list| && Exact(was, list[..k], st) && |data| == |was|
    requires forall pos: nat | pos / BITS < |data| :: BitAt(data, pos) <==>
             BitAt(was, pos) || KeyHas(Key(list[k], st), st.numHashes, |data|, pos)
    ensures Exact(data, list[..k + 1], st)
  {
    assert list[..k + 1] == list[..k] + [list[k]];
    hide KeyHas, BitAt;
    forall pos: nat | pos / BITS < |data|
      ensures BitAt(data, pos) <==> exists e | e in list[..k + 1] :: EntryHas(e, st, |data|, pos)
    {
      assert KeyHas(Key(list[k], st), st.numHashes, |data|, pos) == EntryHas(list[k], st, |data|, pos);
      assert list[k] in list[..k + 1];
    }
  }
}
