/** The hash of changed-path Bloom filters: murmur3_seeded_v1, murmur3_seeded_v2 and
    fill_bloom_key of bloom.c. */
module BloomHash {

  type Byte = bv8
  type Bytes = seq<Byte>

  const WORD := 0x1_0000_0000

  type Word = bv32

  // ---- murmur3

  /** Version 2 takes a byte as it is; version 1 takes it as a signed char. */
  function Widen(b: Byte, version2: bool): Word {
    if !version2 && b >= 0x80 then (b as Word) | 0xffff_ff00 else b as Word
  }

  function Times1(x: Word): Word { x * 0xcc9e_2d51 }

  function Times2(x: Word): Word { x * 0x1b87_3593 }

  function Turn15(x: Word): Word { x.RotateLeft(15) }

  function Scramble(k: Word): Word {
    Times2(Turn15(Times1(k)))
  }

  /** Four bytes, the first one lowest. */
  function Four(a: Word, b: Word, c: Word, d: Word): Word {
    a | (b << 8) | (c << 16) | (d << 24)
  }

  function Block(data: Bytes, i: nat, version2: bool): Word
    requires 4 * i + 3 < |data|
  {
    Four(Widen(data[4 * i], version2), Widen(data[4 * i + 1], version2), Widen(data[4 * i + 2], version2),
         Widen(data[4 * i + 3], version2))
  }

  function Mix(h: Word, k: Word): Word {
    (h ^ Scramble(k)).RotateLeft(13) * 5 + 0xe654_6b64
  }

  /** The hash after `n` blocks of four bytes. */
  function Blocks(seed: Word, data: Bytes, n: nat, version2: bool): Word
    requires 4 * n <= |data|
  {
    if n == 0 then seed else Mix(Blocks(seed, data, n - 1, version2), Block(data, n - 1, version2))
  }

  function Short(a: Word, b: Word, c: Word): Word {
    (c << 16) ^ (b << 8) ^ a
  }

  /** The last one to three bytes. */
  function Tail(data: Bytes, version2: bool): Word {
    var n := |data| / 4 * 4;
    Short(if |data| % 4 > 0 then Widen(data[n], version2) else 0,
          if |data| % 4 > 1 then Widen(data[n + 1], version2) else 0,
          if |data| % 4 > 2 then Widen(data[n + 2], version2) else 0)
  }

  function MixTail(h: Word, k: Word): Word {
    h ^ Scramble(k)
  }

  function Times3(x: Word): Word { x * 0x85eb_ca6b }

  function Times4(x: Word): Word { x * 0xc2b2_ae35 }

  function Fold16(x: Word): Word { x ^ (x >> 16) }

  function Fold13(x: Word): Word { x ^ (x >> 13) }

  function Finish(h: Word, len: Word): Word {
    Fold16(Times4(Fold13(Times3(Fold16(h ^ len)))))
  }

  function Murmur(seed: Word, data: Bytes, version2: bool): Word {
    var h := Blocks(seed, data, |data| / 4, version2);
    Finish(if |data| % 4 > 0 then MixTail(h, Tail(data, version2)) else h, (|data| % WORD) as Word)
  }

  predicate SevenBit(data: Bytes) {
    forall i | 0 <= i < |data| :: data[i] < 0x80
  }

  lemma WidenAgree(b: Byte)
    requires b < 0x80
    ensures Widen(b, false) == Widen(b, true)
  {}

  lemma {:induction false} BlocksAgree(seed: Word, data: Bytes, n: nat)
    requires SevenBit(data) && 4 * n <= |data|
    ensures Blocks(seed, data, n, false) == Blocks(seed, data, n, true)
  {
    hide Mix, Four, Widen;
    if n > 0 {
      BlocksAgree(seed, data, n - 1);
      WidenAgree(data[4 * (n - 1)]);
      WidenAgree(data[4 * (n - 1) + 1]);
      WidenAgree(data[4 * (n - 1) + 2]);
      WidenAgree(data[4 * (n - 1) + 3]);
    }
  }

  lemma TailAgrees(data: Bytes)
    requires SevenBit(data)
    ensures Tail(data, false) == Tail(data, true)
  {
    hide Short, Widen;
    var n := |data| / 4 * 4;
    if |data| % 4 > 0 { WidenAgree(data[n]); }
    if |data| % 4 > 1 { WidenAgree(data[n + 1]); }
    if |data| % 4 > 2 { WidenAgree(data[n + 2]); }
  }

  /** The two versions agree on data without high bits. */
  lemma VersionsAgree(seed: Word, data: Bytes)
    requires SevenBit(data)
    ensures Murmur(seed, data, false) == Murmur(seed, data, true)
  {
    hide MixTail, Finish, Blocks, Tail;
    BlocksAgree(seed, data, |data| / 4);
    TailAgrees(data);
  }

  /** murmur3_seeded_v1 and murmur3_seeded_v2. */
  method Murmur3(seed: Word, data: Bytes, version2: bool) returns (h: Word)
    ensures h == Murmur(seed, data, version2)
  {
    hide Mix, MixTail, Four, Short, Widen, Finish;
    h := seed;
    var len4 := |data| / 4;
    for i := 0 to len4
      invariant h == Blocks(seed, data, i, version2)
    {
      h := Mix(h, Block(data, i, version2));
    }
    if |data| % 4 > 0 {
      h := MixTail(h, Tail(data, version2));
    }
    h := Finish(h, (|data| % WORD) as Word);
  }

  // ---- keys

  const SEED0: Word := 0x293a_e76f
  const SEED1: Word := 0x7e64_6e2c

  /** hash0 + i * hash1 in 32-bit arithmetic. */
  function Combine(hash0: Word, i: nat, hash1: Word): nat {
    (hash0 as int + i * (hash1 as int)) % WORD
  }

  /** The `i`-th hash of a path. */
  function KeyHash(path: Bytes, i: nat, version2: bool): nat {
    Combine(Murmur(SEED0, path, version2), i, Murmur(SEED1, path, version2))
  }

  method FillKey(path: Bytes, numHashes: nat, version2: bool) returns (key: seq<nat>)
    ensures |key| == numHashes && forall i | 0 <= i < numHashes :: key[i] == KeyHash(path, i, version2)
  {
    hide Murmur, Combine;
    var hash0 := Murmur3(SEED0, path, version2);
    var hash1 := Murmur3(SEED1, path, version2);
    key := [];
    for i := 0 to numHashes
      invariant |key| == i && forall k | 0 <= k < i :: key[k] == KeyHash(path, k, version2)
    {
      key := key + [Combine(hash0, i, hash1)];
    }
  }

  lemma KeysAgree(path: Bytes, i: nat)
    requires SevenBit(path)
    ensures KeyHash(path, i, false) == KeyHash(path, i, true)
  {
    hide Murmur, Combine;
    VersionsAgree(SEED0, path);
    VersionsAgree(SEED1, path);
  }
}
