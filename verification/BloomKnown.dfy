/** What the hash, the keys and the filters are for the strings of Git's own tests. */
module BloomKnown {
  import opened BloomHash
  import opened BloomDiffer
  import opened BloomFilter

  lemma MixSteps()
    ensures Mix(0, 0x6c6c_6548) == 0xcb5b_ec36 && Mix(0xcb5b_ec36, 0x6f77_206f) == 0xd8cc_6150
    ensures Mix(0xd8cc_6150, 0x2164_6c72) == 0x73fb_b207 && Mix(0, 0xccbb_aa99) == 0xe894_0a48
  {}

  lemma FinishSteps()
    ensures Finish(0, 0) == 0 && Finish(0x73fb_b207, 12) == 0x627b_0c2c
    ensures MixTail(0xe894_0a48, 0x00ff_eedd) == 0xacaf_9b22 && Finish(0xacaf_9b22, 7) == 0xa183_ccfd
  {}

  lemma BlockIs(data: Bytes, i: nat, a: Byte, b: Byte, c: Byte, d: Byte)
    requires 4 * i + 3 < |data| && data[4 * i] == a && data[4 * i + 1] == b && data[4 * i + 2] == c
    requires data[4 * i + 3] == d
    ensures Block(data, i, true) == Four(Widen(a, true), Widen(b, true), Widen(c, true), Widen(d, true))
  {
    hide Four, Widen;
  }

  lemma Packed()
    ensures Four(Widen(0x48, true), Widen(0x65, true), Widen(0x6c, true), Widen(0x6c, true)) == 0x6c6c_6548
    ensures Four(Widen(0x6f, true), Widen(0x20, true), Widen(0x77, true), Widen(0x6f, true)) == 0x6f77_206f
    ensures Four(Widen(0x72, true), Widen(0x6c, true), Widen(0x64, true), Widen(0x21, true)) == 0x2164_6c72
    ensures Four(Widen(0x99, true), Widen(0xaa, true), Widen(0xbb, true), Widen(0xcc, true)) == 0xccbb_aa99
    ensures Short(Widen(0xdd, true), Widen(0xee, true), Widen(0xff, true)) == 0x00ff_eedd
  {}

  lemma OneMore(seed: Word, data: Bytes, n: nat, h: Word, a: Byte, b: Byte, c: Byte, d: Byte)
    requires 4 * n + 4 <= |data| && Blocks(seed, data, n, true) == h && data[4 * n..4 * n + 4] == [a, b, c, d]
    ensures Blocks(seed, data, n + 1, true)
         == Mix(h, Four(Widen(a, true), Widen(b, true), Widen(c, true), Widen(d, true)))
  {
    hide Mix, Block;
    assert [a, b, c, d][0] == data[4 * n] && [a, b, c, d][1] == data[4 * n + 1];
    assert [a, b, c, d][2] == data[4 * n + 2] && [a, b, c, d][3] == data[4 * n + 3];
    BlockIs(data, n, a, b, c, d);
    assert Blocks(seed, data, n + 1, true) == Mix(h, Block(data, n, true));
  }

  /** The end of the hash of `n` blocks, and of some bytes more. */
  lemma Ends(seed: Word, data: Bytes, n: nat, version2: bool, h: Word, len: Word, a: Byte, b: Byte, c: Byte)
    requires |data| / 4 == n && |data| < 16 && len == (|data| % WORD) as Word && Blocks(seed, data, n, version2) == h
    requires var m := |data| % 4;
             && a == (if m > 0 then data[4 * n] else 0) && b == (if m > 1 then data[4 * n + 1] else 0)
             && c == (if m > 2 then data[4 * n + 2] else 0)
    ensures Murmur(seed, data, version2)
         == Finish(if |data| % 4 > 0 then MixTail(h, Short(Widen(a, version2), Widen(b, version2), Widen(c, version2)))
                   else h, len)
  {
    hide Finish, MixTail, Short, Widen, Blocks, Tail;
    TailIs(data, a, b, c, version2);
  }

  lemma Lengths()
    ensures (0 % WORD) as Word == 0 && (2 % WORD) as Word == 2 && (7 % WORD) as Word == 7 && (12 % WORD) as Word == 12
  {}

  lemma None(seed: Word, data: Bytes, version2: bool)
    ensures Blocks(seed, data, 0, version2) == seed
  {}

  /** The values that t0095-bloom.sh expects of the hash: of a text of whole blocks, */
  lemma KnownText()
    ensures Murmur(0, [], true) == 0
    ensures Murmur(0, [0x48, 0x65, 0x6c, 0x6c, 0x6f, 0x20, 0x77, 0x6f, 0x72, 0x6c, 0x64, 0x21], true) == 0x627b_0c2c
  {
    hide *;
    var hello: Bytes := [0x48, 0x65, 0x6c, 0x6c, 0x6f, 0x20, 0x77, 0x6f, 0x72, 0x6c, 0x64, 0x21];
    Lengths();
    Packed();
    MixSteps();
    FinishSteps();
    None(0, [], true);
    Ends(0, [], 0, true, 0, 0, 0, 0, 0);
    None(0, hello, true);
    OneMore(0, hello, 0, 0, 0x48, 0x65, 0x6c, 0x6c);
    OneMore(0, hello, 1, 0xcb5b_ec36, 0x6f, 0x20, 0x77, 0x6f);
    OneMore(0, hello, 2, 0xd8cc_6150, 0x72, 0x6c, 0x64, 0x21);
    Ends(0, hello, 3, true, 0x73fb_b207, 12, 0, 0, 0);
  }

  /** of bytes with high bits, some of them after the last block, */
  lemma KnownBytes()
    ensures Murmur(0, [0x99, 0xaa, 0xbb, 0xcc, 0xdd, 0xee, 0xff], true) == 0xa183_ccfd
  {
    hide *;
    var high: Bytes := [0x99, 0xaa, 0xbb, 0xcc, 0xdd, 0xee, 0xff];
    Lengths();
    Packed();
    MixSteps();
    FinishSteps();
    None(0, high, true);
    OneMore(0, high, 0, 0, 0x99, 0xaa, 0xbb, 0xcc);
    Ends(0, high, 1, true, 0xe894_0a48, 7, 0xdd, 0xee, 0xff);
  }

  lemma EmptySteps()
    ensures Finish(SEED0, 0) == 0x5615_800c && Finish(SEED1, 0) == 0x0580_e554
  {}

  /** and of the keys of a path. */
  lemma KnownKeys()
    ensures KeyHash([], 0, true) == 0x5615_800c && KeyHash([], 1, true) == 0x5b96_6560
    ensures KeyHash([], 2, true) == 0x6117_4ab4
  {
    hide Murmur, Finish, Blocks;
    Lengths();
    EmptySteps();
    None(SEED0, [], true);
    None(SEED1, [], true);
    Ends(SEED0, [], 0, true, SEED0, 0, 0, 0, 0);
    Ends(SEED1, [], 0, true, SEED1, 0, 0, 0, 0);
  }

  lemma CentSteps()
    ensures Short(Widen(0xc2, false), Widen(0xa2, false), Widen(0, false)) == 0x0000_5dc2
    ensures Short(Widen(0xc2, true), Widen(0xa2, true), Widen(0, true)) == 0x0000_a2c2
    ensures Finish(MixTail(SEED0, 0x5dc2), 2) == 0x8095_ff0b && Finish(MixTail(SEED1, 0x5dc2), 2) == 0x0e92_0599
    ensures Finish(MixTail(SEED0, 0xa2c2), 2) == 0xe089_a446 && Finish(MixTail(SEED1, 0xa2c2), 2) == 0x9f03_8e71
  {}

  lemma CentHashes()
    ensures Murmur(SEED0, [0xc2, 0xa2], false) == 0x8095_ff0b && Murmur(SEED1, [0xc2, 0xa2], false) == 0x0e92_0599
    ensures Murmur(SEED0, [0xc2, 0xa2], true) == 0xe089_a446 && Murmur(SEED1, [0xc2, 0xa2], true) == 0x9f03_8e71
  {
    hide *;
    Lengths();
    CentSteps();
    var cent: Bytes := [0xc2, 0xa2];
    None(SEED0, cent, false);
    None(SEED1, cent, false);
    None(SEED0, cent, true);
    None(SEED1, cent, true);
    Ends(SEED0, cent, 0, false, SEED0, 2, 0xc2, 0xa2, 0);
    Ends(SEED1, cent, 0, false, SEED1, 2, 0xc2, 0xa2, 0);
    Ends(SEED0, cent, 0, true, SEED0, 2, 0xc2, 0xa2, 0);
    Ends(SEED1, cent, 0, true, SEED1, 2, 0xc2, 0xa2, 0);
  }

  /** The bits that t4216-log-bloom.sh expects for a path of two high bytes in a filter of 16:
      those of the bytes 52 and a9 in version 1, of c0 and 1f in version 2. */
  lemma KnownBits(i: nat)
    requires i < 7
    ensures KeyHash([0xc2, 0xa2], i, false) % 16 == [11, 4, 13, 6, 15, 8, 1][i]
    ensures KeyHash([0xc2, 0xa2], i, true) % 16 == 6 + i
  {
    hide Murmur, Combine;
    CentHashes();
    CentBits1(i);
    CentBits2(i);
  }

  lemma CentBits1(i: nat)
    requires i < 7
    ensures Combine(0x8095_ff0b, i, 0x0e92_0599) % 16 == [11, 4, 13, 6, 15, 8, 1][i]
  {}

  lemma CentBits2(i: nat)
    requires i < 7
    ensures Combine(0xe089_a446, i, 0x9f03_8e71) % 16 == 6 + i
  {}

  function CentPlaces(version2: bool): (s: seq<nat>)
    ensures |s| == 7
  {
    if version2 then [6, 7, 8, 9, 10, 11, 12] else [11, 4, 13, 6, 15, 8, 1]
  }

  function CentFilter(version2: bool): (s: seq<bv8>)
    ensures |s| == 2
  {
    if version2 then [0xc0, 0x1f] else [0x52, 0xa9]
  }

  /** So these are the filters for that path. */
  lemma KnownFilter(data: seq<bv8>, version2: bool)
    requires |data| == 2 && Exact(data, [[0xc2, 0xa2]], Settings(version2, 7, 10, 512))
    ensures data == CentFilter(version2)
  {
    hide BitAt, Exact, CentFilter, CentPlaces, Has;
    forall pos: nat | pos < 16 ensures BitAt(data, pos) == BitAt(CentFilter(version2), pos) {
      BitIs(data, version2, pos);
      PlaceIs(version2, pos);
    }
    SameBits(data, CentFilter(version2));
  }

  lemma BitIs(data: seq<bv8>, version2: bool, pos: nat)
    requires |data| == 2 && Exact(data, [[0xc2, 0xa2]], Settings(version2, 7, 10, 512)) && pos < 16
    ensures BitAt(data, pos) <==> pos in CentPlaces(version2)
  {
    var cent: Bytes, st := [0xc2, 0xa2], Settings(version2, 7, 10, 512);
    hide KeyHash, Has, CentPlaces, EntryHas;
    assert cent in [cent];
    assert BitAt(data, pos) <==> EntryHas(cent, st, 2, pos);
    hide Exact, BitAt;
    forall i | 0 <= i < 7 ensures Key(cent, st)[i] % 16 == CentPlaces(version2)[i] {
      KnownBits(i);
      PlacesAre(version2, i);
    }
    EntryPlaces(cent, st, CentPlaces(version2), pos);
  }

  lemma PlacesAre(version2: bool, i: nat)
    requires i < 7
    ensures CentPlaces(version2)[i] == if version2 then 6 + i else [11, 4, 13, 6, 15, 8, 1][i]
  {}

  lemma EntryPlaces(path: Bytes, st: Settings, places: seq<nat>, pos: nat)
    requires st.numHashes == |places| && forall i | 0 <= i < |places| :: Key(path, st)[i] % 16 == places[i]
    ensures EntryHas(path, st, 2, pos) <==> pos in places
  {
    hide KeyHash, Key;
    if pos in places {
      var i :| 0 <= i < |places| && places[i] == pos;
      assert Key(path, st)[i] % (2 * BITS) == pos;
    }
  }

  lemma PlaceIs(version2: bool, pos: nat)
    requires pos < 16
    ensures BitAt(CentFilter(version2), pos) <==> pos in CentPlaces(version2)
  {}

  lemma SameBits(x: seq<bv8>, y: seq<bv8>)
    requires |x| == |y| == 2 && forall pos: nat | pos < 16 :: BitAt(x, pos) == BitAt(y, pos)
    ensures x == y
  {
    forall k | 0 <= k < 2 ensures x[k] == y[k] {
      forall i: nat | i < 8 ensures Has(x[k], i) == Has(y[k], i) {
        assert BitAt(x, 8 * k + i) == BitAt(y, 8 * k + i);
        BitOf(x, k, i);
        BitOf(y, k, i);
      }
      SameByte(x[k], y[k]);
    }
  }

  lemma BitOf(x: seq<bv8>, k: nat, i: nat)
    requires k < |x| && i < 8
    ensures (8 * k + i) / BITS == k && BitAt(x, 8 * k + i) == Has(x[k], i)
  {}

  lemma SameByte(x: bv8, y: bv8)
    requires forall i: nat | i < 8 :: Has(x, i) == Has(y, i)
    ensures x == y
  {
    assert Has(x, 0) == Has(y, 0) && Has(x, 1) == Has(y, 1) && Has(x, 2) == Has(y, 2) && Has(x, 3) == Has(y, 3);
    assert Has(x, 4) == Has(y, 4) && Has(x, 5) == Has(y, 5) && Has(x, 6) == Has(y, 6) && Has(x, 7) == Has(y, 7);
  }
}
