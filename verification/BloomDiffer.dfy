/** The two versions of the hash differ on high bytes: its last steps lose nothing. */
module BloomDiffer {
  import opened BloomHash

  // ---- the steps of the hash

  // multiplying by an odd constant is undone by its inverse, folding by folding again

  function Undo1(x: Word): Word { x * 0xdee1_3bb1 }

  lemma Undone1(x: Word)
    ensures Undo1(Times1(x)) == x
  {
    assert Times1(x) == x * 0xcc9e_2d51 by { hide Undo1; }
    assert Undo1(x * 0xcc9e_2d51) == x by { hide Times1; }
    hide *;
  }

  function Undo2(x: Word): Word { x * 0x56ed_309b }

  lemma Undone2(x: Word)
    ensures Undo2(Times2(x)) == x
  {
    assert Times2(x) == x * 0x1b87_3593 by { hide Undo2; }
    assert Undo2(x * 0x1b87_3593) == x by { hide Times2; }
    hide *;
  }

  function Undo3(x: Word): Word { x * 0xa5cb_9243 }

  lemma Undone3(x: Word)
    ensures Undo3(Times3(x)) == x
  {
    assert Times3(x) == x * 0x85eb_ca6b by { hide Undo3; }
    assert Undo3(x * 0x85eb_ca6b) == x by { hide Times3; }
    hide *;
  }

  function Undo4(x: Word): Word { x * 0x7ed1_b41d }

  lemma Undone4(x: Word)
    ensures Undo4(Times4(x)) == x
  {
    assert Times4(x) == x * 0xc2b2_ae35 by { hide Undo4; }
    assert Undo4(x * 0xc2b2_ae35) == x by { hide Times4; }
    hide *;
  }

  function Unfold16(x: Word): Word { x ^ (x >> 16) }

  lemma Unfolded16(x: Word)
    ensures Unfold16(Fold16(x)) == x
  {
    assert Fold16(x) == x ^ (x >> 16) by { hide Unfold16; }
    assert Unfold16(x ^ (x >> 16)) == x by { hide Fold16; }
    hide *;
  }

  function Unfold13(x: Word): Word { x ^ (x >> 13) ^ (x >> 26) }

  lemma Unfolded13(x: Word)
    ensures Unfold13(Fold13(x)) == x
  {
    assert Fold13(x) == x ^ (x >> 13) by { hide Unfold13; }
    assert Unfold13(x ^ (x >> 13)) == x by { hide Fold13; }
    hide *;
  }

  lemma TurnInjective(x: Word, y: Word)
    ensures Turn15(x) == Turn15(y) ==> x == y
  {}

  lemma XorInjective(h: Word, x: Word, y: Word)
    ensures h ^ x == h ^ y ==> x == y
    ensures x ^ h == y ^ h ==> x == y
  {}

  lemma ScrambleInjective(a: Word, b: Word)
    requires Scramble(a) == Scramble(b)
    ensures a == b
  {
    hide Times1, Times2, Turn15, Undo1, Undo2;
    Undone2(Turn15(Times1(a)));
    Undone2(Turn15(Times1(b)));
    TurnInjective(Times1(a), Times1(b));
    Undone1(a);
    Undone1(b);
  }

  /** The final mix loses nothing. */
  lemma FinishInjective(a: Word, b: Word, len: Word)
    requires Finish(a, len) == Finish(b, len)
    ensures a == b
  {
    FinishBack(a, len);
    FinishBack(b, len);
    hide Finish, Undo3, Undo4, Unfold16, Unfold13;
    XorInjective(len, a, b);
  }

  lemma FinishBack(h: Word, len: Word)
    ensures Unfold16(Undo3(Unfold13(Undo4(Unfold16(Finish(h, len)))))) == h ^ len
  {
    hide Times3, Times4, Fold16, Fold13, Undo3, Undo4, Unfold16, Unfold13;
    var x := Times3(Fold16(h ^ len));
    Unfolded16(Times4(Fold13(x)));
    Undone4(Fold13(x));
    Unfolded13(x);
    Undone3(Fold16(h ^ len));
    Unfolded16(h ^ len);
  }

  /** After blocks without high bits, the versions agree exactly when the last one to three
      bytes give the same word. */
  lemma TailDecides(seed: Word, data: Bytes)
    requires |data| % 4 > 0 && SevenBit(data[..|data| / 4 * 4])
    ensures Murmur(seed, data, false) == Murmur(seed, data, true) <==> Tail(data, false) == Tail(data, true)
  {
    hide Finish, Scramble, Tail, Blocks;
    var n := |data| / 4;
    SameBlocks(seed, data, n);
    var h := Blocks(seed, data, n, true);
    var k1, k2 := Tail(data, false), Tail(data, true);
    if Murmur(seed, data, false) == Murmur(seed, data, true) {
      FinishInjective(MixTail(h, k1), MixTail(h, k2), (|data| % WORD) as Word);
      XorInjective(h, Scramble(k1), Scramble(k2));
      ScrambleInjective(k1, k2);
    }
  }

  lemma {:induction false} SameBlocks(seed: Word, data: Bytes, n: nat)
    requires 4 * n <= |data| && SevenBit(data[..4 * n])
    ensures Blocks(seed, data, n, false) == Blocks(seed, data, n, true)
  {
    hide Mix, Four, Widen;
    if n > 0 {
      assert forall i | 0 <= i < 4 * n :: data[i] == data[..4 * n][i];
      assert forall i | 0 <= i < 4 * (n - 1) :: data[..4 * (n - 1)][i] == data[i];
      SameBlocks(seed, data, n - 1);
      WidenAgree(data[4 * (n - 1)]);
      WidenAgree(data[4 * (n - 1) + 1]);
      WidenAgree(data[4 * (n - 1) + 2]);
      WidenAgree(data[4 * (n - 1) + 3]);
    }
  }

  // ---- the sign bits in the last bytes

  /** No sign bits cancel: bits 8, 16 and 24 tell them apart. */
  lemma ShortDiffers(a: Byte, b: Byte, c: Byte)
    requires Short(Widen(a, false), Widen(b, false), Widen(c, false))
          == Short(Widen(a, true), Widen(b, true), Widen(c, true))
    ensures a < 0x80 && b < 0x80 && c < 0x80
  {}

  /** The last bytes give the same word in both versions exactly when they have no high bits. */
  lemma TailsDiffer(data: Bytes)
    ensures Tail(data, false) == Tail(data, true) <==> SevenBit(data[|data| / 4 * 4..])
  {
    var n, m := |data| / 4 * 4, |data| % 4;
    var a: Byte, b: Byte, c: Byte := if m > 0 then data[n] else 0, if m > 1 then data[n + 1] else 0,
      if m > 2 then data[n + 2] else 0;
    TailIs(data, a, b, c, false);
    TailIs(data, a, b, c, true);
    LastBytes(data, a, b, c);
    hide Short, Tail, Widen, SevenBit;
    if Tail(data, false) == Tail(data, true) {
      ShortDiffers(a, b, c);
    } else if a < 0x80 && b < 0x80 && c < 0x80 {
      WidenAgree(a);
      WidenAgree(b);
      WidenAgree(c);
    }
  }

  lemma TailIs(data: Bytes, a: Byte, b: Byte, c: Byte, version2: bool)
    requires var n, m := |data| / 4 * 4, |data| % 4;
             && a == (if m > 0 then data[n] else 0) && b == (if m > 1 then data[n + 1] else 0)
             && c == (if m > 2 then data[n + 2] else 0)
    ensures Tail(data, version2) == Short(Widen(a, version2), Widen(b, version2), Widen(c, version2))
  {
    hide Short;
  }

  lemma LastBytes(data: Bytes, a: Byte, b: Byte, c: Byte)
    requires var n, m := |data| / 4 * 4, |data| % 4;
             && a == (if m > 0 then data[n] else 0) && b == (if m > 1 then data[n + 1] else 0)
             && c == (if m > 2 then data[n + 2] else 0)
    ensures SevenBit(data[|data| / 4 * 4..]) <==> a < 0x80 && b < 0x80 && c < 0x80
  {
    var last := data[|data| / 4 * 4..];
    assert |last| == |data| % 4;
    assert |last| > 0 ==> last[0] == a;
    assert |last| > 1 ==> last[1] == b;
    assert |last| > 2 ==> last[2] == c;
  }

  /** For data whose whole blocks have no high bits, the versions agree exactly when none of the
      last bytes has one either. */
  lemma VersionsDiffer(seed: Word, data: Bytes)
    requires SevenBit(data[..|data| / 4 * 4])
    ensures Murmur(seed, data, false) == Murmur(seed, data, true) <==> SevenBit(data)
  {
    hide Murmur, Tail;
    var n := |data| / 4 * 4;
    assert data == data[..n] + data[n..];
    if |data| % 4 > 0 {
      TailDecides(seed, data);
      TailsDiffer(data);
    } else {
      VersionsAgree(seed, data);
    }
  }
}
