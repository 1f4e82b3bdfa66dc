/** The bit arithmetic of cbtree.c.  A critical bit is a byte position together
    with one bit inside that byte; `otherbits` is the complement of the one-bit
    mask of that bit, the form in which cb_insert stores it. */
module CritBits {

  type Key = seq<bv8>

  datatype Crit = Crit(byte: nat, otherbits: bv8) {
    /** Critical bits are ordered from the first bit of a key to the last: a larger
        `otherbits` means a less significant bit. */
    predicate Before(that: Crit) {
      byte < that.byte || (byte == that.byte && otherbits < that.otherbits)
    }

    predicate Proper(klen: nat) {
      byte < klen && OneBit(Mask(otherbits))
    }
  }

  predicate OneBit(m: bv8) {
    m != 0 && m & (m - 1) == 0
  }

  function Mask(otherbits: bv8): bv8 {
    otherbits ^ 255
  }

  /** The branch taken at a node: the addition carries out of the byte exactly when
      every bit of `otherbits | c` is set. */
  function Direction(otherbits: bv8, c: bv8): bv16 {
    (1 + ((otherbits | c) as bv16)) >> 8
  }

  /** The byte of a key at a position, 0 beyond its end. */
  function ByteAt(k: Key, i: nat): bv8 {
    if i < |k| then k[i] else 0
  }

  /** The value of bit `at` of a key. */
  predicate Bit(k: Key, at: Crit) {
    ByteAt(k, at.byte) & Mask(at.otherbits) != 0
  }

  /** cb_insert's three shifts: every bit below the top bit of `x` gets set. */
  function Smear(x: bv8): bv8 {
    var a := x | (x >> 1);
    var b := a | (a >> 2);
    b | (b >> 4)
  }

  function OtherBits(a: bv8, b: bv8): bv8 {
    var s := Smear(a ^ b);
    (s & !(s >> 1)) ^ 255
  }

  /** The bits of `x` above the mask `m`. */
  function Above(x: bv8, m: bv8): bv8 {
    x & !(m | (m - 1))
  }

  /** Two keys have the same bits before critical bit `at`. */
  ghost predicate Agree(a: Key, b: Key, at: Crit) {
    && (forall i: nat | i < at.byte :: ByteAt(a, i) == ByteAt(b, i))
    && Above(ByteAt(a, at.byte), Mask(at.otherbits)) == Above(ByteAt(b, at.byte), Mask(at.otherbits))
  }

  /** The order of memcmp on keys of one length. */
  ghost predicate Less(a: Key, b: Key) {
    exists i: nat :: i < |a| && i < |b| && a[..i] == b[..i] && a[i] < b[i]
  }

  /** The branch computed with the carry trick is the value of the critical bit. */
  lemma DirectionIsBit(k: Key, at: Crit)
    requires OneBit(Mask(at.otherbits))
    ensures Direction(at.otherbits, ByteAt(k, at.byte)) == if Bit(k, at) then 1 else 0
  {
    CarryIsBit(at.otherbits, ByteAt(k, at.byte));
  }

  lemma CarryIsBit(otherbits: bv8, c: bv8)
    requires OneBit(Mask(otherbits))
    ensures Direction(otherbits, c) == if c & Mask(otherbits) != 0 then 1 else 0
  {}

  /** The smearing computation finds the most significant bit in which two bytes differ. */
  lemma OtherBitsIsTopDifference(a: bv8, b: bv8)
    requires a != b
    ensures OneBit(Mask(OtherBits(a, b)))
    ensures Above(a, Mask(OtherBits(a, b))) == Above(b, Mask(OtherBits(a, b)))
    ensures (a & Mask(OtherBits(a, b)) != 0) != (b & Mask(OtherBits(a, b)) != 0)
  {
    TopBit(a ^ b);
    TopBitOfXor(a, b, Mask(OtherBits(a, b)));
  }

  lemma TopBit(x: bv8)
    requires x != 0
    ensures var s := Smear(x); var m := Mask((s & !(s >> 1)) ^ 255);
            OneBit(m) && x & m != 0 && Above(x, m) == 0
  {}

  lemma TopBitOfXor(a: bv8, b: bv8, m: bv8)
    requires OneBit(m) && (a ^ b) & m != 0 && Above(a ^ b, m) == 0
    ensures Above(a, m) == Above(b, m)
    ensures (a & m != 0) != (b & m != 0)
  {}

  /** Agreement up to a bit gives agreement up to, and in, every earlier bit. */
  lemma AgreeEarlier(a: Key, b: Key, early: Crit, late: Crit)
    requires early.Before(late) && Agree(a, b, late)
    requires OneBit(Mask(early.otherbits)) && OneBit(Mask(late.otherbits))
    ensures Agree(a, b, early) && Bit(a, early) == Bit(b, early)
  {
    var x, y := ByteAt(a, early.byte), ByteAt(b, early.byte);
    if early.byte < late.byte {
      assert x == y;
    } else {
      BitsEarlier(x, y, early.otherbits, late.otherbits);
    }
  }

  lemma BitsEarlier(x: bv8, y: bv8, early: bv8, late: bv8)
    requires OneBit(Mask(early)) && OneBit(Mask(late)) && early < late
    requires Above(x, Mask(late)) == Above(y, Mask(late))
    ensures Above(x, Mask(early)) == Above(y, Mask(early))
    ensures (x & Mask(early) != 0) == (y & Mask(early) != 0)
  {}

  /** Two keys that first differ in bit `at` are ordered by that bit. */
  lemma BitOrdersKeys(a: Key, b: Key, at: Crit)
    requires |a| == |b| && at.Proper(|a|)
    requires Agree(a, b, at) && !Bit(a, at) && Bit(b, at)
    ensures Less(a, b)
  {
    ByteOrder(a[at.byte], b[at.byte], Mask(at.otherbits));
    forall i: nat | i < at.byte ensures a[i] == b[i] {
      assert ByteAt(a, i) == ByteAt(b, i);
    }
    assert a[..at.byte] == b[..at.byte];
  }

  lemma ByteOrder(x: bv8, y: bv8, m: bv8)
    requires OneBit(m) && Above(x, m) == Above(y, m) && x & m == 0 && y & m != 0
    ensures x < y
  {}

  /** The index of a critical bit in the bit string of a key. */
  function Index(at: Crit): nat
  {
    8 * at.byte +
    (if at.otherbits == 127 then 0 else if at.otherbits == 191 then 1
     else if at.otherbits == 223 then 2 else if at.otherbits == 239 then 3
     else if at.otherbits == 247 then 4 else if at.otherbits == 251 then 5
     else if at.otherbits == 253 then 6 else 7)
  }

  lemma IndexOrder(a: Crit, b: Crit)
    requires OneBit(Mask(a.otherbits)) && OneBit(Mask(b.otherbits)) && a.Before(b)
    ensures Index(a) < Index(b)
  {
    var x, y := a.otherbits, b.otherbits;
    assert x in {127, 191, 223, 239, 247, 251, 253, 254};
    assert y in {127, 191, 223, 239, 247, 251, 253, 254};
  }
}
