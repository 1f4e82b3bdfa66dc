/** When the quick hash check of match_fragment can change its answer. */
module ApplyHash {
  import opened ApplyLines
  import opened ApplyImage
  import opened ApplyFind

  // ---- steering the hash

  lemma ShortHashMore(s: string, c: char)
    ensures IsSpace(c) ==> ShortHash(s + [c]) == ShortHash(s)
    ensures !IsSpace(c) ==> ShortHash(s + [c]) == (ShortHash(s) * 3 + c as int % 256) % HASH_BITS
  {
    assert (s + [c])[..|s|] == s;
    if !IsSpace(c) {
      var h, d := Hash(s), c as int % 256;
      assert Hash(s + [c]) == (h * 3 + d) % WORD;
      Reduce(h, d);
    }
  }

  lemma Reduce(h: nat, d: nat)
    ensures (h * 3 + d) % WORD % HASH_BITS == (h % HASH_BITS * 3 + d) % HASH_BITS
  {
    var x := h * 3 + d;
    ModOfSum(x % WORD, x / WORD * 256);
    ModOfSum(h % HASH_BITS * 3 + d, h / HASH_BITS * 3);
    assert x == x % WORD + x / WORD * 256 * HASH_BITS;
    assert x == h % HASH_BITS * 3 + d + h / HASH_BITS * 3 * HASH_BITS;
  }

  lemma ModOfSum(x: nat, k: nat)
    ensures (x + k * HASH_BITS) % HASH_BITS == x % HASH_BITS
  {}

  function Pow3(k: nat): nat {
    if k == 0 then 1 else 3 * Pow3(k - 1)
  }

  /** What `k` exclamation marks add. */
  function Marks(k: nat): nat {
    if k == 0 then 0 else 3 * Marks(k - 1) + 33
  }

  /** Visible characters only. */
  predicate Visible(s: string) {
    forall i | 0 <= i < |s| :: !IsSpace(s[i])
  }

  /** The hash that `k` characters chosen by `v` lead to from `h`. */
  function Steered(k: nat, h: nat, v: nat): nat {
    (Pow3(k) * h + Marks(k) + v) % HASH_BITS
  }

  lemma SteeredStart(h: nat)
    requires h < HASH_BITS
    ensures Steered(0, h, 0) == h
  {}

  lemma SteeredMore(k: nat, h: nat, v: nat)
    requires k > 0
    ensures (Steered(k - 1, h, v / 3) * 3 + (33 + v % 3)) % HASH_BITS == Steered(k, h, v)
  {
    var p, m, x := Pow3(k - 1), Marks(k - 1), Pow3(k - 1) * h + Marks(k - 1) + v / 3;
    assert x * 3 + (33 + v % 3) == 3 * p * h + (3 * m + 33) + v;
    ModOfSum(x % HASH_BITS * 3 + (33 + v % 3), x / HASH_BITS * 3);
    assert x * 3 + (33 + v % 3) == x % HASH_BITS * 3 + (33 + v % 3) + x / HASH_BITS * 3 * HASH_BITS;
  }

  lemma Third(k: nat, v: nat)
    requires k > 0 && v < Pow3(k)
    ensures v / 3 < Pow3(k - 1)
  {}

  function Mark(v: nat): (c: char)
    ensures !IsSpace(c) && c as int % 256 == 33 + v % 3
  {
    (33 + v % 3) as char
  }

  /** With `k` characters the hash can be given any of 3^k consecutive values. */
  lemma {:induction false} Steer(s: string, k: nat, v: nat) returns (more: string)
    requires v < Pow3(k)
    ensures |more| == k && Visible(more) && ShortHash(s + more) == Steered(k, ShortHash(s), v)
  {
    if k == 0 {
      more := "";
      assert s + "" == s;
      SteeredStart(ShortHash(s));
    } else {
      Third(k, v);
      hide *;
      var start := Steer(s, k - 1, v / 3);
      more := start + [Mark(v)];
      assert s + more == (s + start) + [Mark(v)];
      ShortHashMore(s + start, Mark(v));
      SteeredMore(k, ShortHash(s), v);
      VisibleMore(start, Mark(v));
    }
  }

  lemma VisibleMore(s: string, c: char)
    requires Visible(s) && !IsSpace(c)
    ensures Visible(s + [c])
  {}

  lemma EnoughMarks()
    ensures Pow3(16) > HASH_BITS
  {
    assert Pow3(3) == 27;
    assert Pow3(6) == 729;
    assert Pow3(9) == 19683;
    assert Pow3(12) == 531441;
    assert Pow3(15) == 14348907;
  }

  /** Every line is the beginning of a longer one with the same hash. */
  lemma Collide(s: string) returns (more: string)
    ensures more != "" && Visible(more) && ShortHash(s + more) == ShortHash(s)
  {
    EnoughMarks();
    var h := ShortHash(s);
    var x := Pow3(16) * h + Marks(16);
    var v := (h - x) % HASH_BITS;
    more := Steer(s, 16, v);
    Arrive(h, x, v);
  }

  lemma Arrive(h: nat, x: nat, v: nat)
    requires h < HASH_BITS && v == (h - x) % HASH_BITS
    ensures (x + v) % HASH_BITS == h
  {
    var q := (h - x) / HASH_BITS;
    assert h - x == q * HASH_BITS + v;
    assert x + v == h + (-q) * HASH_BITS;
  }

  // ---- images that begin like a preimage

  /** The preimage with more on its last line. */
  function Grown(pre: seq<string>, more: string): (r: seq<string>)
    requires pre != []
    ensures |r| == |pre|
  {
    pre[..|pre| - 1] + [pre[|pre| - 1] + more]
  }

  function Fresh(n: nat): (table: seq<LineRec>)
    ensures |table| == n && forall i | 0 <= i < n :: !table[i].patched
  {
    seq(n, _ => LineRec(0, 0, false))
  }

  lemma GrownBytes(pre: seq<string>, more: string)
    requires pre != []
    ensures Join(Grown(pre, more)) == Join(pre) + more && SameBytes(Grown(pre, more), pre, 0, false)
  {
    var n := |pre| - 1;
    var last := pre[n];
    assert pre == pre[..n] + [last];
    JoinTwo(pre[..n], [last]);
    JoinTwo(pre[..n], [last + more]);
    JoinOne(last);
    JoinOne(last + more);
    hide Join;
    assert Join(pre[..n]) + (last + more) == (Join(pre[..n]) + last) + more;
    assert Grown(pre, more)[0..] == Grown(pre, more);
  }

  lemma GrownProper(pre: seq<string>, more: string)
    requires Proper(pre) && pre != [] && !Complete(pre[|pre| - 1]) && forall i | 0 <= i < |more| :: more[i] != '\n'
    ensures Proper(Grown(pre, more + "\n"))
  {
    var last := pre[|pre| - 1] + (more + "\n");
    assert forall i | 0 <= i < |pre[|pre| - 1]| :: last[i] == pre[|pre| - 1][i];
    assert LineShape(last);
    hide LineShape, Complete;
  }

  lemma GrownHashes(pre: seq<string>, more: string)
    requires pre != []
    ensures SameHashes(Grown(pre, more), pre, 0) <==> ShortHash(pre[|pre| - 1] + more) == ShortHash(pre[|pre| - 1])
  {
    hide ShortHash;
    var r := Grown(pre, more);
    assert forall i | 0 <= i < |pre| - 1 :: r[i] == pre[i];
    assert r[0 + (|pre| - 1)] == pre[|pre| - 1] + more;
  }

  lemma GrownNotSame(pre: seq<string>, more: string)
    requires pre != [] && more != "" && Visible(more)
    ensures Grown(pre, more + "\n")[0..|pre|] != pre && !SameButSpace(Grown(pre, more + "\n"), pre, 0)
  {
    var r, last := Grown(pre, more + "\n"), pre[|pre| - 1];
    assert r[0 + (|pre| - 1)] == last + (more + "\n");
    assert r[0..|pre|][|pre| - 1] == last + (more + "\n");
    NormalNonSpace(last);
    NormalNonSpace(last + (more + "\n"));
    NonSpaceJoin(last, more + "\n");
    NonSpaceJoin(more, "\n");
    VisibleNonSpace(more);
    hide NonSpace, Normal;
  }

  lemma NormalNonSpace(s: string)
    ensures NonSpace(Normal(s)) == NonSpace(s)
  {
    NonSpaceChomp(s);
    NonSpaceCollapse(Chomp(s));
  }

  lemma {:induction false} VisibleNonSpace(s: string)
    requires Visible(s)
    ensures NonSpace(s) == s
  {
    if s != "" { VisibleNonSpace(s[..|s| - 1]); }
  }

  /** With an incomplete last line the bytes are found at the start of a longer line, which
      only the hash check tells apart. */
  lemma CheckMatters(pre: seq<string>, atStart: bool, fuzzy: bool) returns (img: seq<string>)
    requires Proper(pre) && !EndsWhole(pre, false)
    ensures Proper(img) && |img| == |pre|
    ensures Unchecked(img, Fresh(|img|), pre, 0, atStart, false, fuzzy)
            && !Found(img, Fresh(|img|), pre, 0, atStart, false, fuzzy)
  {
    hide Hash, Join, Proper, SameBytes, SameHashes, SameButSpace;
    var last := pre[|pre| - 1];
    img := Grown(pre, "c" + "\n");
    GrownBytes(pre, "c" + "\n");
    GrownProper(pre, "c");
    GrownHashes(pre, "c" + "\n");
    ShortHashMore(last, 'c');
    ShortHashMore(last + "c", '\n');
    assert last + ("c" + "\n") == (last + "c") + "\n";
  }

  /** And some longer line has the same hash, so that even the hash check lets it pass. */
  lemma CheckPasses(pre: seq<string>, atStart: bool, fuzzy: bool) returns (img: seq<string>)
    requires Proper(pre) && !EndsWhole(pre, false)
    ensures Proper(img) && |img| == |pre|
    ensures Found(img, Fresh(|img|), pre, 0, atStart, false, fuzzy)
            && !Matches(img, Fresh(|img|), pre, 0, atStart, false, fuzzy)
  {
    hide Hash, Join, Proper, SameBytes, SameHashes, SameButSpace;
    var last := pre[|pre| - 1];
    var more := Collide(last);
    img := Grown(pre, more + "\n");
    GrownBytes(pre, more + "\n");
    GrownProper(pre, more);
    GrownHashes(pre, more + "\n");
    GrownNotSame(pre, more);
    ShortHashMore(last + more, '\n');
    assert last + (more + "\n") == (last + more) + "\n";
  }

  // ---- exactly when

  /** In no image does the check change the answer. */
  ghost predicate CheckRedundant(pre: seq<string>, atStart: bool, atEnd: bool, fuzzy: bool) {
    forall img: seq<string>, table: seq<LineRec>, lno: nat | Proper(img) && |img| == |table| && lno <= |img| ::
      Found(img, table, pre, lno, atStart, atEnd, fuzzy) <==> Unchecked(img, table, pre, lno, atStart, atEnd, fuzzy)
  }

  /** In every image the answer is whether the lines are equal, or equal but for whitespace. */
  ghost predicate FindsLines(pre: seq<string>, atStart: bool, atEnd: bool, fuzzy: bool) {
    forall img: seq<string>, table: seq<LineRec>, lno: nat | Proper(img) && |img| == |table| && lno <= |img| ::
      Found(img, table, pre, lno, atStart, atEnd, fuzzy) <==> Matches(img, table, pre, lno, atStart, atEnd, fuzzy)
  }

  /** Both hold exactly for preimages that end with a complete line or where the image does. */
  lemma HashCheckExact(pre: seq<string>, atStart: bool, atEnd: bool, fuzzy: bool)
    requires Proper(pre)
    ensures CheckRedundant(pre, atStart, atEnd, fuzzy) <==> EndsWhole(pre, atEnd)
    ensures FindsLines(pre, atStart, atEnd, fuzzy) <==> EndsWhole(pre, atEnd)
  {
    hide Found, Unchecked, Matches, Proper, Complete;
    if EndsWhole(pre, atEnd) {
      forall img: seq<string>, table: seq<LineRec>, lno: nat | Proper(img) && |img| == |table| && lno <= |img|
        ensures Found(img, table, pre, lno, atStart, atEnd, fuzzy) <==>
                Unchecked(img, table, pre, lno, atStart, atEnd, fuzzy)
        ensures Found(img, table, pre, lno, atStart, atEnd, fuzzy) <==>
                Matches(img, table, pre, lno, atStart, atEnd, fuzzy)
      {
        HashCheckHarmless(img, table, pre, lno, atStart, atEnd, fuzzy);
      }
    } else {
      var img := CheckMatters(pre, atStart, fuzzy);
      assert |Fresh(|img|)| == |img|;
      var img' := CheckPasses(pre, atStart, fuzzy);
      assert |Fresh(|img'|)| == |img'|;
    }
  }
}
