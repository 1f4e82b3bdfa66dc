/** What the fuzzy line matcher of blame.c computes, without its caches: repeatedly
    take the line of B that matches most certainly, consume its byte pairs from the
    matched line of A, and recurse on the lines before and after it. */
module FuzzySpec {

  /** A fingerprint: the multiset of the byte pairs of a line. */
  type Fingerprint = multiset<int>

  function Abs(x: int): nat {
    if x < 0 then -x else x
  }

  /** A diff chunk: lines [startA, startA + lengthA) of the parent against lines
      [startB, startB + lengthB) of the target, with the target's fingerprints. */
  datatype Chunk = Chunk(startA: int, lengthA: int, startB: int, lengthB: int, fb: seq<Fingerprint>) {
    predicate Valid() {
      lengthA > 0 && lengthB >= 0 && |fb| == lengthB
    }

    predicate HasA(a: int) {
      startA <= a < startA + lengthA
    }

    predicate HasB(b: int) {
      startB <= b < startB + lengthB
    }

    /** max_search_distance_a */
    function Distance(): int {
      if 10 >= lengthA then lengthA - 1 else 10
    }

    /** max_search_distance_b */
    function Reach(): int
      requires Valid()
    {
      ((2 * Distance() + 1) * lengthB - 1) / lengthA
    }

    /** map_line_number: the line of A at the same relative position as line `b`. */
    function Closest(b: int): int
      requires HasB(b)
    {
      ((b - startB) * 2 + 1) * lengthA / (lengthB * 2) + startA
    }

    /** Line `b` of B is compared with line `a` of A. */
    predicate Near(b: int, a: int)
    {
      HasA(a) && HasB(b) && Abs(a - Closest(b)) <= Distance()
    }
  }

  // ---- the arithmetic of the search windows

  lemma ClosestMonotone(c: Chunk, b1: int, b2: int)
    requires c.Valid() && c.HasB(b1) && c.HasB(b2) && b1 <= b2
    ensures c.Closest(b1) <= c.Closest(b2)
  {
    var x1, x2, n := ((b1 - c.startB) * 2 + 1), ((b2 - c.startB) * 2 + 1), c.lengthB * 2;
    MulMonotone(x1, x2, c.lengthA);
    DivMonotone(x1 * c.lengthA, x2 * c.lengthA, n);
  }

  lemma MulMonotone(x: int, y: int, k: int)
    requires x <= y && 0 <= k
    ensures x * k <= y * k
  {
    assert y * k - x * k == (y - x) * k;
  }

  /** Quotients at most `m` apart: the dividends are less than m + 1 divisors apart. */
  lemma Spread(x: int, y: int, n: int, m: int)
    requires 0 < n && y / n - x / n <= m
    ensures y - x < (m + 1) * n
  {
    MulMonotone(y / n - x / n, m, n);
    assert (y / n - x / n) * n == y / n * n - x / n * n;
    assert x == n * (x / n) + x % n && y == n * (y / n) + y % n;
  }

  lemma DivMonotone(x: int, y: int, n: int)
    requires x <= y && 0 < n
    ensures x / n <= y / n
  {
    if y / n < x / n {
      Spread(x, y, n, -1);
    }
  }

  lemma DivAtLeast(x: int, k: int, z: int)
    requires 0 < k && x * k <= z
    ensures x <= z / k
  {
    if z / k < x {
      MulMonotone(z / k + 1, x, k);
    }
  }

  /** A line of A in the windows of two lines of B: those are at most Reach apart. */
  lemma WindowsOverlap(c: Chunk, b1: int, b2: int, a: int)
    requires c.Valid() && b1 <= b2 && c.Near(b1, a) && c.Near(b2, a)
    ensures b2 - b1 <= c.Reach()
  {
    var la, lb, d := c.lengthA, c.lengthB, c.Distance();
    var x1, x2 := (b1 - c.startB) * 2 + 1, (b2 - c.startB) * 2 + 1;
    Spread(x1 * la, x2 * la, lb * 2, 2 * d);
    Halve(x1, x2, b2 - b1, la, lb, 2 * d + 1);
    DivAtLeast(b2 - b1, la, (2 * d + 1) * lb - 1);
  }

  lemma Halve(x1: int, x2: int, gap: int, la: int, lb: int, w: int)
    requires x2 - x1 == 2 * gap && x2 * la - x1 * la < w * (lb * 2)
    ensures gap * la <= w * lb - 1
  {
    assert x2 * la - x1 * la == 2 * (gap * la) by {
      assert x2 * la - x1 * la == (x2 - x1) * la;
    }
    assert w * (lb * 2) == 2 * (w * lb);
  }

  /** A line of B before `b2` and out of its reach: its whole window in A is before
      every line in the window of `b2`. */
  lemma WindowBefore(c: Chunk, b1: int, b2: int, a2: int, a: int)
    requires c.Valid() && c.HasB(b1) && c.Near(b2, a2) && b1 + c.Reach() < b2 && 0 <= c.Reach()
    requires c.Near(b1, a)
    ensures a < a2
  {
    ClosestMonotone(c, b1, b2);
    if a2 <= a {
      assert c.Near(b1, a2);
      WindowsOverlap(c, b1, b2, a2);
    }
  }

  lemma WindowAfter(c: Chunk, b1: int, b2: int, a2: int, a: int)
    requires c.Valid() && c.HasB(b1) && c.Near(b2, a2) && b2 + c.Reach() < b1 && 0 <= c.Reach()
    requires c.Near(b1, a)
    ensures a2 < a
  {
    ClosestMonotone(c, b2, b1);
    if a <= a2 {
      assert c.Near(b1, a2);
      WindowsOverlap(c, b2, b1, a2);
    }
  }

  // ---- scoring one line of B against the lines of A

  /** The similarity of two lines, scaled down by their distance. */
  function Score(c: Chunk, fa: seq<Fingerprint>, b: int, a: int): nat {
    if c.Near(b, a) && |fa| == c.lengthA && |c.fb| == c.lengthB then
      Scaled(|c.fb[b - c.startB] * fa[a - c.startA]|, Abs(a - c.Closest(b)))
    else 0
  }

  function Scaled(size: nat, away: int): nat
    requires 0 <= away <= 1000
  {
    size * (1000 - away)
  }

  datatype TopTwo = TopTwo(best: nat, bestAt: int, second: nat, secondAt: int) {
    function Add(score: nat, at: int): TopTwo {
      if score > best then TopTwo(score, at, best, bestAt)
      else if score > second then TopTwo(best, bestAt, score, at)
      else this
    }

    /** -2 when nothing matches, otherwise how clearly the best beats the second best. */
    function Certainty(): int {
      if best == 0 then -2 else best * 2 - second
    }
  }

  /** The two best matches of line `b` among lines [lo, hi) of A, scanned in order. */
  function Scan(c: Chunk, fa: seq<Fingerprint>, b: int, start: int, lo: int, hi: int): (t: TopTwo)
    ensures t.second <= t.best
    decreases hi - lo
  {
    if hi <= lo then TopTwo(0, start, 0, start)
    else Scan(c, fa, b, start, lo, hi - 1).Add(Score(c, fa, b, hi - 1), hi - 1)
  }

  /** The bounds of the search when lines [start, end) of A are available. */
  function Lo(c: Chunk, b: int, start: int): int
    requires c.HasB(b)
  {
    if c.Closest(b) - c.Distance() < start then start else c.Closest(b) - c.Distance()
  }

  function Hi(c: Chunk, b: int, end: int): int
    requires c.HasB(b)
  {
    if c.Closest(b) + c.Distance() + 1 > end then end else c.Closest(b) + c.Distance() + 1
  }

  function Best(c: Chunk, fa: seq<Fingerprint>, b: int, start: int, end: int): TopTwo
    requires c.HasB(b)
  {
    Scan(c, fa, b, start, Lo(c, b, start), Hi(c, b, end))
  }

  /** What the result of a scan means: nothing scores above `best`, which is first
      reached at `bestAt`; nothing else scores above `second`. */
  ghost predicate IsTopTwo(c: Chunk, fa: seq<Fingerprint>, b: int, start: int, end: int, t: TopTwo) {
    && t.second <= t.best
    && (forall a | start <= a < end :: Score(c, fa, b, a) <= t.best)
    && (t.best > 0 ==>
          && start <= t.bestAt < end && Score(c, fa, b, t.bestAt) == t.best
          && (forall a | start <= a < t.bestAt :: Score(c, fa, b, a) < t.best)
          && (forall a | start <= a < end && a != t.bestAt :: Score(c, fa, b, a) <= t.second))
    && (t.second > 0 ==>
          start <= t.secondAt < end && t.secondAt != t.bestAt && Score(c, fa, b, t.secondAt) == t.second)
  }

  lemma {:induction false} ScanIsTopTwo(c: Chunk, fa: seq<Fingerprint>, b: int, start: int, lo: int, hi: int)
    ensures IsTopTwo(c, fa, b, lo, hi, Scan(c, fa, b, start, lo, hi))
    decreases hi - lo
  {
    if lo < hi { ScanIsTopTwo(c, fa, b, start, lo, hi - 1); }
  }

  /** Lines outside the search bounds score nothing. */
  lemma BestIsTopTwo(c: Chunk, fa: seq<Fingerprint>, b: int, start: int, end: int)
    requires c.HasB(b)
    ensures IsTopTwo(c, fa, b, start, end, Best(c, fa, b, start, end))
  {
    ScanIsTopTwo(c, fa, b, start, Lo(c, b, start), Hi(c, b, end));
    forall a | start <= a < end && !(Lo(c, b, start) <= a < Hi(c, b, end))
      ensures Score(c, fa, b, a) == 0
    {}
  }

  /** Two results that fit the same scores are the same match. */
  lemma TopTwoUnique(c: Chunk, fa: seq<Fingerprint>, b: int, start: int, end: int, t: TopTwo, u: TopTwo)
    requires IsTopTwo(c, fa, b, start, end, t) && IsTopTwo(c, fa, b, start, end, u)
    ensures t.best == u.best && (t.best > 0 ==> t.bestAt == u.bestAt && t.second == u.second)
    ensures t.Certainty() == u.Certainty()
  {}

  /** A match survives any change that lowers other scores and drops other lines. */
  lemma TopTwoSurvives(c: Chunk, fa: seq<Fingerprint>, fa': seq<Fingerprint>, b: int,
                       start: int, end: int, start': int, end': int, t: TopTwo)
    requires IsTopTwo(c, fa, b, start, end, t) && start <= start' && end' <= end
    requires forall a | start' <= a < end' :: Score(c, fa', b, a) <= Score(c, fa, b, a)
    requires t.best > 0 ==> start' <= t.bestAt < end' && Score(c, fa', b, t.bestAt) == t.best
    requires t.second > 0 ==> start' <= t.secondAt < end' && Score(c, fa', b, t.secondAt) == t.second
    ensures IsTopTwo(c, fa', b, start', end', t)
  {}

  // ---- the matching without caches

  /** The first line of B, among [sb, sb + n), with the greatest certainty, if any is
      certain at all. */
  function MostCertain(c: Chunk, fa: seq<Fingerprint>, sa: int, ea: int, sb: int, n: nat): (r: (int, int))
    requires n > 0 ==> c.HasB(sb) && c.HasB(sb + n - 1)
    ensures r.1 >= -1
    ensures r.1 == -1 ==> forall b | sb <= b < sb + n :: Best(c, fa, b, sa, ea).Certainty() == -2
    ensures r.1 >= 0 ==> sb <= r.0 < sb + n && Best(c, fa, r.0, sa, ea).Certainty() == r.1
  {
    if n == 0 then (sb - 1, -1)
    else
      var (b, certainty) := MostCertain(c, fa, sa, ea, sb, n - 1);
      var last := Best(c, fa, sb + n - 1, sa, ea).Certainty();
      if last > certainty then (sb + n - 1, last) else (b, certainty)
  }

  /** fingerprint_subtract on line `a` of A. */
  function Consume(c: Chunk, fa: seq<Fingerprint>, a: int, b: int): seq<Fingerprint>
    requires |fa| == c.lengthA && c.Valid() && c.HasA(a) && c.HasB(b)
  {
    fa[a - c.startA := fa[a - c.startA] - c.fb[b - c.startB]]
  }

  predicate Within(c: Chunk, sa: int, ea: int, sb: int, eb: int) {
    c.Valid() && c.startA <= sa <= ea <= c.startA + c.lengthA && c.startB <= sb <= eb <= c.startB + c.lengthB
  }

  /** The most certain line of B and its match in A. */
  datatype Pivot = NoPivot | Pivot(b: int, a: int)

  function FindPivot(c: Chunk, fa: seq<Fingerprint>, sa: int, ea: int, sb: int, eb: int): (p: Pivot)
    requires Within(c, sa, ea, sb, eb)
    ensures p.Pivot? ==> sb <= p.b < eb && sa <= p.a < ea
  {
    var (b, certainty) := MostCertain(c, fa, sa, ea, sb, eb - sb);
    if certainty < 0 then NoPivot
    else
      assert sa <= Best(c, fa, b, sa, ea).bestAt < ea by { BestIsTopTwo(c, fa, b, sa, ea); }
      Pivot(b, Best(c, fa, b, sa, ea).bestAt)
  }

  /** The matched lines of A for lines [sb, eb) of B (-1 for none), and what is left of
      the fingerprints of A. */
  function Match(c: Chunk, fa: seq<Fingerprint>, sa: int, ea: int, sb: int, eb: int)
    : (r: (seq<int>, seq<Fingerprint>))
    requires Within(c, sa, ea, sb, eb) && |fa| == c.lengthA
    ensures |r.0| == eb - sb && |r.1| == |fa|
    decreases eb - sb
  {
    match FindPivot(c, fa, sa, ea, sb, eb)
    case NoPivot => (seq(eb - sb, _ => -1), fa)
    case Pivot(b, a) =>
      var (left, fa1) := Match(c, Consume(c, fa, a, b), sa, a + 1, sb, b);
      var (right, fa2) := Match(c, fa1, a, ea, b + 1, eb);
      (left + [a] + right, fa2)
  }

  /** Matches lie in the range and never cross. */
  ghost predicate InOrder(r: seq<int>, sa: int, ea: int) {
    && (forall i | 0 <= i < |r| :: r[i] == -1 || sa <= r[i] < ea)
    && (forall i, j | 0 <= i < j < |r| && r[i] != -1 && r[j] != -1 :: r[i] <= r[j])
  }

  /** Fuzzy line matching never crosses. */
  lemma {:induction false} MatchInOrder(c: Chunk, fa: seq<Fingerprint>, sa: int, ea: int, sb: int, eb: int)
    requires Within(c, sa, ea, sb, eb) && |fa| == c.lengthA
    ensures InOrder(Match(c, fa, sa, ea, sb, eb).0, sa, ea)
    decreases eb - sb
  {
    hide FindPivot;
    var p := FindPivot(c, fa, sa, ea, sb, eb);
    var r := Match(c, fa, sa, ea, sb, eb).0;
    if p.Pivot? {
      var fa1 := Consume(c, fa, p.a, p.b);
      var (left, fa2) := Match(c, fa1, sa, p.a + 1, sb, p.b);
      var right := Match(c, fa2, p.a, ea, p.b + 1, eb).0;
      MatchInOrder(c, fa1, sa, p.a + 1, sb, p.b);
      MatchInOrder(c, fa2, p.a, ea, p.b + 1, eb);
      assert r == left + [p.a] + right;
      InOrderJoin(left, p.a, right, sa, ea);
    } else {
      assert forall i | 0 <= i < |r| :: r[i] == -1;
    }
  }

  lemma InOrderJoin(left: seq<int>, a: int, right: seq<int>, sa: int, ea: int)
    requires sa <= a < ea && InOrder(left, sa, a + 1) && InOrder(right, a, ea)
    ensures InOrder(left + [a] + right, sa, ea)
  {}

  /** `fa'` holds at most the byte pairs of `fa`, and the same outside [sa, ea). */
  ghost predicate Consumed(c: Chunk, fa: seq<Fingerprint>, fa': seq<Fingerprint>, sa: int, ea: int) {
    && |fa'| == |fa| == c.lengthA
    && (forall i | 0 <= i < |fa| :: fa'[i] <= fa[i])
    && (forall i | 0 <= i < |fa| && !(sa <= c.startA + i < ea) :: fa'[i] == fa[i])
  }

  lemma {:induction false} MatchConsumes(c: Chunk, fa: seq<Fingerprint>, sa: int, ea: int, sb: int, eb: int)
    requires Within(c, sa, ea, sb, eb) && |fa| == c.lengthA
    ensures Consumed(c, fa, Match(c, fa, sa, ea, sb, eb).1, sa, ea)
    decreases eb - sb
  {
    hide *;
    var p := FindPivot(c, fa, sa, ea, sb, eb);
    MatchRest(c, fa, sa, ea, sb, eb, p);
    if p.Pivot? {
      var fa1 := Consume(c, fa, p.a, p.b);
      var fa2 := Match(c, fa1, sa, p.a + 1, sb, p.b).1;
      var fa3 := Match(c, fa2, p.a, ea, p.b + 1, eb).1;
      ConsumeConsumes(c, fa, p.a, p.b);
      MatchConsumes(c, fa1, sa, p.a + 1, sb, p.b);
      MatchConsumes(c, fa2, p.a, ea, p.b + 1, eb);
      ConsumedTransitive(c, fa, fa1, p.a, p.a + 1, fa2, sa, p.a + 1, sa, ea);
      ConsumedTransitive(c, fa, fa2, sa, ea, fa3, p.a, ea, sa, ea);
    } else {
      ConsumedNothing(c, fa, sa, ea);
    }
  }

  lemma MatchRest(c: Chunk, fa: seq<Fingerprint>, sa: int, ea: int, sb: int, eb: int, p: Pivot)
    requires Within(c, sa, ea, sb, eb) && |fa| == c.lengthA && p == FindPivot(c, fa, sa, ea, sb, eb)
    ensures p.Pivot? ==>
              && sb <= p.b < eb && sa <= p.a < ea && c.Valid() && c.HasA(p.a) && c.HasB(p.b)
                 && |Consume(c, fa, p.a, p.b)| == c.lengthA
              && Within(c, sa, p.a + 1, sb, p.b) && Within(c, p.a, ea, p.b + 1, eb)
              && Match(c, fa, sa, ea, sb, eb).1
                 == Match(c, Match(c, Consume(c, fa, p.a, p.b), sa, p.a + 1, sb, p.b).1, p.a, ea, p.b + 1, eb).1
    ensures p.NoPivot? ==> Match(c, fa, sa, ea, sb, eb).1 == fa
  {
    hide FindPivot;
  }

  lemma ConsumedNothing(c: Chunk, fa: seq<Fingerprint>, sa: int, ea: int)
    requires |fa| == c.lengthA
    ensures Consumed(c, fa, fa, sa, ea)
  {}

  lemma ConsumeConsumes(c: Chunk, fa: seq<Fingerprint>, a: int, b: int)
    requires |fa| == c.lengthA && c.Valid() && c.HasA(a) && c.HasB(b)
    ensures Consumed(c, fa, Consume(c, fa, a, b), a, a + 1)
  {}

  lemma ConsumedTransitive(c: Chunk, fa: seq<Fingerprint>, fa1: seq<Fingerprint>, sa1: int, ea1: int,
                           fa2: seq<Fingerprint>, sa2: int, ea2: int, sa: int, ea: int)
    requires Consumed(c, fa, fa1, sa1, ea1) && Consumed(c, fa1, fa2, sa2, ea2)
    requires sa <= sa1 && ea1 <= ea && sa <= sa2 && ea2 <= ea
    ensures Consumed(c, fa, fa2, sa, ea)
  {
    forall i | 0 <= i < |fa| ensures fa2[i] <= fa[i] {
      assert fa2[i] <= fa1[i] <= fa[i];
    }
  }

  /** Scores only fall as byte pairs are consumed, and only on the lines they are consumed from. */
  lemma ScoreFalls(c: Chunk, fa: seq<Fingerprint>, fa': seq<Fingerprint>, b: int, a: int)
    requires c.HasA(a) && |fa| == |fa'| == c.lengthA && fa'[a - c.startA] <= fa[a - c.startA]
    ensures Score(c, fa', b, a) <= Score(c, fa, b, a)
    ensures fa'[a - c.startA] == fa[a - c.startA] ==> Score(c, fa', b, a) == Score(c, fa, b, a)
  {
    if c.Near(b, a) && |c.fb| == c.lengthB {
      var x := c.fb[b - c.startB];
      CardMonotone(x * fa'[a - c.startA], x * fa[a - c.startA]);
      MulMonotone(|x * fa'[a - c.startA]|, |x * fa[a - c.startA]|, 1000 - Abs(a - c.Closest(b)));
    }
  }

  lemma CardMonotone(x: Fingerprint, y: Fingerprint)
    requires x <= y
    ensures |x| <= |y|
  {
    assert y == x + (y - x);
  }
}
