/** The fuzzy line matcher of blame.c with its similarity cache, its cached certainties
    and their partial invalidation, proved equal to the matching without caches. */
module FuzzyMatch {
  import opened Wrappers
  import opened FuzzySpec
  import opened FuzzyPivot

  const CERTAIN_NOTHING_MATCHES := -2
  const CERTAINTY_NOT_CALCULATED := -1

  // ---- what one cached row is worth

  /** The two best matches a cached certainty and its two results stand for. */
  ghost function TopOf(c: Chunk, fa: seq<Fingerprint>, b: int, certainty: int, res: int, second: int): TopTwo {
    var best := Score(c, fa, b, res);
    TopTwo(best, res, if best * 2 < certainty then 0 else best * 2 - certainty, second)
  }

  /** A cached certainty is unknown, or what a scan of lines [sa, ea) would give now. */
  ghost predicate RowOk(c: Chunk, fa: seq<Fingerprint>, sa: int, ea: int, b: int, certainty: int, res: int,
                        second: int) {
    || certainty == CERTAINTY_NOT_CALCULATED
    || (certainty == CERTAIN_NOTHING_MATCHES && res == -1 && IsTopTwo(c, fa, b, sa, ea, TopTwo(0, 0, 0, 0)))
    || (certainty >= 0
        && var t := TopOf(c, fa, b, certainty, res, second);
           t.best > 0 && t.Certainty() == certainty && IsTopTwo(c, fa, b, sa, ea, t))
  }

  lemma RowMeansBest(c: Chunk, fa: seq<Fingerprint>, sa: int, ea: int, b: int, certainty: int, res: int, second: int)
    requires c.HasB(b) && RowOk(c, fa, sa, ea, b, certainty, res, second) && certainty != CERTAINTY_NOT_CALCULATED
    ensures certainty == Best(c, fa, b, sa, ea).Certainty()
    ensures res == if certainty < 0 then -1 else Best(c, fa, b, sa, ea).bestAt
  {
    BestIsTopTwo(c, fa, b, sa, ea);
    TopTwoUnique(c, fa, b, sa, ea, Best(c, fa, b, sa, ea),
                 if certainty < 0 then TopTwo(0, 0, 0, 0) else TopOf(c, fa, b, certainty, res, second));
  }

  lemma BestMeansRow(c: Chunk, fa: seq<Fingerprint>, sa: int, ea: int, b: int)
    requires c.HasB(b)
    ensures var t := Best(c, fa, b, sa, ea);
            RowOk(c, fa, sa, ea, b, t.Certainty(), if t.best == 0 then -1 else t.bestAt, t.secondAt)
  {
    BestIsTopTwo(c, fa, b, sa, ea);
    var t := Best(c, fa, b, sa, ea);
    if t.best > 0 {
      assert TopOf(c, fa, b, t.Certainty(), t.bestAt, t.secondAt) == t;
    }
  }

  /** A row stays right when scores of other lines fall and other lines are dropped. */
  lemma RowSurvives(c: Chunk, fa: seq<Fingerprint>, fa': seq<Fingerprint>, sa: int, ea: int, sa': int, ea': int,
                    b: int, certainty: int, res: int, second: int)
    requires RowOk(c, fa, sa, ea, b, certainty, res, second) && sa <= sa' && ea' <= ea
    requires forall a | sa' <= a < ea' :: Score(c, fa', b, a) <= Score(c, fa, b, a)
    requires certainty >= 0 ==>
               && sa' <= res < ea' && Score(c, fa', b, res) == Score(c, fa, b, res)
               && (TopOf(c, fa, b, certainty, res, second).second > 0 ==>
                     sa' <= second < ea' && Score(c, fa', b, second) == Score(c, fa, b, second))
    ensures RowOk(c, fa', sa', ea', b, certainty, res, second)
  {
    if certainty >= 0 {
      var t := TopOf(c, fa, b, certainty, res, second);
      assert TopOf(c, fa', b, certainty, res, second) == t;
      TopTwoSurvives(c, fa, fa', b, sa, ea, sa', ea', t);
    } else if certainty == CERTAIN_NOTHING_MATCHES {
      TopTwoSurvives(c, fa, fa', b, sa, ea, sa', ea', TopTwo(0, 0, 0, 0));
    }
  }

  lemma ReachNonNegative(c: Chunk)
    requires c.Valid() && c.lengthB > 0
    ensures c.Reach() >= 0
  {
    var w := 2 * c.Distance() + 1;
    assert w * c.lengthB >= 1 by { MulMonotone(1, w, c.lengthB); }
    DivMonotone(0, w * c.lengthB - 1, c.lengthA);
  }

  /** Only lines within reach of the pivot can lose their cached match. */
  predicate InReach(c: Chunk, pivot: int, b: int)
    requires c.Valid()
  {
    Abs(b - pivot) <= c.Reach()
  }

  /** The cached certainty of a line before the pivot after the invalidation loops. */
  function CertaintyBefore(c: Chunk, p: Pivot, b: int, certainty: int, res: int, second: int): int
    requires c.Valid() && p.Pivot?
  {
    if InReach(c, p.b, b) && certainty >= 0 && (res >= p.a || second >= p.a) then CERTAINTY_NOT_CALCULATED
       else certainty
  }

  function CertaintyAfter(c: Chunk, p: Pivot, b: int, certainty: int, res: int, second: int): int
    requires c.Valid() && p.Pivot?
  {
    if InReach(c, p.b, b) && certainty >= 0 && (res <= p.a || second <= p.a) then CERTAINTY_NOT_CALCULATED
       else certainty
  }

  /** A cached match of a line before the pivot that survives invalidation is before
      the pivot's match, inside the reach by the test and outside it by the windows. */
  lemma KeptBefore(c: Chunk, fa: seq<Fingerprint>, sa: int, ea: int, p: Pivot, b: int, certainty: int, res: int,
                   second: int)
    requires c.Valid() && p.Pivot? && c.Near(p.b, p.a) && c.HasB(b) && b < p.b
    requires RowOk(c, fa, sa, ea, b, certainty, res, second)
    requires CertaintyBefore(c, p, b, certainty, res, second) >= 0
    ensures res < p.a
    ensures TopOf(c, fa, b, certainty, res, second).second > 0 ==> second < p.a
  {
    if !InReach(c, p.b, b) {
      ReachNonNegative(c);
      assert c.Near(b, res);
      WindowBefore(c, b, p.b, p.a, res);
      if TopOf(c, fa, b, certainty, res, second).second > 0 {
        assert c.Near(b, second);
        WindowBefore(c, b, p.b, p.a, second);
      }
    }
  }

  lemma KeptAfter(c: Chunk, fa: seq<Fingerprint>, sa: int, ea: int, p: Pivot, b: int, certainty: int, res: int,
                  second: int)
    requires c.Valid() && p.Pivot? && c.Near(p.b, p.a) && c.HasB(b) && p.b < b
    requires RowOk(c, fa, sa, ea, b, certainty, res, second)
    requires CertaintyAfter(c, p, b, certainty, res, second) >= 0
    ensures p.a < res
    ensures TopOf(c, fa, b, certainty, res, second).second > 0 ==> p.a < second
  {
    if !InReach(c, p.b, b) {
      ReachNonNegative(c);
      assert c.Near(b, res);
      WindowAfter(c, b, p.b, p.a, res);
      if TopOf(c, fa, b, certainty, res, second).second > 0 {
        assert c.Near(b, second);
        WindowAfter(c, b, p.b, p.a, second);
      }
    }
  }

  /** After invalidation the rows before the pivot are right for the first half. */
  lemma RowBefore(c: Chunk, fa: seq<Fingerprint>, fa': seq<Fingerprint>, sa: int, ea: int, p: Pivot,
                  b: int, certainty: int, res: int, second: int)
    requires c.Valid() && p.Pivot? && c.Near(p.b, p.a) && c.HasB(b) && b < p.b
             && c.startA <= sa <= p.a < ea <= c.startA + c.lengthA
    requires RowOk(c, fa, sa, ea, b, certainty, res, second)
    requires |fa| == c.lengthA && Consumed(c, fa, fa', p.a, p.a + 1)
    ensures RowOk(c, fa', sa, p.a + 1, b, CertaintyBefore(c, p, b, certainty, res, second), res, second)
  {
    var kept := CertaintyBefore(c, p, b, certainty, res, second);
    forall a | sa <= a < ea ensures Score(c, fa', b, a) <= Score(c, fa, b, a)
                            ensures a != p.a ==> Score(c, fa', b, a) == Score(c, fa, b, a) {
      ScoreFalls(c, fa, fa', b, a);
    }
    if kept >= 0 {
      KeptBefore(c, fa, sa, ea, p, b, certainty, res, second);
    }
    if kept != CERTAINTY_NOT_CALCULATED {
      RowSurvives(c, fa, fa', sa, ea, sa, p.a + 1, b, certainty, res, second);
    }
  }

  /** The rows after the pivot are right for the second half, and stay so while the
      first half consumes byte pairs up to the pivot's match. */
  lemma RowAfter(c: Chunk, fa: seq<Fingerprint>, fa': seq<Fingerprint>, sa: int, ea: int, p: Pivot,
                 b: int, certainty: int, res: int, second: int)
    requires c.Valid() && p.Pivot? && c.Near(p.b, p.a) && c.HasB(b) && p.b < b
             && c.startA <= sa <= p.a < ea <= c.startA + c.lengthA
    requires RowOk(c, fa, sa, ea, b, certainty, res, second)
    requires |fa| == c.lengthA && Consumed(c, fa, fa', sa, p.a + 1)
    ensures RowOk(c, fa', p.a, ea, b, CertaintyAfter(c, p, b, certainty, res, second), res, second)
  {
    var kept := CertaintyAfter(c, p, b, certainty, res, second);
    forall a | sa <= a < ea ensures Score(c, fa', b, a) <= Score(c, fa, b, a)
                            ensures p.a < a ==> Score(c, fa', b, a) == Score(c, fa, b, a) {
      ScoreFalls(c, fa, fa', b, a);
    }
    if kept >= 0 {
      KeptAfter(c, fa, sa, ea, p, b, certainty, res, second);
    }
    if kept != CERTAINTY_NOT_CALCULATED {
      RowSurvives(c, fa, fa', sa, ea, p.a, ea, b, certainty, res, second);
    }
  }

  // ---- the matcher

  /** The column of line `a` of A in the similarity row of line `b` of B. */
  function Column(c: Chunk, b: int, a: int): int
    requires c.HasB(b)
  {
    a - c.Closest(b) + c.Distance()
  }

  /** The cached similarities of line `b` are unknown or right. */
  ghost predicate CellsOk(c: Chunk, fa: seq<Fingerprint>, sa: int, ea: int, b: int, row: seq<int>)
    requires c.HasB(b) && |row| == c.Distance() * 2 + 1
  {
    forall a | sa <= a < ea && c.Near(b, a) :: CellOk(row[Column(c, b, a)], Score(c, fa, b, a))
  }

  ghost predicate CellOk(v: int, score: int) {
    v == -1 || v == score
  }

  lemma SetCell(c: Chunk, fa: seq<Fingerprint>, sa: int, ea: int, b: int, row: seq<int>, a: int, v: int)
    requires c.HasB(b) && |row| == c.Distance() * 2 + 1 && CellsOk(c, fa, sa, ea, b, row)
    requires c.Near(b, a) && CellOk(v, Score(c, fa, b, a))
    ensures CellsOk(c, fa, sa, ea, b, row[Column(c, b, a) := v])
  {}

  lemma ScoreHere(c: Chunk, fa: seq<Fingerprint>, b: int, a: int)
    requires c.Valid() && c.Near(b, a) && |fa| == c.lengthA
    ensures Score(c, fa, b, a) == |c.fb[b - c.startB] * fa[a - c.startA]| * (1000 - Abs(a - c.Closest(b)))
  {}

  lemma CellScore(c: Chunk, fa: seq<Fingerprint>, sa: int, ea: int, b: int, row: seq<int>, a: int)
    requires c.HasB(b) && |row| == c.Distance() * 2 + 1 && CellsOk(c, fa, sa, ea, b, row)
    requires sa <= a < ea && c.Near(b, a) && row[Column(c, b, a)] != -1
    ensures row[Column(c, b, a)] == Score(c, fa, b, a)
  {
    hide Score;
    assert CellOk(row[Column(c, b, a)], Score(c, fa, b, a));
  }

  /** The similarity row of line `b` after the pivot's match in A has changed. */
  function Forget(c: Chunk, p: Pivot, b: int, row: seq<int>): (row': seq<int>)
    requires c.Valid() && p.Pivot? && c.HasB(b) && |row| == c.Distance() * 2 + 1
    ensures |row'| == |row|
  {
    if InReach(c, p.b, b) && c.Near(b, p.a) then row[Column(c, b, p.a) := -1] else row
  }

  /** No similarity with the pivot's match survives, so the rest stays right however
      its fingerprint changes. */
  lemma CellsForgotten(c: Chunk, fa: seq<Fingerprint>, fa': seq<Fingerprint>, from: int, sa: int, ea: int, sa': int,
                       ea': int, p: Pivot, b: int, row: seq<int>)
    requires c.Valid() && p.Pivot? && c.HasB(b) && |row| == c.Distance() * 2 + 1 && c.Near(p.b, p.a)
    requires CellsOk(c, fa, sa, ea, b, row) && sa <= sa' && ea' <= ea
    requires |fa| == c.lengthA && Consumed(c, fa, fa', from, p.a + 1) && (from == p.a || sa' == p.a)
    ensures CellsOk(c, fa', sa', ea', b, Forget(c, p, b, row))
  {
    forall a | sa' <= a < ea' && c.Near(b, a)
      ensures CellOk(Forget(c, p, b, row)[Column(c, b, a)], Score(c, fa', b, a))
    {
      if a == p.a {
        if b <= p.b { WindowsOverlap(c, b, p.b, a); } else { WindowsOverlap(c, p.b, b, a); }
      } else {
        assert CellOk(row[Column(c, b, a)], Score(c, fa, b, a));
        assert fa'[a - c.startA] == fa[a - c.startA];
        ScoreFalls(c, fa, fa', b, a);
      }
    }
  }

  /** What is cached for one line of B: an entry of each of the arrays `similarities` (a
      row of it), `certainties`, `result` and `second_best_result`. */
  datatype Row = Row(similarities: seq<int>, certainty: int, res: int, second: int)

  /** A row is right for lines [sa, ea) of A with fingerprints `fa`. */
  ghost predicate Right(c: Chunk, fa: seq<Fingerprint>, sa: int, ea: int, b: int, row: Row) {
    && c.HasB(b) && |row.similarities| == c.Distance() * 2 + 1
    && RowOk(c, fa, sa, ea, b, row.certainty, row.res, row.second)
    && CellsOk(c, fa, sa, ea, b, row.similarities)
  }

  ghost predicate AllRight(c: Chunk, fa: seq<Fingerprint>, sa: int, ea: int, sb: int, eb: int, rows: seq<Row>) {
    && Within(c, sa, ea, sb, eb) && |fa| == c.lengthA && |rows| == c.lengthB
    && forall k | sb - c.startB <= k < eb - c.startB :: Right(c, fa, sa, ea, c.startB + k, rows[k])
  }

  /** Rows outside lines [sb, eb) of B are the same. */
  ghost predicate SameOutside(c: Chunk, sb: int, eb: int, rows: seq<Row>, rows': seq<Row>) {
    |rows| == |rows'| && forall k | 0 <= k < |rows| && !(sb <= c.startB + k < eb) :: rows'[k] == rows[k]
  }

  /** The loop of find_best_line_matches over the lines of A near line `b`, filling in
      similarities that are not known. */
  method ScanLine(c: Chunk, fa: array<Fingerprint>, startA: int, endA: int, b: int, row: seq<int>)
    returns (t: TopTwo, row': seq<int>)
    requires c.Valid() && c.HasB(b) && c.startA <= startA <= endA <= c.startA + c.lengthA == c.startA + fa.Length
    requires |row| == c.Distance() * 2 + 1 && CellsOk(c, fa[..], startA, endA, b, row)
    ensures |row'| == |row| && CellsOk(c, fa[..], startA, endA, b, row')
    ensures t == Best(c, fa[..], b, startA, endA)
  {
    ghost var f := fa[..];
    hide CellsOk, Score, Scaled;
    row' := row;
    var closest := c.Closest(b);
    var lo, hi := Lo(c, b, startA), Hi(c, b, endA);
    var best, second, bestAt, secondAt := 0, 0, startA, startA;
    var a := lo;
    while a < hi
      invariant lo <= a && (a <= hi || a == lo)
      invariant TopTwo(best, bestAt, second, secondAt) == Scan(c, f, b, startA, lo, a)
      invariant |row'| == |row| && CellsOk(c, f, startA, endA, b, row')
      decreases hi - a
    {
      var j := Column(c, b, a);
      assert c.Near(b, a) && f[a - c.startA] == fa[a - c.startA];
      if row'[j] == -1 {
        var v := |c.fb[b - c.startB] * fa[a - c.startA]| * (1000 - Abs(a - closest));
        ScoreHere(c, f, b, a);
        SetCell(c, f, startA, endA, b, row', a, v);
        row' := row'[j := v];
      }
      var similarity := row'[j];
      CellScore(c, f, startA, endA, b, row', a);
      if similarity > best {
        second, secondAt, best, bestAt := best, bestAt, similarity, a;
      } else if similarity > second {
        second, secondAt := similarity, a;
      }
      a := a + 1;
    }
    t := TopTwo(best, bestAt, second, secondAt);
  }

  /** find_best_line_matches. */
  method FindBest(c: Chunk, fa: array<Fingerprint>, rows: array<Row>, startA: int, endA: int, b: int)
    requires c.Valid() && c.HasB(b) && c.startA <= startA <= endA <= c.startA + c.lengthA
    requires fa.Length == c.lengthA && rows.Length == c.lengthB
    requires Right(c, fa[..], startA, endA, b, rows[b - c.startB])
    modifies rows
    ensures rows[..] == old(rows[..])[b - c.startB := rows[b - c.startB]]
    ensures Right(c, fa[..], startA, endA, b, rows[b - c.startB])
    ensures rows[b - c.startB].certainty != CERTAINTY_NOT_CALCULATED
  {
    var row := rows[b - c.startB];
    if row.certainty != CERTAINTY_NOT_CALCULATED {
      return;
    }
    var t, similarities := ScanLine(c, fa, startA, endA, b, row.similarities);
    BestMeansRow(c, fa[..], startA, endA, b);
    rows[b - c.startB] :=
      if t.best == 0 then Row(similarities, CERTAIN_NOTHING_MATCHES, -1, row.second)
      else Row(similarities, t.best * 2 - t.second, t.bestAt, t.secondAt);
  }

  /** The first loop of fuzzy_find_matching_lines_recurse: bring all rows up to date and
      pick the most certain line. */
  method Survey(c: Chunk, fa: array<Fingerprint>, rows: array<Row>, startA: int, endA: int, startB: int, endB: int)
    returns (line: int, certainty: int)
    requires fa.Length == c.lengthA && Shaped(c, rows[..])
    requires AllRight(c, fa[..], startA, endA, startB, endB, rows[..])
    modifies rows
    ensures Shaped(c, rows[..]) && AllRight(c, fa[..], startA, endA, startB, endB, rows[..])
    ensures AllCalculated(c, startB, endB, rows[..])
    ensures (line, certainty) == MostCertain(c, fa[..], startA, endA, startB, endB - startB)
    ensures certainty >= 0 ==>
              startB <= line < endB && IsPivot(c, fa[..], startA, endA, startB, endB, line, rows[line - c.startB].res)
    ensures certainty < 0 ==>
              forall b, a | startB <= b < endB && startA <= a < endA :: Score(c, fa[..], b, a) == 0
    ensures SameOutside(c, startB, endB, old(rows[..]), rows[..])
  {
    hide RowOk, CellsOk, Best;
    ghost var f := fa[..];
    line, certainty := startB - 1, -1;
    for i := 0 to endB - startB
      invariant f == fa[..] && Shaped(c, rows[..])
      invariant AllRight(c, f, startA, endA, startB, endB, rows[..])
      invariant AllCalculated(c, startB, startB + i, rows[..])
      invariant (line, certainty) == MostCertain(c, f, startA, endA, startB, i)
      invariant SameOutside(c, startB, endB, old(rows[..]), rows[..])
    {
      var b := startB + i;
      FindBest(c, fa, rows, startA, endA, b);
      var row := rows[b - c.startB];
      RowMeansBest(c, f, startA, endA, b, row.certainty, row.res, row.second);
      if row.certainty > certainty {
        line, certainty := b, row.certainty;
      }
    }
    Surveyed(c, f, startA, endA, startB, endB, rows[..], line, certainty);
  }

  /** The line picked is the most certain one. */
  lemma Surveyed(c: Chunk, fa: seq<Fingerprint>, sa: int, ea: int, sb: int, eb: int, rows: seq<Row>, line: int,
                 certainty: int)
    requires AllRight(c, fa, sa, ea, sb, eb, rows) && AllCalculated(c, sb, eb, rows)
    requires (line, certainty) == MostCertain(c, fa, sa, ea, sb, eb - sb)
    ensures certainty >= 0 ==>
              sb <= line < eb && IsPivot(c, fa, sa, ea, sb, eb, line, rows[line - c.startB].res)
    ensures certainty < 0 ==> forall b, a | sb <= b < eb && sa <= a < ea :: Score(c, fa, b, a) == 0
  {
    hide *;
    RowsWithin(c, fa, sa, ea, sb, eb, rows);
    PivotFromRows(c, fa, sa, ea, sb, eb, rows, line, certainty);
    if certainty < 0 {
      FindsNone(c, fa, sa, ea, sb, eb);
    } else {
      FindsPivot(c, fa, sa, ea, sb, eb, FindPivot(c, fa, sa, ea, sb, eb));
    }
  }

  lemma RowsWithin(c: Chunk, fa: seq<Fingerprint>, sa: int, ea: int, sb: int, eb: int, rows: seq<Row>)
    requires AllRight(c, fa, sa, ea, sb, eb, rows)
    ensures Within(c, sa, ea, sb, eb) && |rows| == c.lengthB && c.startB <= sb && eb <= c.startB + |rows|
  {}

  ghost predicate AllCalculated(c: Chunk, sb: int, eb: int, rows: seq<Row>)
    requires c.startB <= sb && eb <= c.startB + |rows|
  {
    forall k | sb - c.startB <= k < eb - c.startB :: rows[k].certainty != CERTAINTY_NOT_CALCULATED
  }

  /** What the invalidation loops leave of the row of line `b`. */
  function Invalidated(c: Chunk, p: Pivot, b: int, row: Row): (row': Row)
    requires c.Valid() && p.Pivot? && c.HasB(b) && |row.similarities| == c.Distance() * 2 + 1
    ensures row'.res == row.res && |row'.similarities| == |row.similarities|
  {
    Row(Forget(c, p, b, row.similarities),
        if b < p.b then CertaintyBefore(c, p, b, row.certainty, row.res, row.second)
        else if b > p.b then CertaintyAfter(c, p, b, row.certainty, row.res, row.second)
        else row.certainty,
        row.res, row.second)
  }

  ghost predicate Shaped(c: Chunk, rows: seq<Row>) {
    |rows| == c.lengthB && forall k | 0 <= k < |rows| :: |rows[k].similarities| == c.Distance() * 2 + 1
  }

  /** The lines of B within reach of the pivot. */
  function First(c: Chunk, p: Pivot, startB: int): int
    requires c.Valid() && p.Pivot?
  {
    if p.b - c.Reach() < startB then startB else p.b - c.Reach()
  }

  function Last(c: Chunk, p: Pivot, endB: int): int
    requires c.Valid() && p.Pivot?
  {
    if p.b + c.Reach() + 1 > endB then endB else p.b + c.Reach() + 1
  }

  predicate PivotIn(c: Chunk, p: Pivot, startB: int, endB: int) {
    c.Valid() && p.Pivot? && c.HasA(p.a) && c.startB <= startB <= p.b < endB <= c.startB + c.lengthB
  }

  /** The loop that discards similarities with the pivot's match. */
  method ForgetSimilarities(c: Chunk, rows: array<Row>, p: Pivot, startB: int, endB: int)
    requires PivotIn(c, p, startB, endB) && Shaped(c, rows[..])
    modifies rows
    ensures Shaped(c, rows[..])
    ensures forall k | 0 <= k < c.lengthB ::
              rows[k] == if startB <= c.startB + k < endB
                         then old(rows[k]).(similarities := Forget(c, p, c.startB + k, old(rows[k]).similarities))
                         else old(rows[k])
  {
    ReachNonNegative(c);
    var first, last := First(c, p, startB), Last(c, p, endB);
    for b := first to last
      invariant Shaped(c, rows[..])
      invariant forall k | 0 <= k < c.lengthB ::
                  rows[k] == if first <= c.startB + k < b
                             then old(rows[k]).(similarities := Forget(c, p, c.startB + k, old(rows[k]).similarities))
                             else old(rows[k])
    {
      var row := rows[b - c.startB];
      if Abs(p.a - c.Closest(b)) <= c.Distance() {
        rows[b - c.startB] := row.(similarities := row.similarities[Column(c, b, p.a) := -1]);
      }
    }
    forall k | 0 <= k < c.lengthB && startB <= c.startB + k < endB && !(first <= c.startB + k < last)
      ensures Forget(c, p, c.startB + k, old(rows[k]).similarities) == old(rows[k]).similarities
    {
      assert !InReach(c, p.b, c.startB + k);
    }
  }

  /** The loop that discards matches before the pivot that contradict it. */
  method DropBefore(c: Chunk, rows: array<Row>, p: Pivot, startB: int, endB: int)
    requires PivotIn(c, p, startB, endB) && rows.Length == c.lengthB
    modifies rows
    ensures forall k | 0 <= k < c.lengthB ::
              rows[k] == if startB <= c.startB + k < p.b
                         then old(rows[k]).(certainty := CertaintyBefore(c, p, c.startB + k, old(rows[k]).certainty,
                                                                         old(rows[k]).res, old(rows[k]).second))
                         else old(rows[k])
  {
    ReachNonNegative(c);
    hide Chunk.Reach;
    for b := p.b downto First(c, p, startB)
      invariant forall k | 0 <= k < c.lengthB ::
                  rows[k] == if b <= c.startB + k < p.b
                             then old(rows[k]).(certainty := CertaintyBefore(c, p, c.startB + k, old(rows[k]).certainty,
                                                                             old(rows[k]).res, old(rows[k]).second))
                             else old(rows[k])
    {
      var row := rows[b - c.startB];
      if row.certainty >= 0 && (row.res >= p.a || row.second >= p.a) {
        rows[b - c.startB] := row.(certainty := CERTAINTY_NOT_CALCULATED);
      }
    }
  }

  /** The loop that discards matches after the pivot that contradict it. */
  method DropAfter(c: Chunk, rows: array<Row>, p: Pivot, startB: int, endB: int)
    requires PivotIn(c, p, startB, endB) && rows.Length == c.lengthB
    modifies rows
    ensures forall k | 0 <= k < c.lengthB ::
              rows[k] == if p.b < c.startB + k < endB
                         then old(rows[k]).(certainty := CertaintyAfter(c, p, c.startB + k, old(rows[k]).certainty,
                                                                        old(rows[k]).res, old(rows[k]).second))
                         else old(rows[k])
  {
    ReachNonNegative(c);
    hide Chunk.Reach;
    for b := p.b + 1 to Last(c, p, endB)
      invariant forall k | 0 <= k < c.lengthB ::
                  rows[k] == if p.b < c.startB + k < b
                             then old(rows[k]).(certainty := CertaintyAfter(c, p, c.startB + k, old(rows[k]).certainty,
                                                                            old(rows[k]).res, old(rows[k]).second))
                             else old(rows[k])
    {
      var row := rows[b - c.startB];
      if row.certainty >= 0 && (row.res <= p.a || row.second <= p.a) {
        rows[b - c.startB] := row.(certainty := CERTAINTY_NOT_CALCULATED);
      }
    }
  }

  /** All invalidation of fuzzy_find_matching_lines_recurse. */
  method Invalidate(c: Chunk, rows: array<Row>, p: Pivot, startB: int, endB: int)
    requires PivotIn(c, p, startB, endB) && Shaped(c, rows[..])
    modifies rows
    ensures Shaped(c, rows[..])
    ensures SameOutside(c, startB, endB, old(rows[..]), rows[..])
    ensures forall k | startB - c.startB <= k < endB - c.startB ::
              rows[k] == Invalidated(c, p, c.startB + k, old(rows[k]))
  {
    hide Forget, CertaintyBefore, CertaintyAfter;
    ForgetSimilarities(c, rows, p, startB, endB);
    DropBefore(c, rows, p, startB, endB);
    DropAfter(c, rows, p, startB, endB);
  }

  function Results(rows: seq<Row>): (r: seq<int>)
    ensures |r| == |rows|
  {
    seq(|rows|, i requires 0 <= i < |rows| => rows[i].res)
  }

  lemma RightBefore(c: Chunk, fa: seq<Fingerprint>, fa': seq<Fingerprint>, sa: int, ea: int, p: Pivot, b: int, row: Row)
    requires c.Valid() && p.Pivot? && c.Near(p.b, p.a) && c.startA <= sa <= p.a < ea <= c.startA + c.lengthA
    requires Right(c, fa, sa, ea, b, row) && |fa| == c.lengthA && Consumed(c, fa, fa', p.a, p.a + 1) && b < p.b
    ensures Right(c, fa', sa, p.a + 1, b, Invalidated(c, p, b, row))
  {
    hide RowOk, CellsOk, Forget, CertaintyBefore, Chunk.Near, Consumed;
    RowBefore(c, fa, fa', sa, ea, p, b, row.certainty, row.res, row.second);
    CellsForgotten(c, fa, fa', p.a, sa, ea, sa, p.a + 1, p, b, row.similarities);
  }

  lemma RightAfter(c: Chunk, fa: seq<Fingerprint>, fa': seq<Fingerprint>, sa: int, ea: int, p: Pivot, b: int, row: Row)
    requires c.Valid() && p.Pivot? && c.Near(p.b, p.a) && c.startA <= sa <= p.a < ea <= c.startA + c.lengthA
    requires Right(c, fa, sa, ea, b, row) && |fa| == c.lengthA && Consumed(c, fa, fa', sa, p.a + 1) && p.b < b
    ensures Right(c, fa', p.a, ea, b, Invalidated(c, p, b, row))
  {
    hide RowOk, CellsOk, Forget, CertaintyAfter, Chunk.Near, Consumed;
    RowAfter(c, fa, fa', sa, ea, p, b, row.certainty, row.res, row.second);
    CellsForgotten(c, fa, fa', sa, sa, ea, p.a, ea, p, b, row.similarities);
  }

  /** After invalidation, the rows before the pivot are right for the first half. */
  lemma FirstHalfRight(c: Chunk, fa: seq<Fingerprint>, fa': seq<Fingerprint>, sa: int, ea: int, sb: int, eb: int,
                       p: Pivot, rows: seq<Row>, rows': seq<Row>)
    requires AllRight(c, fa, sa, ea, sb, eb, rows) && |rows'| == |rows|
    requires p.Pivot? && sb <= p.b < eb && sa <= p.a < ea && c.Near(p.b, p.a)
    requires |fa'| == c.lengthA && Consumed(c, fa, fa', p.a, p.a + 1)
    requires forall k | sb - c.startB <= k < p.b - c.startB :: rows'[k] == Invalidated(c, p, c.startB + k, rows[k])
    ensures AllRight(c, fa', sa, p.a + 1, sb, p.b, rows')
  {
    hide Chunk.Near, Consumed, RowOk, CellsOk, Invalidated;
    forall k | sb - c.startB <= k < p.b - c.startB ensures Right(c, fa', sa, p.a + 1, c.startB + k, rows'[k]) {
      RightBefore(c, fa, fa', sa, ea, p, c.startB + k, rows[k]);
    }
  }

  /** After invalidation and the whole first half, the rows after the pivot are right
      for the second half. */
  lemma SecondHalfRight(c: Chunk, fa: seq<Fingerprint>, fa': seq<Fingerprint>, sa: int, ea: int, sb: int, eb: int,
                        p: Pivot, rows: seq<Row>, rows': seq<Row>)
    requires AllRight(c, fa, sa, ea, sb, eb, rows) && |rows'| == |rows|
    requires p.Pivot? && sb <= p.b < eb && sa <= p.a < ea && c.Near(p.b, p.a)
    requires |fa'| == c.lengthA && Consumed(c, fa, fa', sa, p.a + 1)
    requires forall k | p.b + 1 - c.startB <= k < eb - c.startB :: rows'[k] == Invalidated(c, p, c.startB + k, rows[k])
    ensures AllRight(c, fa', p.a, ea, p.b + 1, eb, rows')
  {
    hide Chunk.Near, Consumed, RowOk, CellsOk, Invalidated;
    forall k | p.b + 1 - c.startB <= k < eb - c.startB ensures Right(c, fa', p.a, ea, c.startB + k, rows'[k]) {
      RightAfter(c, fa, fa', sa, ea, p, c.startB + k, rows[k]);
    }
  }

  /** The pivot found from the cached rows is the pivot of the uncached matching. */
  lemma PivotFromRows(c: Chunk, fa: seq<Fingerprint>, sa: int, ea: int, sb: int, eb: int, rows: seq<Row>, line: int,
                      certainty: int)
    requires AllRight(c, fa, sa, ea, sb, eb, rows) && AllCalculated(c, sb, eb, rows)
    requires (line, certainty) == MostCertain(c, fa, sa, ea, sb, eb - sb)
    ensures certainty < 0 ==> FindPivot(c, fa, sa, ea, sb, eb) == NoPivot
    ensures certainty < 0 ==> forall k | sb - c.startB <= k < eb - c.startB :: rows[k].res == -1
    ensures certainty >= 0 ==>
              && sb <= line < eb && FindPivot(c, fa, sa, ea, sb, eb) == Pivot(line, rows[line - c.startB].res)
              && c.Near(line, rows[line - c.startB].res)
  {
    hide RowOk, CellsOk, Best;
    forall k | sb - c.startB <= k < eb - c.startB
      ensures rows[k].certainty == Best(c, fa, c.startB + k, sa, ea).Certainty()
      ensures rows[k].res == if rows[k].certainty < 0 then -1 else Best(c, fa, c.startB + k, sa, ea).bestAt
    {
      RowMeansBest(c, fa, sa, ea, c.startB + k, rows[k].certainty, rows[k].res, rows[k].second);
    }
    if certainty >= 0 {
      BestIsTopTwo(c, fa, line, sa, ea);
      assert Score(c, fa, line, Best(c, fa, line, sa, ea).bestAt) > 0;
    } else {
      forall k | sb - c.startB <= k < eb - c.startB ensures rows[k].res == -1 {
        assert Best(c, fa, c.startB + k, sa, ea).Certainty() == -2;
      }
    }
  }

  lemma ResultsJoin(rows: seq<Row>, i: int, k: int, j: int, left: seq<int>, right: seq<int>)
    requires 0 <= i <= k < j <= |rows| && left == Results(rows[i..k]) && right == Results(rows[k + 1..j])
    ensures Results(rows[i..j]) == left + [rows[k].res] + right
  {}

  lemma MatchNothing(c: Chunk, fa: seq<Fingerprint>, sa: int, ea: int, sb: int, eb: int, rows: seq<Row>)
    requires Within(c, sa, ea, sb, eb) && |fa| == c.lengthA && |rows| == c.lengthB
    requires FindPivot(c, fa, sa, ea, sb, eb) == NoPivot
    requires forall k | sb - c.startB <= k < eb - c.startB :: rows[k].res == -1
    ensures Match(c, fa, sa, ea, sb, eb) == (Results(rows[sb - c.startB..eb - c.startB]), fa)
  {
    hide FindPivot;
    assert Match(c, fa, sa, ea, sb, eb).0 == Results(rows[sb - c.startB..eb - c.startB]);
  }

  lemma MatchPivot(c: Chunk, fa: seq<Fingerprint>, sa: int, ea: int, sb: int, eb: int, p: Pivot)
    requires Within(c, sa, ea, sb, eb) && |fa| == c.lengthA
    requires p.Pivot? && FindPivot(c, fa, sa, ea, sb, eb) == p
    ensures var (left, fa1) := Match(c, Consume(c, fa, p.a, p.b), sa, p.a + 1, sb, p.b);
            var (right, fa2) := Match(c, fa1, p.a, ea, p.b + 1, eb);
            Match(c, fa, sa, ea, sb, eb) == (left + [p.a] + right, fa2)
  {
    hide FindPivot;
  }

  lemma MatchEmpty(c: Chunk, fa: seq<Fingerprint>, sa: int, ea: int, sb: int)
    requires Within(c, sa, ea, sb, sb) && |fa| == c.lengthA
    ensures Match(c, fa, sa, ea, sb, sb) == ([], fa)
  {}

  /** fuzzy_find_matching_lines_recurse: the cached matching is the uncached one. */
  method Recurse(c: Chunk, fa: array<Fingerprint>, rows: array<Row>, startA: int, startB: int, lengthA: int,
                 lengthB: int)
    requires fa.Length == c.lengthA && Shaped(c, rows[..])
    requires AllRight(c, fa[..], startA, startA + lengthA, startB, startB + lengthB, rows[..])
    modifies fa, rows
    ensures Shaped(c, rows[..])
    ensures SameOutside(c, startB, startB + lengthB, old(rows[..]), rows[..])
    ensures (Results(rows[startB - c.startB..startB + lengthB - c.startB]), fa[..])
         == Match(c, old(fa[..]), startA, startA + lengthA, startB, startB + lengthB)
    ensures IsMatching(c, old(fa[..]), startA, startA + lengthA, startB, startB + lengthB,
                       Results(rows[startB - c.startB..startB + lengthB - c.startB]), fa[..])
    decreases lengthB, 1
  {
    hide Right, FindPivot, MostCertain, Invalidated, Consumed, Consume, Match, Results, Chunk.Near, IsMatching, IsPivot,
      Score, Chunk.Distance;
    ghost var fa0 := fa[..];
    RowsWithin(c, fa0, startA, startA + lengthA, startB, startB + lengthB, rows[..]);
    MatchIsMatching(c, fa0, startA, startA + lengthA, startB, startB + lengthB);
    var endA, endB := startA + lengthA, startB + lengthB;
    var line, certainty := Survey(c, fa, rows, startA, endA, startB, endB);
    PivotFromRows(c, fa0, startA, endA, startB, endB, rows[..], line, certainty);
    if certainty < 0 {
      MatchNothing(c, fa0, startA, endA, startB, endB, rows[..]);
      return;
    }
    var p := Pivot(line, rows[line - c.startB].res);
    ghost var rows1 := rows[..];
    Subtract(c, fa, p.a, p.b);
    ConsumeConsumes(c, fa0, p.a, p.b);
    Invalidate(c, rows, p, startB, endB);
    FirstHalfRight(c, fa0, fa[..], startA, endA, startB, endB, p, rows1, rows[..]);
    Halves(c, fa, rows, startA, endA, startB, endB, p, fa0, rows1);
  }

  /** The two recursive calls, on the lines before and after the pivot. */
  method Halves(c: Chunk, fa: array<Fingerprint>, rows: array<Row>, startA: int, endA: int, startB: int, endB: int,
                p: Pivot, ghost fa0: seq<Fingerprint>, ghost rows0: seq<Row>)
    requires fa.Length == c.lengthA && Shaped(c, rows[..])
    requires AllRight(c, fa0, startA, endA, startB, endB, rows0) && FindPivot(c, fa0, startA, endA, startB, endB) == p
    requires p.Pivot? && c.Near(p.b, p.a) && fa[..] == Consume(c, fa0, p.a, p.b)
    requires AllRight(c, fa[..], startA, p.a + 1, startB, p.b, rows[..])
    requires rows[p.b - c.startB].res == p.a
    requires forall k | p.b + 1 - c.startB <= k < endB - c.startB ::
             rows[k] == Invalidated(c, p, c.startB + k, rows0[k])
    modifies fa, rows
    ensures Shaped(c, rows[..])
    ensures SameOutside(c, startB, endB, old(rows[..]), rows[..])
    ensures (Results(rows[startB - c.startB..endB - c.startB]), fa[..]) == Match(c, fa0, startA, endA, startB, endB)
    decreases endB - startB, 0
  {
    hide Right, FindPivot, MostCertain, Invalidated, Consumed, Consume, Match, Results, Chunk.Near, Chunk.Distance,
      IsMatching;
    ghost var fa1 := fa[..];
    MatchEmpty(c, fa1, startA, p.a + 1, startB);
    if p.b > startB {
      Recurse(c, fa, rows, startA, startB, p.a + 1 - startA, p.b - startB);
    }
    ghost var fa2, rows1 := fa[..], rows[..];
    ghost var left := Results(rows1[startB - c.startB..p.b - c.startB]);
    FirstHalfConsumes(c, fa0, fa1, fa2, startA, startB, p, left);
    SecondHalfRight(c, fa0, fa2, startA, endA, startB, endB, p, rows0, rows1);
    MatchEmpty(c, fa2, p.a, endA, endB);
    if p.b + 1 < endB {
      Recurse(c, fa, rows, p.a, p.b + 1, endA - p.a, endB - (p.b + 1));
    }
    JoinHalves(c, fa0, fa2, fa[..], startA, endA, startB, endB, p, rows1, rows[..]);
  }

  /** The results of both halves and the pivot are those of the whole. */
  lemma JoinHalves(c: Chunk, fa0: seq<Fingerprint>, fa2: seq<Fingerprint>, fa3: seq<Fingerprint>, sa: int, ea: int,
                   sb: int, eb: int, p: Pivot, rows1: seq<Row>, rows2: seq<Row>)
    requires Within(c, sa, ea, sb, eb) && |fa0| == c.lengthA && |rows1| == |rows2| == c.lengthB
    requires p.Pivot? && FindPivot(c, fa0, sa, ea, sb, eb) == p
    requires rows2[p.b - c.startB].res == p.a
    requires (Results(rows1[sb - c.startB..p.b - c.startB]), fa2)
          == Match(c, Consume(c, fa0, p.a, p.b), sa, p.a + 1, sb, p.b)
    requires |fa2| == c.lengthA && (Results(rows2[p.b + 1 - c.startB..eb - c.startB]), fa3)
          == Match(c, fa2, p.a, ea, p.b + 1, eb)
    requires SameOutside(c, p.b + 1, eb, rows1, rows2)
    ensures (Results(rows2[sb - c.startB..eb - c.startB]), fa3) == Match(c, fa0, sa, ea, sb, eb)
  {
    hide FindPivot, Match, Consume, Results;
    assert rows2[sb - c.startB..p.b - c.startB] == rows1[sb - c.startB..p.b - c.startB];
    ResultsJoin(rows2, sb - c.startB, p.b - c.startB, eb - c.startB, Results(rows1[sb - c.startB..p.b - c.startB]),
                Results(rows2[p.b + 1 - c.startB..eb - c.startB]));
    MatchPivot(c, fa0, sa, ea, sb, eb, p);
  }

  /** fingerprint_subtract on the pivot's match. */
  method Subtract(c: Chunk, fa: array<Fingerprint>, a: int, b: int)
    requires c.Valid() && fa.Length == c.lengthA && c.HasA(a) && c.HasB(b)
    modifies fa
    ensures fa[..] == Consume(c, old(fa[..]), a, b)
  {
    fa[a - c.startA] := fa[a - c.startA] - c.fb[b - c.startB];
  }

  lemma FirstHalfConsumes(c: Chunk, fa: seq<Fingerprint>, fa1: seq<Fingerprint>, fa2: seq<Fingerprint>, sa: int,
                          sb: int, p: Pivot, left: seq<int>)
    requires |fa| == c.lengthA && c.Valid() && p.Pivot? && c.HasA(p.a) && c.HasB(p.b) && sa <= p.a
             && Within(c, sa, p.a + 1, sb, p.b)
    requires fa1 == Consume(c, fa, p.a, p.b) && (left, fa2) == Match(c, fa1, sa, p.a + 1, sb, p.b)
    ensures Consumed(c, fa, fa2, sa, p.a + 1)
  {
    hide Match, Consumed, Consume;
    ConsumeConsumes(c, fa, p.a, p.b);
    MatchConsumes(c, fa1, sa, p.a + 1, sb, p.b);
    ConsumedTransitive(c, fa, fa1, p.a, p.a + 1, fa2, sa, p.a + 1, sa, p.a + 1);
  }

  /** fuzzy_find_matching_lines: nothing when the chunk has no lines in A; otherwise the
      matching that takes the most certain line first, which never crosses. */
  method FindMatchingLines(startA: int, lengthA: int, startB: int, lengthB: int, fa: array<Fingerprint>,
                           fb: seq<Fingerprint>)
    returns (r: Option<seq<int>>)
    requires 0 <= lengthB == |fb| && (lengthA > 0 ==> fa.Length == lengthA)
    modifies fa
    ensures r.None? <==> lengthA <= 0
    ensures r.None? ==> fa[..] == old(fa[..])
    ensures r.Some? ==>
              && (r.value, fa[..]) == Match(Chunk(startA, lengthA, startB, lengthB, fb), old(fa[..]), startA,
                                            startA + lengthA, startB, startB + lengthB)
              && |r.value| == lengthB && InOrder(r.value, startA, startA + lengthA)
              && var c := Chunk(startA, lengthA, startB, lengthB, fb);
                 IsMatching(c, old(fa[..]), startA, startA + lengthA, startB, startB + lengthB, r.value, fa[..])
  {
    hide *;
    if lengthA <= 0 {
      return None;
    }
    var c := Chunk(startA, lengthA, startB, lengthB, fb);
    var found := MatchAll(c, fa);
    r := Some(found);
  }

  /** Match all lines of a chunk. */
  method MatchAll(c: Chunk, fa: array<Fingerprint>) returns (found: seq<int>)
    requires c.lengthA > 0 && c.lengthB == |c.fb| && fa.Length == c.lengthA
    modifies fa
    ensures c.Valid() && Within(c, c.startA, c.startA + c.lengthA, c.startB, c.startB + c.lengthB)
    ensures (found, fa[..]) == Match(c, old(fa[..]), c.startA, c.startA + c.lengthA, c.startB, c.startB + c.lengthB)
    ensures InOrder(found, c.startA, c.startA + c.lengthA)
    ensures IsMatching(c, old(fa[..]), c.startA, c.startA + c.lengthA, c.startB, c.startB + c.lengthB, found, fa[..])
  {
    hide *;
    var rows := NewRows(c, fa[..]);
    MatchInOrder(c, fa[..], c.startA, c.startA + c.lengthA, c.startB, c.startB + c.lengthB);
    MatchIsMatching(c, fa[..], c.startA, c.startA + c.lengthA, c.startB, c.startB + c.lengthB);
    Recurse(c, fa, rows, c.startA, c.startB, c.lengthA, c.lengthB);
    found := Results(rows[c.startB - c.startB..c.startB + c.lengthB - c.startB]);
  }

  /** The arrays of a chunk before anything has been computed. */
  method NewRows(c: Chunk, ghost fa: seq<Fingerprint>) returns (rows: array<Row>)
    requires c.lengthA > 0 && c.lengthB == |c.fb| && |fa| == c.lengthA
    ensures c.Valid() && fresh(rows) && rows.Length == c.lengthB && Shaped(c, rows[..])
    ensures AllRight(c, fa, c.startA, c.startA + c.lengthA, c.startB, c.startB + c.lengthB, rows[..])
    ensures Within(c, c.startA, c.startA + c.lengthA, c.startB, c.startB + c.lengthB)
  {
    var width := c.Distance() * 2 + 1;
    rows := new Row[c.lengthB](_ => Row(seq(width, _ => -1), CERTAINTY_NOT_CALCULATED, -1, -1));
    NothingKnown(c, fa, rows[..]);
    hide AllRight, Shaped, Within;
  }

  /** Before anything has been computed every row is right. */
  lemma NothingKnown(c: Chunk, fa: seq<Fingerprint>, rows: seq<Row>)
    requires c.lengthA > 0 && c.lengthB == |c.fb| == |rows| && |fa| == c.lengthA
    requires forall k | 0 <= k < |rows| ::
               rows[k] == Row(seq(c.Distance() * 2 + 1, _ => -1), CERTAINTY_NOT_CALCULATED, -1, -1)
    ensures Shaped(c, rows) && AllRight(c, fa, c.startA, c.startA + c.lengthA, c.startB, c.startB + c.lengthB, rows)
    ensures Within(c, c.startA, c.startA + c.lengthA, c.startB, c.startB + c.lengthB)
  {}
}
