/** What fuzzy matching promises, said without its functions: each time the line of B that matches
    most certainly is matched, the first one among equals. */
module FuzzyPivot {
  import opened FuzzySpec

  /** Nothing in [sa, ea) other than `a` scores above `second` for line `b`, which is reached
      there unless it is 0. */
  ghost predicate RunnerUp(c: Chunk, fa: seq<Fingerprint>, sa: int, ea: int, b: int, a: int, second: nat) {
    && (forall x | sa <= x < ea && x != a :: Score(c, fa, b, x) <= second)
    && (second == 0 || exists x | sa <= x < ea && x != a :: Score(c, fa, b, x) == second)
  }

  /** Line `b` matches line `a`, the first of those it is most similar to, with certainty
      `value`: twice its score less the score of the runner-up. */
  ghost predicate Certain(c: Chunk, fa: seq<Fingerprint>, sa: int, ea: int, b: int, a: int, value: int) {
    && sa <= a < ea && Score(c, fa, b, a) > 0
    && (forall x | sa <= x < ea :: Score(c, fa, b, x) <= Score(c, fa, b, a))
    && (forall x | sa <= x < a :: Score(c, fa, b, x) < Score(c, fa, b, a))
    && exists second: nat :: RunnerUp(c, fa, sa, ea, b, a, second) && value == 2 * Score(c, fa, b, a) - second
  }

  /** No line of [sb, eb) matches with greater certainty than `b`, none before it with the same. */
  ghost predicate IsPivot(c: Chunk, fa: seq<Fingerprint>, sa: int, ea: int, sb: int, eb: int, b: int, a: int) {
    && sb <= b < eb
    && exists value :: Certain(c, fa, sa, ea, b, a, value)
        && forall b', a', v' | sb <= b' < eb && Certain(c, fa, sa, ea, b', a', v') ::
             v' <= value && (b' < b ==> v' < value)
  }

  /** `r` are the matches of lines [sb, eb) among lines [sa, ea), and `fa'` is what is left of the
      byte pairs: a pivot is matched first, as long as a line scores. */
  ghost predicate IsMatching(c: Chunk, fa: seq<Fingerprint>, sa: int, ea: int, sb: int, eb: int, r: seq<int>,
                             fa': seq<Fingerprint>)
    requires Within(c, sa, ea, sb, eb)
    decreases eb - sb, 1
  {
    && |fa| == c.lengthA && |r| == eb - sb
    && if exists b, a :: IsPivot(c, fa, sa, ea, sb, eb, b, a) then
         exists b, a, rest :: MatchedFirst(c, fa, sa, ea, sb, eb, r, fa', b, a, rest)
       else
         && fa' == fa && (forall i | 0 <= i < |r| :: r[i] == -1)
         && forall b, a | sb <= b < eb && sa <= a < ea :: Score(c, fa, b, a) == 0
  }

  /** The pivot `b` is matched with `a` and takes its byte pairs; then the lines before it are
      matched up to `a`, and with the `rest` of the byte pairs the lines after it from `a` on. */
  ghost predicate MatchedFirst(c: Chunk, fa: seq<Fingerprint>, sa: int, ea: int, sb: int, eb: int, r: seq<int>,
                               fa': seq<Fingerprint>, b: int, a: int, rest: seq<Fingerprint>)
    requires Within(c, sa, ea, sb, eb) && |fa| == c.lengthA && |r| == eb - sb
    decreases eb - sb, 0
  {
    && IsPivot(c, fa, sa, ea, sb, eb, b, a) && sa <= a < ea && r[b - sb] == a
    && IsMatching(c, fa[a - c.startA := fa[a - c.startA] - c.fb[b - c.startB]], sa, a + 1, sb, b, r[..b - sb], rest)
    && IsMatching(c, rest, a, ea, b + 1, eb, r[b - sb + 1..], fa')
  }

  // ---- the matching is such a matching

  /** The best two scores give the certainty. */
  lemma CertainIs(c: Chunk, fa: seq<Fingerprint>, sa: int, ea: int, b: int, a: int, value: int)
    requires c.HasB(b)
    ensures var t := Best(c, fa, b, sa, ea);
            Certain(c, fa, sa, ea, b, a, value) <==> t.best > 0 && a == t.bestAt && value == 2 * t.best - t.second
  {
    var t := Best(c, fa, b, sa, ea);
    BestIsTopTwo(c, fa, b, sa, ea);
    hide Best, Score;
    if t.best > 0 {
      assert RunnerUp(c, fa, sa, ea, b, t.bestAt, t.second) by {
        if t.second > 0 { assert Score(c, fa, b, t.secondAt) == t.second; }
      }
    }
    if Certain(c, fa, sa, ea, b, a, value) {
      assert a == t.bestAt;
      var second: nat :| RunnerUp(c, fa, sa, ea, b, a, second) && value == 2 * Score(c, fa, b, a) - second;
      if t.second > 0 { assert Score(c, fa, b, t.secondAt) == t.second; }
    }
  }

  lemma {:induction false} MostCertainIs(c: Chunk, fa: seq<Fingerprint>, sa: int, ea: int, sb: int, n: nat, b: int)
    requires (n > 0 ==> c.HasB(sb) && c.HasB(sb + n - 1)) && sb <= b < sb + n
    ensures var (pivot, certainty) := MostCertain(c, fa, sa, ea, sb, n);
            && Best(c, fa, b, sa, ea).Certainty() <= certainty
            && (b < pivot ==> Best(c, fa, b, sa, ea).Certainty() < certainty)
    decreases n
  {
    hide Best;
    if b < sb + n - 1 { MostCertainIs(c, fa, sa, ea, sb, n - 1, b); }
  }

  /** The line found is the most certain one. */
  lemma FindsPivot(c: Chunk, fa: seq<Fingerprint>, sa: int, ea: int, sb: int, eb: int, p: Pivot)
    requires Within(c, sa, ea, sb, eb) && p == FindPivot(c, fa, sa, ea, sb, eb) && p.Pivot?
    ensures IsPivot(c, fa, sa, ea, sb, eb, p.b, p.a)
  {
    var certainty := MostCertain(c, fa, sa, ea, sb, eb - sb).1;
    assert MostCertain(c, fa, sa, ea, sb, eb - sb) == (p.b, certainty) && certainty >= 0;
    assert p.a == Best(c, fa, p.b, sa, ea).bestAt;
    hide *;
    PivotCertain(c, fa, sa, ea, sb, eb, p.b, p.a, certainty);
    forall b', a', v' | sb <= b' < eb && Certain(c, fa, sa, ea, b', a', v')
      ensures v' <= certainty && (b' < p.b ==> v' < certainty)
    {
      LessCertain(c, fa, sa, ea, sb, eb, p.b, certainty, b', a', v');
    }
    MakePivot(c, fa, sa, ea, sb, eb, p.b, p.a, certainty);
  }

  lemma PivotCertain(c: Chunk, fa: seq<Fingerprint>, sa: int, ea: int, sb: int, eb: int, b: int, a: int, value: int)
    requires Within(c, sa, ea, sb, eb) && MostCertain(c, fa, sa, ea, sb, eb - sb) == (b, value) && value >= 0
    requires c.HasB(b) ==> a == Best(c, fa, b, sa, ea).bestAt
    ensures sb <= b < eb && Certain(c, fa, sa, ea, b, a, value)
  {
    hide Best, MostCertain, Certain;
    CertainIs(c, fa, sa, ea, b, a, value);
  }

  lemma LessCertain(c: Chunk, fa: seq<Fingerprint>, sa: int, ea: int, sb: int, eb: int, b: int, value: int,
                    b': int, a': int, v': int)
    requires Within(c, sa, ea, sb, eb) && MostCertain(c, fa, sa, ea, sb, eb - sb) == (b, value)
    requires sb <= b' < eb && Certain(c, fa, sa, ea, b', a', v')
    ensures v' <= value && (b' < b ==> v' < value)
  {
    hide Best, MostCertain, Certain;
    CertainIs(c, fa, sa, ea, b', a', v');
    MostCertainIs(c, fa, sa, ea, sb, eb - sb, b');
  }

  lemma MakePivot(c: Chunk, fa: seq<Fingerprint>, sa: int, ea: int, sb: int, eb: int, b: int, a: int, value: int)
    requires sb <= b < eb && Certain(c, fa, sa, ea, b, a, value)
    requires forall b', a', v' | sb <= b' < eb && Certain(c, fa, sa, ea, b', a', v') ::
             v' <= value && (b' < b ==> v' < value)
    ensures IsPivot(c, fa, sa, ea, sb, eb, b, a)
  {
    hide Certain;
  }

  /** One is found whenever a line scores. */
  lemma FindsNone(c: Chunk, fa: seq<Fingerprint>, sa: int, ea: int, sb: int, eb: int)
    requires Within(c, sa, ea, sb, eb) && FindPivot(c, fa, sa, ea, sb, eb) == NoPivot
    ensures forall b, a | sb <= b < eb && sa <= a < ea :: Score(c, fa, b, a) == 0
    ensures forall b, a :: !IsPivot(c, fa, sa, ea, sb, eb, b, a)
  {
    assert MostCertain(c, fa, sa, ea, sb, eb - sb).1 < 0;
    hide Best, MostCertain, FindPivot;
    forall b, a | sb <= b < eb && sa <= a < ea ensures Score(c, fa, b, a) == 0 {
      NothingScores(c, fa, sa, ea, sb, eb, b);
    }
  }

  lemma NothingScores(c: Chunk, fa: seq<Fingerprint>, sa: int, ea: int, sb: int, eb: int, b: int)
    requires Within(c, sa, ea, sb, eb) && MostCertain(c, fa, sa, ea, sb, eb - sb).1 < 0 && sb <= b < eb
    ensures forall a | sa <= a < ea :: Score(c, fa, b, a) == 0
  {
    assert Best(c, fa, b, sa, ea).Certainty() == -2;
    hide Best, Score, MostCertain;
    BestIsTopTwo(c, fa, b, sa, ea);
  }

  /** Match computes a matching of that kind. */
  lemma {:induction false} MatchIsMatching(c: Chunk, fa: seq<Fingerprint>, sa: int, ea: int, sb: int, eb: int)
    requires Within(c, sa, ea, sb, eb) && |fa| == c.lengthA
    ensures var m := Match(c, fa, sa, ea, sb, eb); IsMatching(c, fa, sa, ea, sb, eb, m.0, m.1)
    decreases eb - sb
  {
    hide FindPivot, IsPivot, Score, IsMatching, Match, Within, Consume;
    var p := FindPivot(c, fa, sa, ea, sb, eb);
    MatchParts(c, fa, sa, ea, sb, eb, p);
    if p.Pivot? {
      FindsPivot(c, fa, sa, ea, sb, eb, p);
      var fa1 := Consume(c, fa, p.a, p.b);
      var left := Match(c, fa1, sa, p.a + 1, sb, p.b);
      var right := Match(c, left.1, p.a, ea, p.b + 1, eb);
      MatchIsMatching(c, fa1, sa, p.a + 1, sb, p.b);
      MatchIsMatching(c, left.1, p.a, ea, p.b + 1, eb);
      SplitMatching(c, fa, sa, ea, sb, eb, p, left.0, left.1, right.0, right.1);
    } else {
      FindsNone(c, fa, sa, ea, sb, eb);
      NoMatching(c, fa, sa, ea, sb, eb);
    }
  }

  lemma MatchParts(c: Chunk, fa: seq<Fingerprint>, sa: int, ea: int, sb: int, eb: int, p: Pivot)
    requires Within(c, sa, ea, sb, eb) && |fa| == c.lengthA && p == FindPivot(c, fa, sa, ea, sb, eb)
    ensures p.Pivot? ==>
              && sb <= p.b < eb && sa <= p.a < ea && c.Valid() && c.HasA(p.a) && c.HasB(p.b)
              && |Consume(c, fa, p.a, p.b)| == c.lengthA
              && Within(c, sa, p.a + 1, sb, p.b) && Within(c, p.a, ea, p.b + 1, eb)
              && var left := Match(c, Consume(c, fa, p.a, p.b), sa, p.a + 1, sb, p.b);
                 var right := Match(c, left.1, p.a, ea, p.b + 1, eb);
                 Match(c, fa, sa, ea, sb, eb) == (left.0 + [p.a] + right.0, right.1)
    ensures p.NoPivot? ==> Match(c, fa, sa, ea, sb, eb) == (seq(eb - sb, _ => -1), fa)
  {
    hide FindPivot;
  }

  lemma SplitMatching(c: Chunk, fa: seq<Fingerprint>, sa: int, ea: int, sb: int, eb: int, p: Pivot,
                      left: seq<int>, rest: seq<Fingerprint>, right: seq<int>, fa': seq<Fingerprint>)
    requires Within(c, sa, ea, sb, eb) && |fa| == c.lengthA && p.Pivot? && sb <= p.b < eb && sa <= p.a < ea
    requires IsPivot(c, fa, sa, ea, sb, eb, p.b, p.a) && |left| == p.b - sb && |right| == eb - p.b - 1
    requires IsMatching(c, Consume(c, fa, p.a, p.b), sa, p.a + 1, sb, p.b, left, rest)
    requires IsMatching(c, rest, p.a, ea, p.b + 1, eb, right, fa')
    ensures IsMatching(c, fa, sa, ea, sb, eb, left + [p.a] + right, fa')
  {
    var r := left + [p.a] + right;
    assert r[..p.b - sb] == left && r[p.b - sb + 1..] == right && r[p.b - sb] == p.a by { hide *; }
    FirstMatched(c, fa, sa, ea, sb, eb, p, r, rest, fa');
    hide IsPivot, Score, MatchedFirst;
  }

  lemma FirstMatched(c: Chunk, fa: seq<Fingerprint>, sa: int, ea: int, sb: int, eb: int, p: Pivot, r: seq<int>,
                     rest: seq<Fingerprint>, fa': seq<Fingerprint>)
    requires Within(c, sa, ea, sb, eb) && |fa| == c.lengthA && p.Pivot? && sb <= p.b < eb && sa <= p.a < ea
    requires IsPivot(c, fa, sa, ea, sb, eb, p.b, p.a) && |r| == eb - sb && r[p.b - sb] == p.a
    requires IsMatching(c, Consume(c, fa, p.a, p.b), sa, p.a + 1, sb, p.b, r[..p.b - sb], rest)
    requires IsMatching(c, rest, p.a, ea, p.b + 1, eb, r[p.b - sb + 1..], fa')
    ensures MatchedFirst(c, fa, sa, ea, sb, eb, r, fa', p.b, p.a, rest)
  {
    hide IsPivot, IsMatching;
  }

  lemma NoMatching(c: Chunk, fa: seq<Fingerprint>, sa: int, ea: int, sb: int, eb: int)
    requires Within(c, sa, ea, sb, eb) && |fa| == c.lengthA
    requires forall b, a :: !IsPivot(c, fa, sa, ea, sb, eb, b, a)
    requires forall b, a | sb <= b < eb && sa <= a < ea :: Score(c, fa, b, a) == 0
    ensures IsMatching(c, fa, sa, ea, sb, eb, seq(eb - sb, _ => -1), fa)
  {
    hide IsPivot, Score;
  }

  // ---- there is only one

  lemma OneCertain(c: Chunk, fa: seq<Fingerprint>, sa: int, ea: int, b: int, a1: int, v1: int, a2: int, v2: int)
    requires Certain(c, fa, sa, ea, b, a1, v1) && Certain(c, fa, sa, ea, b, a2, v2)
    ensures a1 == a2 && v1 == v2
  {
    hide Score;
  }

  lemma OnePivot(c: Chunk, fa: seq<Fingerprint>, sa: int, ea: int, sb: int, eb: int, b1: int, a1: int, b2: int, a2: int)
    requires IsPivot(c, fa, sa, ea, sb, eb, b1, a1) && IsPivot(c, fa, sa, ea, sb, eb, b2, a2)
    ensures b1 == b2 && a1 == a2 && sb <= b1 < eb
  {
    hide Score;
    var v1 :| Certain(c, fa, sa, ea, b1, a1, v1) && forall b', a', v' | sb <= b' < eb
                                                      && Certain(c, fa, sa, ea, b', a', v') ::
                v' <= v1 && (b' < b1 ==> v' < v1);
    var v2 :| Certain(c, fa, sa, ea, b2, a2, v2) && forall b', a', v' | sb <= b' < eb
                                                      && Certain(c, fa, sa, ea, b', a', v') ::
                v' <= v2 && (b' < b2 ==> v' < v2);
    hide Certain;
    assert b1 == b2;
    OneCertain(c, fa, sa, ea, b1, a1, v1, a2, v2);
  }

  /** The promise leaves no choice. */
  lemma {:induction false} OneMatching(c: Chunk, fa: seq<Fingerprint>, sa: int, ea: int, sb: int, eb: int, r: seq<int>,
                                       fr: seq<Fingerprint>, q: seq<int>, fq: seq<Fingerprint>)
    requires Within(c, sa, ea, sb, eb) && IsMatching(c, fa, sa, ea, sb, eb, r, fr)
    requires IsMatching(c, fa, sa, ea, sb, eb, q, fq)
    ensures r == q && fr == fq
    decreases eb - sb
  {
    hide IsPivot, Score;
    if exists b, a :: IsPivot(c, fa, sa, ea, sb, eb, b, a) {
      var b, a, rest :| MatchedFirst(c, fa, sa, ea, sb, eb, r, fr, b, a, rest);
      var b2, a2, rest2 :| MatchedFirst(c, fa, sa, ea, sb, eb, q, fq, b2, a2, rest2);
      hide IsMatching;
      OnePivot(c, fa, sa, ea, sb, eb, b, a, b2, a2);
      var fa1 := fa[a - c.startA := fa[a - c.startA] - c.fb[b - c.startB]];
      OneMatching(c, fa1, sa, a + 1, sb, b, r[..b - sb], rest, q[..b - sb], rest2);
      OneMatching(c, rest, a, ea, b + 1, eb, r[b - sb + 1..], fr, q[b - sb + 1..], fq);
      assert r == r[..b - sb] + [a] + r[b - sb + 1..];
      assert q == q[..b - sb] + [a] + q[b - sb + 1..];
    }
  }

  // ---- scores

  /** The line of A at the relative place of the middle of line `b`. */
  lemma ClosestIs(c: Chunk, b: int)
    requires c.Valid() && c.HasB(b)
    ensures c.HasA(c.Closest(b))
    ensures var x, middle := c.Closest(b) - c.startA, ((b - c.startB) * 2 + 1) * c.lengthA;
            c.lengthB * 2 * x <= middle < c.lengthB * 2 * (x + 1)
  {
    ClosestFrom(b - c.startB, c.lengthA, c.lengthB, c.Closest(b) - c.startA);
  }

  lemma ClosestFrom(k: int, la: int, lb: int, x: int)
    requires 0 <= k < lb && 0 < la && x == (k * 2 + 1) * la / (lb * 2)
    ensures 0 <= x < la && lb * 2 * x <= (k * 2 + 1) * la < lb * 2 * (x + 1)
  {
    var n, y := lb * 2, k * 2 + 1;
    MulMonotone(y, n - 1, la);
    MulMonotone(0, y, la);
    Inside(y * la, n, la);
  }

  lemma Inside(middle: nat, n: nat, length: nat)
    requires n > 0 && middle <= (n - 1) * length && length > 0
    ensures n * (middle / n) <= middle < n * (middle / n + 1) && middle / n < length
  {
    var q := middle / n;
    assert middle == n * q + middle % n;
    assert (n - 1) * length == n * length - length;
    if q >= length { MulMonotone(length, q, n); }
  }

  /** Lines at most 10 away are scored by the byte pairs they share, less a thousandth for each
      line of distance; others are not. */
  lemma ScoreIs(c: Chunk, fa: seq<Fingerprint>, b: int, a: int)
    requires c.Valid() && |fa| == c.lengthA && c.HasA(a) && c.HasB(b)
    ensures var away, shared := Abs(a - c.Closest(b)), |c.fb[b - c.startB] * fa[a - c.startA]|;
            Score(c, fa, b, a) == if away <= 10 then shared * (1000 - away) else 0
  {
    ClosestIs(c, b);
  }

  /** Of two lines with as many byte pairs in common the nearer one scores higher. */
  lemma NearerWins(c: Chunk, fa: seq<Fingerprint>, b: int, a1: int, a2: int)
    requires c.Valid() && |fa| == c.lengthA && c.Near(b, a1) && c.HasA(a2)
    requires var x := c.fb[b - c.startB];
             |x * fa[a1 - c.startA]| == |x * fa[a2 - c.startA]| > 0
    requires Abs(a1 - c.Closest(b)) < Abs(a2 - c.Closest(b))
    ensures Score(c, fa, b, a1) > Score(c, fa, b, a2)
  {
    var size, near, far := |c.fb[b - c.startB] * fa[a1 - c.startA]|, Abs(a1 - c.Closest(b)), Abs(a2 - c.Closest(b));
    assert near <= 10;
    assert Score(c, fa, b, a1) == Scaled(size, near);
    assert Score(c, fa, b, a2) == if c.Near(b, a2) then Scaled(size, far) else 0;
    hide Score, Chunk.Closest, Chunk.Near;
    Farther(size, near, far);
  }

  lemma Farther(size: nat, near: int, far: int)
    requires size > 0 && 0 <= near < far && near <= 10
    ensures size * (1000 - near) > 0 && size * (1000 - near) > size * (1000 - far)
  {
    assert size * (1000 - near) - size * (1000 - far) == size * (far - near);
  }
}
