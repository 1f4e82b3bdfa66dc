/** Guessing where the lines of an ignored commit come from: scan_parent_range and
    guess_line_blames of blame.c. */
module BlameGuess {
  import opened Wrappers
  import opened FuzzySpec
  import FuzzyMatch
  import opened FuzzyPivot
  import opened BlameEntries
  import opened BlameIgnore
  import opened BlameHunks
  import opened BlameBoard

  // ---- any line of the parent

  const THRESHOLD := 10

  function Similarity(a: Fingerprint, b: Fingerprint): nat { |a * b| }

  /** Line `p` is as similar as `q` and not further away, or more similar. */
  predicate AtLeast(fp: Fingerprint, prints: seq<Fingerprint>, at: int, p: nat, q: nat)
    requires p < |prints| && q < |prints|
  {
    var sp, sq := Similarity(fp, prints[p]), Similarity(fp, prints[q]);
    sp > sq || (sp == sq && (Abs(p - at) < Abs(q - at) || (Abs(p - at) == Abs(q - at) && p >= q)))
  }

  /** The best line of the first `n`: the most similar, then the nearest, then the later one;
      -1 when none is similar enough. */
  ghost predicate BestLine(fp: Fingerprint, prints: seq<Fingerprint>, at: int, n: nat, best: int)
    requires n <= |prints|
  {
    if best < 0 then best == -1 && forall p | 0 <= p < n :: Similarity(fp, prints[p]) < THRESHOLD
    else
      && best < n && Similarity(fp, prints[best]) >= THRESHOLD
      && forall p | 0 <= p < n :: AtLeast(fp, prints, at, best, p)
  }

  lemma LineOrder(fp: Fingerprint, prints: seq<Fingerprint>, at: int, p: nat, q: nat, r: nat)
    requires p < |prints| && q < |prints| && r < |prints|
    ensures AtLeast(fp, prints, at, p, q) && AtLeast(fp, prints, at, q, r) ==> AtLeast(fp, prints, at, p, r)
    ensures AtLeast(fp, prints, at, p, q) || AtLeast(fp, prints, at, q, p)
    ensures AtLeast(fp, prints, at, p, q) && AtLeast(fp, prints, at, q, p) ==> p == q
  {
    hide Similarity;
  }

  /** The best line when one more is looked at. */
  lemma BestNext(fp: Fingerprint, prints: seq<Fingerprint>, at: int, n: nat, best: int)
    requires n < |prints| && BestLine(fp, prints, at, n, best)
    ensures Similarity(fp, prints[n]) < THRESHOLD || (best >= 0 && !AtLeast(fp, prints, at, n, best)) ==>
              BestLine(fp, prints, at, n + 1, best)
    ensures Similarity(fp, prints[n]) >= THRESHOLD && (best >= 0 ==> AtLeast(fp, prints, at, n, best)) ==>
              BestLine(fp, prints, at, n + 1, n)
  {
    hide Similarity;
    if best >= 0 {
      LineOrder(fp, prints, at, n, best, n);
      forall p | 0 <= p < n && AtLeast(fp, prints, at, n, best) ensures AtLeast(fp, prints, at, n, p) {
        LineOrder(fp, prints, at, n, best, p);
      }
    }
  }

  /** scan_parent_range over the whole parent. */
  method ScanParent(fp: Fingerprint, prints: seq<Fingerprint>, at: int) returns (best: int)
    ensures BestLine(fp, prints, at, |prints|, best)
  {
    hide Similarity;
    var bestVal: int := THRESHOLD;
    best := -1;
    for p := 0 to |prints|
      invariant BestLine(fp, prints, at, p, best) && best < p
      invariant bestVal == if best < 0 then THRESHOLD else Similarity(fp, prints[best])
    {
      var sim := Similarity(fp, prints[p]);
      BestNext(fp, prints, at, p, best);
      if sim < bestVal {
        continue;
      }
      if sim == bestVal && best != -1 && Abs(best - at) < Abs(p - at) {
        continue;
      }
      bestVal, best := sim, p;
    }
  }

  /** There is only one best line. */
  lemma OneBest(fp: Fingerprint, prints: seq<Fingerprint>, at: int, best: int, best': int)
    requires BestLine(fp, prints, at, |prints|, best) && BestLine(fp, prints, at, |prints|, best')
    ensures best == best'
  {
    hide Similarity;
    if best >= 0 && best' >= 0 {
      LineOrder(fp, prints, at, best, best', best);
    }
  }

  function Scan(fp: Fingerprint, prints: seq<Fingerprint>, at: int, n: nat): (best: int)
    requires n <= |prints|
    ensures BestLine(fp, prints, at, n, best)
  {
    if n == 0 then -1
    else
      var before := Scan(fp, prints, at, n - 1);
      BestNext(fp, prints, at, n - 1, before);
      if Similarity(fp, prints[n - 1]) < THRESHOLD
         || (before >= 0 && !AtLeast(fp, prints, at, n - 1, before)) then before
      else n - 1
  }

  // ---- the lines of a chunk

  /** The guess for a line: its match in the chunk, or else the best line of the parent. */
  function GuessOne(found: int, scan: int, at: int): Tracker {
    if found >= 0 then Tracker(true, found) else if scan >= 0 then Tracker(true, scan) else Tracker(false, at)
  }

  /** The chunk lies in both files. */
  predicate InFiles(h: Hunk, parents: nat, targets: nat) {
    0 <= h.startA && 0 <= h.countA && h.startA + h.countA <= parents && 0 <= h.startB < h.EndB() <= targets
  }

  /** What fuzzy matching finds, and what it leaves of the parent's fingerprints. */
  function Fuzzy(h: Hunk, prints: seq<Fingerprint>, targets: seq<Fingerprint>): (r: (seq<int>, seq<Fingerprint>))
    requires InFiles(h, |prints|, |targets|)
    ensures |r.0| == h.countB && |r.1| == |prints|
  {
    if h.countA <= 0 then (seq(h.countB, _ => -1), prints)
    else
      var c := FuzzySpec.Chunk(h.startA, h.countA, h.startB, h.countB, targets[h.startB..h.EndB()]);
      var (found, left) := Match(c, prints[h.startA..h.startA + h.countA], h.startA, h.startA + h.countA, h.startB,
                                 h.EndB());
      (found, prints[..h.startA] + left + prints[h.startA + h.countA..])
  }

  /** The guesses for a chunk, and what is left of the fingerprints. */
  function Guessed(h: Hunk, prints: seq<Fingerprint>, targets: seq<Fingerprint>): (r: (seq<Tracker>, seq<Fingerprint>))
    ensures |r.1| == |prints|
  {
    if !InFiles(h, |prints|, |targets|) then ([], prints)
    else
      var (found, left) := Fuzzy(h, prints, targets);
      (Trackers(h, found, left, targets), left)
  }

  function Trackers(h: Hunk, found: seq<int>, left: seq<Fingerprint>, targets: seq<Fingerprint>): (r: seq<Tracker>)
    requires InFiles(h, |left|, |targets|) && |found| == h.countB
    ensures |r| == h.countB
    ensures forall i | 0 <= i < h.countB ::
              r[i] == GuessOne(found[i], Scan(targets[h.startB + i], left, h.startB + i, |left|), h.startB + i)
  {
    seq(h.countB, i requires 0 <= i < h.countB =>
      GuessOne(found[i], Scan(targets[h.startB + i], left, h.startB + i, |left|), h.startB + i))
  }

  /** What the guesses mean: the lines of the chunk are matched, the most certain first; a line
      without a match gets the best line of the parent by what is left of the fingerprints,
      and stays if none is similar enough. */
  ghost predicate AreGuesses(h: Hunk, prints: seq<Fingerprint>, targets: seq<Fingerprint>, trackers: seq<Tracker>,
                             left: seq<Fingerprint>)
    requires InFiles(h, |prints|, |targets|)
  {
    exists found :: Matched(h, prints, targets, found, left) && |trackers| == h.countB
      && forall i | 0 <= i < h.countB :: IsGuess(h, targets, left, found[i], i, trackers[i])
  }

  ghost predicate Matched(h: Hunk, prints: seq<Fingerprint>, targets: seq<Fingerprint>, found: seq<int>,
                          left: seq<Fingerprint>)
    requires InFiles(h, |prints|, |targets|)
  {
    var a, b := h.startA, h.startA + h.countA;
    && |found| == h.countB && |left| == |prints| && left[..a] == prints[..a] && left[b..] == prints[b..]
    && if h.countA == 0 then forall i | 0 <= i < |found| :: found[i] == -1
       else
         var c := FuzzySpec.Chunk(a, h.countA, h.startB, h.countB, targets[h.startB..h.EndB()]);
         IsMatching(c, prints[a..b], a, b, h.startB, h.EndB(), found, left[a..b])
  }

  ghost predicate IsGuess(h: Hunk, targets: seq<Fingerprint>, left: seq<Fingerprint>, found: int, i: int, t: Tracker)
    requires 0 <= h.startB + i < |targets|
  {
    var at := h.startB + i;
    if found >= 0 then t == Tracker(true, found)
    else exists best :: BestLine(targets[at], left, at, |left|, best)
          && t == if best >= 0 then Tracker(true, best) else Tracker(false, at)
  }

  lemma GuessedAre(h: Hunk, prints: seq<Fingerprint>, targets: seq<Fingerprint>)
    requires InFiles(h, |prints|, |targets|)
    ensures var r := Guessed(h, prints, targets); AreGuesses(h, prints, targets, r.0, r.1)
  {
    hide Fuzzy, Matched, IsGuess, Guessed, Trackers;
    FuzzyMatched(h, prints, targets);
    GuessedIs(h, prints, targets);
    var found, left := Fuzzy(h, prints, targets).0, Fuzzy(h, prints, targets).1;
    var trackers := Trackers(h, found, left, targets);
    forall i | 0 <= i < h.countB ensures IsGuess(h, targets, left, found[i], i, trackers[i]) {
      TrackerIs(h, found, left, targets, i);
    }
  }

  lemma GuessedIs(h: Hunk, prints: seq<Fingerprint>, targets: seq<Fingerprint>)
    requires InFiles(h, |prints|, |targets|)
    ensures var r := Fuzzy(h, prints, targets); Guessed(h, prints, targets) == (Trackers(h, r.0, r.1, targets), r.1)
  {
    hide Fuzzy, Trackers;
  }

  lemma TrackerIs(h: Hunk, found: seq<int>, left: seq<Fingerprint>, targets: seq<Fingerprint>, i: nat)
    requires InFiles(h, |left|, |targets|) && |found| == h.countB && i < h.countB
    ensures IsGuess(h, targets, left, found[i], i, Trackers(h, found, left, targets)[i])
  {
    hide Scan, BestLine;
    var at := h.startB + i;
    assert BestLine(targets[at], left, at, |left|, Scan(targets[at], left, at, |left|));
  }

  lemma FuzzyMatched(h: Hunk, prints: seq<Fingerprint>, targets: seq<Fingerprint>)
    requires InFiles(h, |prints|, |targets|)
    ensures var r := Fuzzy(h, prints, targets); Matched(h, prints, targets, r.0, r.1)
  {
    hide Match, IsMatching;
    var a, b := h.startA, h.startA + h.countA;
    if h.countA > 0 {
      var c := FuzzySpec.Chunk(a, h.countA, h.startB, h.countB, targets[h.startB..h.EndB()]);
      MatchIsMatching(c, prints[a..b], a, b, h.startB, h.EndB());
      var left := Match(c, prints[a..b], a, b, h.startB, h.EndB()).1;
      var all := prints[..a] + left + prints[b..];
      assert all[..a] == prints[..a] && all[b..] == prints[b..] && all[a..b] == left;
    }
  }

  /** guess_line_blames, consuming the parent's fingerprints. */
  method GuessLines(h: Hunk, prints: array<Fingerprint>, targets: seq<Fingerprint>) returns (trackers: seq<Tracker>)
    requires InFiles(h, prints.Length, |targets|)
    modifies prints
    ensures (trackers, prints[..]) == Guessed(h, old(prints[..]), targets)
    ensures AreGuesses(h, old(prints[..]), targets, trackers, prints[..])
  {
    hide Match, Scan, BestLine, Fuzzy, AreGuesses;
    GuessedAre(h, prints[..], targets);
    var found := FuzzyIn(h, prints, targets);
    ghost var left := prints[..];
    trackers := [];
    for i := 0 to h.countB
      invariant |trackers| == i && prints[..] == left
      invariant forall k | 0 <= k < i :: trackers[k] == Trackers(h, found, left, targets)[k]
    {
      var at := h.startB + i;
      var best := -1;
      if found[i] < 0 {
        best := ScanParent(targets[at], prints[..], at);
        OneBest(targets[at], left, at, best, Scan(targets[at], left, at, |left|));
      }
      trackers := trackers + [GuessOne(found[i], best, at)];
    }
    assert trackers == Trackers(h, found, left, targets);
  }

  /** fuzzy_find_matching_lines on the chunk's part of the fingerprints. */
  method FuzzyIn(h: Hunk, prints: array<Fingerprint>, targets: seq<Fingerprint>) returns (found: seq<int>)
    requires InFiles(h, prints.Length, |targets|)
    modifies prints
    ensures (found, prints[..]) == Fuzzy(h, old(prints[..]), targets)
  {
    hide Match, IsMatching, InOrder, Fuzzy;
    var a, n := h.startA, h.countA;
    var part := new Fingerprint[n](i requires 0 <= i < n reads prints => prints[a + i]);
    ghost var before := prints[..];
    assert part[..] == before[a..a + n];
    var r := FuzzyMatch.FindMatchingLines(a, n, h.startB, h.countB, part, targets[h.startB..h.EndB()]);
    if r.None? {
      found := seq(h.countB, _ => -1);
      FuzzyNone(h, prints[..], targets);
      return;
    }
    found := r.value;
    ghost var c := FuzzySpec.Chunk(a, n, h.startB, h.countB, targets[h.startB..h.EndB()]);
    ghost var left := part[..];
    assert Match(c, before[a..a + n], a, a + n, h.startB, h.EndB()) == (found, left);
    PutBack(prints, part, a);
    FuzzyIs(h, before, targets, found, left);
  }

  /** Copy a part back to where it came from. */
  method PutBack(prints: array<Fingerprint>, part: array<Fingerprint>, a: nat)
    requires prints != part && a + part.Length <= prints.Length
    modifies prints
    ensures part[..] == old(part[..])
    ensures prints[..] == old(prints[..a]) + part[..] + old(prints[a + part.Length..])
  {
    ghost var before := prints[..];
    for i := 0 to part.Length
      invariant part[..] == old(part[..])
      invariant forall k | 0 <= k < prints.Length :: prints[k] == if a <= k < a + i then part[k - a] else before[k]
    {
      prints[a + i] := part[i];
    }
    assert prints[..] == before[..a] + part[..] + before[a + part.Length..];
  }

  lemma FuzzyNone(h: Hunk, prints: seq<Fingerprint>, targets: seq<Fingerprint>)
    requires InFiles(h, |prints|, |targets|) && h.countA <= 0
    ensures Fuzzy(h, prints, targets) == (seq(h.countB, _ => -1), prints)
  {}

  lemma FuzzyIs(h: Hunk, prints: seq<Fingerprint>, targets: seq<Fingerprint>, found: seq<int>, left: seq<Fingerprint>)
    requires InFiles(h, |prints|, |targets|) && h.countA > 0
    requires var c := FuzzySpec.Chunk(h.startA, h.countA, h.startB, h.countB, targets[h.startB..h.EndB()]);
             Match(c, prints[h.startA..h.startA + h.countA], h.startA, h.startA + h.countA, h.startB, h.EndB())
               == (found, left)
    ensures Fuzzy(h, prints, targets) == (found, prints[..h.startA] + left + prints[h.startA + h.countA..])
  {
    hide Match;
  }

  lemma FuzzyInside(h: Hunk, prints: seq<Fingerprint>, targets: seq<Fingerprint>)
    requires InFiles(h, |prints|, |targets|)
    ensures forall i | 0 <= i < h.countB :: -1 <= Fuzzy(h, prints, targets).0[i] < |prints|
  {
    hide Match, InOrder;
    if h.countA > 0 {
      var c := FuzzySpec.Chunk(h.startA, h.countA, h.startB, h.countB, targets[h.startB..h.EndB()]);
      var part := prints[h.startA..h.startA + h.countA];
      MatchInOrder(c, part, h.startA, h.startA + h.countA, h.startB, h.EndB());
      var r := Match(c, part, h.startA, h.startA + h.countA, h.startB, h.EndB());
      FuzzyIs(h, prints, targets, r.0, r.1);
      InRange(r.0, h.startA, h.startA + h.countA);
    }
  }

  lemma InRange(r: seq<int>, sa: int, ea: int)
    requires InOrder(r, sa, ea)
    ensures forall i | 0 <= i < |r| :: r[i] == -1 || sa <= r[i] < ea
  {}

  /** A guess is a line of the parent, or the line itself. */
  predicate Inside(t: Tracker, parents: nat, at: int) {
    if t.isParent then 0 <= t.s < parents else t.s == at
  }

  lemma TrackersInside(h: Hunk, found: seq<int>, left: seq<Fingerprint>, targets: seq<Fingerprint>)
    requires InFiles(h, |left|, |targets|) && |found| == h.countB
    requires forall i | 0 <= i < h.countB :: -1 <= found[i] < |left|
    ensures forall i | 0 <= i < h.countB :: Inside(Trackers(h, found, left, targets)[i], |left|, h.startB + i)
  {
    hide Scan, Trackers, Similarity, AtLeast;
    forall i | 0 <= i < h.countB ensures Inside(Trackers(h, found, left, targets)[i], |left|, h.startB + i) {
      var scan := Scan(targets[h.startB + i], left, h.startB + i, |left|);
      assert BestLine(targets[h.startB + i], left, h.startB + i, |left|, scan);
    }
  }

  lemma GuessedInside(h: Hunk, prints: seq<Fingerprint>, targets: seq<Fingerprint>)
    ensures forall i | 0 <= i < |Guessed(h, prints, targets).0| ::
              Inside(Guessed(h, prints, targets).0[i], |prints|, h.startB + i)
  {
    hide Fuzzy, Trackers, Inside;
    if InFiles(h, |prints|, |targets|) {
      FuzzyInside(h, prints, targets);
      var (found, left) := Fuzzy(h, prints, targets);
      TrackersInside(h, found, left, targets);
    }
  }

  // ---- the hunks of a diff in turn

  /** The guesses for each hunk; what one hunk matched is not there for the next. */
  function GuessedAll(hunks: seq<Hunk>, prints: seq<Fingerprint>, targets: seq<Fingerprint>): (r: seq<seq<Tracker>>)
    ensures |r| == |hunks|
  {
    if hunks == [] then []
    else
      var (first, left) := Guessed(hunks[0], prints, targets);
      [first] + GuessedAll(hunks[1..], left, targets)
  }

  /** The guesses for the hunks of a diff, in the order blame_chunk asks for them. */
  method GuessAll(hunks: seq<Hunk>, prints: array<Fingerprint>, targets: seq<Fingerprint>)
    returns (all: seq<seq<Tracker>>)
    requires forall h | h in hunks && h.countB > 0 :: InFiles(h, prints.Length, |targets|)
    modifies prints
    ensures all == GuessedAll(hunks, old(prints[..]), targets)
  {
    hide Guessed;
    all := [];
    assert hunks[0..] == hunks;
    for i := 0 to |hunks|
      invariant all + GuessedAll(hunks[i..], prints[..], targets) == GuessedAll(hunks, old(prints[..]), targets)
    {
      var h := hunks[i];
      assert hunks[i..][0] == h && hunks[i..][1..] == hunks[i + 1..];
      var trackers := [];
      if h.countB > 0 {
        trackers := GuessLines(h, prints, targets);
      } else {
        NoGuess(h, prints[..], targets);
      }
      all := all + [trackers];
    }
  }

  /** An empty chunk needs no guesses. */
  lemma NoGuess(h: Hunk, prints: seq<Fingerprint>, targets: seq<Fingerprint>)
    requires h.countB <= 0
    ensures Guessed(h, prints, targets) == ([], prints)
  {}

  lemma {:induction false} GuessedAllInside(hunks: seq<Hunk>, prints: seq<Fingerprint>, targets: seq<Fingerprint>,
                                            k: nat)
    requires k < |hunks|
    ensures forall i | 0 <= i < |GuessedAll(hunks, prints, targets)[k]|
            && GuessedAll(hunks, prints, targets)[k][i].isParent ::
              0 <= GuessedAll(hunks, prints, targets)[k][i].s < |prints|
    decreases k
  {
    var left := Guessed(hunks[0], prints, targets).1;
    if k == 0 {
      GuessedInside(hunks[0], prints, targets);
    } else {
      GuessedAllInside(hunks[1..], left, targets, k - 1);
    }
    hide Guessed;
  }

  /** The place of a hunk in the diff. */
  function IndexOf(hunks: seq<Hunk>, h: Hunk): (k: nat)
    ensures k <= |hunks| && (k < |hunks| ==> hunks[k] == h)
  {
    if hunks == [] || hunks[0] == h then 0 else 1 + IndexOf(hunks[1..], h)
  }

  /** The guesses for a hunk of a diff. */
  function GuessFor(hunks: seq<Hunk>, prints: seq<Fingerprint>, targets: seq<Fingerprint>, h: Hunk): seq<Tracker> {
    var k := IndexOf(hunks, h);
    if k < |hunks| then GuessedAll(hunks, prints, targets)[k] else []
  }

  /** The repository's guesses are those of guess_line_blames on the fingerprints of the files. */
  ghost predicate Guessing(repo: Repo, prints: Blob -> seq<Fingerprint>) {
    && (forall b: Blob :: |prints(b)| == |b|)
    && forall p: Origin, t: Origin, h: Hunk ::
         repo.guess(p, t, h) == GuessFor(repo.diff(repo.blob(p), repo.blob(t)), prints(repo.blob(p)),
                                         prints(repo.blob(t)), h)
  }

  /** Such guesses are lines of the parent, which is all that blame asks of them. */
  lemma GuessesSound(repo: Repo, prints: Blob -> seq<Fingerprint>)
    requires Guessing(repo, prints)
    ensures GuessesInside(repo)
  {
    hide GuessedAll;
    forall p: Origin, t: Origin, h: Hunk, i: int | 0 <= i < |repo.guess(p, t, h)| && repo.guess(p, t, h)[i].isParent
      ensures 0 <= repo.guess(p, t, h)[i].s < |repo.blob(p)|
    {
      var hunks, fp, ft := repo.diff(repo.blob(p), repo.blob(t)), prints(repo.blob(p)), prints(repo.blob(t));
      var k := IndexOf(hunks, h);
      assert repo.guess(p, t, h) == GuessFor(hunks, fp, ft, h);
      GuessedAllInside(hunks, fp, ft, k);
    }
  }
}
