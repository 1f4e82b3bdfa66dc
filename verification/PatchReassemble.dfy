/** From chosen hunks to a patch: merge_hunks, reassemble_patch and the header part of
    render_hunk of add-patch.c, and what applying the patch does. */
module PatchReassemble {
  import opened PatchScript
  import opened PatchSplit

  // ---- hunks as a sequence

  lemma Relink(s: Script, h: Hunk, g: Hunk, h': Hunk, g': Hunk)
    requires Overlap(s, h, g) || Apart(s, h, g)
    requires HunkOk(s, h') && HunkOk(s, g') && h'.end == h.end && g'.start == g.start
    ensures Overlap(s, h', g') || Apart(s, h', g')
  {
    hide Count;
    var k := SomeStart(s, h'.start, h'.end);
    var n := SomeStart(s, g'.start, g'.end);
  }

  lemma AllHunksOk(s: Script, hs: seq<Hunk>, k: nat, parts: seq<Hunk>, r: seq<Hunk>)
    requires (forall i | 0 <= i < |hs| :: HunkOk(s, hs[i])) && (forall j | 0 <= j < |parts| :: HunkOk(s, parts[j]))
    requires k < |hs| && r == hs[..k] + parts + hs[k + 1..]
    ensures forall i | 0 <= i < |r| :: HunkOk(s, r[i])
  {
    hide HunkOk;
    forall i | 0 <= i < |r| ensures HunkOk(s, r[i]) {
      assert r[i] == if i < k then hs[i] else if i < k + |parts| then parts[i - k] else hs[i - |parts| + 1];
    }
  }

  /** A hunk may be replaced by its parts. */
  lemma PartsFit(s: Script, hs: seq<Hunk>, k: nat, parts: seq<Hunk>)
    requires HunksOk(s, hs) && k < |hs| && Parts(s, hs[k], parts)
    ensures HunksOk(s, hs[..k] + parts + hs[k + 1..])
  {
    var r := hs[..k] + parts + hs[k + 1..];
    hide HunkOk;
    AllHunksOk(s, hs, k, parts, r);
    forall i | 0 <= i < |r| - 1 ensures Overlap(s, r[i], r[i + 1]) || Apart(s, r[i], r[i + 1]) {
      PartsLinked(s, hs, k, parts, i, r[i], r[i + 1]);
    }
  }

  lemma PartsLinked(s: Script, hs: seq<Hunk>, k: nat, parts: seq<Hunk>, i: nat, p: Hunk, q: Hunk)
    requires HunksOk(s, hs) && k < |hs| && Parts(s, hs[k], parts) && i + 1 < |hs| + |parts| - 1
    requires HunkOk(s, p) && HunkOk(s, q)
    requires p == (hs[..k] + parts + hs[k + 1..])[i] && q == (hs[..k] + parts + hs[k + 1..])[i + 1]
    ensures Overlap(s, p, q) || Apart(s, p, q)
  {
    hide HunkOk, Covered;
    if i + 1 < k {
    } else if i + 1 == k {
      Relink(s, hs[i], hs[k], p, q);
    } else if i + 1 < k + |parts| {
      assert Cut(s, parts[i - k], parts[i - k + 1]);
    } else if i + 1 == k + |parts| {
      Relink(s, hs[k], hs[k + 1], p, q);
    } else {
      assert p == hs[i - |parts| + 1] && q == hs[i - |parts| + 2];
    }
  }

  lemma {:induction false} Ascending(s: Script, hs: seq<Hunk>, i: nat, k: nat)
    requires HunksOk(s, hs) && i < k < |hs|
    ensures hs[i].start < hs[k].start && hs[i].end < hs[k].end
    decreases k
  {
    hide HunkOk, Covered;
    assert Overlap(s, hs[k - 1], hs[k]) || Apart(s, hs[k - 1], hs[k]);
    if i < k - 1 { Ascending(s, hs, i, k - 1); }
  }

  /** Hunks that are not neighbours do not touch. */
  lemma Far(s: Script, hs: seq<Hunk>, i: nat, k: nat)
    requires HunksOk(s, hs) && i + 1 < k < |hs|
    ensures hs[i].end < hs[k].start
  {
    var g := hs[i + 1];
    assert Overlap(s, hs[i], g) || Apart(s, hs[i], g);
    assert Overlap(s, g, hs[i + 2]) || Apart(s, g, hs[i + 2]);
    assert HunkOk(s, g);
    var c := SomeStart(s, g.start, g.end);
    hide HunkOk;
    if i + 2 < k { Ascending(s, hs, i + 2, k); }
  }

  /** A changed line is in one hunk only. */
  lemma OneHunk(s: Script, hs: seq<Hunk>, i: nat, k: nat, x: nat)
    requires HunksOk(s, hs) && i < |hs| && k < |hs| && x < |s| && Change(s[x])
    requires hs[i].start <= x < hs[i].end && hs[k].start <= x < hs[k].end
    ensures i == k
  {
    if i < k { NotBoth(s, hs, i, k, x); }
    if k < i { NotBoth(s, hs, k, i, x); }
  }

  lemma NotBoth(s: Script, hs: seq<Hunk>, i: nat, k: nat, x: nat)
    requires HunksOk(s, hs) && i < k < |hs| && hs[i].start <= x < hs[i].end && hs[k].start <= x < hs[k].end
    ensures x < |s| && s[x].mark == Ctx
  {
    hide HunkOk, Covered;
    assert Overlap(s, hs[i], hs[i + 1]) || Apart(s, hs[i], hs[i + 1]);
    if i + 1 < k { Far(s, hs, i, k); }
  }

  // ---- merging

  predicate Picked(h: Hunk, all: bool) {
    all || h.use == Used
  }

  /** merge_hunks cannot see that chosen neighbours overlap: no line of the first one before the
      second is in the new text. */
  ghost predicate Missed(s: Script, hs: seq<Hunk>, all: bool, k: nat) {
    && k + 1 < |hs| && Picked(hs[k], all) && Picked(hs[k + 1], all) && Overlap(s, hs[k], hs[k + 1])
    && Count(s, hs[k].start, hs[k + 1].start, New) == 0
  }

  ghost predicate OverlapsSeen(s: Script, hs: seq<Hunk>, all: bool) {
    forall k | 0 <= k < |hs| - 1 :: !Missed(s, hs, all, k)
  }

  /** Only a hunk that begins with a deletion is missed, and it overlaps nothing before it. */
  lemma MissedBegins(s: Script, hs: seq<Hunk>, all: bool, k: nat)
    requires HunksOk(s, hs) && Missed(s, hs, all, k)
    ensures hs[k].start < |s| && s[hs[k].start].mark == Del && (k > 0 ==> Apart(s, hs[k - 1], hs[k]))
  {
    hide Groups, NotesLast, Covered, HunkHeader, TwoSided;
    assert HunkOk(s, hs[k]);
    CountSplit(s, hs[k].start, hs[k].start + 1, hs[k + 1].start, New);
    if k > 0 { assert Overlap(s, hs[k - 1], hs[k]) || Apart(s, hs[k - 1], hs[k]); }
  }

  /** The last of the chosen hunks that follow hunk `i` and are seen to overlap. */
  ghost function RunEnd(s: Script, hs: seq<Hunk>, i: nat, all: bool): (j: nat)
    requires i < |hs|
    ensures i <= j < |hs|
    decreases |hs| - i
  {
    if i + 1 < |hs| && Picked(hs[i + 1], all) && Overlap(s, hs[i], hs[i + 1])
       && Count(s, hs[i].start, hs[i + 1].start, New) > 0
    then RunEnd(s, hs, i + 1, all) else i
  }

  /** Among overlapping hunks the test sees exactly the ones with a line of the new text before
      them.  A leading context line ensures that; a leading deletion does not. */
  lemma OverlapSeen(s: Script, a: nat, b: nat, g: Hunk)
    requires a <= g.start < b <= |s| && g.end <= |s| && g.start <= g.end && g.header == HeaderOf(s, g.start, g.end)
    ensures var m := HeaderOf(s, a, b);
            !(m.newOffset >= g.header.newOffset || m.newOffset + m.newCount < g.header.newOffset) <==>
              Count(s, a, g.start, New) > 0
  {
    CountSplit(s, 0, a, g.start, New);
    CountSplit(s, 0, a, b, New);
    CountSplit(s, 0, g.start, b, New);
  }

  /** merge_hunks' test on line numbers: the hunks overlap and the overlap can be seen. */
  lemma MergeTest(s: Script, m: Hunk, h: Hunk, g: Hunk)
    requires g.end <= |s| && (Overlap(s, h, g) || Apart(s, h, g)) && g.header == HeaderOf(s, g.start, g.end)
    requires m.start <= h.start && m.end == h.end && m.header == HeaderOf(s, m.start, m.end)
    ensures !(m.header.newOffset >= g.header.newOffset || m.header.newOffset + m.header.newCount < g.header.newOffset)
       <==> Overlap(s, h, g) && Count(s, m.start, g.start, New) > 0
  {
    if Overlap(s, h, g) {
      hide HeaderOf;
      OverlapSeen(s, m.start, m.end, g);
    } else {
      CountSplit(s, 0, m.start, m.end, New);
      CountSplit(s, 0, h.end, g.start, New);
      CountCtx(s, h.end, g.start, New);
    }
  }

  /** The first of the merged hunks decides: the others begin with context. */
  lemma SeenFrom(s: Script, a: nat, h: Hunk, g: Hunk)
    requires a <= h.start && Overlap(s, h, g) && (a == h.start || s[h.start].mark == Ctx)
    ensures Count(s, a, g.start, New) > 0 <==> Count(s, h.start, g.start, New) > 0
  {
    if a < h.start {
      CtxTwoSided(s, a, h.start, g.start);
      CtxTwoSided(s, h.start, h.start, g.start);
    }
  }

  lemma MergedHeader(s: Script, a: nat, g: Hunk)
    requires g.start <= g.end <= |s| && a <= g.start && g.header == HeaderOf(s, g.start, g.end)
    ensures var h := HeaderOf(s, a, g.end);
            && h.oldCount == g.header.oldOffset + g.header.oldCount - h.oldOffset
            && h.newCount == g.header.newOffset + g.header.newCount - h.newOffset
  {
    CountSplit(s, 0, g.start, g.end, Old);
    CountSplit(s, 0, g.start, g.end, New);
    CountSplit(s, 0, a, g.end, Old);
    CountSplit(s, 0, a, g.end, New);
  }

  /** merge_hunks from a chosen hunk on.  Hunks that were not edited overlap in the buffer when
      their line numbers do. */
  method MergeHunks(hs: seq<Hunk>, i: nat, all: bool, ghost s: Script) returns (merged: Hunk, j: nat)
    requires HunksOk(s, hs) && i < |hs| && Picked(hs[i], all)
    ensures j == RunEnd(s, hs, i, all)
    ensures merged.start == hs[i].start && merged.end == hs[j].end && merged.start < merged.end <= |s|
    ensures merged.header == HunkHeader(s, merged.start, merged.end)
  {
    hide HunkOk, Covered, HeaderOf, HunkHeader, Overlap, Apart, TwoSided, Count;
    Shape(s, hs, i);
    merged, j := hs[i], i;
    while j + 1 < |hs|
      invariant i <= j < |hs| && RunEnd(s, hs, j, all) == RunEnd(s, hs, i, all)
      invariant merged.start == hs[i].start <= hs[j].start && merged.end == hs[j].end
                && merged.start < merged.end <= |s|
      invariant hs[j].start < |s| && (j == i || s[hs[j].start].mark == Ctx)
      invariant merged.header == HunkHeader(s, merged.start, merged.end)
      invariant |hs| > 1 ==> merged.header == HeaderOf(s, merged.start, merged.end)
    {
      var next := hs[j + 1];
      Shape(s, hs, j);
      Shape(s, hs, j + 1);
      MergeTest(s, merged, hs[j], next);
      if !Picked(next, all) || merged.header.newOffset >= next.header.newOffset
        || merged.header.newOffset + merged.header.newCount < next.header.newOffset
      {
        Stays(s, hs, merged.start, j, all);
        return;
      }
      Extends(s, hs[j], next);
      assert merged.start < next.start && merged.end > next.start;
      SeenFrom(s, merged.start, hs[j], next);
      CtxTwoSided(s, merged.start, next.start, next.end);
      MergedHeader(s, merged.start, next);
      HeaderStart(s, merged.start, merged.end, next.end);
      merged := merged.(end := next.end,
                        header := merged.header.(oldCount := next.header.oldOffset
                            + next.header.oldCount - merged.header.oldOffset,
                                                 newCount := next.header.newOffset
                                                   + next.header.newCount - merged.header.newOffset));
      j := j + 1;
    }
  }

  lemma Stays(s: Script, hs: seq<Hunk>, a: nat, j: nat, all: bool)
    requires j + 1 < |hs| && a <= hs[j].start < |s| && (a == hs[j].start || s[hs[j].start].mark == Ctx)
    requires a <= hs[j + 1].start <= |s|
    requires !(Picked(hs[j + 1], all) && Overlap(s, hs[j], hs[j + 1]) && Count(s, a, hs[j + 1].start, New) > 0)
    ensures RunEnd(s, hs, j, all) == j
  {
    hide Overlap;
    if Overlap(s, hs[j], hs[j + 1]) {
      Extends(s, hs[j], hs[j + 1]);
      SeenFrom(s, a, hs[j], hs[j + 1]);
    }
  }

  /** Only a file's one hunk can have an empty side. */
  lemma Shape(s: Script, hs: seq<Hunk>, i: nat)
    requires HunksOk(s, hs) && i < |hs|
    ensures hs[i].start < hs[i].end <= |s| && hs[i].header == HunkHeader(s, hs[i].start, hs[i].end)
    ensures |hs| > 1 ==> TwoSided(s, hs[i].start, hs[i].end) && hs[i].header == HeaderOf(s, hs[i].start, hs[i].end)
    ensures i + 1 < |hs| ==> hs[i].start < hs[i + 1].start < |s|
    ensures i + 1 < |hs| ==> Overlap(s, hs[i], hs[i + 1]) || Apart(s, hs[i], hs[i + 1])
  {
    hide HunkHeader, TwoSided;
    assert HunkOk(s, hs[i]);
    if i + 1 < |hs| {
      assert HunkOk(s, hs[i + 1]) && (Overlap(s, hs[i], hs[i + 1]) || Apart(s, hs[i], hs[i + 1]));
    } else if i > 0 {
      assert Overlap(s, hs[i - 1], hs[i]) || Apart(s, hs[i - 1], hs[i]);
    }
  }

  lemma Extends(s: Script, h: Hunk, g: Hunk)
    requires Overlap(s, h, g)
    ensures h.start < g.start < h.end <= |s| && s[g.start].mark == Ctx
  {}

  lemma HeaderStart(s: Script, a: nat, b: nat, c: nat)
    requires a <= b <= |s| && a <= c <= |s|
    ensures HeaderOf(s, a, b).oldOffset == HeaderOf(s, a, c).oldOffset
            && HeaderOf(s, a, b).newOffset == HeaderOf(s, a, c).newOffset
  {}

  /** Merging all parts of a hunk gives its header and its text back, exactly when its first
      group leaves a line in the new text before the second part; otherwise the first part
      stays alone. */
  lemma PartsMerge(s: Script, hs: seq<Hunk>, k: nat, parts: seq<Hunk>, split: seq<Hunk>)
    requires HunksOk(s, hs) && k < |hs| && Parts(s, hs[k], parts) && split == hs[..k] + parts + hs[k + 1..]
    requires k + 1 < |hs| ==> Apart(s, hs[k], hs[k + 1])
    ensures |parts| > 1 ==> hs[k].start < parts[1].start < |s|
    ensures var j := RunEnd(s, split, k, true);
            if |parts| == 1 || Count(s, hs[k].start, parts[1].start, New) > 0 then
              && j == k + |parts| - 1 && split[j].end == hs[k].end && split[k].start == hs[k].start
              && hs[k].end <= |s| && HunkHeader(s, split[k].start, split[j].end) == hs[k].header
            else j == k < k + |parts| - 1
  {
    hide HeaderOf, HunkHeader, TwoSided, Covered, Linked, Count;
    assert HunkOk(s, hs[k]);
    hide HunkOk, Overlap;
    SplitIs(hs, k, parts, split);
    NotOverlapping(s, hs[k], parts, split, k);
    if |parts| > 1 {
      assert Cut(s, parts[0], parts[1]) && split[k] == parts[0] && split[k + 1] == parts[1];
    }
    if |parts| == 1 || Count(s, hs[k].start, parts[1].start, New) > 0 {
      PartsRun(s, parts, split, k, 0);
    }
  }

  lemma SplitIs(hs: seq<Hunk>, k: nat, parts: seq<Hunk>, split: seq<Hunk>)
    requires k < |hs| && split == hs[..k] + parts + hs[k + 1..]
    ensures |split| == |hs| - 1 + |parts| && (forall i | 0 <= i < |parts| :: split[k + i] == parts[i])
    ensures k + 1 < |hs| ==> k + |parts| < |split| && split[k + |parts|] == hs[k + 1]
  {}

  /** The last part ends where the hunk did, so it does not reach the next one. */
  lemma NotOverlapping(s: Script, h: Hunk, parts: seq<Hunk>, split: seq<Hunk>, k: nat)
    requires Parts(s, h, parts) && (k + |parts| < |split| ==> Apart(s, h, split[k + |parts|]))
    ensures k + |parts| < |split| ==> !Overlap(s, parts[|parts| - 1], split[k + |parts|])
  {
    assert HunkOk(s, parts[|parts| - 1]);
  }

  lemma {:induction false} PartsRun(s: Script, parts: seq<Hunk>, split: seq<Hunk>, k: nat, i: nat)
    requires i < |parts| && k + |parts| <= |split| && forall j | 0 <= j < |parts| :: split[k + j] == parts[j]
    requires forall j | 0 <= j < |parts| - 1 :: Cut(s, parts[j], parts[j + 1])
    requires i == 0 && |parts| > 1 ==>
               && parts[0].start <= parts[1].start <= |s| && Count(s, parts[0].start, parts[1].start, New) > 0
    requires k + |parts| < |split| ==> !Overlap(s, parts[|parts| - 1], split[k + |parts|])
    ensures RunEnd(s, split, k + i, true) == k + |parts| - 1
    decreases |parts| - i
  {
    hide Count;
    if i + 1 < |parts| {
      assert split[k + i] == parts[i] && split[k + (i + 1)] == parts[i + 1] && Cut(s, parts[i], parts[i + 1]);
      if i > 0 {
        assert Cut(s, parts[i - 1], parts[i]);
        CtxTwoSided(s, parts[i].start, parts[i].start, parts[i + 1].start);
      }
      PartsRun(s, parts, split, k, i + 1);
    }
  }
}
