/** A whole text patch: apply_fragments and reverse_patches of apply.c. */
module ApplyPatch {
  import opened PatchScript
  import opened ApplyLines
  import opened ApplyImage
  import opened ApplyFind
  import opened ApplyFragment
  import opened ApplyRun

  /** Lines [start, end) of an edit script. */
  datatype Range = Range(start: nat, end: nat)

  ghost predicate HasCtx(s: Script, a: nat, b: nat) {
    b <= |s| && exists i | a <= i < b :: s[i].mark == Ctx
  }

  /** A hunk as diff makes them: it has context unless it is the whole file, and it has
      context at its end unless the file ends there. */
  ghost predicate RangeOk(s: Script, r: Range) {
    && r.start < r.end <= |s| && AnyChange(s[r.start..r.end], r.end - r.start)
    && (HasCtx(s, r.start, r.end) || (r.start == 0 && r.end == |s|))
    && (Trailing(s[r.start..r.end], r.end - r.start) == 0 ==> r.end == |s|)
  }

  /** The hunks hold all changes and have unchanged lines between them. */
  ghost predicate RangesOk(s: Script, rs: seq<Range>) {
    && (forall i | 0 <= i < |rs| :: RangeOk(s, rs[i]))
    && (forall i | 0 <= i < |rs| - 1 :: rs[i].end < rs[i + 1].start && AllCtx(s, rs[i].end, rs[i + 1].start))
    && (if rs == [] then AllCtx(s, 0, |s|) else AllCtx(s, 0, rs[0].start) && AllCtx(s, rs[|rs| - 1].end, |s|))
  }

  /** The line number in a hunk header; an empty side is given by the line before it. */
  function HeaderLine(before: nat, count: nat): nat {
    if count == 0 then before else before + 1
  }

  /** The hunk for a range of the script. */
  function FragOf(s: Script, r: Range): Frag
    requires r.start <= r.end <= |s|
  {
    Frag(HeaderLine(Count(s, 0, r.start, Old), Count(s, r.start, r.end, Old)),
         HeaderLine(Count(s, 0, r.start, New), Count(s, r.start, r.end, New)),
         Leading(s[r.start..r.end], r.end - r.start), Trailing(s[r.start..r.end], r.end - r.start), s[r.start..r.end])
  }

  /** reverse_patches, for one hunk. */
  function Reverse(f: Frag): Frag {
    f.(oldpos := f.newpos, newpos := f.oldpos)
  }

  // ---- scripts read backwards

  lemma {:induction false} CountFlipped(s: Script, a: nat, b: nat)
    requires a <= b <= |s|
    ensures Count(Flipped(s), a, b, Old) == Count(s, a, b, New) && Count(Flipped(s), a, b, New) == Count(s, a, b, Old)
    decreases b
  {
    if a < b { CountFlipped(s, a, b - 1); }
  }

  lemma {:induction false} TextFlipped(s: Script, a: nat, b: nat)
    requires a <= b <= |s|
    ensures Text(Flipped(s), a, b, Old) == Text(s, a, b, New) && Text(Flipped(s), a, b, New) == Text(s, a, b, Old)
    decreases b
  {
    if a < b { TextFlipped(s, a, b - 1); }
  }

  lemma ChangeFlipped(s: Script, n: nat)
    requires n <= |s|
    ensures AnyChange(Flipped(s), n) == AnyChange(s, n)
  {
    assert forall i | 0 <= i < n :: Change(Flipped(s)[i]) == Change(s[i]);
  }

  lemma {:induction false} ContextFlipped(s: Script, n: nat)
    requires n <= |s|
    ensures Leading(Flipped(s), n) == Leading(s, n) && Trailing(Flipped(s), n) == Trailing(s, n)
    decreases n
  {
    if n > 0 {
      ChangeFlipped(s, n);
      ContextFlipped(s, n - 1);
    }
  }

  lemma EffFlipped(s: Script)
    ensures Eff(Flipped(s)) == Flipped(Eff(s))
  {}

  lemma SliceFlipped(s: Script, a: nat, b: nat)
    requires a <= b <= |s|
    ensures Flipped(s)[a..b] == Flipped(s[a..b]) && Flipped(Flipped(s)) == s
  {}

  lemma RangeFlipped(s: Script, r: Range)
    requires RangeOk(s, r)
    ensures RangeOk(Flipped(s), r)
  {
    hide Leading, Trailing, AnyChange, HasCtx, Flipped;
    var t := s[r.start..r.end];
    SliceFlipped(s, r.start, r.end);
    ChangeFlipped(t, |t|);
    ContextFlipped(t, |t|);
    if HasCtx(s, r.start, r.end) { HasCtxFlipped(s, r.start, r.end); }
  }

  lemma HasCtxFlipped(s: Script, a: nat, b: nat)
    requires HasCtx(s, a, b)
    ensures HasCtx(Flipped(s), a, b)
  {
    var i :| a <= i < b && s[i].mark == Ctx;
    assert Flipped(s)[i].mark == Ctx;
  }

  lemma RangesFlipped(s: Script, rs: seq<Range>)
    requires RangesOk(s, rs)
    ensures RangesOk(Flipped(s), rs)
  {
    hide RangeOk, AllCtx, Flipped;
    forall i | 0 <= i < |rs| ensures RangeOk(Flipped(s), rs[i]) { RangeFlipped(s, rs[i]); }
    forall i | 0 <= i < |rs| - 1 ensures rs[i].end < rs[i + 1].start && AllCtx(Flipped(s), rs[i].end, rs[i + 1].start) {
      CtxFlipped(s, rs[i].end, rs[i + 1].start);
    }
    CtxFlipped(s, 0, if rs == [] then |s| else rs[0].start);
    if rs != [] { CtxFlipped(s, rs[|rs| - 1].end, |s|); }
  }

  lemma CtxFlipped(s: Script, a: nat, b: nat)
    requires AllCtx(s, a, b)
    ensures AllCtx(Flipped(s), a, b)
  {}

  /** Reversing a hunk is taking it from the script read backwards. */
  lemma ReverseIsFlipped(s: Script, r: Range)
    requires r.start <= r.end <= |s|
    ensures Reverse(FragOf(s, r)) == FragOf(Flipped(s), r).(lines := s[r.start..r.end])
  {
    hide Count, Leading, Trailing, Flip, Flipped;
    CountFlipped(s, 0, r.start);
    CountFlipped(s, r.start, r.end);
    SliceFlipped(s, r.start, r.end);
    ContextFlipped(s[r.start..r.end], r.end - r.start);
  }

  // ---- the texts

  /** The old and the new file, without the newlines that notes take away. */
  ghost function OldFile(s: Script): seq<string> {
    Text(Eff(s), 0, |s|, Old)
  }

  ghost function NewFile(s: Script): seq<string> {
    Text(Eff(s), 0, |s|, New)
  }

  lemma FilesFlipped(s: Script)
    ensures OldFile(Flipped(s)) == NewFile(s) && NewFile(Flipped(s)) == OldFile(s)
  {
    EffFlipped(s);
    TextFlipped(Eff(s), 0, |s|);
  }

  lemma {:induction false} CountEff(s: Script, a: nat, b: nat, side: Side)
    requires a <= b <= |s|
    ensures Count(Eff(s), a, b, side) == Count(s, a, b, side)
    decreases b
  {
    hide EffText;
    if a < b { CountEff(s, a, b - 1, side); }
  }

  lemma EffSlice(s: Script, a: nat, b: nat)
    requires a <= b <= |s| && (b < |s| ==> s[b].mark != Note)
    ensures Eff(s[a..b]) == Eff(s)[a..b]
  {
    hide EffText;
    forall i | 0 <= i < b - a ensures Eff(s[a..b])[i] == Eff(s)[a..b][i] {
      EffTextSlice(s, a, b, a + i);
    }
  }

  lemma EffTextSlice(s: Script, a: nat, b: nat, i: nat)
    requires a <= i < b <= |s| && (b < |s| ==> s[b].mark != Note)
    ensures EffText(s[a..b], i - a) == EffText(s, i)
  {
    var t := s[a..b];
    assert t[i - a] == s[i];
    assert i + 1 < b ==> t[i - a + 1] == s[i + 1];
  }

  lemma TextOf(s: Script, a: nat, b: nat, side: Side)
    requires a <= b <= |s| && (b < |s| ==> s[b].mark != Note)
    ensures Text(Eff(s[a..b]), 0, b - a, side) == Text(Eff(s), a, b, side)
  {
    hide Text;
    EffSlice(s, a, b);
    TextOfSlice(Eff(s), a, b, b, side);
  }

  /** The patch up to line `x`: new text before, old text after. */
  ghost function Midway(s: Script, x: nat): seq<string>
    requires x <= |s|
  {
    Text(Eff(s), 0, x, New) + Text(Eff(s), x, |s|, Old)
  }

  lemma MidwayCtx(s: Script, x: nat, a: nat)
    requires x <= a && AllCtx(s, x, a)
    ensures Midway(s, x) == Midway(s, a)
  {
    assert AllCtx(Eff(s), x, a);
    hide Text, Eff, AllCtx, Count;
    TextCtx(Eff(s), x, a);
    TextSplit(Eff(s), 0, x, a, New);
    TextSplit(Eff(s), x, a, |s|, Old);
    Regroup(Text(Eff(s), 0, x, New), Text(Eff(s), x, a, New), Text(Eff(s), a, |s|, Old));
  }

  lemma Regroup(a: seq<string>, b: seq<string>, c: seq<string>)
    ensures a + (b + c) == (a + b) + c
  {}

  lemma MidwayIs(s: Script, x: nat)
    requires x <= |s|
    ensures Midway(s, x) == Text(Eff(s), 0, x, New) + Text(Eff(s), x, |s|, Old)
  {}

  /** Before a hunk, its old lines are in the image at its new line number. */
  lemma MidwayHunk(s: Script, a: nat, b: nat)
    requires a <= b <= |s|
    ensures var at, n := Count(s, 0, a, New), Count(s, a, b, Old);
            && at + n <= |Midway(s, a)| && Midway(s, a)[at..at + n] == Text(Eff(s), a, b, Old)
            && Midway(s, b) == Midway(s, a)[..at] + Text(Eff(s), a, b, New) + Midway(s, a)[at + n..]
            && |Midway(s, a)| == at + n + Count(s, b, |s|, Old)
  {
    hide *;
    MidwayIs(s, a);
    MidwayIs(s, b);
    CountEff(s, 0, a, New);
    CountEff(s, a, b, Old);
    CountEff(s, b, |s|, Old);
    TextSplit(Eff(s), a, b, |s|, Old);
    TextSplit(Eff(s), 0, a, b, New);
    Middle(Midway(s, a), Midway(s, b), Text(Eff(s), 0, a, New), Text(Eff(s), a, b, Old), Text(Eff(s), b, |s|, Old),
           Text(Eff(s), a, b, New));
  }

  lemma Middle(t: seq<string>, t': seq<string>, x: seq<string>, y: seq<string>, z: seq<string>, w: seq<string>)
    requires t == x + (y + z) && t' == (x + w) + z
    ensures |t| == |x| + |y| + |z| && t[|x|..|x| + |y|] == y && t' == t[..|x|] + w + t[|x| + |y|..]
  {
    assert t[..|x|] == x && t[|x| + |y|..] == z;
  }

  // ---- a patch that fits its file

  /** The hunks of the script, read from the patch file or, in reverse, swapped. */
  ghost predicate Accurate(frags: seq<Frag>, s: Script, rs: seq<Range>, reverse: bool) {
    && RangesOk(s, rs) && |frags| == |rs|
    && forall k | 0 <= k < |rs| :: FragAt(frags[k], s, rs[k], reverse)
  }

  ghost predicate FragAt(f: Frag, s: Script, r: Range, reverse: bool) {
    r.start <= r.end <= |s| && f == if reverse then FragOf(s, r).(lines := Flipped(s)[r.start..r.end]) else FragOf(s, r)
  }

  lemma EndNotNote(s: Script, rs: seq<Range>, k: nat)
    requires RangesOk(s, rs) && k < |rs|
    ensures rs[k].start < rs[k].end <= |s| && (rs[k].end < |s| ==> s[rs[k].end].mark == Ctx)
  {
    assert RangeOk(s, rs[k]);
    hide RangeOk;
    if k + 1 < |rs| { assert rs[k].end < rs[k + 1].start; }
  }

  lemma ImagesAt(f: Frag, s: Script, r: Range, reverse: bool)
    requires FragAt(f, s, r, reverse) && (r.end < |s| ==> s[r.end].mark != Note)
    ensures Pre(f, reverse) == Text(Eff(s), r.start, r.end, Old)
            && Post(f, reverse) == Text(Eff(s), r.start, r.end, New)
  {
    hide Text, Count, Leading, Trailing;
    var t := s[r.start..r.end];
    TextOf(s, r.start, r.end, Old);
    TextOf(s, r.start, r.end, New);
    SliceFlipped(s, r.start, r.end);
    assert f.lines == if reverse then Flipped(t) else t;
    EffFlipped(t);
    TextFlipped(Eff(t), 0, |t|);
  }

  lemma {:induction false} CtxCounts(s: Script, a: nat, i: nat, b: nat, side: Side)
    requires a <= i < b <= |s| && s[i].mark == Ctx
    ensures Count(s, a, b, side) >= 1
    decreases b
  {
    if i < b - 1 { CtxCounts(s, a, i, b - 1, side); }
  }

  /** A hunk not at the start has lines on both sides. */
  lemma BothSides(s: Script, r: Range)
    requires RangeOk(s, r) && r.start > 0
    ensures Count(s, r.start, r.end, Old) >= 1 && Count(s, r.start, r.end, New) >= 1
  {
    var i :| r.start <= i < r.end && s[i].mark == Ctx;
    CtxCounts(s, r.start, i, r.end, Old);
    CtxCounts(s, r.start, i, r.end, New);
  }

  /** Only the hunk at the first line has a line number of at most one. */
  lemma StartRight(s: Script, rs: seq<Range>, k: nat)
    requires RangesOk(s, rs) && k < |rs| && rs[k].start > 0
    ensures FragOf(s, rs[k]).oldpos >= 2 && Wanted(FragOf(s, rs[k])) == Count(s, 0, rs[k].start, New)
  {
    var r := rs[k];
    BothSides(s, r);
    hide RangeOk;
    if k > 0 { assert rs[k - 1].end < rs[k - 1 + 1].start; }
    assert s[r.start - 1].mark == Ctx;
    CtxCounts(s, 0, r.start - 1, r.start, Old);
  }

  /** The search starts where the hunk is. */
  lemma Aim(s: Script, rs: seq<Range>, k: nat, f: Frag, reverse: bool, o: Options)
    requires RangesOk(s, rs) && k < |rs| && FragAt(f, s, rs[k], reverse) && !o.unidiffZero
    ensures Wanted(f) == Count(s, 0, rs[k].start, New)
    ensures MatchStart(f, o) ==> rs[k].start == 0
    ensures MatchEnd(f, o) ==> rs[k].end == |s|
  {
    var r := rs[k];
    AimEnd(f, s, rs, k, reverse);
    hide RangesOk, Leading, Trailing, Flipped;
    if r.start > 0 {
      StartRight(s, rs, k);
      hide FragOf, Count;
    } else {
      NoCount(s, 0, New);
    }
  }

  lemma AimEnd(f: Frag, s: Script, rs: seq<Range>, k: nat, reverse: bool)
    requires RangesOk(s, rs) && k < |rs| && FragAt(f, s, rs[k], reverse)
    ensures f.trailing == 0 ==> rs[k].end == |s|
  {
    hide Leading, Trailing, Count, Flipped;
    assert RangeOk(s, rs[k]);
  }

  lemma Placed(s: Script, rs: seq<Range>, k: nat, f: Frag, reverse: bool, o: Options, table: seq<LineRec>)
    requires RangesOk(s, rs) && k < |rs| && FragAt(f, s, rs[k], reverse) && !o.unidiffZero && !o.allowOverlap
    requires rs[k].start <= |s| && |table| == |Midway(s, rs[k].start)|
    requires forall i | Count(s, 0, rs[k].start, New) <= i < |table| :: !table[i].patched
    ensures FoundThere(f, o, reverse, Midway(s, rs[k].start), table)
    ensures Clamped(Wanted(f), |table|, |Pre(f, reverse)|, MatchStart(f, o), MatchEnd(f, o))
            == Count(s, 0, rs[k].start, New)
  {
    hide *;
    var r := rs[k];
    EndNotNote(s, rs, k);
    ImagesAt(f, s, r, reverse);
    MidwayHunk(s, r.start, r.end);
    CountEff(s, r.start, r.end, Old);
    Aim(s, rs, k, f, reverse, o);
    NoCount(s, 0, New);
    NoCount(s, |s|, Old);
    PlacedAt(f, o, reverse, Midway(s, r.start), table, Count(s, 0, r.start, New));
  }

  lemma NoCount(s: Script, a: nat, side: Side)
    requires a <= |s|
    ensures Count(s, a, a, side) == 0
  {}

  lemma PlacedAt(f: Frag, o: Options, reverse: bool, img: seq<string>, table: seq<LineRec>, at: nat)
    requires |img| == |table| && Wanted(f) == at && at + |Pre(f, reverse)| <= |img|
    requires (MatchStart(f, o) ==> at == 0) && (MatchEnd(f, o) ==> at + |Pre(f, reverse)| == |img|)
    requires img[at..at + |Pre(f, reverse)|] == Pre(f, reverse) && forall i | at <= i < |table| :: !table[i].patched
    ensures FoundThere(f, o, reverse, img, table)
    ensures Clamped(Wanted(f), |table|, |Pre(f, reverse)|, MatchStart(f, o), MatchEnd(f, o)) == at
  {
    hide Pre, MatchStart, MatchEnd, Wanted;
  }

  /** After hunk `k`, the image is the script's text up to its end. */
  ghost predicate Applied(s: Script, x: nat, lines: seq<string>, table: seq<LineRec>) {
    && x <= |s| && lines == Midway(s, x) && |table| == |lines|
    && forall i | Count(s, 0, x, New) <= i < |table| :: !table[i].patched
  }

  lemma AppliedCtx(s: Script, x: nat, a: nat, lines: seq<string>, table: seq<LineRec>)
    requires Applied(s, x, lines, table) && x <= a && AllCtx(s, x, a)
    ensures Applied(s, a, lines, table)
  {
    MidwayCtx(s, x, a);
    CountSplit(s, 0, x, a, New);
  }

  lemma AppliedHunk(s: Script, rs: seq<Range>, k: nat, f: Frag, reverse: bool, before: seq<string>,
                    beforeTable: seq<LineRec>, after: seq<string>, table: seq<LineRec>, patched: bool)
    requires RangesOk(s, rs) && k < |rs| && FragAt(f, s, rs[k], reverse) && Applied(s, rs[k].start, before, beforeTable)
    requires rs[k].start <= |s|
    requires Replaced(before, after, Count(s, 0, rs[k].start, New), Drop(Pre(f, reverse), 0, 0),
                      Drop(Post(f, reverse), 0, 0))
    requires |table| == |after|
    requires Remarked(beforeTable, table, Count(s, 0, rs[k].start, New), |Pre(f, reverse)|, |Post(f, reverse)|, patched)
    ensures Applied(s, rs[k].end, after, table)
  {
    hide *;
    var r := rs[k];
    EndNotNote(s, rs, k);
    FromApplied(s, r.start, before, beforeTable);
    ImagesAt(f, s, r, reverse);
    NoDrop(f, reverse);
    MidwayHunk(s, r.start, r.end);
    CountEff(s, r.start, r.end, Old);
    CountEff(s, r.start, r.end, New);
    CountSplit(s, 0, r.start, r.end, New);
    Spliced(s, r.end, before, after, Count(s, 0, r.start, New), Pre(f, reverse), Post(f, reverse), beforeTable, table,
            patched);
  }

  lemma FromApplied(s: Script, x: nat, lines: seq<string>, table: seq<LineRec>)
    requires Applied(s, x, lines, table)
    ensures x <= |s| && lines == Midway(s, x) && |table| == |lines|
    ensures forall i | Count(s, 0, x, New) <= i < |table| :: !table[i].patched
  {}

  lemma Spliced(s: Script, b: nat, before: seq<string>, after: seq<string>, at: nat, pre: seq<string>,
                post: seq<string>, beforeTable: seq<LineRec>, table: seq<LineRec>, patched: bool)
    requires b <= |s| && Replaced(before, after, at, pre, post)
             && Midway(s, b) == before[..at] + post + before[at + |pre|..]
    requires |table| == |after| && Count(s, 0, b, New) == at + |post|
    requires forall i | at <= i < |beforeTable| :: !beforeTable[i].patched
    requires Remarked(beforeTable, table, at, |pre|, |post|, patched)
    ensures Applied(s, b, after, table)
  {
    hide Midway, Count;
  }

  lemma FragFits(f: Frag, s: Script, rs: seq<Range>, k: nat, reverse: bool)
    requires RangesOk(s, rs) && k < |rs| && FragAt(f, s, rs[k], reverse)
    ensures FragOk(f, reverse)
  {
    hide Text, Pre, Post, Count, Leading, Trailing, AnyChange, AllCtx, HasCtx, RangesOk, RangeOk, FragAt, Eff, FragOf;
    var r := rs[k];
    EndNotNote(s, rs, k);
    var t := s[r.start..r.end];
    ContextAt(f, s, rs, k, reverse);
    ImagesAt(f, s, r, reverse);
    ContextFits(t, |t|, Old);
    ContextFits(t, |t|, New);
    CountEff(s, r.start, r.end, Old);
    CountEff(s, r.start, r.end, New);
    CountSlice(s, r.start, r.end, r.end, Old);
    CountSlice(s, r.start, r.end, r.end, New);
  }

  lemma ContextAt(f: Frag, s: Script, rs: seq<Range>, k: nat, reverse: bool)
    requires RangesOk(s, rs) && k < |rs| && FragAt(f, s, rs[k], reverse)
    ensures var t := s[rs[k].start..rs[k].end];
            f.leading == Leading(t, |t|) && f.trailing == Trailing(t, |t|) && AnyChange(t, |t|)
  {
    hide Leading, Trailing, AnyChange, Count, HasCtx, AllCtx;
    assert RangeOk(s, rs[k]);
    hide RangesOk;
  }

  lemma {:induction false} CountSlice(s: Script, a: nat, m: nat, b: nat, side: Side)
    requires a <= m <= b <= |s|
    ensures Count(s[a..b], 0, m - a, side) == Count(s, a, m, side)
    decreases m
  {
    if a < m { CountSlice(s, a, m - 1, b, side); }
  }

  /** The patch is the edit of `s`, and the file its old text. */
  ghost predicate Fitting(frags: seq<Frag>, s: Script, rs: seq<Range>, reverse: bool, o: Options, lines: seq<string>,
                          table: seq<LineRec>) {
    && Accurate(frags, s, rs, reverse) && !o.unidiffZero && !o.allowOverlap
    && lines == OldFile(s) && |table| == |lines| && forall i | 0 <= i < |table| :: !table[i].patched
  }

  /** All hunks are of complete lines and keep something to hold on to, and the file is fresh. */
  ghost predicate AllSturdy(frags: seq<Frag>, reverse: bool, o: Options, lines: seq<string>, table: seq<LineRec>) {
    && (forall k | 0 <= k < |frags| :: Sturdy(frags[k], reverse, o)) && !o.allowOverlap
    && Proper(lines) && |table| == |lines| && forall i | 0 <= i < |table| :: !table[i].patched
  }

  /** Which of the hunks tried were not found. */
  ghost predicate RejectedAre(steps: seq<Step>, rejected: set<nat>) {
    && (forall k | k in rejected :: k < |steps|)
    && (forall k | 0 <= k < |steps| :: k in rejected <==> steps[k].pos < 0)
  }

  /** apply_fragments.  Each hunk is searched for in what those before it left, and applied where
      it is found.  A patch that fits its file turns the old text into the new one.  Hunks of
      complete lines, wherever they are found, replace disjoint stretches of the first file. */
  method ApplyFragments(img: Image, frags: seq<Frag>, reverse: bool, o: Options, withReject: bool, ghost s: Script,
                        ghost rs: seq<Range>)
    returns (ok: bool, rejected: set<nat>, ghost steps: seq<Step>, ghost cells: seq<Cell>)
    requires img.Valid() && forall k | 0 <= k < |frags| :: FragOk(frags[k], reverse)
    modifies img
    ensures img.Valid()
    ensures Ran(frags, reverse, o, old(img.lines), old(img.table), steps) && RejectedAre(steps, rejected)
    ensures img.lines == LinesAt(old(img.lines), steps, |steps|) && img.table == TableAt(old(img.table), steps, |steps|)
    ensures ok <==> withReject || rejected == {}
    ensures if ok then |steps| == |frags| else rejected == {|steps| - 1}
    ensures old(AllSturdy(frags, reverse, o, img.lines, img.table)) ==>
              LaidOut(cells, frags, reverse, |steps|, rejected, old(img.lines), img.lines, img.table)
    ensures old(Fitting(frags, s, rs, reverse, o, img.lines, img.table)) ==>
            ok && rejected == {} && img.lines == NewFile(s)
  {
    hide *;
    ok, rejected, steps, cells := true, {}, [], Keeps(img.lines);
    ghost var lines0, table0 := img.lines, img.table;
    ghost var fits := Fitting(frags, s, rs, reverse, o, lines0, table0);
    ghost var sturdy := AllSturdy(frags, reverse, o, lines0, table0);
    Sizes(img);
    RunStarts(frags, reverse, o, lines0, table0);
    if fits { Starting(frags, s, rs, reverse, o, lines0, table0); }
    if sturdy { SturdyStarts(frags, reverse, o, lines0, table0); }
    var k := 0;
    while k < |frags|
      invariant 0 <= k <= |frags| && img.Valid() && |steps| == k && Ran(frags, reverse, o, lines0, table0, steps)
      invariant RejectedAre(steps, rejected) && (rejected != {} ==> withReject)
      invariant img.lines == LinesAt(lines0, steps, k) && img.table == TableAt(table0, steps, k)
      invariant sturdy ==>
                  Proper(img.lines) && LaidOut(cells, frags, reverse, k, rejected, lines0, img.lines, img.table)
      invariant fits ==> rejected == {} && Applied(s, At(s, rs, k), img.lines, img.table)
    {
      if fits { NextPlaced(frags, s, rs, k, reverse, o, lines0, table0, img.lines, img.table); }
      ghost var lines, table := img.lines, img.table;
      var applied, pos;
      ghost var last;
      applied, pos, last := ApplyOneFragment(img, frags[k], reverse, o);
      Sizes(img);
      ghost var step := Step(pos, last, img.lines, img.table);
      MakeStep(frags[k], reverse, o, lines, table, step);
      RanMore(frags, reverse, o, lines0, table0, steps, step);
      RejectedMore(steps, rejected, step);
      LastAt(lines0, table0, steps, step);
      if fits { FittingOn(frags, s, rs, k, reverse, o, lines0, table0, lines, table, step); }
      if sturdy {
        RejectedBelow(steps, rejected);
        if applied {
          SturdyAt(frags, reverse, o, lines0, table0, k);
          cells := HunkApplied(cells, frags, reverse, o, k, rejected, lines0, lines, table, step);
        } else {
          HunkRejected(cells, frags, reverse, k, rejected, lines0, lines, table);
        }
      }
      steps := steps + [step];
      if !applied {
        rejected := rejected + {k};
        if !withReject {
          assert rejected == {k};
          return false, rejected, steps, cells;
        }
      }
      k := k + 1;
    }
    if fits { Ending(frags, s, rs, reverse, o, lines0, table0, img.lines, img.table); }
  }

  lemma RunStarts(frags: seq<Frag>, reverse: bool, o: Options, lines: seq<string>, table: seq<LineRec>)
    ensures Ran(frags, reverse, o, lines, table, []) && RejectedAre([], {})
    ensures LinesAt(lines, [], 0) == lines && TableAt(table, [], 0) == table
  {}

  lemma LastAt(lines: seq<string>, table: seq<LineRec>, steps: seq<Step>, step: Step)
    ensures LinesAt(lines, steps + [step], |steps| + 1) == step.lines
    ensures TableAt(table, steps + [step], |steps| + 1) == step.table
  {}

  lemma MakeStep(f: Frag, reverse: bool, o: Options, lines: seq<string>, table: seq<LineRec>, step: Step)
    requires |lines| == |table| && FragOk(f, reverse) && Within(f, step.last)
    requires Outcome(lines, table, f, reverse, o, FirstTry(f, o), step.pos, step.last)
    requires step.pos < 0 ==> step.lines == lines && step.table == table
    requires step.pos >= 0 ==> Replaced(lines, step.lines, step.pos,
                                        Drop(Pre(f, reverse), step.last.front, step.last.back),
                                        Drop(Post(f, reverse), step.last.front, step.last.back))
    requires step.pos >= 0 ==> Remarked(table, step.table, step.pos,
                                        |Pre(f, reverse)| - step.last.front - step.last.back,
                                        |Post(f, reverse)| - step.last.front - step.last.back, !o.allowOverlap)
    ensures StepOk(f, reverse, o, lines, table, step)
  {
    ShorterBy(f, reverse, step.last.front, step.last.back, f.leading - step.last.front, f.trailing - step.last.back);
    hide Pre, Post, Outcome, Remarked, Replaced, FragOk, Drop;
  }

  lemma RejectedMore(steps: seq<Step>, rejected: set<nat>, step: Step)
    requires RejectedAre(steps, rejected)
    ensures RejectedAre(steps + [step], if step.pos < 0 then rejected + {|steps|} else rejected)
  {}

  lemma RejectedBelow(steps: seq<Step>, rejected: set<nat>)
    requires RejectedAre(steps, rejected)
    ensures forall k | k in rejected :: k < |steps|
  {}

  lemma SturdyStarts(frags: seq<Frag>, reverse: bool, o: Options, lines: seq<string>, table: seq<LineRec>)
    requires AllSturdy(frags, reverse, o, lines, table)
    ensures Proper(lines) && LaidOut(Keeps(lines), frags, reverse, 0, {}, lines, lines, table)
  {
    LayOut(frags, reverse, lines, table);
  }

  lemma SturdyAt(frags: seq<Frag>, reverse: bool, o: Options, lines: seq<string>, table: seq<LineRec>, k: nat)
    requires AllSturdy(frags, reverse, o, lines, table) && k < |frags|
    ensures Sturdy(frags[k], reverse, o) && !o.allowOverlap
  {}

  /** How far the script has been applied before hunk `k`. */
  ghost function At(s: Script, rs: seq<Range>, k: nat): nat
    requires k <= |rs|
  {
    if k == 0 then 0 else rs[k - 1].end
  }

  lemma AfterHunk(s: Script, rs: seq<Range>, k: nat)
    requires k < |rs|
    ensures At(s, rs, k + 1) == rs[k].end
  {}

  lemma Starting(frags: seq<Frag>, s: Script, rs: seq<Range>, reverse: bool, o: Options, lines: seq<string>,
                 table: seq<LineRec>)
    requires Fitting(frags, s, rs, reverse, o, lines, table)
    ensures |frags| == |rs| && Applied(s, At(s, rs, 0), lines, table)
  {
    hide RangesOk, FragAt;
    assert Text(Eff(s), 0, 0, New) == [];
  }

  lemma NextPlaced(frags: seq<Frag>, s: Script, rs: seq<Range>, k: nat, reverse: bool, o: Options, lines0: seq<string>,
                   table0: seq<LineRec>, lines: seq<string>, table: seq<LineRec>)
    requires Fitting(frags, s, rs, reverse, o, lines0, table0) && |frags| == |rs| && k < |rs|
    requires Applied(s, At(s, rs, k), lines, table)
    ensures |lines| == |table| && !o.allowOverlap && FoundThere(frags[k], o, reverse, lines, table)
  {
    FittingIs(frags, s, rs, reverse, o, lines0, table0);
    hide *;
    NextHunk(frags, s, rs, k, reverse, lines, table);
    Placed(s, rs, k, frags[k], reverse, o, table);
  }

  lemma FittingIs(frags: seq<Frag>, s: Script, rs: seq<Range>, reverse: bool, o: Options, lines: seq<string>,
                  table: seq<LineRec>)
    requires Fitting(frags, s, rs, reverse, o, lines, table)
    ensures Accurate(frags, s, rs, reverse) && !o.unidiffZero && !o.allowOverlap
  {}

  /** A hunk that is found where its header says carries the script on. */
  lemma FittingOn(frags: seq<Frag>, s: Script, rs: seq<Range>, k: nat, reverse: bool, o: Options, lines0: seq<string>,
                  table0: seq<LineRec>, lines: seq<string>, table: seq<LineRec>, step: Step)
    requires Fitting(frags, s, rs, reverse, o, lines0, table0) && |frags| == |rs| && k < |rs|
    requires Applied(s, At(s, rs, k), lines, table) && |step.lines| == |step.table|
    requires StepOk(frags[k], reverse, o, lines, table, step) && FoundThere(frags[k], o, reverse, lines, table)
    ensures step.pos >= 0 && Applied(s, At(s, rs, k + 1), step.lines, step.table)
  {
    FittingIs(frags, s, rs, reverse, o, lines0, table0);
    StepThere(frags[k], reverse, o, lines, table, step);
    hide *;
    NextHunk(frags, s, rs, k, reverse, lines, table);
    Placed(s, rs, k, frags[k], reverse, o, table);
    AppliedHunk(s, rs, k, frags[k], reverse, lines, table, step.lines, step.table, !o.allowOverlap);
    AfterHunk(s, rs, k);
  }

  lemma StepThere(f: Frag, reverse: bool, o: Options, lines: seq<string>, table: seq<LineRec>, step: Step)
    requires StepOk(f, reverse, o, lines, table, step) && FoundThere(f, o, reverse, lines, table) && !o.allowOverlap
    ensures step.pos == Clamped(Wanted(f), |lines|, |Pre(f, reverse)|, MatchStart(f, o), MatchEnd(f, o))
    ensures Replaced(lines, step.lines, step.pos, Drop(Pre(f, reverse), 0, 0), Drop(Post(f, reverse), 0, 0))
    ensures Remarked(table, step.table, step.pos, |Pre(f, reverse)|, |Post(f, reverse)|, !o.allowOverlap)
  {
    FirstIs(f, o);
    ThereFirst(lines, table, f, reverse, o, step.pos, step.last);
    NoDrop(f, reverse);
    hide Outcome, Pre, Post, Remarked, Replaced, FoundThere;
  }

  lemma NextHunk(frags: seq<Frag>, s: Script, rs: seq<Range>, k: nat, reverse: bool, lines: seq<string>,
                 table: seq<LineRec>)
    requires Accurate(frags, s, rs, reverse) && k < |rs| && Applied(s, At(s, rs, k), lines, table)
    ensures RangesOk(s, rs) && FragAt(frags[k], s, rs[k], reverse) && rs[k].start <= |s|
            && Applied(s, rs[k].start, lines, table)
    ensures lines == Midway(s, rs[k].start) && |table| == |lines|
    ensures forall i | Count(s, 0, rs[k].start, New) <= i < |table| :: !table[i].patched
  {
    hide RangeOk, Midway, Count, AllCtx;
    EndNotNote(s, rs, k);
    if k > 0 {
      assert rs[k - 1].end < rs[k - 1 + 1].start;
    }
    AppliedCtx(s, At(s, rs, k), rs[k].start, lines, table);
  }

  lemma Ending(frags: seq<Frag>, s: Script, rs: seq<Range>, reverse: bool, o: Options, lines0: seq<string>,
               table0: seq<LineRec>, lines: seq<string>, table: seq<LineRec>)
    requires Fitting(frags, s, rs, reverse, o, lines0, table0) && Applied(s, At(s, rs, |rs|), lines, table)
    ensures lines == NewFile(s)
  {
    hide RangeOk, Count, AllCtx;
    if rs != [] { EndNotNote(s, rs, |rs| - 1); }
    AppliedCtx(s, At(s, rs, |rs|), |s|, lines, table);
    assert Text(Eff(s), |s|, |s|, Old) == [];
  }

  /** The hunks of a script, as parse_fragment gives them. */
  function FragsOf(s: Script, rs: seq<Range>): (frags: seq<Frag>)
    requires forall k | 0 <= k < |rs| :: rs[k].start <= rs[k].end <= |s|
    ensures |frags| == |rs| && forall k | 0 <= k < |rs| :: frags[k] == FragOf(s, rs[k])
  {
    seq(|rs|, k requires 0 <= k < |rs| => FragOf(s, rs[k]))
  }

  /** reverse_patches. */
  function ReverseAll(frags: seq<Frag>): (r: seq<Frag>)
    ensures |r| == |frags| && forall k | 0 <= k < |frags| :: r[k] == Reverse(frags[k])
  {
    seq(|frags|, k requires 0 <= k < |frags| => Reverse(frags[k]))
  }

  lemma ForwardAccurate(s: Script, rs: seq<Range>)
    requires RangesOk(s, rs)
    ensures forall k | 0 <= k < |rs| :: rs[k].start <= rs[k].end <= |s|
    ensures Accurate(FragsOf(s, rs), s, rs, false) && forall k | 0 <= k < |rs| :: FragOk(FragsOf(s, rs)[k], false)
  {
    forall k | 0 <= k < |rs| ensures rs[k].start <= rs[k].end <= |s| { EndNotNote(s, rs, k); }
    hide FragOf, RangeOk, FragOk;
    forall k | 0 <= k < |rs| ensures FragOk(FragsOf(s, rs)[k], false) { FragFits(FragsOf(s, rs)[k], s, rs, k, false); }
  }

  /** The reversed patch fits the new text. */
  lemma BackwardAccurate(s: Script, rs: seq<Range>)
    requires RangesOk(s, rs) && forall k | 0 <= k < |rs| :: rs[k].start <= rs[k].end <= |s|
    ensures Accurate(ReverseAll(FragsOf(s, rs)), Flipped(s), rs, true)
    ensures forall k | 0 <= k < |rs| :: FragOk(ReverseAll(FragsOf(s, rs))[k], true)
  {
    var back := ReverseAll(FragsOf(s, rs));
    RangesFlipped(s, rs);
    forall k | 0 <= k < |rs| ensures FragAt(back[k], Flipped(s), rs[k], true) {
      ReverseIsFlipped(s, rs[k]);
      SliceFlipped(s, 0, 0);
    }
    hide FragOf, RangeOk, FragOk, FragAt;
    forall k | 0 <= k < |rs| ensures FragOk(back[k], true) { FragFits(back[k], Flipped(s), rs, k, true); }
  }

  /** Applying a patch and then its reverse gives the original buffer back. */
  method ApplyAndReverse(buf: string, s: Script, rs: seq<Range>, o: Options)
    returns (ok: bool, patched: string, restored: string)
    requires RangesOk(s, rs) && !o.unidiffZero && !o.allowOverlap
    requires Proper(OldFile(s)) && Proper(NewFile(s)) && buf == Join(OldFile(s))
    ensures ok && patched == Join(NewFile(s)) && restored == buf
  {
    hide *;
    ForwardAccurate(s, rs);
    BackwardAccurate(s, rs);
    FilesFlipped(s);
    var frags := FragsOf(s, rs);
    var img := Prepared(buf, OldFile(s));
    var rejected;
    ghost var steps, cells;
    MakeFitting(frags, s, rs, false, o, img);
    ok, rejected, steps, cells := ApplyFragments(img, frags, false, o, false, s, rs);
    Buffer(img);
    patched := img.buf;
    var img' := Prepared(patched, NewFile(s));
    MakeFitting(ReverseAll(frags), Flipped(s), rs, true, o, img');
    ok, rejected, steps, cells := ApplyFragments(img', ReverseAll(frags), true, o, false, Flipped(s), rs);
    Buffer(img');
    restored := img'.buf;
  }

  lemma MakeFitting(frags: seq<Frag>, s: Script, rs: seq<Range>, reverse: bool, o: Options, img: Image)
    requires Accurate(frags, s, rs, reverse) && !o.unidiffZero && !o.allowOverlap
    requires img.Valid() && img.lines == OldFile(s) && forall i | 0 <= i < |img.table| :: !img.table[i].patched
    ensures Fitting(frags, s, rs, reverse, o, img.lines, img.table)
  {
    hide Accurate, OldFile;
  }

  lemma Buffer(img: Image)
    requires img.Valid()
    ensures img.buf == Join(img.lines)
  {}

  /** image_prepare finds the lines of a file. */
  method Prepared(buf: string, ghost lines: seq<string>) returns (img: Image)
    requires Proper(lines) && buf == Join(lines)
    ensures fresh(img) && img.Valid() && img.lines == lines && forall i | 0 <= i < |img.table| :: !img.table[i].patched
  {
    img := new Image();
    img.Prepare(buf);
    SameLines(img.lines, lines);
  }

  // ---- a line that loses its newline

  /** `@@ -1 +1,2 @@`, a new line `n`, and the context line `a` without a newline. */
  function GlueHunk(): Frag {
    Frag(1, 1, 0, 1, [Line(Add, "n\n"), Line(Ctx, "a\n"), Line(Note, "")])
  }

  lemma GlueImages()
    ensures Pre(GlueHunk(), false) == ["a"] && Post(GlueHunk(), false) == ["n\n", "a"] && FragOk(GlueHunk(), false)
  {
    var s := GlueHunk().lines;
    var e := Eff(s);
    assert "a\n"[..1] == "a";
    assert e == [Line(Add, "n\n"), Line(Ctx, "a"), Line(Note, "")];
    hide Eff;
    NoText(e);
    TextNext(e, 0, Old);
    TextNext(e, 1, Old);
    TextNext(e, 2, Old);
    TextNext(e, 0, New);
    TextNext(e, 1, New);
    TextNext(e, 2, New);
  }

  lemma GlueFound(table: seq<LineRec>)
    requires |table| == 2 && !table[0].patched
    ensures Found(["a\n", "b\n"], table, ["a"], 0, true, false, false)
    ensures forall p: nat | p <= 2 && Found(["a\n", "b\n"], table, ["a"], p, true, false, false) :: p == 0
  {
    var img := ["a\n", "b\n"];
    JoinOne("a");
    assert img[0..] == ["a\n"] + ["b\n"];
    JoinTwo(["a\n"], ["b\n"]);
    JoinOne("a\n");
    JoinOne("b\n");
    assert "a\n"[..1] == "a";
    hide Join;
    assert "a" <= "a\n" + "b\n";
  }

  /** The hunk asks for a last line `a` and is applied to a first line `a`, whose newline is lost:
      the file `a`, `b` becomes `n`, `ab`. */
  method GluedLines() returns (buf: string)
    ensures buf == "n\nab\n"
  {
    var f, o := GlueHunk(), Options(false, 0, false);
    ghost var lines := ["a\n", "b\n"];
    GlueFile();
    hide *;
    var img := Prepared("a\nb\n", lines);
    GlueImages();
    ghost var table := img.table;
    Sizes(img);
    var ok, pos;
    ghost var last;
    ok, pos, last := ApplyOneFragment(img, f, false, o);
    GluePlace(table, pos, last);
    NoDrop(f, false);
    ReplacedIs(lines, img.lines, 0, ["a"], ["n\n", "a"]);
    assert lines[..0] + ["n\n", "a"] + lines[1..] == ["n\n", "a", "b\n"];
    Buffer(img);
    buf := img.buf;
    GlueText();
  }

  lemma GlueFile()
    ensures Join(["a\n", "b\n"]) == "a\nb\n" && Proper(["a\n", "b\n"])
    ensures Within(GlueHunk(), FirstTry(GlueHunk(), Options(false, 0, false)))
    ensures FirstTry(GlueHunk(), Options(false, 0, false)).front == 0
            == FirstTry(GlueHunk(), Options(false, 0, false)).back
  {
    assert ["a\n", "b\n"][1..] == ["b\n"];
    JoinOne("b\n");
  }

  lemma GlueText()
    ensures Join(["n\n", "a", "b\n"]) == "n\nab\n"
  {
    JoinTwo(["n\n"], ["a", "b\n"]);
    JoinTwo(["a"], ["b\n"]);
    JoinOne("n\n");
    JoinOne("a");
    JoinOne("b\n");
    assert ["n\n"] + ["a", "b\n"] == ["n\n", "a", "b\n"] && ["a"] + ["b\n"] == ["a", "b\n"];
  }

  lemma ReplacedIs(before: seq<string>, after: seq<string>, pos: nat, pre: seq<string>, post: seq<string>)
    requires Replaced(before, after, pos, pre, post)
    ensures pos + |pre| <= |before| && after == before[..pos] + post + before[pos + |pre|..]
  {}

  lemma GluePlace(table: seq<LineRec>, pos: int, last: Try)
    requires |table| == 2 && (forall i | 0 <= i < 2 :: !table[i].patched)
    requires FragOk(GlueHunk(), false) && Within(GlueHunk(), FirstTry(GlueHunk(), Options(false, 0, false)))
    requires Outcome(["a\n", "b\n"], table, GlueHunk(), false, Options(false, 0, false),
                     FirstTry(GlueHunk(), Options(false, 0, false)), pos, last)
    ensures pos == 0 && last == FirstTry(GlueHunk(), Options(false, 0, false))
  {
    var f, o, lines := GlueHunk(), Options(false, 0, false), ["a\n", "b\n"];
    var first := FirstTry(f, o);
    GlueImages();
    NoDrop(f, false);
    GlueFound(table);
    hide Found, Pre, Post;
    assert Hits(lines, table, ["a"], true, false, false)[0];
    assert !PosAt(lines, table, f, false, o, first, -1);
  }
}
