/** Applying the patch that reassemble_patch makes performs exactly the chosen changes, unless
    merge_hunks missed an overlap; then the patch does not apply. */
module PatchResult {
  import opened PatchScript
  import opened PatchSplit
  import opened PatchReassemble

  function Other(side: Side): Side {
    if side == Old then New else Old
  }

  // ---- what the user chose

  /** Line `x` is in a chosen hunk. */
  ghost predicate Chosen(hs: seq<Hunk>, all: bool, x: nat) {
    exists k | 0 <= k < |hs| :: Picked(hs[k], all) && hs[k].start <= x < hs[k].end
  }

  /** The wanted text of lines [a, b): chosen changes are performed on the text of side `from`,
      the others are not. */
  ghost function Goal(s: Script, hs: seq<Hunk>, all: bool, from: Side, a: nat, b: nat): seq<string>
    requires a <= b <= |s|
    decreases b
  {
    if a == b then []
    else if Has(s[b - 1], if Chosen(hs, all, b - 1) then Other(from) else from)
      then Goal(s, hs, all, from, a, b - 1) + [s[b - 1].text]
    else Goal(s, hs, all, from, a, b - 1)
  }

  lemma {:induction false} GoalSplit(s: Script, hs: seq<Hunk>, all: bool, from: Side, a: nat, m: nat, b: nat)
    requires a <= m <= b <= |s|
    ensures Goal(s, hs, all, from, a, b) == Goal(s, hs, all, from, a, m) + Goal(s, hs, all, from, m, b)
    decreases b
  {
    hide Chosen;
    if m < b { GoalSplit(s, hs, all, from, a, m, b - 1); }
  }

  /** Where all changes are chosen, or none, the wanted text is that of one side. */
  lemma {:induction false} GoalUniform(s: Script, hs: seq<Hunk>, all: bool, from: Side, a: nat, b: nat, chosen: bool)
    requires a <= b <= |s| && forall x | a <= x < b && Change(s[x]) :: Chosen(hs, all, x) == chosen
    ensures Goal(s, hs, all, from, a, b) == Text(s, a, b, if chosen then Other(from) else from)
    decreases b
  {
    hide Chosen;
    if a < b { GoalUniform(s, hs, all, from, a, b - 1, chosen); }
  }

  // ---- applying a patch

  datatype Emitted = Emitted(header: Header, text: Script)

  function Offset(h: Header, side: Side): int {
    if side == Old then h.oldOffset else h.newOffset
  }

  function CountOf(h: Header, side: Side): int {
    if side == Old then h.oldCount else h.newCount
  }

  /** How many lines of a side are before a hunk; a side without lines is given by the line
      before it. */
  function Place(h: Header, side: Side): int {
    if CountOf(h, side) == 0 then Offset(h, side) else Offset(h, side) - 1
  }

  datatype Progress = Fail | Ok(result: seq<string>, done: nat)

  /** Apply one hunk at exactly the line its header gives, on both sides. */
  function ApplyHunk(target: seq<string>, p: Progress, e: Emitted, from: Side): Progress {
    var pre := Text(e.text, 0, |e.text|, from);
    var post := Text(e.text, 0, |e.text|, Other(from));
    var at := Place(e.header, from);
    if p.Ok? && p.done <= at && at + |pre| <= |target| && target[at..at + |pre|] == pre
       && CountOf(e.header, from) == |pre| && CountOf(e.header, Other(from)) == |post|
       && Place(e.header, Other(from)) == |p.result| + (at - p.done)
    then Ok(p.result + target[p.done..at] + post, at + |pre|)
    else Fail
  }

  function ApplyHunks(target: seq<string>, patch: seq<Emitted>, from: Side): Progress {
    if patch == [] then Ok([], 0) else ApplyHunk(target, ApplyHunks(target, patch[..|patch| - 1], from),
                                                 patch[|patch| - 1], from)
  }

  // ---- positions in the texts

  lemma TextSlice(s: Script, a: nat, b: nat, side: Side)
    requires a <= b <= |s|
    ensures 0 <= Count(s, 0, a, side) <= Count(s, 0, b, side) <= |Text(s, 0, |s|, side)|
    ensures Text(s, 0, |s|, side)[Count(s, 0, a, side)..Count(s, 0, b, side)] == Text(s, a, b, side)
  {
    hide Text, Count;
    TextSplit(s, 0, a, b, side);
    TextSplit(s, 0, b, |s|, side);
    CountSplit(s, 0, a, b, side);
    CountSplit(s, 0, b, |s|, side);
  }

  /** Emitting lines [a, b), all changes of which are chosen, after the text up to `f`. */
  lemma Emit(s: Script, hs: seq<Hunk>, all: bool, from: Side, out: seq<Emitted>, f: nat, a: nat, b: nat, e: Emitted)
    requires f <= a <= b <= |s|
    requires ApplyHunks(Text(s, 0, |s|, from), out, from) == Ok(Goal(s, hs, all, from, 0, f), Count(s, 0, f, from))
    requires forall x | f <= x < a && Change(s[x]) :: !Chosen(hs, all, x)
    requires forall x | a <= x < b && Change(s[x]) :: Chosen(hs, all, x)
    requires e.text == s[a..b] && Place(e.header, from) == Count(s, 0, a, from)
    requires CountOf(e.header, from) == Count(s, a, b, from)
             && CountOf(e.header, Other(from)) == Count(s, a, b, Other(from))
    requires Place(e.header, Other(from)) == |Goal(s, hs, all, from, 0, a)|
    ensures ApplyHunks(Text(s, 0, |s|, from), out + [e], from) == Ok(Goal(s, hs, all, from, 0, b), Count(s, 0, b, from))
  {
    hide *;
    TextOfSlice(s, a, b, b, from);
    TextOfSlice(s, a, b, b, Other(from));
    TextSlice(s, f, a, from);
    TextSlice(s, a, b, from);
    CountSplit(s, 0, a, b, from);
    GoalUniform(s, hs, all, from, f, a, false);
    GoalUniform(s, hs, all, from, a, b, true);
    GoalSplit(s, hs, all, from, 0, f, a);
    GoalSplit(s, hs, all, from, 0, a, b);
    ApplyMore(Text(s, 0, |s|, from), out, e, from);
    EmitOne(Text(s, 0, |s|, from), Goal(s, hs, all, from, 0, f), Count(s, 0, f, from), e, from, Text(s, f, a, from),
            Text(s, a, b, from), Text(s, a, b, Other(from)));
  }

  lemma ApplyMore(target: seq<string>, out: seq<Emitted>, e: Emitted, from: Side)
    ensures ApplyHunks(target, out + [e], from) == ApplyHunk(target, ApplyHunks(target, out, from), e, from)
  {
    hide ApplyHunk;
    assert (out + [e])[..|out|] == out;
  }

  lemma EmitOne(target: seq<string>, result: seq<string>, done: nat, e: Emitted, from: Side, between: seq<string>,
                pre: seq<string>, post: seq<string>)
    requires pre == Text(e.text, 0, |e.text|, from) && post == Text(e.text, 0, |e.text|, Other(from))
    requires var at := Place(e.header, from);
             && 0 <= done <= at && at + |pre| <= |target| && target[at..at + |pre|] == pre
                && target[done..at] == between
             && Place(e.header, Other(from)) == |result + between|
    requires CountOf(e.header, from) == |pre| && CountOf(e.header, Other(from)) == |post|
    ensures ApplyHunk(target, Ok(result, done), e, from)
            == Ok(result + between + post, Place(e.header, from) + |pre|)
  {
    hide Text;
  }

  // ---- reassembly

  /** Before hunk `i`: the hunks chosen so far end at or before `f`, where the last one does, and
      the next one overlaps it only if the overlap was missed. */
  ghost predicate Ready(s: Script, hs: seq<Hunk>, all: bool, i: nat, f: nat) {
    && i <= |hs| && f <= |s|
    && (forall k | 0 <= k < i && Picked(hs[k], all) :: hs[k].end <= f)
    && (f == 0 || exists m | 0 <= m < i :: Picked(hs[m], all) && f == hs[m].end)
    && (0 < i < |hs| && Picked(hs[i - 1], all) && Picked(hs[i], all) && Overlap(s, hs[i - 1], hs[i])
        ==> Missed(s, hs, all, i - 1))
  }

  /** The next chosen hunk starts after what has been written, unless an overlap was missed. */
  lemma Clear(s: Script, hs: seq<Hunk>, all: bool, i: nat, f: nat)
    requires HunksOk(s, hs) && i < |hs| && Ready(s, hs, all, i, f) && Picked(hs[i], all)
    requires i == 0 || !Missed(s, hs, all, i - 1)
    ensures f <= hs[i].start
  {
    hide HunkOk, Covered, Missed;
    if f != 0 {
      var m :| 0 <= m < i && Picked(hs[m], all) && f == hs[m].end;
      if m + 1 < i { Far(s, hs, m, i); } else { assert Overlap(s, hs[m], hs[i]) || Apart(s, hs[m], hs[i]); }
    }
  }

  /** After a missed overlap what has been written ends where the previous hunk does. */
  lemma MissedAt(s: Script, hs: seq<Hunk>, all: bool, i: nat, f: nat)
    requires HunksOk(s, hs) && 0 < i < |hs| && Ready(s, hs, all, i, f) && Missed(s, hs, all, i - 1)
    ensures hs[i].start < f <= |s| && s[hs[i].start].mark == Ctx
  {
    hide HunkOk, Covered, Linked;
    assert hs[i - 1].end <= f;
  }

  ghost function Position(s: Script, hs: seq<Hunk>, i: nat): nat
    requires i <= |hs|
  {
    if i < |hs| then hs[i].start else |s|
  }

  /** At line `x` the result is `d` lines away from where the other side is. */
  ghost predicate Balanced(s: Script, hs: seq<Hunk>, all: bool, from: Side, x: nat, d: int) {
    x <= |s| && |Goal(s, hs, all, from, 0, x)| == Count(s, 0, x, Other(from)) + d
  }

  /** Hunk `i` and what comes next have only context between their ends. */
  ghost predicate Bridge(s: Script, x: nat, y: nat) {
    x <= |s| && y <= |s| && (if x <= y then AllCtx(s, x, y) else AllCtx(s, y, x))
  }

  lemma ToNext(s: Script, hs: seq<Hunk>, i: nat)
    requires HunksOk(s, hs) && i < |hs|
    ensures Bridge(s, hs[i].end, Position(s, hs, i + 1))
  {
    hide HunkOk;
    Shape(s, hs, i);
    if i + 1 < |hs| {
      Shape(s, hs, i + 1);
      assert Overlap(s, hs[i], hs[i + 1]) || Apart(s, hs[i], hs[i + 1]);
    }
  }

  lemma ToFirst(s: Script, hs: seq<Hunk>)
    requires HunksOk(s, hs)
    ensures Bridge(s, 0, Position(s, hs, 0))
  {
    if hs != [] { Shape(s, hs, 0); }
  }

  lemma CtxBalance(s: Script, hs: seq<Hunk>, all: bool, from: Side, x: nat, y: nat)
    requires x <= y && AllCtx(s, x, y)
    ensures |Goal(s, hs, all, from, 0, y)| == |Goal(s, hs, all, from, 0, x)| + (y - x)
    ensures Count(s, 0, y, Other(from)) == Count(s, 0, x, Other(from)) + (y - x)
  {
    hide Goal, Text, Count, Chosen;
    GoalUniform(s, hs, all, from, x, y, false);
    GoalSplit(s, hs, all, from, 0, x, y);
    CountCtx(s, x, y, from);
    CountCtx(s, x, y, Other(from));
    CountSplit(s, 0, x, y, Other(from));
  }

  lemma Across(s: Script, hs: seq<Hunk>, all: bool, from: Side, x: nat, y: nat, d: int)
    requires Bridge(s, x, y) && Balanced(s, hs, all, from, x, d)
    ensures Balanced(s, hs, all, from, y, d)
  {
    hide Goal, Count, AllCtx;
    if x <= y { CtxBalance(s, hs, all, from, x, y); } else { CtxBalance(s, hs, all, from, y, x); }
  }

  /** Nothing is chosen between `f` and the next hunk. */
  lemma NoneBefore(s: Script, hs: seq<Hunk>, all: bool, i: nat, f: nat, x: nat)
    requires HunksOk(s, hs) && Ready(s, hs, all, i, f) && f <= x < Position(s, hs, i)
    ensures !Chosen(hs, all, x)
  {
    hide HunkOk, Linked, Covered;
    if Chosen(hs, all, x) {
      var k :| 0 <= k < |hs| && Picked(hs[k], all) && hs[k].start <= x < hs[k].end;
      if i < k { Ascending(s, hs, i, k); }
    }
  }

  lemma {:induction false} RunChosen(s: Script, hs: seq<Hunk>, all: bool, i: nat, x: nat)
    requires HunksOk(s, hs) && i < |hs| && Picked(hs[i], all) && hs[i].start <= x < hs[RunEnd(s, hs, i, all)].end
    ensures Chosen(hs, all, x)
    decreases |hs| - i
  {
    hide HunkOk, Linked, Covered;
    if hs[i].end <= x {
      RunChosen(s, hs, all, i + 1, x);
    }
  }

  lemma SkippedNone(s: Script, hs: seq<Hunk>, all: bool, i: nat, x: nat)
    requires HunksOk(s, hs) && i < |hs| && !Picked(hs[i], all) && hs[i].start <= x < hs[i].end && x < |s|
             && Change(s[x])
    ensures !Chosen(hs, all, x)
  {
    hide HunksOk;
    if Chosen(hs, all, x) {
      var k :| 0 <= k < |hs| && Picked(hs[k], all) && hs[k].start <= x < hs[k].end;
      OneHunk(s, hs, i, k, x);
    }
  }

  /** Within a run all overlaps are seen, and the hunk after it is chosen and overlaps only if
      that overlap is missed. */
  lemma {:induction false} RunStops(s: Script, hs: seq<Hunk>, i: nat, all: bool)
    requires HunksOk(s, hs) && i < |hs| && Picked(hs[i], all)
    ensures var j := RunEnd(s, hs, i, all);
            && Picked(hs[j], all) && (forall k | i <= k < j :: !Missed(s, hs, all, k))
            && (j + 1 < |hs| && Picked(hs[j + 1], all) && Overlap(s, hs[j], hs[j + 1]) ==> Missed(s, hs, all, j))
    decreases |hs| - i
  {
    hide HunksOk, Overlap, Count;
    if RunEnd(s, hs, i, all) != i {
      RunStops(s, hs, i + 1, all);
    }
  }

  lemma ReadyAfterRun(s: Script, hs: seq<Hunk>, all: bool, i: nat, j: nat)
    requires HunksOk(s, hs) && i < |hs| && Picked(hs[i], all) && j == RunEnd(s, hs, i, all)
    ensures Ready(s, hs, all, j + 1, hs[j].end) && forall k | i <= k < j :: !Missed(s, hs, all, k)
  {
    hide HunksOk, RunEnd, Missed, Overlap;
    RunStops(s, hs, i, all);
    Shape(s, hs, j);
    forall k | 0 <= k < j + 1 && Picked(hs[k], all) ensures hs[k].end <= hs[j].end {
      if k < j { Ascending(s, hs, k, j); }
    }
    hide HunkHeader, TwoSided;
    assert Picked(hs[j], all) && hs[j].end == hs[j].end;
  }

  lemma ReadyAfterSkip(s: Script, hs: seq<Hunk>, all: bool, i: nat, f: nat)
    requires HunksOk(s, hs) && i < |hs| && Ready(s, hs, all, i, f) && !Picked(hs[i], all)
    ensures Ready(s, hs, all, i + 1, f)
  {
    hide HunksOk, Missed, Overlap;
  }

  /** Skipping a hunk moves the result by what the hunk would have changed. */
  lemma SkipBalance(s: Script, hs: seq<Hunk>, all: bool, from: Side, i: nat, d: int)
    requires HunksOk(s, hs) && i < |hs| && !Picked(hs[i], all) && Balanced(s, hs, all, from, hs[i].start, d)
    ensures Balanced(s, hs, all, from, Position(s, hs, i + 1),
                     d + CountOf(hs[i].header, from) - CountOf(hs[i].header, Other(from)))
  {
    var a, b := hs[i].start, hs[i].end;
    Shape(s, hs, i);
    forall x | a <= x < b && Change(s[x]) ensures !Chosen(hs, all, x) { SkippedNone(s, hs, all, i, x); }
    hide HunksOk, Goal, Text, Count, Chosen;
    GoalUniform(s, hs, all, from, a, b, false);
    GoalSplit(s, hs, all, from, 0, a, b);
    CountSplit(s, 0, a, b, Other(from));
    ToNext(s, hs, i);
    Across(s, hs, all, from, b, Position(s, hs, i + 1), d + Count(s, a, b, from) - Count(s, a, b, Other(from)));
  }

  /** A chosen run leaves the balance as it is. */
  lemma RunBalance(s: Script, hs: seq<Hunk>, all: bool, from: Side, i: nat, j: nat, d: int)
    requires HunksOk(s, hs) && i < |hs| && Picked(hs[i], all) && Balanced(s, hs, all, from, hs[i].start, d)
    requires j == RunEnd(s, hs, i, all) && hs[i].start <= hs[j].end <= |s|
    ensures Balanced(s, hs, all, from, Position(s, hs, j + 1), d)
  {
    hide HunksOk, Goal, Text, Count, Chosen, RunEnd, Bridge, Position;
    var a, b := hs[i].start, hs[j].end;
    forall x | a <= x < b && Change(s[x]) ensures Chosen(hs, all, x) { RunChosen(s, hs, all, i, x); }
    GoalUniform(s, hs, all, from, a, b, true);
    GoalSplit(s, hs, all, from, 0, a, b);
    CountSplit(s, 0, a, b, Other(from));
    ToNext(s, hs, j);
    Across(s, hs, all, from, b, Position(s, hs, j + 1), d);
  }

  /** render_hunk: the header with its offset moved by the hunks left out. */
  function Render(s: Script, h: Hunk, delta: int, reverse: bool): Emitted
    requires h.start <= h.end <= |s|
  {
    Emitted(if reverse then h.header.(oldOffset := h.header.oldOffset - delta)
        else h.header.(newOffset := h.header.newOffset + delta),
            s[h.start..h.end])
  }

  function Shift(delta: int, from: Side): int {
    if from == Old then delta else -delta
  }

  /** The places in the header of an emitted hunk. */
  lemma RenderPlace(s: Script, h: Hunk, delta: int, from: Side)
    requires h.start <= h.end <= |s| && h.header == HunkHeader(s, h.start, h.end)
    ensures var e := Render(s, h, delta, from == New);
            && e.text == s[h.start..h.end] && Place(e.header, from) == Count(s, 0, h.start, from)
            && CountOf(e.header, from) == Count(s, h.start, h.end, from)
            && CountOf(e.header, Other(from)) == Count(s, h.start, h.end, Other(from))
            && Place(e.header, Other(from)) == Count(s, 0, h.start, Other(from)) + Shift(delta, from)
  {
    hide Count;
  }

  lemma EmitRun(s: Script, hs: seq<Hunk>, all: bool, from: Side, out: seq<Emitted>, f: nat, i: nat, h: Hunk, delta: int)
    requires HunksOk(s, hs) && i < |hs| && Picked(hs[i], all) && Ready(s, hs, all, i, f) && f <= hs[i].start
    requires ApplyHunks(Text(s, 0, |s|, from), out, from) == Ok(Goal(s, hs, all, from, 0, f), Count(s, 0, f, from))
    requires Balanced(s, hs, all, from, hs[i].start, Shift(delta, from))
    requires h.start == hs[i].start && h.end == hs[RunEnd(s, hs, i, all)].end && h.start < h.end <= |s|
    requires h.header == HunkHeader(s, h.start, h.end)
    ensures ApplyHunks(Text(s, 0, |s|, from), out + [Render(s, h, delta, from == New)], from)
         == Ok(Goal(s, hs, all, from, 0, h.end), Count(s, 0, h.end, from))
  {
    forall x | f <= x < h.start && Change(s[x]) ensures !Chosen(hs, all, x) { NoneBefore(s, hs, all, i, f, x); }
    forall x | h.start <= x < h.end && Change(s[x]) ensures Chosen(hs, all, x) { RunChosen(s, hs, all, i, x); }
    hide HunksOk, RunEnd, Goal, Text, Count, Chosen, ApplyHunks, Place, Render, HunkHeader, Ready;
    RenderPlace(s, h, delta, from);
    Emit(s, hs, all, from, out, f, h.start, h.end, Render(s, h, delta, from == New));
  }

  /** A hunk that begins before the text already written does not apply. */
  lemma EmitFails(s: Script, from: Side, out: seq<Emitted>, result: seq<string>, f: nat, h: Hunk, delta: int)
    requires h.start < f <= |s| && s[h.start].mark == Ctx && h.start < h.end <= |s|
    requires h.header == HunkHeader(s, h.start, h.end)
    requires ApplyHunks(Text(s, 0, |s|, from), out, from) == Ok(result, Count(s, 0, f, from))
    ensures ApplyHunks(Text(s, 0, |s|, from), out + [Render(s, h, delta, from == New)], from) == Fail
  {
    CtxTwoSided(s, h.start, h.start, f);
    hide Text, Count, ApplyHunks, Place, Render, HunkHeader;
    CountSplit(s, 0, h.start, f, from);
    RenderPlace(s, h, delta, from);
    ApplyMore(Text(s, 0, |s|, from), out, Render(s, h, delta, from == New), from);
  }

  /** The text after applying a patch. */
  function Applied(target: seq<string>, patch: seq<Emitted>, from: Side): Progress {
    var p := ApplyHunks(target, patch, from);
    if p.Ok? && p.done <= |target| then Ok(p.result + target[p.done..], |target|) else Fail
  }

  /** What holds before hunk `i` when `out` has been written, up to line `f`. */
  ghost predicate Writing(s: Script, hs: seq<Hunk>, all: bool, from: Side, out: seq<Emitted>, f: nat, i: nat,
                          delta: int) {
    && Ready(s, hs, all, i, f) && (forall k | 0 <= k < i - 1 :: !Missed(s, hs, all, k))
    && ApplyHunks(Text(s, 0, |s|, from), out, from) == Ok(Goal(s, hs, all, from, 0, f), Count(s, 0, f, from))
    && Balanced(s, hs, all, from, Position(s, hs, i), Shift(delta, from))
  }

  /** An overlap was missed, and the hunk after it could not be applied. */
  ghost predicate Broken(s: Script, hs: seq<Hunk>, all: bool, from: Side, out: seq<Emitted>) {
    ApplyHunks(Text(s, 0, |s|, from), out, from) == Fail && !OverlapsSeen(s, hs, all)
  }

  lemma SkipStep(s: Script, hs: seq<Hunk>, all: bool, from: Side, out: seq<Emitted>, f: nat, i: nat, delta: int)
    requires HunksOk(s, hs) && i < |hs| && Writing(s, hs, all, from, out, f, i, delta) && !Picked(hs[i], all)
    ensures Writing(s, hs, all, from, out, f, i + 1, delta + hs[i].header.oldCount - hs[i].header.newCount)
  {
    hide HunksOk, Goal, Text, Count, ApplyHunks, Balanced, Overlap;
    ReadyAfterSkip(s, hs, all, i, f);
    SkipBalance(s, hs, all, from, i, Shift(delta, from));
  }

  lemma RunStep(s: Script, hs: seq<Hunk>, all: bool, from: Side, out: seq<Emitted>, f: nat, i: nat, delta: int, h: Hunk,
                j: nat)
    requires HunksOk(s, hs) && i < |hs| && Writing(s, hs, all, from, out, f, i, delta) && Picked(hs[i], all)
    requires i == 0 || !Missed(s, hs, all, i - 1)
    requires j == RunEnd(s, hs, i, all) && h.start == hs[i].start && h.end == hs[j].end && h.start < h.end <= |s|
    requires h.header == HunkHeader(s, h.start, h.end)
    ensures Writing(s, hs, all, from, out + [Render(s, h, delta, from == New)], h.end, j + 1, delta)
  {
    hide HunksOk, Goal, Text, Count, ApplyHunks, Balanced, RunEnd, HunkHeader, Ready, Render, Missed;
    Clear(s, hs, all, i, f);
    EmitRun(s, hs, all, from, out, f, i, h, delta);
    RunBalance(s, hs, all, from, i, j, Shift(delta, from));
    ReadyAfterRun(s, hs, all, i, j);
  }

  lemma MissedStep(s: Script, hs: seq<Hunk>, all: bool, from: Side, out: seq<Emitted>, f: nat, i: nat, delta: int,
                   h: Hunk)
    requires HunksOk(s, hs) && 0 < i < |hs| && Writing(s, hs, all, from, out, f, i, delta)
    requires Missed(s, hs, all, i - 1) && h.start == hs[i].start && h.start < h.end <= |s|
    requires h.header == HunkHeader(s, h.start, h.end)
    ensures Broken(s, hs, all, from, out + [Render(s, h, delta, from == New)])
  {
    hide HunksOk, Goal, Text, Count, ApplyHunks, Balanced, HunkHeader, Ready, Render, Missed;
    MissedAt(s, hs, all, i, f);
    EmitFails(s, from, out, Goal(s, hs, all, from, 0, f), f, h, delta);
  }

  /** A patch that failed goes on failing. */
  lemma StaysBroken(s: Script, hs: seq<Hunk>, all: bool, from: Side, out: seq<Emitted>, e: Emitted)
    requires Broken(s, hs, all, from, out)
    ensures Broken(s, hs, all, from, out + [e])
  {
    hide ApplyHunks, Text, OverlapsSeen;
    ApplyMore(Text(s, 0, |s|, from), out, e, from);
  }

  /** reassemble_patch: if every overlap of chosen neighbours can be seen, the patch fits the old
      text (in reverse modes the new text) at exactly its line numbers, and applying it gives
      what was chosen; otherwise it does not apply. */
  method Reassemble(s: Script, hs: seq<Hunk>, all: bool, reverse: bool) returns (out: seq<Emitted>)
    requires HunksOk(s, hs)
    ensures var from := if reverse then New else Old;
            Applied(Text(s, 0, |s|, from), out, from)
              == if OverlapsSeen(s, hs, all) then Ok(Goal(s, hs, all, from, 0, |s|), |Text(s, 0, |s|, from)|) else Fail
  {
    hide *;
    ghost var from := if reverse then New else Old;
    ghost var f: nat, broken: bool := 0, false;
    Begin(s, hs, all, from);
    out := [];
    var delta: int, i: nat := 0, 0;
    while i < |hs|
      invariant i <= |hs|
      invariant if broken then Broken(s, hs, all, from, out) else Writing(s, hs, all, from, out, f, i, delta)
    {
      if !Picked(hs[i], all) {
        if !broken { SkipStep(s, hs, all, from, out, f, i, delta); }
        delta := delta + hs[i].header.oldCount - hs[i].header.newCount;
        i := i + 1;
      } else {
        var hunk := hs[i];
        Shape(s, hs, i);
        var merged, j := MergeHunks(hs, i, all, s);
        if j != i {
          hunk := merged;
        }
        if broken {
          StaysBroken(s, hs, all, from, out, Render(s, hunk, delta, reverse));
        } else if i > 0 && Missed(s, hs, all, i - 1) {
          MissedStep(s, hs, all, from, out, f, i, delta, hunk);
          broken := true;
        } else {
          RunStep(s, hs, all, from, out, f, i, delta, hunk, j);
        }
        out := out + [Render(s, hunk, delta, reverse)];
        f := hunk.end;
        i := j + 1;
      }
    }
    if broken { FinishBroken(s, hs, all, from, out); } else { Finish(s, hs, all, from, out, f); }
  }

  lemma Begin(s: Script, hs: seq<Hunk>, all: bool, from: Side)
    requires HunksOk(s, hs)
    ensures Writing(s, hs, all, from, [], 0, 0, 0)
  {
    ToFirst(s, hs);
    hide HunksOk;
    Across(s, hs, all, from, 0, Position(s, hs, 0), 0);
  }

  lemma FinishBroken(s: Script, hs: seq<Hunk>, all: bool, from: Side, out: seq<Emitted>)
    requires Broken(s, hs, all, from, out)
    ensures Applied(Text(s, 0, |s|, from), out, from) == Fail && !OverlapsSeen(s, hs, all)
  {
    hide ApplyHunks, Text, OverlapsSeen;
  }

  lemma Finish(s: Script, hs: seq<Hunk>, all: bool, from: Side, out: seq<Emitted>, f: nat)
    requires HunksOk(s, hs) && exists delta :: Writing(s, hs, all, from, out, f, |hs|, delta)
    ensures Applied(Text(s, 0, |s|, from), out, from) == Ok(Goal(s, hs, all, from, 0, |s|), |Text(s, 0, |s|, from)|)
    ensures OverlapsSeen(s, hs, all)
  {
    hide HunksOk, Goal, Text, Count, ApplyHunks, Applied, Ready, Balanced, Position, Missed, Shift;
    NoneAfter(s, hs, all, f);
    RestCopied(s, hs, all, from, out, f);
  }

  /** After the last hunk the rest of the text is copied. */
  lemma RestCopied(s: Script, hs: seq<Hunk>, all: bool, from: Side, out: seq<Emitted>, f: nat)
    requires f <= |s| && forall x | f <= x < |s| && Change(s[x]) :: !Chosen(hs, all, x)
    requires ApplyHunks(Text(s, 0, |s|, from), out, from) == Ok(Goal(s, hs, all, from, 0, f), Count(s, 0, f, from))
    ensures Applied(Text(s, 0, |s|, from), out, from) == Ok(Goal(s, hs, all, from, 0, |s|), |Text(s, 0, |s|, from)|)
  {
    hide Goal, Text, Count, Chosen, ApplyHunks;
    GoalUniform(s, hs, all, from, f, |s|, false);
    GoalSplit(s, hs, all, from, 0, f, |s|);
    TextSlice(s, f, |s|, from);
    AllText(s, from);
  }

  lemma NoneAfter(s: Script, hs: seq<Hunk>, all: bool, f: nat)
    requires HunksOk(s, hs) && Ready(s, hs, all, |hs|, f)
    ensures f <= |s| && forall x | f <= x < |s| && Change(s[x]) :: !Chosen(hs, all, x)
  {
    forall x | f <= x < |s| && Change(s[x]) ensures !Chosen(hs, all, x) { NoneBefore(s, hs, all, |hs|, f, x); }
  }

  lemma AllText(s: Script, side: Side)
    ensures Count(s, 0, |s|, side) == |Text(s, 0, |s|, side)|
  {
    TextSlice(s, 0, |s|, side);
  }
}
