/** The lines of a diff, as add-patch.c counts and cuts them.  A script is the whole edit of a
    file, unchanged lines between hunks included; a hunk is a range of it. */
module PatchScript {

  /** The first character of a line; Note is the "\ No newline" line. */
  datatype Mark = Ctx | Del | Add | Note

  datatype Line = Line(mark: Mark, text: string)

  type Script = seq<Line>

  datatype Side = Old | New

  predicate Has(line: Line, side: Side) {
    line.mark == Ctx || (side == Old && line.mark == Del) || (side == New && line.mark == Add)
  }

  predicate Change(line: Line) {
    line.mark == Del || line.mark == Add
  }

  ghost predicate AllCtx(s: Script, a: nat, b: nat) {
    b <= |s| && forall i | a <= i < b :: s[i].mark == Ctx
  }

  // ---- counting lines

  function Count(s: Script, a: nat, b: nat, side: Side): (n: nat)
    requires a <= b <= |s|
    ensures n <= b - a
    decreases b
  {
    if a == b then 0 else Count(s, a, b - 1, side) + if Has(s[b - 1], side) then 1 else 0
  }

  lemma {:induction false} CountSplit(s: Script, a: nat, m: nat, b: nat, side: Side)
    requires a <= m <= b <= |s|
    ensures Count(s, a, b, side) == Count(s, a, m, side) + Count(s, m, b, side)
    decreases b
  {
    if m < b { CountSplit(s, a, m, b - 1, side); }
  }

  lemma {:induction false} CountCtx(s: Script, a: nat, b: nat, side: Side)
    requires a <= b && AllCtx(s, a, b)
    ensures Count(s, a, b, side) == b - a
    decreases b
  {
    if a < b { CountCtx(s, a, b - 1, side); }
  }

  /** The lines of one side. */
  function Text(s: Script, a: nat, b: nat, side: Side): (t: seq<string>)
    requires a <= b <= |s|
    ensures |t| == Count(s, a, b, side)
    decreases b
  {
    if a == b then []
    else if Has(s[b - 1], side) then Text(s, a, b - 1, side) + [s[b - 1].text]
    else Text(s, a, b - 1, side)
  }

  lemma {:induction false} TextSplit(s: Script, a: nat, m: nat, b: nat, side: Side)
    requires a <= m <= b <= |s|
    ensures Text(s, a, b, side) == Text(s, a, m, side) + Text(s, m, b, side)
    decreases b
  {
    if m < b { TextSplit(s, a, m, b - 1, side); }
  }

  lemma {:induction false} TextOfSlice(s: Script, a: nat, m: nat, b: nat, side: Side)
    requires a <= m <= b <= |s|
    ensures Text(s[a..b], 0, m - a, side) == Text(s, a, m, side)
    decreases m
  {
    if a < m { TextOfSlice(s, a, m - 1, b, side); }
  }

  lemma {:induction false} TextCtx(s: Script, a: nat, b: nat)
    requires a <= b && AllCtx(s, a, b)
    ensures Text(s, a, b, Old) == Text(s, a, b, New)
    decreases b
  {
    if a < b { TextCtx(s, a, b - 1); }
  }

  // ---- change groups

  /** A note belongs to the line before it. */
  predicate InChange(s: Script, i: nat)
    requires i < |s|
  {
    if s[i].mark != Note then Change(s[i]) else i > 0 && InChange(s, i - 1)
  }

  /** The first line of a group of changed lines. */
  predicate IsStart(s: Script, k: nat)
    requires k < |s|
  {
    Change(s[k]) && (k == 0 || !InChange(s, k - 1))
  }

  function Groups(s: Script, a: nat, b: nat): (n: nat)
    requires a <= b <= |s|
    decreases b
  {
    if a == b then 0 else Groups(s, a, b - 1) + if IsStart(s, b - 1) then 1 else 0
  }

  lemma {:induction false} GroupsSplit(s: Script, a: nat, m: nat, b: nat)
    requires a <= m <= b <= |s|
    ensures Groups(s, a, b) == Groups(s, a, m) + Groups(s, m, b)
    decreases b
  {
    if m < b { GroupsSplit(s, a, m, b - 1); }
  }

  lemma {:induction false} GroupsCtx(s: Script, a: nat, b: nat)
    requires a <= b && AllCtx(s, a, b)
    ensures Groups(s, a, b) == 0
    decreases b
  {
    if a < b { GroupsCtx(s, a, b - 1); }
  }

  /** Where there are groups there is a first line of one. */
  lemma {:induction false} SomeStart(s: Script, a: nat, b: nat) returns (k: nat)
    requires a <= b <= |s| && Groups(s, a, b) > 0
    ensures a <= k < b && IsStart(s, k)
    decreases b
  {
    if IsStart(s, b - 1) { return b - 1; }
    k := SomeStart(s, a, b - 1);
  }

  /** How parse_diff and complete_file count: one for each group that ends. */
  method CountSplittable(s: Script, a: nat, b: nat) returns (n: nat)
    requires a <= b <= |s| && (a > 0 ==> !InChange(s, a - 1))
    requires a < b ==> s[a].mark != Note
    ensures n == Groups(s, a, b)
  {
    n := 0;
    var marker := Ctx;
    for i := a to b
      invariant Change(Line(marker, "")) == (i > a && InChange(s, i - 1))
      invariant n + (if Change(Line(marker, "")) then 1 else 0) == Groups(s, a, i)
    {
      if (marker == Del || marker == Add) && s[i].mark == Ctx {
        n := n + 1;
      }
      if s[i].mark != Note {
        marker := s[i].mark;
      }
    }
    if marker == Del || marker == Add {
      n := n + 1;
    }
  }

  // ---- hunks

  datatype Header = Header(oldOffset: int, oldCount: int, newOffset: int, newCount: int)

  datatype Use = Undecided | Skip | Used

  datatype Hunk = Hunk(start: nat, end: nat, splittable: nat, use: Use, header: Header)

  /** The header that describes lines [a, b). */
  function HeaderOf(s: Script, a: nat, b: nat): Header
    requires a <= b <= |s|
  {
    Header(1 + Count(s, 0, a, Old), Count(s, a, b, Old), 1 + Count(s, 0, a, New), Count(s, a, b, New))
  }

  /** Both texts have lines in [a, b). */
  predicate TwoSided(s: Script, a: nat, b: nat)
    requires a <= b <= |s|
  {
    Count(s, a, b, Old) > 0 && Count(s, a, b, New) > 0
  }

  /** The line number in a header; a side without lines is given by the line before it. */
  function HeaderLine(before: nat, count: nat): nat {
    if count == 0 then before else before + 1
  }

  /** The header diff gives to lines [a, b). */
  function HunkHeader(s: Script, a: nat, b: nat): (h: Header)
    requires a <= b <= |s|
    ensures TwoSided(s, a, b) ==> h == HeaderOf(s, a, b)
  {
    var before, after := Count(s, a, b, Old), Count(s, a, b, New);
    Header(HeaderLine(Count(s, 0, a, Old), before), before, HeaderLine(Count(s, 0, a, New), after), after)
  }

  lemma CtxTwoSided(s: Script, a: nat, i: nat, b: nat)
    requires a <= i < b <= |s| && s[i].mark == Ctx
    ensures TwoSided(s, a, b)
  {
    CountSplit(s, a, i + 1, b, Old);
    CountSplit(s, a, i + 1, b, New);
  }

  /** Notes occur in the last group or after it. */
  ghost predicate NotesLast(s: Script, a: nat, b: nat) {
    b <= |s| && forall i, k | a <= i < k < b && s[i].mark == Note :: !IsStart(s, k)
  }

  /** A hunk with the header and the number of groups of its own text.  It begins with a context
      line or a group, and only a hunk that is the whole file may have an empty side. */
  ghost predicate HunkOk(s: Script, h: Hunk) {
    && h.start < h.end <= |s| && (s[h.start].mark == Ctx || IsStart(s, h.start)) && NotesLast(s, h.start, h.end)
    && h.header == HunkHeader(s, h.start, h.end) && h.splittable == Groups(s, h.start, h.end) >= 1
    && (TwoSided(s, h.start, h.end) || (h.start == 0 && h.end == |s|))
  }

  /** Between two groups there is a context line. */
  lemma {:induction false} BetweenGroups(s: Script, a: nat, b: nat) returns (i: nat)
    requires a < b <= |s| && s[a].mark != Note && Groups(s, a, b) >= 2
    ensures a <= i < b && s[i].mark == Ctx
    decreases b
  {
    if IsStart(s, b - 1) && b - 1 > a && Groups(s, a, b - 1) >= 1 {
      i := NotInChange(s, a, b - 2);
    } else {
      i := BetweenGroups(s, a, b - 1);
    }
  }

  lemma {:induction false} NotInChange(s: Script, a: nat, k: nat) returns (i: nat)
    requires a <= k < |s| && s[a].mark != Note && !InChange(s, k)
    ensures a <= i <= k && s[i].mark == Ctx
    decreases k
  {
    if s[k].mark == Note { i := NotInChange(s, a, k - 1); } else { i := k; }
  }

  /** A hunk that can be split has lines on both sides. */
  lemma SplittableTwoSided(s: Script, h: Hunk)
    requires HunkOk(s, h) && h.splittable >= 2
    ensures TwoSided(s, h.start, h.end) && h.header == HeaderOf(s, h.start, h.end)
  {
    var i := BetweenGroups(s, h.start, h.end);
    CtxTwoSided(s, h.start, i, h.end);
  }

  /** Two hunks share context lines, as the parts of a split hunk do. */
  ghost predicate Overlap(s: Script, h: Hunk, g: Hunk) {
    h.start < g.start < h.end < g.end && AllCtx(s, g.start, h.end)
  }

  /** Two hunks with unchanged lines between them. */
  ghost predicate Apart(s: Script, h: Hunk, g: Hunk) {
    h.start < h.end < g.start < g.end && AllCtx(s, h.end, g.start)
  }

  ghost predicate Linked(s: Script, hs: seq<Hunk>) {
    forall i | 0 <= i < |hs| - 1 :: Overlap(s, hs[i], hs[i + 1]) || Apart(s, hs[i], hs[i + 1])
  }

  ghost predicate Covered(s: Script, hs: seq<Hunk>) {
    if hs == [] then AllCtx(s, 0, |s|)
    else AllCtx(s, 0, hs[0].start) && hs[|hs| - 1].end <= |s| && AllCtx(s, hs[|hs| - 1].end, |s|)
  }

  /** The hunks of a file: all changes, each in one hunk. */
  ghost predicate HunksOk(s: Script, hs: seq<Hunk>) {
    (forall i | 0 <= i < |hs| :: HunkOk(s, hs[i])) && Linked(s, hs) && Covered(s, hs)
  }
}
