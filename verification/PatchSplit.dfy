/** Splitting a hunk at its context lines: split_hunk of add-patch.c. */
module PatchSplit {
  import opened PatchScript

  /** `p` and `q` are neighbouring parts of a hunk: they share exactly the context between
      their groups. */
  ghost predicate Cut(s: Script, p: Hunk, q: Hunk) {
    && 0 < q.start < p.end < |s| && p.start < q.start && p.end < q.end && AllCtx(s, q.start, p.end)
    && Change(s[q.start - 1]) && Change(s[p.end])
  }

  /** The parts of `h`: one group each, in order. */
  ghost predicate Parts(s: Script, h: Hunk, parts: seq<Hunk>) {
    && |parts| == h.splittable && parts != []
    && parts[0].start == h.start && parts[|parts| - 1].end == h.end
    && (forall j | 0 <= j < |parts| :: HunkOk(s, parts[j]) && parts[j].splittable == 1 && parts[j].use == h.use)
    && (forall j | 0 <= j < |parts| - 1 :: Cut(s, parts[j], parts[j + 1]))
  }

  datatype Marker = Unseen | Seen(mark: Mark)

  /** The variables of the loop: `cur` is the part being filled, `left` the number of parts
      still to fill, `next` where the part after it will start. */
  datatype State = State(cur: Hunk, remaining: Header, left: nat, current: nat, context: nat, first: bool,
                         marker: Marker, next: nat)

  /** The group of the current part has not been reached yet. */
  ghost predicate Due(s: Script, h: Hunk, st: State)
    requires h.end <= |s|
  {
    && st.cur.start <= st.current <= h.end
    && AllCtx(s, st.cur.start, st.current) && Groups(s, st.current, h.end) == st.left
    && (if st.first then
          && st.cur.header.oldCount == 0 == st.cur.header.newCount && st.context == st.current - st.cur.start
          && st.marker == (if st.current == st.cur.start then Unseen else Seen(Ctx))
        else
          && st.cur.header.oldCount == st.current - st.cur.start == st.cur.header.newCount && st.context == 0
          && st.current < h.end && IsStart(s, st.current) && st.marker == Seen(s[st.current].mark))
  }

  /** The group of the current part has begun; the last `context` lines are context. */
  ghost predicate Begun(s: Script, h: Hunk, st: State)
    requires h.end <= |s|
  {
    && st.cur.start <= st.current <= h.end && st.cur.start < st.current - st.context
    && var q := st.current - st.context;
    && (st.first ==> st.context == 0) && AllCtx(s, q, st.current) && Change(s[q - 1])
    && st.cur.header.oldCount == Count(s, st.cur.start, q, Old)
       && st.cur.header.newCount == Count(s, st.cur.start, q, New)
    && Groups(s, st.cur.start, st.current) == 1 && Groups(s, st.current, h.end) == st.left - 1
    && (if st.context > 0 then st.marker == Seen(Ctx) && st.next == q else st.marker == Seen(s[q - 1].mark))
  }

  /** What holds of the current part in either case. */
  ghost predicate Current(s: Script, h: Hunk, st: State)
    requires h.end <= |s|
  {
    && h.start <= st.cur.start <= st.current <= h.end && st.cur.start < h.end && st.cur.use == h.use
    && (s[st.cur.start].mark == Ctx || IsStart(s, st.cur.start))
    && st.cur.splittable == 1
    && st.cur.header.oldOffset == 1 + Count(s, 0, st.cur.start, Old) == st.remaining.oldOffset
    && st.cur.header.newOffset == 1 + Count(s, 0, st.cur.start, New) == st.remaining.newOffset
    && st.remaining.oldCount == Count(s, st.cur.start, h.end, Old)
       && st.remaining.newCount == Count(s, st.cur.start, h.end, New)
  }

  ghost predicate Scanning(s: Script, h: Hunk, st: State)
    requires h.end <= |s|
  {
    Current(s, h, st) && (Due(s, h, st) || Begun(s, h, st))
  }

  /** The parts already filled, the last of them cut from the current one. */
  ghost predicate Filled(s: Script, h: Hunk, parts: seq<Hunk>, start: nat, current: nat) {
    && (forall j | 0 <= j < |parts| :: HunkOk(s, parts[j]) && parts[j].splittable == 1 && parts[j].use == h.use)
    && (forall j | 0 <= j < |parts| - 1 :: Cut(s, parts[j], parts[j + 1]))
    && (if parts == [] then start == h.start
        else
          && parts[0].start == h.start
          && var p := parts[|parts| - 1];
          && 0 < start < p.end <= current && p.end < |s| && p.start < start && AllCtx(s, start, p.end)
          && Change(s[start - 1]) && Change(s[p.end]))
  }

  /** While parts are left to start, the next line is there and is not a note. */
  lemma NextLine(s: Script, h: Hunk, st: State)
    requires HunkOk(s, h) && Scanning(s, h, st) && st.left > 1
    ensures st.current < h.end && s[st.current].mark != Note
  {
    hide Count;
    var k := SomeStart(s, st.current, h.end);
  }

  lemma GroupsHere(s: Script, i: nat, b: nat)
    requires i < b <= |s|
    ensures Groups(s, i, b) == Groups(s, i + 1, b) + if IsStart(s, i) then 1 else 0
  {
    GroupsSplit(s, i, i + 1, b);
    assert Groups(s, i, i) == 0;
  }

  /** A context line. */
  lemma StepContext(s: Script, h: Hunk, st: State)
    requires HunkOk(s, h) && Scanning(s, h, st) && st.current < h.end && s[st.current].mark == Ctx
    ensures var after := st.marker == Seen(Del) || st.marker == Seen(Add);
            Scanning(s, h, st.(first := st.first && !after, next := if after then st.current else st.next,
                               context := (if after then 0 else st.context) + 1, marker := Seen(Ctx),
                                 current := st.current + 1))
  {
    hide Count, NotesLast;
    GroupsHere(s, st.current, h.end);
    assert !IsStart(s, st.current);
    if Begun(s, h, st) {
      assert Groups(s, st.cur.start, st.current + 1) == Groups(s, st.cur.start, st.current);
    }
  }

  /** A changed line of a group that goes on, or that starts the current part. */
  lemma StepChange(s: Script, h: Hunk, st: State)
    requires HunkOk(s, h) && Scanning(s, h, st) && st.current < h.end && Change(s[st.current])
    requires st.marker != Seen(Ctx)
    ensures st.context == 0
    ensures Scanning(s, h, st.(cur := st.cur.(header := Counted(st.cur.header, s[st.current].mark)),
                               marker := Seen(s[st.current].mark), current := st.current + 1))
  {
    hide NotesLast;
    GroupsHere(s, st.current, h.end);
    assert Groups(s, st.cur.start, st.current + 1) == Groups(s, st.cur.start, st.current) + if IsStart(s, st.current)
           then 1 else 0;
    if Due(s, h, st) {
      GroupsCtx(s, st.cur.start, st.current);
      CountCtx(s, st.cur.start, st.current, Old);
      CountCtx(s, st.cur.start, st.current, New);
    }
  }

  /** The first group of the hunk: the context so far belongs to the first part. */
  lemma StepFirst(s: Script, h: Hunk, st: State)
    requires HunkOk(s, h) && Scanning(s, h, st) && st.current < h.end && Change(s[st.current])
    requires st.first && st.marker == Seen(Ctx)
    ensures st.cur.header.oldCount == 0 == st.cur.header.newCount
    ensures var header := st.cur.header.(oldCount := st.context, newCount := st.context);
            Scanning(s, h, st.(cur := st.cur.(header := header), context := 0, first := false,
                               marker := Seen(s[st.current].mark)))
  {
    hide NotesLast, Count, Groups;
  }

  /** The current part when its context has been counted. */
  function Ended(st: State): Hunk {
    st.cur.(end := st.current,
            header := st.cur.header.(oldCount := st.cur.header.oldCount + st.context,
                                     newCount := st.cur.header.newCount + st.context))
  }

  /** The part after it, which starts with the shared context. */
  function Opened(st: State): Hunk {
    Hunk(st.next, 0, 1, st.cur.use,
         Header(st.cur.header.oldOffset + st.cur.header.oldCount, st.context,
                st.cur.header.newOffset + st.cur.header.newCount, st.context))
  }

  lemma EndedOk(s: Script, h: Hunk, st: State)
    requires HunkOk(s, h) && Current(s, h, st) && Begun(s, h, st) && st.context > 0
    ensures HunkOk(s, Ended(st)) && Ended(st).splittable == 1
  {
    var q := st.current - st.context;
    hide Count, Groups, IsStart;
    CountSplit(s, st.cur.start, q, st.current, Old);
    CountSplit(s, st.cur.start, q, st.current, New);
    CountCtx(s, q, st.current, Old);
    CountCtx(s, q, st.current, New);
    CtxTwoSided(s, st.cur.start, q, st.current);
  }

  /** The next group starts: the current part is complete and shares its last context. */
  lemma StepCut(s: Script, h: Hunk, st: State, parts: seq<Hunk>)
    requires HunkOk(s, h) && Scanning(s, h, st) && st.left > 1 && st.current < h.end && Change(s[st.current])
    requires !st.first && st.marker == Seen(Ctx) && Filled(s, h, parts, st.cur.start, st.current)
    ensures Filled(s, h, parts + [Ended(st)], st.next, st.current)
    ensures Scanning(s, h, st.(cur := Opened(st), context := 0, left := st.left - 1, marker := Seen(s[st.current].mark),
                               remaining :=
              Header(st.remaining.oldOffset + st.cur.header.oldCount, st.remaining.oldCount - st.cur.header.oldCount,
                     st.remaining.newOffset + st.cur.header.newCount, st.remaining.newCount - st.cur.header.newCount)))
  {
    assert st.context > 0 && Begun(s, h, st);
    EndedOk(s, h, st);
    CutScanning(s, h, st);
    hide Scanning, HunkOk, Count, Groups, Current, Begun;
    CutFilled(s, h, st, parts);
  }

  lemma CutScanning(s: Script, h: Hunk, st: State)
    requires HunkOk(s, h) && Current(s, h, st) && Begun(s, h, st) && st.left > 1 && st.context > 0
    requires st.current < h.end && Change(s[st.current])
    ensures Scanning(s, h, st.(cur := Opened(st), context := 0, left := st.left - 1, marker := Seen(s[st.current].mark),
                               remaining :=
              Header(st.remaining.oldOffset + st.cur.header.oldCount, st.remaining.oldCount - st.cur.header.oldCount,
                     st.remaining.newOffset + st.cur.header.newCount, st.remaining.newCount - st.cur.header.newCount)))
  {
    var q := st.current - st.context;
    hide NotesLast, HeaderOf, Count, Groups;
    assert s[st.current - 1].mark == Ctx && IsStart(s, st.current);
    CountSplit(s, 0, st.cur.start, q, Old);
    CountSplit(s, 0, st.cur.start, q, New);
    CountSplit(s, st.cur.start, q, h.end, Old);
    CountSplit(s, st.cur.start, q, h.end, New);
  }

  lemma CutFilled(s: Script, h: Hunk, st: State, parts: seq<Hunk>)
    requires h.end <= |s| && Current(s, h, st) && Begun(s, h, st) && st.context > 0 && st.current < h.end
             && Change(s[st.current])
    requires Filled(s, h, parts, st.cur.start, st.current) && HunkOk(s, Ended(st)) && Ended(st).splittable == 1
    ensures Filled(s, h, parts + [Ended(st)], st.next, st.current)
  {
    hide HunkOk, Count, Groups;
    var more := parts + [Ended(st)];
    forall j | 0 <= j < |more| - 1 ensures Cut(s, more[j], more[j + 1]) {
      if j + 1 == |parts| {
        NotAll(s, st, parts[j]);
      }
    }
  }

  /** The part before ends before this one's group does. */
  lemma NotAll(s: Script, st: State, p: Hunk)
    requires st.cur.start < st.current - st.context <= st.current <= |s| && Change(s[st.current - st.context - 1])
    requires st.cur.start < p.end && AllCtx(s, st.cur.start, p.end)
    ensures p.end < st.current
  {}

  lemma LastOk(s: Script, h: Hunk, st: State)
    requires HunkOk(s, h) && Scanning(s, h, st) && st.left == 1 && s[st.cur.start].mark == Ctx
    ensures var last := st.cur.(end := h.end, header := st.remaining);
            HunkOk(s, last) && last.splittable == 1
  {
    hide Count, IsStart;
    CtxTwoSided(s, st.cur.start, st.cur.start, h.end);
    GroupsSplit(s, st.cur.start, st.current, h.end);
    if Due(s, h, st) { GroupsCtx(s, st.cur.start, st.current); }
    hide Groups;
  }

  /** The last part gets the rest. */
  lemma LastPart(s: Script, h: Hunk, st: State, parts: seq<Hunk>, last: Hunk)
    requires HunkOk(s, h) && Scanning(s, h, st) && st.left == 1 && Filled(s, h, parts, st.cur.start, st.current)
    requires last == st.cur.(end := h.end, header := st.remaining) && |parts| + 1 == h.splittable >= 2
    ensures Parts(s, h, parts + [last])
  {
    LastOk(s, h, st);
    InsideHunk(s, h, st);
    hide HunkOk, Scanning, Change, AllCtx;
    var all := parts + [last];
    LastCut(s, last, parts[|parts| - 1], h.end);
    forall j | 0 <= j < |all| - 1 ensures Cut(s, all[j], all[j + 1]) {}
  }

  lemma InsideHunk(s: Script, h: Hunk, st: State)
    requires HunkOk(s, h) && Scanning(s, h, st)
    ensures st.current <= h.end <= |s|
  {}

  lemma LastCut(s: Script, last: Hunk, p: Hunk, end: nat)
    requires HunkOk(s, last) && last.end == end && last.start < p.end <= end && AllCtx(s, last.start, p.end)
    ensures p.end < end
  {
    var k := SomeStart(s, last.start, last.end);
  }

  /** One round of the loop.  Its checks cannot fail: the line is there, its marker is known
      and nothing has been counted before the first group.  A hunk may begin with its first
      group: those lines are counted at once, and the context after them ends `first`. */
  method SplitLine(s: Script, h: Hunk, st: State, parts: seq<Hunk>) returns (st': State, parts': seq<Hunk>)
    requires HunkOk(s, h) && h.end <= |s| && Scanning(s, h, st) && st.left > 1
             && Filled(s, h, parts, st.cur.start, st.current)
    ensures Scanning(s, h, st') && Filled(s, h, parts', st'.cur.start, st'.current)
    ensures |parts'| + st'.left == |parts| + st.left && st'.left >= 1
    ensures st'.left < st.left || (st'.left == st.left && st.current < st'.current <= h.end)
  {
    hide HunkOk, Scanning, Filled, Parts, Count, Groups, InChange, IsStart, Due, Begun, Current, AllCtx, NotesLast, Cut,
      HeaderOf, Has;
    NextLine(s, h, st);
    var ch := s[st.current].mark;
    parts' := parts;
    if st.marker != Seen(Ctx) || (ch != Del && ch != Add) {
      FilledOn(s, h, parts, st.cur.start, st.current);
      if ch == Ctx {
        StepContext(s, h, st);
        // the first context line after a group is where the next part starts
        var after := st.marker == Seen(Del) || st.marker == Seen(Add);
        st' := st.(first := st.first && !after, next := if after then st.current else st.next,
                   context := (if after then 0 else st.context) + 1, marker := Seen(Ctx), current := st.current + 1);
      } else {
        StepChange(s, h, st);
        st' := st.(cur := st.cur.(header := Counted(st.cur.header, ch)), marker := Seen(ch), current := st.current + 1);
      }
    } else if st.first {
      FilledOn(s, h, parts, st.cur.start, st.current);
      StepFirst(s, h, st);
      assert st.cur.header.oldCount == 0 && st.cur.header.newCount == 0;
      st' := st.(cur := st.cur.(header := st.cur.header.(oldCount := st.context, newCount := st.context)), context := 0,
                 first := false,
                 marker := Seen(ch));
      StepChange(s, h, st');
      st' := st'.(cur := st'.cur.(header := Counted(st'.cur.header, ch)), current := st.current + 1);
    } else {
      StepCut(s, h, st, parts);
      parts' := parts + [Ended(st)];
      st' := st.(cur := Opened(st), context := 0, left := st.left - 1, marker := Seen(ch), remaining :=
              Header(st.remaining.oldOffset + st.cur.header.oldCount, st.remaining.oldCount - st.cur.header.oldCount,
                     st.remaining.newOffset + st.cur.header.newCount, st.remaining.newCount - st.cur.header.newCount));
    }
  }

  /** split_hunk for one hunk: exactly `splittable` parts, each with the header of its own
      text.  The last one starts where the rest of the hunk does. */
  method SplitHunk(s: Script, h: Hunk) returns (parts: seq<Hunk>)
    requires HunkOk(s, h)
    ensures Parts(s, h, parts)
  {
    if h.splittable < 2 {
      return [h];
    }
    SplittableTwoSided(s, h);
    hide HunkOk, Scanning, Filled, Parts;
    ScanStart(s, h);
    parts := [];
    var st := State(h.(splittable := 1, header := h.header.(oldCount := 0, newCount := 0)), h.header, h.splittable,
                    h.start, 0, true, Unseen, 0);
    while st.left > 1
      invariant st.left >= 1 && |parts| + st.left == h.splittable && h.end <= |s|
      invariant Scanning(s, h, st) && Filled(s, h, parts, st.cur.start, st.current)
      decreases st.left, h.end - st.current
    {
      st, parts := SplitLine(s, h, st, parts);
    }
    SameOffsets(s, h, st);
    assert st.cur.header.oldOffset == st.remaining.oldOffset && st.cur.header.newOffset == st.remaining.newOffset;
    LastPart(s, h, st, parts, st.cur.(end := h.end, header := st.remaining));
    parts := parts + [st.cur.(end := h.end, header := st.cur.header.(oldCount := st.remaining.oldCount,
                                                                     newCount := st.remaining.newCount))];
  }

  function Counted(header: Header, mark: Mark): Header {
    if mark == Del then header.(oldCount := header.oldCount + 1) else header.(newCount := header.newCount + 1)
  }

  lemma ScanStart(s: Script, h: Hunk)
    requires HunkOk(s, h) && h.header == HeaderOf(s, h.start, h.end)
    ensures h.end <= |s| && h.start <= h.end && Filled(s, h, [], h.start, h.start)
    ensures Scanning(s, h, State(h.(splittable := 1, header := h.header.(oldCount := 0, newCount := 0)),
                                 h.header, h.splittable, h.start, 0, true, Unseen, 0))
  {}

  lemma FilledOn(s: Script, h: Hunk, parts: seq<Hunk>, start: nat, current: nat)
    requires Filled(s, h, parts, start, current)
    ensures Filled(s, h, parts, start, current + 1)
  {}

  lemma SameOffsets(s: Script, h: Hunk, st: State)
    requires h.end <= |s| && Scanning(s, h, st)
    ensures st.cur.header.oldOffset == st.remaining.oldOffset && st.cur.header.newOffset == st.remaining.newOffset
  {}
}
