/** Passing blame from a target to one parent along the hunks of a diff. */
module BlamePass {
  import opened BlameEntries
  import opened BlameChunk
  import opened BlameIgnore
  import opened BlameHunks
  import opened BlameOrder

  const INT_MAX := 0x7fff_ffff

  // ---- one hunk

  /** The entries inside a hunk, and those after it. */
  function Within(es: seq<Entry>, h: Hunk): seq<Entry> { Front(Back(es, h.startB), h.EndB()) }

  function After(es: seq<Entry>, h: Hunk): seq<Entry> { Back(Back(es, h.startB), h.EndB()) }

  /** blame_chunk for one hunk. */
  method PassChunk(rest: seq<Entry>, h: Hunk, offset: int, parent: Origin, mode: Mode)
    returns (passed: seq<Entry>, kept: seq<Entry>, rest': seq<Entry>)
    requires Proper(rest)
    ensures Proper(passed) && Proper(kept) && rest' == After(rest, h)
    ensures Expand(passed) == Moved(Expand(Front(rest, h.startB)), parent, offset)
                              + Changed(Expand(Within(rest, h)), h, parent, mode, true)
    ensures Expand(kept) == Changed(Expand(Within(rest, h)), h, parent, mode, false)
    ensures mode.Plain? ==> passed == MoveAll(Front(rest, h.startB), parent, offset) && kept == Within(rest, h)
  {
    hide Expand, Moved, Front, Back, MoveAll, Guesses.Route;
    var before, mid := PassSame(rest, h.startB, offset, parent);
    CutProper(rest, h, parent, offset);
    MoveLines(Front(rest, h.startB), parent, offset);
    match mode
    case Plain =>
      kept, rest' := KeepDifferent(mid, h.EndB());
      passed := before;
      assert Expand(passed) + [] == Expand(passed);
    case Ignoring(guess) =>
      var guessed;
      var g := Guesses(guess(h), h.startB, parent);
      kept, guessed, rest' := KeepOrGuess(g, mid, h.EndB());
      ExpandJoin(before, guessed);
      passed := before + guessed;
  }

  lemma CutProper(rest: seq<Entry>, h: Hunk, parent: Origin, offset: int)
    requires Proper(rest)
    ensures Proper(Back(rest, h.startB)) && Proper(Within(rest, h)) && Proper(After(rest, h))
    ensures Proper(MoveAll(Front(rest, h.startB), parent, offset))
  {
    hide Numbers, Expand;
    CutNumbers(rest, h.startB);
    CutNumbers(Back(rest, h.startB), h.EndB());
    MoveProper(Front(rest, h.startB), parent, offset);
  }

  lemma MoveProper(es: seq<Entry>, parent: Origin, offset: int)
    requires Proper(es)
    ensures Proper(MoveAll(es, parent, offset))
  {}

  /** A hunk loses no line, whatever the order of the list. */
  lemma ChunkNumbers(rest: seq<Entry>, h: Hunk, offset: int, parent: Origin, mode: Mode, passed: seq<Claim>,
                     kept: seq<Claim>)
    requires Proper(rest)
    requires passed == Moved(Expand(Front(rest, h.startB)), parent, offset)
                       + Changed(Expand(Within(rest, h)), h, parent, mode, true)
    requires kept == Changed(Expand(Within(rest, h)), h, parent, mode, false)
    ensures Proper(After(rest, h))
    ensures Numbers(passed) + Numbers(kept) + Numbers(Expand(After(rest, h))) == Numbers(Expand(rest))
  {
    hide Expand, Moved, Front, Back, Numbers, Changed;
    var front, inside := Expand(Front(rest, h.startB)), Expand(Within(rest, h));
    CutNumbers(rest, h.startB);
    CutNumbers(Back(rest, h.startB), h.EndB());
    NumbersMoved(front, parent, offset);
    NumbersJoin(Moved(front, parent, offset), Changed(inside, h, parent, mode, true));
    NumbersChanged(inside, h, parent, mode);
  }

  lemma NumbersChanged(cs: seq<Claim>, h: Hunk, parent: Origin, mode: Mode)
    ensures Numbers(cs) == Numbers(Changed(cs, h, parent, mode, true)) + Numbers(Changed(cs, h, parent, mode, false))
  {
    if mode.Ignoring? {
      NumbersRoute(Guesses(mode.guess(h), h.startB, parent), cs);
    }
  }

  /** In a list that is parted at both ends of the hunk, its lines are those the diff says. */
  lemma ChunkLines(rest: seq<Entry>, h: Hunk)
    requires Proper(rest) && PartedAt(rest, h.startB) && PartedAt(rest, h.EndB())
    ensures Expand(Front(rest, h.startB)) == Below(Expand(rest), h.startB)
    ensures Expand(Within(rest, h)) == Below(From(Expand(rest), h.startB), h.EndB())
    ensures Expand(After(rest, h)) == From(From(Expand(rest), h.startB), h.EndB())
    ensures forall t | PartedAt(rest, t) :: PartedAt(After(rest, h), t)
  {
    hide Expand, Select, Front, Back, PartedAt;
    CutProper(rest, h, Origin(0, ""), 0);
    CutLines(rest, h.startB);
    BackParted(rest, h.startB);
    CutLines(Back(rest, h.startB), h.EndB());
    BackParted(Back(rest, h.startB), h.EndB());
  }

  /** The pieces of a sorted list before, inside and after a hunk. */
  lemma ChunkSorted(rest: seq<Entry>, h: Hunk, lo: int)
    requires Proper(rest) && Sorted(rest) && AllFrom(rest, lo) && lo <= h.startB
    ensures Sorted(Front(rest, h.startB)) && AllFrom(Front(rest, h.startB), lo)
            && AllUpTo(Front(rest, h.startB), h.startB)
    ensures Sorted(Within(rest, h)) && AllFrom(Within(rest, h), h.startB) && AllTo(Within(rest, h), h.EndB())
    ensures AllUpTo(Within(rest, h), h.EndB())
    ensures Sorted(After(rest, h)) && AllFrom(After(rest, h), h.EndB())
  {
    hide Front, Back, Sorted;
    FrontSorted(rest, h.startB, lo);
    BackSorted(rest, h.startB);
    FrontSorted(Back(rest, h.startB), h.EndB(), h.startB);
    BackSorted(Back(rest, h.startB), h.EndB());
  }

  // ---- all hunks

  ghost predicate AllUpTo(es: seq<Entry>, hi: int) {
    forall i | 0 <= i < |es| :: es[i].s <= hi
  }

  lemma SortedJoin(a: seq<Entry>, b: seq<Entry>, at: int, hi: int)
    requires Sorted(a) && Sorted(b) && AllUpTo(a, at) && AllFrom(b, at) && AllUpTo(b, hi) && at <= hi
    ensures Sorted(a + b) && AllUpTo(a + b, hi)
  {}

  lemma MoveSorted(es: seq<Entry>, parent: Origin, offset: int, lo: int, hi: int)
    requires Sorted(es) && AllFrom(es, lo) && AllUpTo(es, hi)
    ensures Sorted(MoveAll(es, parent, offset)) && AllFrom(MoveAll(es, parent, offset), lo + offset)
    ensures AllUpTo(MoveAll(es, parent, offset), hi + offset)
  {}

  /** Plain passing of a sorted list up to line `posB` of the target: both lists are sorted. */
  ghost predicate InOrder(newdest: seq<Entry>, kept: seq<Entry>, rest: seq<Entry>, posB: int, offset: int) {
    && Sorted(newdest) && AllUpTo(newdest, posB + offset)
    && Sorted(kept) && AllUpTo(kept, posB)
    && Sorted(rest) && AllFrom(rest, posB)
  }

  lemma InOrderOn(newdest: seq<Entry>, kept: seq<Entry>, rest: seq<Entry>, posB: int, offset: int, h: Hunk,
                  parent: Origin)
    requires Proper(rest) && InOrder(newdest, kept, rest, posB, offset)
    requires h.startA - h.startB == offset && posB <= h.startB && h.countA >= 0 && h.countB >= 0
    ensures InOrder(newdest + MoveAll(Front(rest, h.startB), parent, offset), kept + Within(rest, h), After(rest, h),
                    h.EndB(), h.Offset())
  {
    hide Front, Back, MoveAll, Sorted, Proper, Within, After;
    var front, inside := Front(rest, h.startB), Within(rest, h);
    ChunkSorted(rest, h, posB);
    MoveSorted(front, parent, offset, posB, h.startB);
    SortedJoin(newdest, MoveAll(front, parent, offset), posB + offset, h.startB + offset);
    SortedJoin(kept, inside, posB, h.EndB());
  }

  /** What is kept lies in hunks, and all of it in entries of the list. */
  ghost predicate InPlace(kept: seq<Entry>, rest: seq<Entry>, list: seq<Entry>, hunks: seq<Hunk>) {
    Parts(kept, list) && Parts(rest, list) && InHunks(kept, hunks)
  }

  lemma InPlaceOn(kept: seq<Entry>, rest: seq<Entry>, list: seq<Entry>, hunks: seq<Hunk>, h: Hunk)
    requires Proper(rest) && Sorted(rest) && InPlace(kept, rest, list, hunks) && h in hunks
    ensures InPlace(kept + Within(rest, h), After(rest, h), list, hunks)
  {
    hide Front, Back, Sorted, Proper, Parts, AllUpTo;
    CutProper(rest, h, Origin(0, ""), 0);
    BackSorted(rest, h.startB);
    FrontSorted(Back(rest, h.startB), h.EndB(), h.startB);
    CutParts(rest, h.startB);
    CutParts(Back(rest, h.startB), h.EndB());
    PartsTransitive(Back(rest, h.startB), rest, list);
    PartsTransitive(Within(rest, h), Back(rest, h.startB), list);
    PartsTransitive(After(rest, h), Back(rest, h.startB), list);
    PartsJoin(kept, Within(rest, h), list);
    InOneHunk(Within(rest, h), hunks, h);
  }

  lemma InOneHunk(es: seq<Entry>, hunks: seq<Hunk>, h: Hunk)
    requires AllFrom(es, h.startB) && AllTo(es, h.EndB()) && h in hunks
    ensures InHunks(es, hunks)
  {
    forall e | e in es ensures exists h :: h in hunks && h.startB <= e.s && e.s + e.num <= h.EndB() {
      assert h.startB <= e.s && e.s + e.num <= h.EndB();
    }
  }

  function Sort(es: seq<Entry>): seq<Entry> {
    if es == [] then [] else Merged([es[0]], Sort(es[1..]))
  }

  /** sort_blame_entries sorts by suspect line and loses nothing. */
  lemma {:induction false} SortSorts(es: seq<Entry>, lo: int)
    requires AllFrom(es, lo)
    ensures Sorted(Sort(es)) && AllFrom(Sort(es), lo) && multiset(Expand(Sort(es))) == multiset(Expand(es))
    ensures Proper(es) ==> Proper(Sort(es))
  {
    if es != [] {
      SortSorts(es[1..], lo);
      MergedSorted([es[0]], Sort(es[1..]), lo);
      MergedLines([es[0]], Sort(es[1..]));
      ExpandOne(es[0]);
    }
  }

  lemma {:induction false} LowerBound(es: seq<Entry>) returns (lo: int)
    ensures AllFrom(es, lo)
  {
    if es == [] {
      lo := 0;
    } else {
      lo := LowerBound(es[1..]);
      if es[0].s < lo { lo := es[0].s; }
    }
  }

  lemma {:induction false} UpperBound(es: seq<Entry>, least: int) returns (hi: int)
    ensures AllUpTo(es, hi) && least <= hi
  {
    if es == [] {
      hi := least;
    } else {
      hi := UpperBound(es[1..], least);
      if es[0].s > hi { hi := es[0].s; }
    }
  }

  lemma PassStep(cs: seq<Claim>, hunks: seq<Hunk>, i: int, offset: int, parent: Origin, mode: Mode)
    requires 0 <= i < |hunks|
    ensures var h := hunks[i];
            var changed := Below(From(cs, h.startB), h.EndB());
            var rest := PassLines(From(From(cs, h.startB), h.EndB()), hunks[i + 1..], h.Offset(), parent, mode);
            PassLines(cs, hunks[i..], offset, parent, mode)
            == (Moved(Below(cs, h.startB), parent, offset) + (Changed(changed, h, parent, mode, true) + rest.0),
                Changed(changed, h, parent, mode, false) + rest.1)
  {
    assert hunks[i..][0] == hunks[i] && hunks[i..][1..] == hunks[i + 1..];
  }

  lemma AlignedStep(hunks: seq<Hunk>, i: int, offset: int, posB: int)
    requires 0 <= i < |hunks|
    ensures Aligned(hunks[i..], offset) <==>
            hunks[i].startA - hunks[i].startB == offset && Aligned(hunks[i + 1..], hunks[i].Offset())
    ensures Ordered(hunks[i..], posB) <==>
              posB <= hunks[i].startB && hunks[i].countA >= 0 && hunks[i].countB >= 0
                && Ordered(hunks[i + 1..], hunks[i].EndB())
  {
    assert hunks[i..][0] == hunks[i] && hunks[i..][1..] == hunks[i + 1..];
  }

  /** The entries can be cut at every hunk, and there are no lines beyond the last one. */
  ghost predicate Passable(list: seq<Entry>, hunks: seq<Hunk>) {
    Ready(list, hunks) && forall c | c in Expand(list) :: c.s < INT_MAX
  }

  /** The state of pass_blame_to_parent before some hunks, on a passable list. */
  ghost predicate Passing(rest: seq<Entry>, hunks: seq<Hunk>, offset: int, parent: Origin, mode: Mode,
                          newdest: seq<Entry>, kept: seq<Entry>, all: (seq<Claim>, seq<Claim>)) {
    && Passable(rest, hunks)
    && Expand(newdest) + PassLines(Expand(rest), hunks, offset, parent, mode).0 == all.0
    && Expand(kept) + PassLines(Expand(rest), hunks, offset, parent, mode).1 == all.1
  }

  lemma PassingStarts(list: seq<Entry>, hunks: seq<Hunk>, parent: Origin, mode: Mode)
    requires Passable(list, hunks)
    ensures Passing(list, hunks, 0, parent, mode, [], [], PassLines(Expand(list), hunks, 0, parent, mode))
  {
    NoLines();
    hide Expand, PassLines;
  }

  lemma PassingOn(rest: seq<Entry>, hunks: seq<Hunk>, i: int, offset: int, parent: Origin, mode: Mode,
                  newdest: seq<Entry>,
                  kept: seq<Entry>, all: (seq<Claim>, seq<Claim>), passed: seq<Entry>, inside: seq<Entry>)
    requires Proper(rest) && 0 <= i < |hunks| && Passing(rest, hunks[i..], offset, parent, mode, newdest, kept, all)
    requires Expand(passed) == Moved(Expand(Front(rest, hunks[i].startB)), parent, offset)
                               + Changed(Expand(Within(rest, hunks[i])), hunks[i], parent, mode, true)
    requires Expand(inside) == Changed(Expand(Within(rest, hunks[i])), hunks[i], parent, mode, false)
    ensures Passing(After(rest, hunks[i]), hunks[i + 1..], hunks[i].Offset(), parent, mode, newdest + passed,
                    kept + inside, all)
  {
    hide Expand, Moved, Select, Changed, PassLines, Front, Within, After, PartedAt;
    var h := hunks[i];
    assert hunks[i..][0] == h;
    ChunkLines(rest, h);
    PassStep(Expand(rest), hunks, i, offset, parent, mode);
    ExpandJoin(newdest, passed);
    ExpandJoin(kept, inside);
    SelectedBelow(Expand(rest), h.startB, h.EndB());
    assert forall g | g in hunks[i + 1..] :: g in hunks[i..];
  }

  // ---- plain passing of a sorted list

  ghost predicate PlainInOrder(list: seq<Entry>, hunks: seq<Hunk>, mode: Mode) {
    mode.Plain? && Passable(list, hunks) && Sorted(list) && AllFrom(list, 0) && Ordered(hunks, 0)
  }

  ghost predicate PlainSoFar(list: seq<Entry>, hunks: seq<Hunk>, i: nat, posB: int, offset: int,
                             newdest: seq<Entry>, kept: seq<Entry>, rest: seq<Entry>) {
    i <= |hunks| && Ordered(hunks[i..], posB) && InOrder(newdest, kept, rest, posB, offset)
      && InPlace(kept, rest, list, hunks)
  }

  lemma PlainMode(list: seq<Entry>, hunks: seq<Hunk>, mode: Mode)
    requires PlainInOrder(list, hunks, mode)
    ensures mode.Plain? && Passable(list, hunks)
  {}

  lemma PlainStarts(list: seq<Entry>, hunks: seq<Hunk>, mode: Mode)
    requires PlainInOrder(list, hunks, mode)
    ensures PlainSoFar(list, hunks, 0, 0, 0, [], [], list)
  {
    PartsSelf(list);
    assert hunks[0..] == hunks;
    hide Parts, Passable;
  }

  lemma PlainOn(list: seq<Entry>, hunks: seq<Hunk>, i: nat, posB: int, offset: int,
                newdest: seq<Entry>, kept: seq<Entry>, rest: seq<Entry>, parent: Origin)
    requires Proper(rest) && i < |hunks| && PlainSoFar(list, hunks, i, posB, offset, newdest, kept, rest)
    requires hunks[i].startA - hunks[i].startB == offset
    ensures PlainSoFar(list, hunks, i + 1, hunks[i].EndB(), hunks[i].Offset(),
                       newdest + MoveAll(Front(rest, hunks[i].startB), parent, offset), kept + Within(rest, hunks[i]),
                         After(rest, hunks[i]))
  {
    AlignedStep(hunks, i, offset, posB);
    assert Sorted(rest);
    hide InOrder, InPlace, Ordered, MoveAll, Front, Within, After, Sorted;
    InOrderOn(newdest, kept, rest, posB, offset, hunks[i], parent);
    InPlaceOn(kept, rest, list, hunks, hunks[i]);
  }

  lemma PlainEnds(list: seq<Entry>, hunks: seq<Hunk>, posB: int, offset: int, newdest: seq<Entry>, kept: seq<Entry>,
                  rest: seq<Entry>, parent: Origin, mode: Mode, last: seq<Entry>)
    requires PlainInOrder(list, hunks, mode) && PlainSoFar(list, hunks, |hunks|, posB, offset, newdest, kept, rest)
    requires last == MoveAll(rest, parent, offset)
    ensures mode.Plain? && Sorted(newdest + last)
    ensures Sorted(kept + []) && Parts(kept + [], list) && InHunks(kept + [], hunks)
  {
    var hi := UpperBound(rest, posB);
    MoveSorted(rest, parent, offset, posB, hi);
    SortedJoin(newdest, last, posB + offset, hi + offset);
    assert kept + [] == kept;
  }

  /** pass_blame_to_parent: fails only when the hunks do not fit together.  `newdest` goes to
      the parent, `kept` stays with the target; between them they have every line.  If the list
      is in order at the ends of the hunks, they are the lines the diff says. */
  method PassToParent(list: seq<Entry>, hunks: seq<Hunk>, parent: Origin, mode: Mode)
    returns (ok: bool, newdest: seq<Entry>, kept: seq<Entry>)
    requires Proper(list)
    ensures ok <==> Aligned(hunks, 0)
    ensures ok ==>
              && Proper(newdest)
              && Proper(kept)
              && Numbers(Expand(newdest)) + Numbers(Expand(kept)) == Numbers(Expand(list))
    ensures ok && Passable(list, hunks) ==>
              && multiset(Expand(newdest)) == multiset(PassLines(Expand(list), hunks, 0, parent, mode).0)
              && Expand(kept) == PassLines(Expand(list), hunks, 0, parent, mode).1
    ensures ok && mode.Ignoring? ==> Sorted(newdest)
    ensures ok && PlainInOrder(list, hunks, mode) ==>
            Sorted(newdest) && Sorted(kept) && Parts(kept, list) && InHunks(kept, hunks)
  {
    hide *;
    newdest, kept := [], [];
    var rest, offset := list, 0;
    ghost var posB := 0;
    ghost var all := PassLines(Expand(list), hunks, 0, parent, mode);
    assert hunks[0..] == hunks;
    NothingPassed(list);
    if Passable(list, hunks) { PassingStarts(list, hunks, parent, mode); }
    if PlainInOrder(list, hunks, mode) { PlainStarts(list, hunks, mode); }
    for i := 0 to |hunks|
      invariant Proper(rest) && Proper(newdest) && Proper(kept)
      invariant Numbers(Expand(newdest)) + Numbers(Expand(kept)) + Numbers(Expand(rest)) == Numbers(Expand(list))
      invariant Aligned(hunks[i..], offset) == Aligned(hunks, 0)
      invariant Passable(list, hunks) ==> Passing(rest, hunks[i..], offset, parent, mode, newdest, kept, all)
      invariant PlainInOrder(list, hunks, mode) ==> PlainSoFar(list, hunks, i, posB, offset, newdest, kept, rest)
    {
      var h := hunks[i];
      AlignedStep(hunks, i, offset, posB);
      if h.startA - h.startB != offset {
        return false, newdest, kept;
      }
      var passed, inside, rest' := PassChunk(rest, h, offset, parent, mode);
      ChunkNumbers(rest, h, offset, parent, mode, Expand(passed), Expand(inside));
      if Passable(list, hunks) { PassingOn(rest, hunks, i, offset, parent, mode, newdest, kept, all, passed, inside); }
      if PlainInOrder(list, hunks, mode) {
        PlainMode(list, hunks, mode);
        PlainOn(list, hunks, i, posB, offset, newdest, kept, rest, parent);
      }
      AddNumbers(newdest, passed);
      AddNumbers(kept, inside);
      newdest, kept, rest := newdest + passed, kept + inside, rest';
      offset := h.Offset();
      posB := h.EndB();
    }
    // the rest is the same as the parent
    assert hunks[|hunks|..] == [];
    NoHunks(offset);
    var last, none := PassSame(rest, INT_MAX, offset, parent);
    RestNumbers(rest, offset, parent);
    AddNumbers(newdest, last);
    AddNumbers(kept, none);
    if PlainInOrder(list, hunks, mode) { PlainMode(list, hunks, mode); }
    if Passable(list, hunks) { PassingEnds(rest, offset, parent, mode, newdest, kept, all, last, none); }
    if PlainInOrder(list, hunks, mode) {
      PlainEnds(list, hunks, posB, offset, newdest, kept, rest, parent, mode, last);
    }
    newdest, kept := newdest + last, kept + none;
    if mode.Ignoring? {
      ghost var lo := LowerBound(newdest);
      SortSorts(newdest, lo);
      SortNumbers(newdest);
      newdest := Sort(newdest);
    }
    ok := true;
  }

  lemma NothingPassed(list: seq<Entry>)
    ensures Proper([]) && Numbers(Expand([])) + Numbers(Expand([])) + Numbers(Expand(list)) == Numbers(Expand(list))
  {
    NoLines();
  }

  lemma NoHunks(offset: int)
    ensures Aligned([], offset)
  {}

  /** The same lines in another order. */
  lemma {:induction false} SameLinesCount(a: seq<Claim>, b: seq<Claim>)
    requires multiset(a) == multiset(b)
    ensures Numbers(a) == Numbers(b) && |a| == |b|
    decreases |a|
  {
    hide Numbers;
    SameSize(a, b);
    if a == [] {
      assert b == [];
    } else {
      var i := Find(b, a[0], multiset(a));
      Without(a, 0);
      Without(b, i);
      SameLinesCount(a[..0] + a[1..], b[..i] + b[i + 1..]);
    }
  }

  lemma SameSize(a: seq<Claim>, b: seq<Claim>)
    requires multiset(a) == multiset(b)
    ensures |a| == |b| && (a != [] ==> a[0] in multiset(a))
  {
    assert |a| == |multiset(a)| && |b| == |multiset(b)|;
  }

  lemma Find(b: seq<Claim>, c: Claim, all: multiset<Claim>) returns (i: nat)
    requires all == multiset(b) && c in all
    ensures i < |b| && b[i] == c
  {
    assert c in b;
    i :| 0 <= i < |b| && b[i] == c;
  }

  lemma Without(b: seq<Claim>, i: int)
    requires 0 <= i < |b|
    ensures multiset(b[..i] + b[i + 1..]) == multiset(b) - multiset{b[i]}
    ensures Numbers(b) == multiset{b[i].lno} + Numbers(b[..i] + b[i + 1..])
  {
    hide Numbers;
    assert b == b[..i] + ([b[i]] + b[i + 1..]);
    Around(b[..i], b[i], b[i + 1..]);
  }

  lemma Around(x: seq<Claim>, c: Claim, y: seq<Claim>)
    ensures multiset(x + ([c] + y)) == multiset(x + y) + multiset{c}
    ensures Numbers(x + ([c] + y)) == multiset{c.lno} + Numbers(x + y)
  {
    hide Numbers;
    NumbersJoin(x, y);
    NumbersJoin(x, [c] + y);
    NumbersPrepend(c, y);
  }

  lemma SortNumbers(es: seq<Entry>)
    requires multiset(Expand(Sort(es))) == multiset(Expand(es))
    ensures Numbers(Expand(Sort(es))) == Numbers(Expand(es))
  {
    SameLinesCount(Expand(Sort(es)), Expand(es));
  }

  lemma AddNumbers(a: seq<Entry>, b: seq<Entry>)
    requires Proper(a) && Proper(b)
    ensures Proper(a + b) && Numbers(Expand(a + b)) == Numbers(Expand(a)) + Numbers(Expand(b))
  {
    hide Expand, Numbers;
    ExpandJoin(a, b);
    NumbersJoin(Expand(a), Expand(b));
  }

  lemma RestNumbers(rest: seq<Entry>, offset: int, parent: Origin)
    requires Proper(rest)
    ensures Proper(MoveAll(Front(rest, INT_MAX), parent, offset)) && Proper(Back(rest, INT_MAX))
    ensures Numbers(Expand(MoveAll(Front(rest, INT_MAX), parent, offset))) + Numbers(Expand(Back(rest, INT_MAX)))
            == Numbers(Expand(rest))
  {
    hide Expand, Moved, Front, Back, MoveAll, Numbers;
    var front := Front(rest, INT_MAX);
    CutNumbers(rest, INT_MAX);
    MoveProper(front, parent, offset);
    MoveLines(front, parent, offset);
    NumbersMoved(Expand(front), parent, offset);
  }

  lemma PassingEnds(rest: seq<Entry>, offset: int, parent: Origin, mode: Mode, newdest: seq<Entry>, kept: seq<Entry>,
                    all: (seq<Claim>, seq<Claim>), last: seq<Entry>, none: seq<Entry>)
    requires Proper(rest) && Passing(rest, [], offset, parent, mode, newdest, kept, all)
    requires last == MoveAll(Front(rest, INT_MAX), parent, offset) && none == Back(rest, INT_MAX)
    ensures Expand(newdest + last) == all.0 && Expand(kept + none) == all.1 && last == MoveAll(rest, parent, offset)
            && none == []
  {
    FrontAll(rest, INT_MAX);
    LastLines(rest, offset, parent, mode);
    hide Expand, PassLines, MoveAll, Front, Back;
    ExpandJoin(newdest, last);
    assert kept + [] == kept;
  }

  lemma SelectedBelow(cs: seq<Claim>, a: int, b: int)
    ensures forall c | c in From(From(cs, a), b) :: c in cs
  {
    SelectSplits(cs, a);
    SelectSplits(From(cs, a), b);
  }

  lemma {:induction false} FrontAll(es: seq<Entry>, t: int)
    requires Proper(es) && forall c | c in Expand(es) :: c.s < t
    ensures Front(es, t) == es && Back(es, t) == []
  {
    if es != [] {
      var cs := Lines(es[0]);
      assert cs[0] in Expand(es) && cs[es[0].num - 1] in Expand(es);
      forall c | c in Expand(es[1..]) ensures c.s < t {
        assert c in Expand(es);
      }
      FrontAll(es[1..], t);
      assert es == [es[0]] + es[1..];
    }
  }

  lemma LastLines(rest: seq<Entry>, offset: int, parent: Origin, mode: Mode)
    ensures PassLines(Expand(rest), [], offset, parent, mode) == (Expand(MoveAll(rest, parent, offset)), [])
  {
    MoveLines(rest, parent, offset);
  }
}
