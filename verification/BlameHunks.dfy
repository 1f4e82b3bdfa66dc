/** What passing blame along the hunks of a diff does to single lines. */
module BlameHunks {
  import opened Wrappers
  import opened BlameEntries
  import opened BlameChunk
  import opened BlameIgnore

  /** Lines [startA, startA + countA) of the parent are replaced by lines
      [startB, startB + countB) of the target. */
  datatype Hunk = Hunk(startA: int, countA: int, startB: int, countB: int) {
    function EndB(): int { startB + countB }
    /** What to add to a line of the target after this hunk to get the line of the parent. */
    function Offset(): int { startA + countA - (startB + countB) }
  }

  /** Plain passing keeps the changed lines; for an ignored commit they are guessed. */
  datatype Mode = Plain | Ignoring(guess: Hunk -> seq<Tracker>)

  /** Each hunk starts where the offset of the hunks before it says. */
  predicate Aligned(hunks: seq<Hunk>, offset: int) {
    hunks == [] || (hunks[0].startA - hunks[0].startB == offset && Aligned(hunks[1..], hunks[0].Offset()))
  }

  predicate Ordered(hunks: seq<Hunk>, posB: int) {
    hunks == [] || (posB <= hunks[0].startB && hunks[0].countA >= 0 && hunks[0].countB >= 0
        && Ordered(hunks[1..], hunks[0].EndB()))
  }

  // ---- what happens to the lines

  /** The changed lines of a hunk that go to the parent, or that stay. */
  function Changed(cs: seq<Claim>, h: Hunk, parent: Origin, mode: Mode, toParent: bool): seq<Claim> {
    match mode
    case Plain => if toParent then [] else cs
    case Ignoring(guess) => Guesses(guess(h), h.startB, parent).Route(cs, toParent)
  }

  /** The lines passed to the parent and the lines kept, in the order blame_chunk meets them. */
  function PassLines(cs: seq<Claim>, hunks: seq<Hunk>, offset: int, parent: Origin, mode: Mode): (seq<Claim>,
                     seq<Claim>)
    decreases |hunks|
  {
    if hunks == [] then (Moved(cs, parent, offset), [])
    else
      var h := hunks[0];
      var changed := Below(From(cs, h.startB), h.EndB());
      var (passed, kept) := PassLines(From(From(cs, h.startB), h.EndB()), hunks[1..], h.Offset(), parent, mode);
      (Moved(Below(cs, h.startB), parent, offset) + (Changed(changed, h, parent, mode, true) + passed),
       Changed(changed, h, parent, mode, false) + kept)
  }

  // ---- no line is lost or repeated

  lemma {:induction false} NumbersMoved(cs: seq<Claim>, parent: Origin, offset: int)
    ensures Numbers(Moved(cs, parent, offset)) == Numbers(cs)
  {
    if cs != [] {
      NumbersMoved(cs[1..], parent, offset);
      assert Moved(cs, parent, offset)[1..] == Moved(cs[1..], parent, offset);
    }
  }

  lemma {:induction false} NumbersCount(cs: seq<Claim>)
    ensures |Numbers(cs)| == |cs|
  {
    if cs != [] { NumbersCount(cs[1..]); }
  }

  lemma NumbersPrepend(c: Claim, cs: seq<Claim>)
    ensures Numbers([c] + cs) == multiset{c.lno} + Numbers(cs)
  {
    assert ([c] + cs)[1..] == cs;
  }

  lemma {:induction false} NumbersRoute(g: Guesses, cs: seq<Claim>)
    ensures Numbers(cs) == Numbers(g.Route(cs, true)) + Numbers(g.Route(cs, false))
  {
    if cs != [] {
      NumbersRoute(g, cs[1..]);
      NumbersPrepend(g.Guess(cs[0]), g.Route(cs[1..], true));
      NumbersPrepend(g.Guess(cs[0]), g.Route(cs[1..], false));
    }
  }

  // ---- every line stays true

  type Line = string
  type Blob = seq<Line>

  /** A line is where it is claimed to be, unless that was guessed. */
  ghost predicate True(final: Blob, blob: Blob, c: Claim) {
    0 <= c.s < |blob| && 0 <= c.lno < |final| && (!c.ignored ==> final[c.lno] == blob[c.s])
  }

  ghost predicate AllTrue(final: Blob, blob: Blob, suspect: Origin, cs: seq<Claim>) {
    forall i | 0 <= i < |cs| :: cs[i].suspect == suspect && True(final, blob, cs[i])
  }

  ghost predicate SameLines(p: Blob, t: Blob, lo: int, hi: int, offset: int) {
    forall k | lo <= k < hi :: 0 <= k < |t| && 0 <= k + offset < |p| && p[k + offset] == t[k]
  }

  /** The hunks are a diff from `p` to the lines of `t` from `posB` on: between them the
      two are equal. */
  ghost predicate IsDiff(p: Blob, t: Blob, hunks: seq<Hunk>, posB: int, offset: int) {
    if hunks == [] then SameLines(p, t, posB, |t|, offset)
    else
      && hunks[0].startA - hunks[0].startB == offset && posB <= hunks[0].startB <= hunks[0].EndB() <= |t|
      && hunks[0].countA >= 0
      && SameLines(p, t, posB, hunks[0].startB, offset)
      && IsDiff(p, t, hunks[1..], hunks[0].EndB(), hunks[0].Offset())
  }

  lemma {:induction false} DiffAligned(p: Blob, t: Blob, hunks: seq<Hunk>, posB: int, offset: int)
    requires IsDiff(p, t, hunks, posB, offset)
    ensures Aligned(hunks, offset) && Ordered(hunks, posB)
  {
    if hunks != [] { DiffAligned(p, t, hunks[1..], hunks[0].EndB(), hunks[0].Offset()); }
  }

  ghost predicate SoundGuesses(p: Blob, hunks: seq<Hunk>, mode: Mode) {
    mode.Ignoring? ==>
      forall h | h in hunks :: forall i | 0 <= i < |mode.guess(h)| :: mode.guess(h)[i].isParent ==>
             0 <= mode.guess(h)[i].s < |p|
  }

  lemma SelectBounds(cs: seq<Claim>, t: int)
    ensures forall i | 0 <= i < |Below(cs, t)| :: Below(cs, t)[i] in cs && Below(cs, t)[i].s < t
    ensures forall i | 0 <= i < |From(cs, t)| :: From(cs, t)[i] in cs && t <= From(cs, t)[i].s
  {
    SelectSplits(cs, t);
    forall i | 0 <= i < |Below(cs, t)| ensures Below(cs, t)[i] in cs && Below(cs, t)[i].s < t {
      assert Below(cs, t)[i] in Below(cs, t);
    }
    forall i | 0 <= i < |From(cs, t)| ensures From(cs, t)[i] in cs && t <= From(cs, t)[i].s {
      assert From(cs, t)[i] in From(cs, t);
    }
  }

  lemma SelectTrue(final: Blob, t: Blob, o: Origin, cs: seq<Claim>, at: int)
    requires AllTrue(final, t, o, cs)
    ensures AllTrue(final, t, o, Below(cs, at)) && AllTrue(final, t, o, From(cs, at))
  {
    SelectBounds(cs, at);
  }

  lemma MovedTrue(final: Blob, p: Blob, t: Blob, o: Origin, parent: Origin, cs: seq<Claim>, lo: int, hi: int,
                  offset: int)
    requires AllTrue(final, t, o, cs) && SameLines(p, t, lo, hi, offset)
    requires forall i | 0 <= i < |cs| :: lo <= cs[i].s < hi
    ensures AllTrue(final, p, parent, Moved(cs, parent, offset))
  {}

  lemma {:induction false} RouteTrue(g: Guesses, final: Blob, p: Blob, t: Blob, o: Origin, cs: seq<Claim>)
    requires AllTrue(final, t, o, cs)
    requires forall i | 0 <= i < |g.trackers| && g.trackers[i].isParent :: 0 <= g.trackers[i].s < |p|
    ensures AllTrue(final, p, g.parent, g.Route(cs, true)) && AllTrue(final, t, o, g.Route(cs, false))
  {
    if cs != [] {
      RouteTrue(g, final, p, t, o, cs[1..]);
    }
  }

  lemma ChangedTrue(final: Blob, p: Blob, t: Blob, o: Origin, parent: Origin, cs: seq<Claim>, h: Hunk, hunks: seq<Hunk>,
                    mode: Mode)
    requires AllTrue(final, t, o, cs) && h in hunks && SoundGuesses(p, hunks, mode)
    ensures AllTrue(final, p, parent, Changed(cs, h, parent, mode, true))
            && AllTrue(final, t, o, Changed(cs, h, parent, mode, false))
  {
    if mode.Ignoring? {
      RouteTrue(Guesses(mode.guess(h), h.startB, parent), final, p, t, o, cs);
    }
  }

  lemma TrueJoin(final: Blob, blob: Blob, o: Origin, a: seq<Claim>, b: seq<Claim>)
    requires AllTrue(final, blob, o, a) && AllTrue(final, blob, o, b)
    ensures AllTrue(final, blob, o, a + b)
  {}

  /** Lines passed along a diff are equal to their lines in the parent, and lines kept to
      theirs in the target. */
  lemma {:induction false} PassTrue(final: Blob, p: Blob, t: Blob, o: Origin, parent: Origin, cs: seq<Claim>,
                                    hunks: seq<Hunk>, posB: int, offset: int, mode: Mode)
    requires IsDiff(p, t, hunks, posB, offset) && SoundGuesses(p, hunks, mode)
    requires AllTrue(final, t, o, cs) && forall i | 0 <= i < |cs| :: posB <= cs[i].s
    ensures AllTrue(final, p, parent, PassLines(cs, hunks, offset, parent, mode).0)
    ensures AllTrue(final, t, o, PassLines(cs, hunks, offset, parent, mode).1)
    decreases |hunks|
  {
    hide True, SameLines, Moved, Changed, Select;
    if hunks == [] {
      InBlob(final, t, o, cs);
      MovedTrue(final, p, t, o, parent, cs, posB, |t|, offset);
    } else {
      var h := hunks[0];
      var same, rest := Below(cs, h.startB), From(cs, h.startB);
      var changed, rest' := Below(rest, h.EndB()), From(rest, h.EndB());
      SelectBounds(cs, h.startB);
      SelectBounds(rest, h.EndB());
      SelectTrue(final, t, o, cs, h.startB);
      SelectTrue(final, t, o, rest, h.EndB());
      MovedTrue(final, p, t, o, parent, same, posB, h.startB, offset);
      ChangedTrue(final, p, t, o, parent, changed, h, hunks, mode);
      PassTrue(final, p, t, o, parent, rest', hunks[1..], h.EndB(), h.Offset(), mode);
      var (passed, kept) := PassLines(rest', hunks[1..], h.Offset(), parent, mode);
      TrueJoin(final, p, parent, Changed(changed, h, parent, mode, true), passed);
      TrueJoin(final, p, parent, Moved(same, parent, offset), Changed(changed, h, parent, mode, true) + passed);
      TrueJoin(final, t, o, Changed(changed, h, parent, mode, false), kept);
    }
  }

  lemma InBlob(final: Blob, t: Blob, o: Origin, cs: seq<Claim>)
    requires AllTrue(final, t, o, cs)
    ensures forall i | 0 <= i < |cs| :: 0 <= cs[i].s < |t|
  {}

  // ---- line by line

  /** The line of the parent that line `s` of the target came from: none inside a hunk. */
  function ParentLine(hunks: seq<Hunk>, offset: int, s: int): Option<int>
    decreases |hunks|
  {
    if hunks == [] || s < hunks[0].startB then Some(s + offset)
    else if s < hunks[0].EndB() then None
    else ParentLine(hunks[1..], hunks[0].Offset(), s)
  }

  /** The lines that came from the parent, or that did not. */
  function Came(cs: seq<Claim>, hunks: seq<Hunk>, offset: int, parent: Origin): seq<Claim> {
    if cs == [] then []
    else
      match ParentLine(hunks, offset, cs[0].s)
      case Some(s) => [cs[0].(suspect := parent, s := s)] + Came(cs[1..], hunks, offset, parent)
      case None => Came(cs[1..], hunks, offset, parent)
  }

  function Stayed(cs: seq<Claim>, hunks: seq<Hunk>, offset: int): seq<Claim> {
    if cs == [] then []
    else if ParentLine(hunks, offset, cs[0].s).None? then [cs[0]] + Stayed(cs[1..], hunks, offset)
    else Stayed(cs[1..], hunks, offset)
  }

  ghost function CameOne(c: Claim, hunks: seq<Hunk>, offset: int, parent: Origin): multiset<Claim> {
    match ParentLine(hunks, offset, c.s)
    case Some(s) => multiset{c.(suspect := parent, s := s)}
    case None => multiset{}
  }

  ghost function StayedOne(c: Claim, hunks: seq<Hunk>, offset: int): multiset<Claim> {
    if ParentLine(hunks, offset, c.s).None? then multiset{c} else multiset{}
  }

  lemma PrependCame(c: Claim, cs: seq<Claim>, hunks: seq<Hunk>, offset: int, parent: Origin)
    ensures multiset(Came([c] + cs, hunks, offset, parent)) == CameOne(c, hunks, offset, parent)
            + multiset(Came(cs, hunks, offset, parent))
    ensures multiset(Stayed([c] + cs, hunks, offset)) == StayedOne(c, hunks, offset)
            + multiset(Stayed(cs, hunks, offset))
  {
    assert ([c] + cs)[1..] == cs;
  }

  lemma CameNothing(hunks: seq<Hunk>, offset: int, parent: Origin)
    ensures Came([], hunks, offset, parent) == [] && Stayed([], hunks, offset) == []
  {}

  lemma {:induction false} SplitCame(cs: seq<Claim>, t: int, hunks: seq<Hunk>, offset: int, parent: Origin)
    ensures multiset(Came(cs, hunks, offset, parent))
         == multiset(Came(Below(cs, t), hunks, offset, parent)) + multiset(Came(From(cs, t), hunks, offset, parent))
    ensures multiset(Stayed(cs, hunks, offset))
         == multiset(Stayed(Below(cs, t), hunks, offset)) + multiset(Stayed(From(cs, t), hunks, offset))
  {
    hide ParentLine, Came, Stayed, CameOne, StayedOne;
    CameNothing(hunks, offset, parent);
    if cs != [] {
      var c, rest := cs[0], cs[1..];
      assert cs == [c] + rest;
      SplitCame(rest, t, hunks, offset, parent);
      PrependCame(c, rest, hunks, offset, parent);
      if c.s < t {
        assert Below(cs, t) == [c] + Below(rest, t) && From(cs, t) == From(rest, t);
        PrependCame(c, Below(rest, t), hunks, offset, parent);
      } else {
        assert Below(cs, t) == Below(rest, t) && From(cs, t) == [c] + From(rest, t);
        PrependCame(c, From(rest, t), hunks, offset, parent);
      }
    }
  }

  lemma {:induction false} CameBefore(cs: seq<Claim>, hunks: seq<Hunk>, offset: int, parent: Origin)
    requires hunks != [] ==> forall i | 0 <= i < |cs| :: cs[i].s < hunks[0].startB
    ensures Came(cs, hunks, offset, parent) == Moved(cs, parent, offset) && Stayed(cs, hunks, offset) == []
  {
    if cs != [] {
      CameBefore(cs[1..], hunks, offset, parent);
      assert Moved(cs, parent, offset) == [cs[0].(suspect := parent, s := cs[0].s + offset)]
             + Moved(cs[1..], parent, offset);
    }
  }

  lemma {:induction false} StayedInside(cs: seq<Claim>, hunks: seq<Hunk>, offset: int, parent: Origin)
    requires hunks != [] && forall i | 0 <= i < |cs| :: hunks[0].startB <= cs[i].s < hunks[0].EndB()
    ensures Came(cs, hunks, offset, parent) == [] && Stayed(cs, hunks, offset) == cs
  {
    if cs != [] {
      StayedInside(cs[1..], hunks, offset, parent);
      assert cs == [cs[0]] + cs[1..];
    }
  }

  lemma {:induction false} CameAfter(cs: seq<Claim>, hunks: seq<Hunk>, offset: int, parent: Origin)
    requires hunks != [] && forall i | 0 <= i < |cs| :: hunks[0].startB <= cs[i].s && hunks[0].EndB() <= cs[i].s
    ensures Came(cs, hunks, offset, parent) == Came(cs, hunks[1..], hunks[0].Offset(), parent)
    ensures Stayed(cs, hunks, offset) == Stayed(cs, hunks[1..], hunks[0].Offset())
  {
    if cs != [] {
      CameAfter(cs[1..], hunks, offset, parent);
    }
  }

  /** Without ignoring, a line goes to the parent exactly when it lies outside all hunks,
      and then to the line of the parent at the same place. */
  lemma {:induction false} PassExactly(cs: seq<Claim>, hunks: seq<Hunk>, offset: int, parent: Origin)
    ensures multiset(PassLines(cs, hunks, offset, parent, Plain).0) == multiset(Came(cs, hunks, offset, parent))
    ensures multiset(PassLines(cs, hunks, offset, parent, Plain).1) == multiset(Stayed(cs, hunks, offset))
    decreases |hunks|
  {
    if hunks == [] {
      CameBefore(cs, hunks, offset, parent);
    } else {
      var h := hunks[0];
      var same, rest := Below(cs, h.startB), From(cs, h.startB);
      var changed, rest' := Below(rest, h.EndB()), From(rest, h.EndB());
      var (passed, kept) := PassLines(rest', hunks[1..], h.Offset(), parent, Plain);
      assert PassLines(cs, hunks, offset, parent, Plain)
             == (Moved(same, parent, offset) + ([] + passed), changed + kept);
      hide Select, Moved, PassLines, Came, Stayed, ParentLine;
      SelectBounds(cs, h.startB);
      SelectBounds(rest, h.EndB());
      PassExactly(rest', hunks[1..], h.Offset(), parent);
      SplitCame(cs, h.startB, hunks, offset, parent);
      SplitCame(rest, h.EndB(), hunks, offset, parent);
      CameBefore(same, hunks, offset, parent);
      StayedInside(changed, hunks, offset, parent);
      CameAfter(rest', hunks, offset, parent);
    }
  }

  // ---- marks

  predicate Unblamable(cs: seq<Claim>) {
    forall c | c in cs :: c.unblamable
  }

  lemma {:induction false} RouteUnblamable(g: Guesses, cs: seq<Claim>)
    ensures Unblamable(g.Route(cs, false))
  {
    if cs != [] { RouteUnblamable(g, cs[1..]); }
  }

  /** A line that stays with an ignored commit is marked. */
  lemma {:induction false} PassUnblamable(cs: seq<Claim>, hunks: seq<Hunk>, offset: int, parent: Origin, mode: Mode)
    requires mode.Ignoring?
    ensures Unblamable(PassLines(cs, hunks, offset, parent, mode).1)
    decreases |hunks|
  {
    hide Select;
    if hunks != [] {
      var h := hunks[0];
      var rest := From(cs, h.startB);
      PassUnblamable(From(rest, h.EndB()), hunks[1..], h.Offset(), parent, mode);
      RouteUnblamable(Guesses(mode.guess(h), h.startB, parent), Below(rest, h.EndB()));
    }
  }
}
