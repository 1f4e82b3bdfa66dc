/** Looking for moved and copied lines: find_move_in_parent and find_copy_in_parent. */
module BlameMove {
  import opened Wrappers
  import opened BlameEntries
  import opened BlameChunk
  import opened BlameHunks

  // ---- splitting an entry around a stretch that came from a parent

  /** The parts of an entry before, inside and after a stretch. */
  datatype Split = Split(before: Option<Entry>, inside: Option<Entry>, after: Option<Entry>)

  const NO_SPLIT := Split(None, None, None)

  /** split_overlap: lines [tlno, same) came from `parent`, from line `plno` on. */
  function SplitOverlap(e: Entry, tlno: int, plno: int, same: int, parent: Origin): Split {
    var before := if e.s < tlno then Some(e.(num := tlno - e.s)) else None;
    var lno := if e.s < tlno then e.lno + tlno - e.s else e.lno;
    var s := if e.s < tlno then plno else plno + (e.s - tlno);
    var after := if same < e.s + e.num
                 then Some(Entry(e.lno + (same - e.s), e.s + e.num - same, e.suspect, same, e.ignored, e.unblamable))
                 else None;
    var end := if after.Some? then after.value.lno else e.lno + e.num;
    Split(before, if end - lno < 1 then None else Some(Entry(lno, end - lno, parent, s, e.ignored, e.unblamable)),
          after)
  }

  function OptionLines(e: Option<Entry>): seq<Claim> {
    if e.Some? then Lines(e.value) else []
  }

  /** The lines of an entry from its line `a` up to its line `b`. */
  function Stretch(e: Entry, a: int, b: int): seq<Claim>
    requires 0 <= a <= b <= |Lines(e)|
  {
    Lines(e)[a..b]
  }

  lemma StretchLines(e: Entry, a: int, b: int)
    requires 0 <= a <= b <= e.num
    ensures |Lines(e)| == e.num
    ensures Lines(Entry(e.lno + a, b - a, e.suspect, e.s + a, e.ignored, e.unblamable)) == Stretch(e, a, b)
    ensures forall i | 0 <= i < b - a ::
              Stretch(e, a, b)[i] == Claim(e.lno + a + i, e.suspect, e.s + a + i, e.ignored, e.unblamable)
  {}

  /** The three parts have the lines of the entry, those inside at their place in the parent;
      there is no such part exactly when the stretch and the entry do not overlap. */
  lemma SplitExact(e: Entry, tlno: int, plno: int, same: int, parent: Origin)
    requires e.num > 0
    ensures var sp := SplitOverlap(e, tlno, plno, same, parent);
            var a, b := if e.s < tlno then tlno - e.s else 0, if same < e.s + e.num then same - e.s else e.num;
            && (sp.inside.Some? <==> a < b)
            && (sp.inside.Some? ==>
                  && 0 <= a < b <= e.num == |Lines(e)| && sp.inside.value.num == b - a
                  && OptionLines(sp.before) == Stretch(e, 0, a) && OptionLines(sp.after) == Stretch(e, b, e.num)
                  && Lines(sp.inside.value) == Moved(Stretch(e, a, b), parent, plno - tlno)
                  && (sp.before.Some? ==> sp.before.value.num > 0) && (sp.after.Some? ==> sp.after.value.num > 0))
  {
    hide Lines, Moved;
    var a, b := if e.s < tlno then tlno - e.s else 0, if same < e.s + e.num then same - e.s else e.num;
    if a < b {
      StretchLines(e, 0, a);
      StretchLines(e, a, b);
      StretchLines(e, b, e.num);
      LinesMoved(Entry(e.lno + a, b - a, e.suspect, e.s + a, e.ignored, e.unblamable), parent, plno - tlno);
    }
  }

  // ---- scores

  predicate Alnum(c: char) { '0' <= c <= '9' || 'a' <= c <= 'z' || 'A' <= c <= 'Z' }

  function CountAlnum(s: string): nat {
    if s == [] then 0 else (if Alnum(s[0]) then 1 else 0) + CountAlnum(s[1..])
  }

  function CountAll(lines: Blob): nat {
    if lines == [] then 0 else CountAlnum(lines[0]) + CountAll(lines[1..])
  }

  predicate InFinal(final: Blob, e: Entry) {
    0 <= e.lno && 0 < e.num && e.lno + e.num <= |final|
  }

  function Text(final: Blob, e: Entry): Blob
    requires InFinal(final, e)
  {
    final[e.lno..e.lno + e.num]
  }

  /** blame_entry_score: how far from trivial the lines are. */
  function Score(final: Blob, e: Entry): nat {
    if InFinal(final, e) then 1 + CountAll(Text(final, e)) else 0
  }

  /** One split is at least as good as another. */
  predicate Better(final: Blob, best: Split, other: Split) {
    other.inside.Some? ==> best.inside.Some? && Score(final, other.inside.value) <= Score(final, best.inside.value)
  }

  /** copy_split_if_better. */
  method SplitIfBetter(final: Blob, best: Split, potential: Split) returns (r: Split)
    ensures r == best || r == potential
    ensures Better(final, r, best) && Better(final, r, potential)
  {
    if potential.inside.None? {
      return best;
    }
    if best.inside.Some? && Score(final, potential.inside.value) < Score(final, best.inside.value) {
      return best;
    }
    return potential;
  }

  // ---- the best stretch of an entry in a blob

  /** handle_split: what a stretch of common lines, counted from the start of the entry, offers. */
  function Offer(e: Entry, tlno: int, plno: int, same: int, parent: Origin): Split {
    if e.num <= tlno || same <= tlno then NO_SPLIT else SplitOverlap(e, tlno + e.s, plno, same + e.s, parent)
  }

  /** What the stretches between hunks offer, from lines `tlno` and `plno` on. */
  function Offers(e: Entry, hunks: seq<Hunk>, tlno: int, plno: int, parent: Origin): seq<Split>
    decreases |hunks|
  {
    if hunks == [] then [Offer(e, tlno, plno, e.num, parent)]
    else
      var h := hunks[0];
      [Offer(e, tlno, plno, h.startB, parent)] + Offers(e, hunks[1..], h.EndB(), h.startA + h.countA, parent)
  }

  /** find_copy_in_blob: the best offer. */
  method FindCopy(final: Blob, e: Entry, hunks: seq<Hunk>, parent: Origin) returns (best: Split)
    ensures best == NO_SPLIT || best in Offers(e, hunks, 0, 0, parent)
    ensures forall sp | sp in Offers(e, hunks, 0, 0, parent) :: Better(final, best, sp)
  {
    hide Better, Offer;
    best := NO_SPLIT;
    var tlno, plno := 0, 0;
    ghost var all := Offers(e, hunks, 0, 0, parent);
    ghost var seen: seq<Split> := [];
    assert hunks[0..] == hunks;
    for i := 0 to |hunks|
      invariant seen + Offers(e, hunks[i..], tlno, plno, parent) == all
      invariant best == NO_SPLIT || best in seen
      invariant forall sp | sp in seen :: Better(final, best, sp)
    {
      var h := hunks[i];
      assert hunks[i..][0] == h && hunks[i..][1..] == hunks[i + 1..];
      var potential := Offer(e, tlno, plno, h.startB, parent);
      ghost var before := best;
      best := SplitIfBetter(final, best, potential);
      StillBetter(final, before, best, seen);
      seen := seen + [potential];
      tlno, plno := h.EndB(), h.startA + h.countA;
    }
    assert hunks[|hunks|..] == [];
    ghost var before := best;
    best := SplitIfBetter(final, best, Offer(e, tlno, plno, e.num, parent));
    StillBetter(final, before, best, seen);
  }

  lemma StillBetter(final: Blob, before: Split, best: Split, seen: seq<Split>)
    requires Better(final, best, before) && forall sp | sp in seen :: Better(final, before, sp)
    ensures forall sp | sp in seen :: Better(final, best, sp)
  {}

  /** A split takes true lines of the final image out of the middle of an entry. */
  ghost predicate GoodSplit(final: Blob, blob: Blob, e: Entry, parent: Origin, sp: Split) {
    sp.inside.Some? ==>
      && sp.inside.value.num > 0 && AllTrue(final, blob, parent, Lines(sp.inside.value))
      && exists taken :: Taken(e, sp, taken)
  }

  ghost predicate Taken(e: Entry, sp: Split, taken: seq<Claim>) {
    && sp.inside.Some? && OptionLines(sp.before) + taken + OptionLines(sp.after) == Lines(e)
    && Numbers(taken) == Numbers(Lines(sp.inside.value))
    && (sp.before.Some? ==> sp.before.value.num > 0) && (sp.after.Some? ==> sp.after.value.num > 0)
  }

  lemma OverlapGood(final: Blob, blob: Blob, e: Entry, tlno: int, plno: int, same: int, parent: Origin)
    requires InFinal(final, e) && 0 <= tlno < same <= e.num
    requires SameLines(blob, Text(final, e), tlno, same, plno - tlno)
    ensures GoodSplit(final, blob, e, parent, SplitOverlap(e, tlno + e.s, plno, same + e.s, parent))
  {
    hide *;
    var sp := SplitOverlap(e, tlno + e.s, plno, same + e.s, parent);
    EntryNum(final, e);
    SplitExact(e, tlno + e.s, plno, same + e.s, parent);
    ThreeStretches(e, tlno, same);
    StretchTrue(final, blob, e, tlno, plno, same, parent);
    NumbersMoved(Stretch(e, tlno, same), parent, plno - (tlno + e.s));
    ShowGood(final, blob, e, parent, sp, Stretch(e, tlno, same));
  }

  lemma EntryNum(final: Blob, e: Entry)
    requires InFinal(final, e)
    ensures e.num > 0
  {}

  lemma OfferGood(final: Blob, blob: Blob, e: Entry, tlno: int, plno: int, same: int, parent: Origin)
    requires InFinal(final, e) && 0 <= tlno && same <= e.num
    requires SameLines(blob, Text(final, e), tlno, same, plno - tlno)
    ensures GoodSplit(final, blob, e, parent, Offer(e, tlno, plno, same, parent))
  {
    hide SplitOverlap, SameLines, Text, AllTrue, Lines, Taken;
    if tlno < same {
      OverlapGood(final, blob, e, tlno, plno, same, parent);
    }
  }

  lemma ShowGood(final: Blob, blob: Blob, e: Entry, parent: Origin, sp: Split, taken: seq<Claim>)
    requires sp.inside.Some? && sp.inside.value.num > 0 && AllTrue(final, blob, parent, Lines(sp.inside.value))
    requires OptionLines(sp.before) + taken + OptionLines(sp.after) == Lines(e)
             && Numbers(taken) == Numbers(Lines(sp.inside.value))
    requires (sp.before.Some? ==> sp.before.value.num > 0) && (sp.after.Some? ==> sp.after.value.num > 0)
    ensures GoodSplit(final, blob, e, parent, sp)
  {
    hide OptionLines, Lines, Numbers, AllTrue;
    assert Taken(e, sp, taken);
  }

  lemma ThreeStretches(e: Entry, a: int, b: int)
    requires 0 <= a <= b <= e.num
    ensures |Lines(e)| == e.num && Stretch(e, 0, a) + Stretch(e, a, b) + Stretch(e, b, e.num) == Lines(e)
  {}

  lemma StretchTrue(final: Blob, blob: Blob, e: Entry, tlno: int, plno: int, same: int, parent: Origin)
    requires InFinal(final, e) && 0 <= tlno <= same <= e.num == |Lines(e)|
    requires SameLines(blob, Text(final, e), tlno, same, plno - tlno)
    ensures AllTrue(final, blob, parent, Moved(Stretch(e, tlno, same), parent, plno - (tlno + e.s)))
  {
    StretchLines(e, tlno, same);
    hide Lines, Stretch, Text, True;
    var cs := Moved(Stretch(e, tlno, same), parent, plno - (tlno + e.s));
    forall i | 0 <= i < |cs| ensures cs[i].suspect == parent && True(final, blob, cs[i]) {
      TextAt(final, e, tlno + i);
      LineTrue(final, blob, cs[i]);
    }
  }

  lemma TextAt(final: Blob, e: Entry, i: int)
    requires InFinal(final, e) && 0 <= i < e.num
    ensures |Text(final, e)| == e.num && Text(final, e)[i] == final[e.lno + i]
  {}

  lemma LineTrue(final: Blob, blob: Blob, c: Claim)
    requires 0 <= c.s < |blob| && 0 <= c.lno < |final| && final[c.lno] == blob[c.s]
    ensures True(final, blob, c)
  {}

  /** Along a diff every offer is good. */
  lemma {:induction false} OffersGood(final: Blob, blob: Blob, e: Entry, hunks: seq<Hunk>, tlno: int, plno: int,
                                      parent: Origin)
    requires InFinal(final, e) && 0 <= tlno && IsDiff(blob, Text(final, e), hunks, tlno, plno - tlno)
    ensures forall sp | sp in Offers(e, hunks, tlno, plno, parent) :: GoodSplit(final, blob, e, parent, sp)
    decreases |hunks|
  {
    hide GoodSplit, SameLines;
    if hunks == [] {
      OfferGood(final, blob, e, tlno, plno, e.num, parent);
    } else {
      OfferGood(final, blob, e, tlno, plno, hunks[0].startB, parent);
      OffersGood(final, blob, e, hunks[1..], hunks[0].EndB(), hunks[0].startA + hunks[0].countA, parent);
    }
  }

  // ---- the best stretch of an entry in several blobs

  /** The final image, the blobs, and their diffs. */
  datatype Texts = Texts(final: Blob, blob: Origin -> Blob, diff: (Blob, Blob) -> seq<Hunk>)

  ghost predicate ExactDiffs(texts: Texts) {
    forall p: Blob, t: Blob :: IsDiff(p, t, texts.diff(p, t), 0, 0)
  }

  function OffersIn(texts: Texts, e: Entry, o: Origin): seq<Split>
    requires InFinal(texts.final, e)
  {
    Offers(e, texts.diff(texts.blob(o), Text(texts.final, e)), 0, 0, o)
  }

  /** A split, if there is one, takes true lines of one of the candidates. */
  ghost predicate FromOne(texts: Texts, e: Entry, candidates: seq<Origin>, sp: Split) {
    sp.inside.Some? ==> exists o :: o in candidates && GoodSplit(texts.final, texts.blob(o), e, o, sp)
  }

  ghost predicate BestOf(texts: Texts, e: Entry, candidates: seq<Origin>, best: Split) {
    InFinal(texts.final, e) && forall o | o in candidates :: forall sp | sp in OffersIn(texts, e, o) ::
      Better(texts.final, best, sp)
  }

  /** The best split of an entry, of all stretches in all candidates. */
  method BestSplit(texts: Texts, e: Entry, candidates: seq<Origin>) returns (best: Split)
    requires ExactDiffs(texts) && InFinal(texts.final, e)
    ensures FromOne(texts, e, candidates, best) && BestOf(texts, e, candidates, best)
  {
    hide GoodSplit, Offers, Better, InFinal, Text, IsDiff;
    best := NO_SPLIT;
    assert candidates[..0] == [];
    for i := 0 to |candidates|
      invariant FromOne(texts, e, candidates[..i], best) && BestOf(texts, e, candidates[..i], best)
    {
      var o := candidates[i];
      var potential := FindCopy(texts.final, e, texts.diff(texts.blob(o), Text(texts.final, e)), o);
      OffersGood(texts.final, texts.blob(o), e, texts.diff(texts.blob(o), Text(texts.final, e)), 0, 0, o);
      ghost var before := best;
      best := SplitIfBetter(texts.final, best, potential);
      OneMore(texts, e, candidates, i, before, potential, best);
    }
    assert candidates[..|candidates|] == candidates;
  }

  lemma OneMore(texts: Texts, e: Entry, candidates: seq<Origin>, i: nat, before: Split, potential: Split, best: Split)
    requires i < |candidates| && FromOne(texts, e, candidates[..i], before) && BestOf(texts, e, candidates[..i], before)
    requires potential.inside.Some? ==> GoodSplit(texts.final, texts.blob(candidates[i]), e, candidates[i], potential)
    requires forall sp | sp in OffersIn(texts, e, candidates[i]) :: Better(texts.final, potential, sp)
    requires (best == before || best == potential) && Better(texts.final, best, before)
             && Better(texts.final, best, potential)
    ensures FromOne(texts, e, candidates[..i + 1], best) && BestOf(texts, e, candidates[..i + 1], best)
  {
    hide GoodSplit, Offers, InFinal, Text;
    assert candidates[..i + 1] == candidates[..i] + [candidates[i]];
    if best.inside.Some? && best == before {
      var o :| o in candidates[..i] && GoodSplit(texts.final, texts.blob(o), e, o, best);
      assert o in candidates[..i + 1];
    }
  }

  // ---- taking lines out of a list

  /** split_blame: the part inside goes to `blamed`, the others to `unblamed`. */
  method SplitBlame(blamed: seq<Entry>, unblamed: seq<Entry>, sp: Split)
    returns (blamed': seq<Entry>, unblamed': seq<Entry>)
    requires sp.inside.Some?
    ensures blamed' == blamed + [sp.inside.value]
    ensures unblamed' == unblamed + Outside(sp)
  {
    if sp.before.Some? && sp.after.Some? {
      unblamed' := unblamed + [sp.before.value];
      unblamed' := unblamed' + [sp.after.value];
      blamed' := blamed + [sp.inside.value];
    } else if sp.before.None? && sp.after.None? {
      blamed', unblamed' := blamed + [sp.inside.value], unblamed;
    } else if sp.before.Some? {
      unblamed' := unblamed + [sp.before.value];
      blamed' := blamed + [sp.inside.value];
    } else {
      blamed' := blamed + [sp.inside.value];
      unblamed' := unblamed + [sp.after.value];
    }
  }

  /** The parts of a split that stay. */
  function Outside(sp: Split): seq<Entry> {
    (if sp.before.Some? then [sp.before.value] else []) + (if sp.after.Some? then [sp.after.value] else [])
  }

  /** All lines of a list, in no order. */
  ghost function Bag(es: seq<Entry>): multiset<Claim> { multiset(Expand(es)) }

  lemma BagJoin(a: seq<Entry>, b: seq<Entry>)
    ensures Bag(a + b) == Bag(a) + Bag(b)
  {
    ExpandJoin(a, b);
  }

  lemma BagFirst(es: seq<Entry>, i: nat)
    requires i < |es|
    ensures Bag(es[i..]) == multiset(Lines(es[i])) + Bag(es[i + 1..])
  {
    assert es[i..] == [es[i]] + es[i + 1..];
    BagJoin([es[i]], es[i + 1..]);
    ExpandOne(es[i]);
  }

  /** filter_small: entries with a score of at most `scoreMin` are set aside. */
  method FilterSmall(final: Blob, source: seq<Entry>, scoreMin: nat) returns (small: seq<Entry>, rest: seq<Entry>)
    requires Proper(source)
    ensures Proper(small) && Proper(rest) && Bag(small) + Bag(rest) == Bag(source)
    ensures forall e | e in small :: e in source && Score(final, e) <= scoreMin
    ensures forall e | e in rest :: e in source && Score(final, e) > scoreMin
  {
    hide Score, Bag;
    small, rest := [], [];
    BagNothing();
    assert source[0..] == source;
    for i := 0 to |source|
      invariant Proper(small) && Proper(rest) && Bag(small) + Bag(rest) + Bag(source[i..]) == Bag(source)
      invariant forall e | e in small :: e in source && Score(final, e) <= scoreMin
      invariant forall e | e in rest :: e in source && Score(final, e) > scoreMin
    {
      var p := source[i];
      BagFirst(source, i);
      if Score(final, p) <= scoreMin {
        BagOne(small, p);
        small := small + [p];
      } else {
        BagOne(rest, p);
        rest := rest + [p];
      }
    }
    assert source[|source|..] == [];
  }

  lemma BagNothing()
    ensures Bag([]) == multiset{}
  {}

  lemma BagOne(es: seq<Entry>, e: Entry)
    ensures Bag(es + [e]) == Bag(es) + multiset(Lines(e))
  {
    BagJoin(es, [e]);
    ExpandOne(e);
  }

  // ---- passing copied lines to candidates

  /** Every line is a true line of one of the candidates. */
  ghost predicate Copied(texts: Texts, candidates: seq<Origin>, cs: seq<Claim>) {
    forall c | c in cs :: c.suspect in candidates && True(texts.final, texts.blob(c.suspect), c)
  }

  /** All lines are lines of the final image. */
  ghost predicate Placed(final: Blob, bag: multiset<Claim>) {
    forall c | c in bag :: 0 <= c.lno < |final|
  }

  lemma {:induction false} LinesIn(es: seq<Entry>, e: Entry)
    requires e in es
    ensures multiset(Lines(e)) <= Bag(es)
  {
    BagFirst(es, 0);
    assert es[0..] == es;
    if e != es[0] { LinesIn(es[1..], e); }
  }

  lemma PlacedEntry(final: Blob, all: multiset<Claim>, es: seq<Entry>, e: Entry)
    requires Placed(final, all) && Bag(es) <= all && Proper(es) && e in es
    ensures InFinal(final, e)
  {
    LinesIn(es, e);
    assert Lines(e)[0] in multiset(Lines(e)) && Lines(e)[e.num - 1] in multiset(Lines(e));
  }

  /** `blamed` has the lines `gone` out of `all`; the others are in `rest`. */
  ghost predicate Accounted(texts: Texts, candidates: seq<Origin>, all: multiset<Claim>, blamed: seq<Entry>,
                            gone: seq<Claim>, rest: multiset<Claim>) {
    && rest + multiset(gone) == all && Numbers(gone) == Numbers(Expand(blamed))
    && Proper(blamed) && Copied(texts, candidates, Expand(blamed))
  }

  lemma NothingGone(texts: Texts, candidates: seq<Origin>, all: multiset<Claim>)
    ensures Accounted(texts, candidates, all, [], [], all) && Bag([]) == multiset{}
  {}

  lemma SplitGone(texts: Texts, candidates: seq<Origin>, all: multiset<Claim>, blamed: seq<Entry>, gone: seq<Claim>,
                  rest: multiset<Claim>, e: Entry, sp: Split) returns (taken: seq<Claim>)
    requires Accounted(texts, candidates, all, blamed, gone, rest + multiset(Lines(e)))
    requires sp.inside.Some? && FromOne(texts, e, candidates, sp)
    ensures Accounted(texts, candidates, all, blamed + [sp.inside.value], gone + taken, rest + Bag(Outside(sp)))
    ensures Proper(Outside(sp)) && |Bag(Outside(sp))| < |Lines(e)|
  {
    hide Lines, Expand, Numbers, True;
    var o :| o in candidates && GoodSplit(texts.final, texts.blob(o), e, o, sp);
    taken :| Taken(e, sp, taken);
    var inside := sp.inside.value;
    OutsideBag(sp);
    NumbersJoin(gone, taken);
    ExpandJoin(blamed, [inside]);
    ExpandOne(inside);
    NumbersJoin(Expand(blamed), Lines(inside));
    NumbersCount(taken);
    NumbersCount(Lines(inside));
    EntryLines(inside);
    CopiedMore(texts, candidates, Expand(blamed), Lines(inside), o);
    assert multiset(Lines(e)) == multiset(OptionLines(sp.before)) + multiset(taken) + multiset(OptionLines(sp.after));
    assert multiset(gone + taken) == multiset(gone) + multiset(taken);
    assert |Lines(e)| == |OptionLines(sp.before)| + |taken| + |OptionLines(sp.after)|;
  }

  lemma EntryLines(e: Entry)
    requires e.num > 0
    ensures |Lines(e)| == e.num
  {}

  lemma OutsideBag(sp: Split)
    ensures Bag(Outside(sp)) == multiset(OptionLines(sp.before)) + multiset(OptionLines(sp.after))
    ensures |Bag(Outside(sp))| == |OptionLines(sp.before)| + |OptionLines(sp.after)|
  {
    var a, b := if sp.before.Some? then [sp.before.value] else [], if sp.after.Some? then [sp.after.value] else [];
    BagJoin(a, b);
    if sp.before.Some? { ExpandOne(sp.before.value); }
    if sp.after.Some? { ExpandOne(sp.after.value); }
  }

  lemma CopiedMore(texts: Texts, candidates: seq<Origin>, a: seq<Claim>, b: seq<Claim>, o: Origin)
    requires Copied(texts, candidates, a) && o in candidates && AllTrue(texts.final, texts.blob(o), o, b)
    ensures Copied(texts, candidates, a + b)
  {}

  /** No stretch of an entry in a candidate scores more than `scoreMin`. */
  ghost predicate Exhausted(texts: Texts, candidates: seq<Origin>, scoreMin: nat, e: Entry) {
    InFinal(texts.final, e) && forall o | o in candidates ::
      forall sp | sp in OffersIn(texts, e, o) && sp.inside.Some? :: Score(texts.final, sp.inside.value) <= scoreMin
  }

  lemma BestTooSmall(texts: Texts, candidates: seq<Origin>, scoreMin: nat, e: Entry, best: Split)
    requires BestOf(texts, e, candidates, best)
    requires best.inside.None? || Score(texts.final, best.inside.value) <= scoreMin
    ensures Exhausted(texts, candidates, scoreMin, e)
  {
    hide OffersIn, Score, InFinal;
  }

  /** One round over the entries: each is split around its best stretch or left. */
  method OneRound(texts: Texts, es: seq<Entry>, candidates: seq<Origin>, scoreMin: nat)
    returns (blamed: seq<Entry>, left: seq<Entry>, unblamed: seq<Entry>, ghost gone: seq<Claim>)
    requires ExactDiffs(texts) && Proper(es) && Placed(texts.final, Bag(es))
    ensures Accounted(texts, candidates, Bag(es), blamed, gone, Bag(left) + Bag(unblamed))
    ensures Proper(left) && Proper(unblamed) && (es != [] ==> |Bag(unblamed)| < |Bag(es)|)
    ensures forall e | e in left :: Exhausted(texts, candidates, scoreMin, e)
  {
    hide Accounted, Bag, Exhausted, ExactDiffs, Placed, BestOf, FromOne, Score, InFinal, Lines, Outside;
    blamed, left, unblamed, gone := [], [], [], [];
    NothingGone(texts, candidates, Bag(es));
    assert multiset{} + multiset{} + Bag(es) == Bag(es);
    assert es[0..] == es;
    for i := 0 to |es|
      invariant Accounted(texts, candidates, Bag(es), blamed, gone, Bag(left) + Bag(unblamed) + Bag(es[i..]))
      invariant Proper(left) && Proper(unblamed)
      invariant |Bag(unblamed)| + |Bag(es[i..])| <= |Bag(es)| - if i > 0 then 1 else 0
      invariant forall e | e in left :: Exhausted(texts, candidates, scoreMin, e)
    {
      var e := es[i];
      PlacedEntry(texts.final, Bag(es), es, e);
      var split := BestSplit(texts, e, candidates);
      BagFirst(es, i);
      EntryLines(e);
      if split.inside.Some? && scoreMin < Score(texts.final, split.inside.value) {
        ghost var rest := Bag(left) + Bag(unblamed) + Bag(es[i + 1..]);
        assert rest + multiset(Lines(e)) == Bag(left) + Bag(unblamed) + Bag(es[i..]);
        ghost var taken := SplitGone(texts, candidates, Bag(es), blamed, gone, rest, e, split);
        BagJoin(unblamed, Outside(split));
        blamed, unblamed := SplitBlame(blamed, unblamed, split);
        gone := gone + taken;
        assert Bag(left) + Bag(unblamed) + Bag(es[i + 1..]) == rest + Bag(Outside(split));
      } else {
        BestTooSmall(texts, candidates, scoreMin, e, split);
        BagOne(left, e);
        assert Bag(left + [e]) + Bag(unblamed) + Bag(es[i + 1..]) == Bag(left) + Bag(unblamed) + Bag(es[i..]);
        left := left + [e];
      }
    }
    assert es[|es|..] == [];
    assert Bag(left) + Bag(unblamed) + multiset{} == Bag(left) + Bag(unblamed);
  }

  lemma MoreGone(texts: Texts, candidates: seq<Origin>, all: multiset<Claim>, blamed: seq<Entry>, gone: seq<Claim>,
                 rest: multiset<Claim>, some: multiset<Claim>, blamed': seq<Entry>, gone': seq<Claim>,
                   rest': multiset<Claim>)
    requires Accounted(texts, candidates, all, blamed, gone, rest + some)
    requires Accounted(texts, candidates, some, blamed', gone', rest')
    ensures Accounted(texts, candidates, all, blamed + blamed', gone + gone', rest + rest')
  {
    hide Numbers, Expand, True;
    NumbersJoin(gone, gone');
    ExpandJoin(blamed, blamed');
    NumbersJoin(Expand(blamed), Expand(blamed'));
    assert multiset(gone + gone') == multiset(gone) + multiset(gone');
  }

  lemma AccountedPart(texts: Texts, candidates: seq<Origin>, all: multiset<Claim>, blamed: seq<Entry>, gone: seq<Claim>,
                      rest: multiset<Claim>, some: multiset<Claim>)
    requires Accounted(texts, candidates, all, blamed, gone, rest + some) && Placed(texts.final, all)
    ensures Placed(texts.final, some)
  {
    hide Numbers, Expand, True;
    forall c | c in some ensures 0 <= c.lno < |texts.final| {
      assert c in all;
    }
  }

  ghost predicate AllSmall(final: Blob, es: seq<Entry>, score: nat) {
    forall e | e in es :: Score(final, e) <= score
  }

  /** find_move_in_parent, with the parent's file as candidate, and find_copy_in_parent: pass
      the best stretch of each entry to its candidate, and go on with the parts around it,
      until no stretch is left that scores enough. */
  method FindIn(texts: Texts, es: seq<Entry>, candidates: seq<Origin>, scoreMin: nat)
    returns (blamed: seq<Entry>, small: seq<Entry>, left: seq<Entry>, ghost gone: seq<Claim>)
    requires ExactDiffs(texts) && Proper(es) && Placed(texts.final, Bag(es))
    ensures Accounted(texts, candidates, Bag(es), blamed, gone, Bag(small) + Bag(left))
    ensures Proper(small) && Proper(left) && AllSmall(texts.final, small, scoreMin)
    ensures forall e | e in left :: Exhausted(texts, candidates, scoreMin, e)
  {
    hide Accounted, Bag, Exhausted, ExactDiffs, Placed;
    blamed, small, left, gone := [], [], [], [];
    var unblamed := es;
    NothingGone(texts, candidates, Bag(es));
    assert multiset{} + multiset{} + Bag(es) == Bag(es);
    while unblamed != []
      invariant Accounted(texts, candidates, Bag(es), blamed, gone, Bag(small) + Bag(left) + Bag(unblamed))
      invariant Proper(small) && Proper(left) && Proper(unblamed) && AllSmall(texts.final, small, scoreMin)
      invariant forall e | e in left :: Exhausted(texts, candidates, scoreMin, e)
      decreases |Bag(unblamed)|
    {
      AccountedPart(texts, candidates, Bag(es), blamed, gone, Bag(small) + Bag(left), Bag(unblamed));
      var blamed', left', rest;
      ghost var taken;
      blamed', left', rest, taken := OneRound(texts, unblamed, candidates, scoreMin);
      MoreGone(texts, candidates, Bag(es), blamed, gone, Bag(small) + Bag(left), Bag(unblamed), blamed', taken,
               Bag(left') + Bag(rest));
      var small', unblamed' := FilterSmall(texts.final, rest, scoreMin);
      BagJoin(left, left');
      BagJoin(small, small');
      assert Bag(small + small') + Bag(left + left') + Bag(unblamed') == (Bag(small) + Bag(left))
             + (Bag(left') + Bag(rest));
      assert |Bag(rest)| == |Bag(small')| + |Bag(unblamed')|;
      blamed, small, left, gone := blamed + blamed', small + small', left + left', gone + taken;
      unblamed := unblamed';
    }
    NothingGone(texts, candidates, Bag(es));
    assert Bag(small) + Bag(left) + multiset{} == Bag(small) + Bag(left);
  }

  // ---- the options -M and -C

  /** Which searches are wanted, and how much a stretch must score. */
  datatype Search = Search(moves: bool, copies: bool, moveScore: nat, copyScore: nat)

  /** Part of the lines `all` are in `blamed`, as lines of origins that were tried; the others
      are set aside in `small` or still in `suspects`. */
  ghost predicate Searching(texts: Texts, tried: seq<Origin>, all: multiset<Claim>, blamed: seq<Entry>,
                            gone: seq<Claim>, small: seq<Entry>, suspects: seq<Entry>) {
    Accounted(texts, tried, all, blamed, gone, Bag(small) + Bag(suspects)) && Proper(small) && Proper(suspects)
  }

  lemma Widen(texts: Texts, candidates: seq<Origin>, tried: seq<Origin>, all: multiset<Claim>, blamed: seq<Entry>,
              gone: seq<Claim>, rest: multiset<Claim>)
    requires Accounted(texts, candidates, all, blamed, gone, rest) && forall o | o in candidates :: o in tried
    ensures Accounted(texts, tried, all, blamed, gone, rest)
  {
    hide Numbers, Expand, True;
  }

  /** One search: in which files, and how much a stretch had to score. */
  datatype Sought = Sought(candidates: seq<Origin>, score: nat)

  /** No entry has a stretch that such a search would take. */
  ghost predicate Spent(texts: Texts, last: Option<Sought>, es: seq<Entry>) {
    last.Some? ==> forall e | e in es :: Exhausted(texts, last.value.candidates, last.value.score, e)
  }

  ghost function LastMove(search: Search, found: seq<Option<Origin>>): Option<Sought> {
    if !search.moves || found == [] then None
    else
      var n := |found| - 1;
      if found[n].Some? then Some(Sought([found[n].value], search.moveScore)) else LastMove(search, found[..n])
  }

  /** The search that is made last. */
  ghost function LastSearch(search: Search, found: seq<Option<Origin>>, copies: seq<seq<Origin>>): Option<Sought> {
    if search.copies && copies != [] then Some(Sought(copies[|copies| - 1], search.copyScore))
       else LastMove(search, found)
  }

  function MaxScore(search: Search): nat {
    if search.copyScore > search.moveScore then search.copyScore else search.moveScore
  }

  method Try(texts: Texts, candidates: seq<Origin>, scoreMin: nat, blamed: seq<Entry>, small: seq<Entry>,
             suspects: seq<Entry>, ghost tried: seq<Origin>, ghost all: multiset<Claim>, ghost gone: seq<Claim>)
    returns (blamed': seq<Entry>, small': seq<Entry>, suspects': seq<Entry>, ghost tried': seq<Origin>,
             ghost gone': seq<Claim>)
    requires ExactDiffs(texts) && Placed(texts.final, all)
             && Searching(texts, tried, all, blamed, gone, small, suspects)
    ensures Searching(texts, tried', all, blamed', gone', small', suspects') && tried' == tried + candidates
    ensures Spent(texts, Some(Sought(candidates, scoreMin)), suspects')
    ensures forall score | scoreMin <= score && AllSmall(texts.final, small, score) ::
            AllSmall(texts.final, small', score)
  {
    hide Accounted, Bag, ExactDiffs, Placed, Exhausted, Score;
    AccountedPart(texts, tried, all, blamed, gone, Bag(small), Bag(suspects));
    var more, few;
    ghost var taken;
    more, few, suspects', taken := FindIn(texts, suspects, candidates, scoreMin);
    tried' := tried + candidates;
    Widen(texts, tried, tried', all, blamed, gone, Bag(small) + Bag(suspects));
    Widen(texts, candidates, tried', Bag(suspects), more, taken, Bag(few) + Bag(suspects'));
    MoreGone(texts, tried', all, blamed, gone, Bag(small), Bag(suspects), more, taken, Bag(few) + Bag(suspects'));
    BagJoin(few, small);
    assert Bag(few + small) + Bag(suspects') == Bag(small) + (Bag(few) + Bag(suspects'));
    blamed', small', gone' := blamed + more, few + small, gone + taken;
  }

  method SetAside(texts: Texts, scoreMin: nat, blamed: seq<Entry>, small: seq<Entry>, suspects: seq<Entry>,
                  ghost tried: seq<Origin>, ghost all: multiset<Claim>, ghost gone: seq<Claim>)
    returns (small': seq<Entry>, suspects': seq<Entry>)
    requires Searching(texts, tried, all, blamed, gone, small, suspects)
    ensures Searching(texts, tried, all, blamed, gone, small', suspects')
    ensures forall e | e in suspects' :: e in suspects
    ensures forall score | scoreMin <= score && AllSmall(texts.final, small, score) ::
            AllSmall(texts.final, small', score)
  {
    hide Accounted, Bag, Exhausted, Score;
    var few;
    few, suspects' := FilterSmall(texts.final, suspects, scoreMin);
    BagJoin(few, small);
    assert Bag(few + small) + Bag(suspects') == Bag(small) + Bag(suspects);
    small' := few + small;
  }

  /** Every origin tried is one of those found or a candidate for copies. */
  ghost predicate Allowed(tried: seq<Origin>, found: seq<Option<Origin>>, copies: seq<seq<Origin>>) {
    forall o | o in tried :: Some(o) in found || exists i :: 0 <= i < |copies| && o in copies[i]
  }

  /** The end of pass_blame: look for moves in the origins found, then for copies in other
      files of the scapegoats.  `left` are the lines nobody else takes. */
  method MovesAndCopies(texts: Texts, search: Search, suspects0: seq<Entry>, found: seq<Option<Origin>>,
                        copies: seq<seq<Origin>>)
    returns (blamed: seq<Entry>, left: seq<Entry>, ghost tried: seq<Origin>, ghost gone: seq<Claim>)
    requires ExactDiffs(texts) && Proper(suspects0) && Placed(texts.final, Bag(suspects0))
    ensures Accounted(texts, tried, Bag(suspects0), blamed, gone, Bag(left)) && Proper(left)
    ensures Allowed(tried, found, copies)
    ensures forall e | e in left ::
              Score(texts.final, e) <= MaxScore(search) || Spent(texts, LastSearch(search, found, copies), [e])
  {
    hide Accounted, Bag, ExactDiffs, Placed, Searching, Exhausted, Score;
    blamed, tried, gone := [], [], [];
    var small, suspects := [], suspects0;
    ghost var all := Bag(suspects0);
    StartSearch(texts, suspects0);
    if search.moves {
      small, suspects := SetAside(texts, search.moveScore, blamed, small, suspects, tried, all, gone);
      assert found[..0] == [];
      for i := 0 to |found|
        invariant Searching(texts, tried, all, blamed, gone, small, suspects) && Allowed(tried, found, copies)
        invariant Spent(texts, LastMove(search, found[..i]), suspects) && AllSmall(texts.final, small, MaxScore(search))
      {
        if suspects == [] {
          break;
        }
        assert found[..i + 1][..i] == found[..i];
        if found[i].Some? {
          blamed, small, suspects, tried, gone := Try(texts, [found[i].value], search.moveScore, blamed, small,
                                                      suspects, tried, all, gone);
        }
      }
    }
    assert found[..|found|] == found;
    if search.copies {
      if search.copyScore > search.moveScore {
        small, suspects := SetAside(texts, search.copyScore, blamed, small, suspects, tried, all, gone);
      } else if search.copyScore < search.moveScore {
        MergeBack(texts, tried, all, blamed, gone, small, suspects);
        ghost var suspects1, small1 := suspects, small;
        suspects := Merge(suspects, small);
        MergedIn(suspects1, small1);
        small, suspects := SetAside(texts, search.copyScore, blamed, [], suspects, tried, all, gone);
      }
      for i := 0 to |copies|
        invariant Searching(texts, tried, all, blamed, gone, small, suspects) && Allowed(tried, found, copies)
        invariant AllSmall(texts.final, small, MaxScore(search))
        invariant i > 0 ==> Spent(texts, Some(Sought(copies[i - 1], search.copyScore)), suspects)
        invariant i == 0 ==> forall e | e in suspects ::
                    Score(texts.final, e) <= MaxScore(search) || Spent(texts, LastMove(search, found), [e])
      {
        if suspects == [] {
          break;
        }
        ghost var before := tried;
        blamed, small, suspects, tried, gone := Try(texts, copies[i], search.copyScore, blamed, small, suspects, tried,
                                                    all, gone);
        assert forall o | o in tried :: o in before || o in copies[i];
      }
    }
    EndSearch(texts, tried, all, blamed, gone, small, suspects);
    left := small + suspects;
  }

  lemma StartSearch(texts: Texts, suspects: seq<Entry>)
    requires Proper(suspects)
    ensures Searching(texts, [], Bag(suspects), [], [], [], suspects)
  {
    hide Accounted, Bag;
    NothingGone(texts, [], Bag(suspects));
    assert multiset{} + Bag(suspects) == Bag(suspects);
  }

  lemma {:induction false} MergedIn(a: seq<Entry>, b: seq<Entry>)
    ensures forall e | e in Merged(a, b) :: e in a || e in b
    decreases |a| + |b|
  {
    if a != [] && b != [] {
      if a[0].s <= b[0].s {
        MergedIn(a[1..], b);
      } else {
        MergedIn(a, b[1..]);
      }
    }
  }

  lemma MergeBack(texts: Texts, tried: seq<Origin>, all: multiset<Claim>, blamed: seq<Entry>, gone: seq<Claim>,
                  small: seq<Entry>, suspects: seq<Entry>)
    requires Searching(texts, tried, all, blamed, gone, small, suspects)
    ensures Searching(texts, tried, all, blamed, gone, [], Merged(suspects, small))
  {
    MergedLines(suspects, small);
    hide Accounted, Expand, Merged;
    NothingGone(texts, tried, all);
    assert Bag([]) + Bag(Merged(suspects, small)) == Bag(small) + Bag(suspects);
  }

  lemma EndSearch(texts: Texts, tried: seq<Origin>, all: multiset<Claim>, blamed: seq<Entry>, gone: seq<Claim>,
                  small: seq<Entry>, suspects: seq<Entry>)
    requires Searching(texts, tried, all, blamed, gone, small, suspects)
    ensures Accounted(texts, tried, all, blamed, gone, Bag(small + suspects)) && Proper(small + suspects)
  {
    hide Accounted, Bag;
    BagJoin(small, suspects);
  }

  // ---- distribute_blame

  /** compare_blame_suspect, with some order on origins. */
  predicate NotAfter(key: Origin -> int, a: Entry, b: Entry) {
    key(a.suspect) < key(b.suspect) || (key(a.suspect) == key(b.suspect) && a.s <= b.s)
  }

  ghost predicate SuspectsSorted(key: Origin -> int, es: seq<Entry>) {
    forall i, j | 0 <= i < j < |es| :: NotAfter(key, es[i], es[j])
  }

  function Insert(key: Origin -> int, e: Entry, es: seq<Entry>): seq<Entry> {
    if es == [] || NotAfter(key, e, es[0]) then [e] + es else [es[0]] + Insert(key, e, es[1..])
  }

  function SortSuspects(key: Origin -> int, es: seq<Entry>): seq<Entry> {
    if es == [] then [] else Insert(key, es[0], SortSuspects(key, es[1..]))
  }

  lemma {:induction false} InsertSorted(key: Origin -> int, e: Entry, es: seq<Entry>)
    requires SuspectsSorted(key, es)
    ensures SuspectsSorted(key, Insert(key, e, es))
    ensures forall x | x in Insert(key, e, es) :: x == e || x in es
    ensures Bag(Insert(key, e, es)) == multiset(Lines(e)) + Bag(es)
  {
    hide Lines;
    if es != [] && !NotAfter(key, e, es[0]) {
      var rest := Insert(key, e, es[1..]);
      InsertSorted(key, e, es[1..]);
      assert forall j | 0 <= j < |rest| :: rest[j] in rest;
    }
  }

  /** Sorting by suspect and line loses nothing. */
  lemma {:induction false} SortSuspectsSorts(key: Origin -> int, es: seq<Entry>)
    ensures SuspectsSorted(key, SortSuspects(key, es))
    ensures forall x | x in SortSuspects(key, es) :: x in es
    ensures Bag(SortSuspects(key, es)) == Bag(es)
  {
    hide Lines;
    if es != [] {
      SortSuspectsSorts(key, es[1..]);
      InsertSorted(key, es[0], SortSuspects(key, es[1..]));
    }
  }
}
