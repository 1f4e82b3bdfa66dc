/** Passing the blame of one diff chunk from a target to its parent. */
module BlameChunk {
  import opened BlameEntries

  // ---- cutting a sorted list at a line of the target

  /** The part of an entry before line `t`, and the part from there on. */
  function Head(e: Entry, t: int): Entry {
    if e.s + e.num > t then SplitAt(e, t - e.s).0 else e
  }

  function Tail(e: Entry, t: int): seq<Entry> {
    if e.s + e.num > t then [SplitAt(e, t - e.s).1] else []
  }

  function Front(es: seq<Entry>, t: int): seq<Entry> {
    if es == [] || es[0].s >= t then [] else [Head(es[0], t)] + Front(es[1..], t)
  }

  function Back(es: seq<Entry>, t: int): seq<Entry> {
    if es == [] || es[0].s >= t then es else Tail(es[0], t) + Back(es[1..], t)
  }

  ghost predicate AllTo(es: seq<Entry>, hi: int) {
    forall i | 0 <= i < |es| :: es[i].s + es[i].num <= hi
  }

  lemma HeadTail(e: Entry, t: int)
    requires e.num > 0 && e.s < t
    ensures Lines(Head(e, t)) == Below(Lines(e), t)
    ensures Expand(Tail(e, t)) == From(Lines(e), t)
  {
    if e.s + e.num > t {
      var (a, b) := SplitAt(e, t - e.s);
      SplitLines(e, t - e.s);
      LinesRange(a);
      LinesRange(b);
      SelectTwo(Lines(a), Lines(b), t);
      ExpandOne(b);
    } else {
      LinesRange(e);
      SelectAll(Lines(e), t, true);
    }
  }

  /** The entries that begin before line `t` come first.  A sorted list is so at every line. */
  ghost predicate PartedAt(es: seq<Entry>, t: int) {
    forall i, j | 0 <= i < j < |es| && es[i].s >= t :: es[j].s >= t
  }

  /** Cutting a list that is parted at `t` separates its lines at `t`. */
  lemma {:induction false} CutLines(es: seq<Entry>, t: int)
    requires Proper(es) && PartedAt(es, t)
    ensures Expand(Front(es, t)) == Below(Expand(es), t)
    ensures Expand(Back(es, t)) == From(Expand(es), t)
  {
    hide Lines;
    if es == [] {
    } else if es[0].s >= t {
      ExpandFrom(es, t);
      SelectAll(Expand(es), t, false);
    } else {
      CutLines(es[1..], t);
      HeadTail(es[0], t);
      ExpandJoin(Tail(es[0], t), Back(es[1..], t));
      SelectJoin(Lines(es[0]), Expand(es[1..]), t, true);
      SelectJoin(Lines(es[0]), Expand(es[1..]), t, false);
    }
  }

  /** What is left after cutting at `t` is parted wherever the list was. */
  lemma {:induction false} BackParted(es: seq<Entry>, t: int)
    requires PartedAt(es, t)
    ensures AllFrom(Back(es, t), t)
    ensures forall u | PartedAt(es, u) :: PartedAt(Back(es, t), u)
  {
    if es != [] && es[0].s < t {
      BackParted(es[1..], t);
      var rest := Back(es[1..], t);
      forall u | PartedAt(es, u) ensures PartedAt(Tail(es[0], t) + rest, u) {
        assert PartedAt(es[1..], u);
        assert u <= t ==> forall i | 0 <= i < |rest| :: rest[i].s >= u;
      }
    }
  }

  lemma {:induction false} ExpandFrom(es: seq<Entry>, t: int)
    requires AllFrom(es, t)
    ensures forall c | c in Expand(es) :: c.s >= t
  {
    if es != [] {
      LinesRange(es[0]);
      ExpandFrom(es[1..], t);
    }
  }

  lemma {:induction false} FrontSorted(es: seq<Entry>, t: int, lo: int)
    requires Proper(es) && Sorted(es) && AllFrom(es, lo)
    ensures Proper(Front(es, t)) && Sorted(Front(es, t)) && AllFrom(Front(es, t), lo) && AllTo(Front(es, t), t)
  {
    if es != [] && es[0].s < t {
      FrontSorted(es[1..], t, es[0].s);
      Prepend(Head(es[0], t), Front(es[1..], t));
    }
  }

  lemma {:induction false} BackSorted(es: seq<Entry>, t: int)
    requires Proper(es) && Sorted(es)
    ensures Proper(Back(es, t)) && Sorted(Back(es, t)) && AllFrom(Back(es, t), t)
  {
    if es != [] && es[0].s < t {
      BackSorted(es[1..], t);
      if Tail(es[0], t) != [] {
        Prepend(Tail(es[0], t)[0], Back(es[1..], t));
      }
    }
  }

  /** Cutting any list, sorted or not, keeps all its lines. */
  lemma {:induction false} CutNumbers(es: seq<Entry>, t: int)
    requires Proper(es)
    ensures Proper(Front(es, t)) && Proper(Back(es, t))
    ensures Numbers(Expand(Front(es, t))) + Numbers(Expand(Back(es, t))) == Numbers(Expand(es))
  {
    hide Lines, Numbers;
    if es == [] || es[0].s >= t {
      NoLines();
    } else {
      CutNumbers(es[1..], t);
      var e, head, tail := es[0], Head(es[0], t), Tail(es[0], t);
      CutOne(e, t);
      assert Front(es, t)[1..] == Front(es[1..], t);
      NumbersJoin(Lines(head), Expand(Front(es[1..], t)));
      ExpandJoin(tail, Back(es[1..], t));
      NumbersJoin(Expand(tail), Expand(Back(es[1..], t)));
      NumbersJoin(Lines(e), Expand(es[1..]));
    }
  }

  lemma CutOne(e: Entry, t: int)
    requires e.num > 0 && e.s < t
    ensures Head(e, t).num > 0 && Proper(Tail(e, t))
    ensures Numbers(Lines(Head(e, t))) + Numbers(Expand(Tail(e, t))) == Numbers(Lines(e))
  {
    hide Lines, Numbers, Expand;
    if e.s + e.num > t {
      var (a, b) := SplitAt(e, t - e.s);
      SplitLines(e, t - e.s);
      ExpandOne(b);
      NumbersJoin(Lines(a), Lines(b));
    } else {
      NoLines();
    }
  }

  lemma Prepend(e: Entry, es: seq<Entry>)
    requires e.num > 0 && Proper(es) && Sorted(es) && AllFrom(es, e.s)
    ensures Proper([e] + es) && Sorted([e] + es) && AllFrom([e] + es, e.s)
  {}

  // ---- the two loops of blame_chunk

  function Move(e: Entry, parent: Origin, offset: int): Entry {
    e.(suspect := parent, s := e.s + offset)
  }

  function MoveAll(es: seq<Entry>, parent: Origin, offset: int): (r: seq<Entry>)
    ensures |r| == |es|
  {
    seq(|es|, i requires 0 <= i < |es| => Move(es[i], parent, offset))
  }

  function Moved(cs: seq<Claim>, parent: Origin, offset: int): seq<Claim> {
    seq(|cs|, i requires 0 <= i < |cs| => cs[i].(suspect := parent, s := cs[i].s + offset))
  }

  lemma LinesMoved(e: Entry, parent: Origin, offset: int)
    ensures Lines(Move(e, parent, offset)) == Moved(Lines(e), parent, offset)
  {}

  lemma MovedJoin(a: seq<Claim>, b: seq<Claim>, parent: Origin, offset: int)
    ensures Moved(a + b, parent, offset) == Moved(a, parent, offset) + Moved(b, parent, offset)
  {}

  lemma {:induction false} MoveLines(es: seq<Entry>, parent: Origin, offset: int)
    ensures Expand(MoveAll(es, parent, offset)) == Moved(Expand(es), parent, offset)
  {
    hide Lines;
    if es != [] {
      MoveLines(es[1..], parent, offset);
      assert MoveAll(es, parent, offset)[1..] == MoveAll(es[1..], parent, offset);
      LinesMoved(es[0], parent, offset);
      hide Moved;
      MovedJoin(Lines(es[0]), Expand(es[1..]), parent, offset);
    }
  }

  lemma Push(x: Entry, list: seq<Entry>)
    ensures Reverse([x] + list, []) == Reverse(list, []) + [x]
  {
    assert ([x] + list)[1..] == list && [x] + [] == [x];
    ReverseJoin(list, [x] + []);
  }

  /** The first loop of blame_chunk: entries before the chunk go to the parent. */
  method PassSame(rest: seq<Entry>, tlno: int, offset: int, parent: Origin)
    returns (passed: seq<Entry>, rest': seq<Entry>)
    requires Proper(rest)
    ensures passed == MoveAll(Front(rest, tlno), parent, offset)
    ensures rest' == Back(rest, tlno)
  {
    hide Reverse, Front, Back, MoveAll;
    var e, samep, diffp := rest, [], [];
    ghost var front: seq<Entry> := [];
    ReverseNothing();
    MoveMore([], Entry(0, 0, parent, 0, false, false), parent, offset);
    while e != [] && e[0].s < tlno
      invariant front + Front(e, tlno) == Front(rest, tlno)
      invariant Reverse(samep, []) == MoveAll(front, parent, offset)
      invariant Reverse(diffp, []) + Back(e, tlno) == Back(rest, tlno)
      decreases |e|
    {
      var x, next := e[0], e[1..];
      CutStep(e, tlno);
      if x.s + x.num > tlno {
        var (first, n) := SplitAt(x, tlno - x.s);
        Push(n, diffp);
        diffp := [n] + diffp;
        x := first;
      }
      MoveMore(front, x, parent, offset);
      Push(Move(x, parent, offset), samep);
      samep := [Move(x, parent, offset)] + samep;
      front := front + [x];
      e := next;
    }
    CutEnd(e, tlno);
    assert front + [] == front;
    passed := Reverse(samep, []);
    ReverseJoin(diffp, e);
    rest' := Reverse(diffp, e);
  }

  lemma CutStep(es: seq<Entry>, t: int)
    requires es != [] && es[0].s < t
    ensures Front(es, t) == [Head(es[0], t)] + Front(es[1..], t) && Back(es, t) == Tail(es[0], t) + Back(es[1..], t)
  {}

  lemma CutEnd(es: seq<Entry>, t: int)
    requires es == [] || es[0].s >= t
    ensures Front(es, t) == [] && Back(es, t) == es
  {}

  lemma MoveMore(es: seq<Entry>, x: Entry, parent: Origin, offset: int)
    ensures MoveAll(es + [x], parent, offset) == MoveAll(es, parent, offset) + [Move(x, parent, offset)]
    ensures MoveAll([], parent, offset) == []
  {}

  lemma ReverseNothing()
    ensures Reverse([], []) == []
  {}

  /** The second loop of blame_chunk: entries in the chunk stay with the target. */
  method KeepDifferent(rest: seq<Entry>, same: int) returns (kept: seq<Entry>, rest': seq<Entry>)
    requires Proper(rest)
    ensures kept == Front(rest, same)
    ensures rest' == Back(rest, same)
  {
    hide Reverse, Front, Back;
    var e, samep, diffp := rest, [], [];
    ReverseNothing();
    while e != [] && e[0].s < same
      invariant Reverse(diffp, []) + Front(e, same) == Front(rest, same)
      invariant Reverse(samep, []) + Back(e, same) == Back(rest, same)
      decreases |e|
    {
      var x, next := e[0], e[1..];
      CutStep(e, same);
      if x.s + x.num > same {
        var (first, n) := SplitAt(x, same - x.s);
        Push(n, samep);
        samep := [n] + samep;
        x := first;
      }
      Push(x, diffp);
      diffp := [x] + diffp;
      e := next;
    }
    CutEnd(e, same);
    assert Reverse(diffp, []) + [] == Reverse(diffp, []);
    kept := Reverse(diffp, []);
    ReverseJoin(samep, e);
    rest' := Reverse(samep, e);
  }
}
