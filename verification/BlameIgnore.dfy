/** Passing the lines of an ignored commit to its parent by guesswork. */
module BlameIgnore {
  import opened BlameEntries
  import opened BlameChunk

  /** For one line of a chunk: the line of the parent it is guessed to come from, or
      the line of the target it is. */
  datatype Tracker = Tracker(isParent: bool, s: int)

  /** The guesses for the lines of a chunk that starts at line `tlno` of the target. */
  datatype Guesses = Guesses(trackers: seq<Tracker>, tlno: int, parent: Origin) {
    function At(k: int): Tracker {
      if 0 <= k - tlno < |trackers| then trackers[k - tlno] else Tracker(false, k)
    }

    /** A line with a guess goes to the guessed line of the parent and is marked ignored;
        one without stays with the target and is marked unblamable. */
    function Guess(c: Claim): Claim {
      if At(c.s).isParent then c.(suspect := parent, s := At(c.s).s, ignored := true)
      else c.(unblamable := true)
    }

    /** The lines of `cs` that go to the parent, or that stay. */
    function Route(cs: seq<Claim>, toParent: bool): seq<Claim> {
      if cs == [] then []
      else if At(cs[0].s).isParent == toParent then [Guess(cs[0])] + Route(cs[1..], toParent)
      else Route(cs[1..], toParent)
    }
  }

  lemma {:induction false} RouteJoin(g: Guesses, a: seq<Claim>, b: seq<Claim>, toParent: bool)
    ensures g.Route(a + b, toParent) == g.Route(a, toParent) + g.Route(b, toParent)
  {
    if a == [] {
      assert a + b == b;
    } else {
      assert (a + b)[1..] == a[1..] + b;
      RouteJoin(g, a[1..], b, toParent);
    }
  }

  lemma {:induction false} RouteUniform(g: Guesses, cs: seq<Claim>, ds: seq<Claim>, toParent: bool)
    requires |cs| == |ds|
    requires forall i | 0 <= i < |cs| :: g.At(cs[i].s).isParent == toParent && ds[i] == g.Guess(cs[i])
    ensures g.Route(cs, toParent) == ds && g.Route(cs, !toParent) == []
  {
    if cs != [] {
      RouteUniform(g, cs[1..], ds[1..], toParent);
      assert ds == [ds[0]] + ds[1..];
    }
  }

  /** The first `n` lines of `e` come from the same origin, in order. */
  ghost predicate Run(g: Guesses, e: Entry, n: int) {
    && 0 < n <= e.num
    && forall k | e.s <= k < e.s + n ::
         && g.At(k).isParent == g.At(e.s).isParent
         && (g.At(e.s).isParent ==> g.At(k).s == g.At(e.s).s + (k - e.s))
  }

  /** The entry ignore_blame_entry makes of a run. */
  function Assigned(g: Guesses, e: Entry): Entry {
    if g.At(e.s).isParent then e.(suspect := g.parent, s := g.At(e.s).s, ignored := true)
    else e.(unblamable := true)
  }

  lemma RunLines(g: Guesses, e: Entry, toParent: bool)
    requires Run(g, e, e.num)
    ensures g.Route(Lines(e), toParent) == if g.At(e.s).isParent == toParent then Lines(Assigned(g, e)) else []
  {
    var cs, ds := Lines(e), Lines(Assigned(g, e));
    forall i | 0 <= i < |cs| ensures g.At(cs[i].s).isParent == g.At(e.s).isParent && ds[i] == g.Guess(cs[i]) {
      assert cs[i].s == e.s + i;
    }
    RouteUniform(g, cs, ds, g.At(e.s).isParent);
  }

  lemma PushLines(x: Entry, list: seq<Entry>)
    ensures Expand(Reverse([x] + list, [])) == Expand(Reverse(list, [])) + Lines(x)
  {
    Push(x, list);
    ExpandJoin(Reverse(list, []), [x]);
    ExpandOne(x);
  }

  /** The lines of a list built in reverse, followed by what `e` will still add to it. */
  ghost function Pending(g: Guesses, list: seq<Entry>, e: Entry, toParent: bool): seq<Claim> {
    Expand(Reverse(list, [])) + g.Route(Lines(e), toParent)
  }

  lemma EmitRun(g: Guesses, e: Entry, n: int, list: seq<Entry>, toParent: bool)
    requires Run(g, e, n) && n < e.num
    ensures Pending(g, if g.At(e.s).isParent == toParent then [Assigned(g, SplitAt(e, n).0)] + list else list,
                    SplitAt(e, n).1, toParent)
         == Pending(g, list, e, toParent)
  {
    var (x, next) := SplitAt(e, n);
    SplitLines(e, n);
    RunLines(g, x, toParent);
    PendingSplits(g, e, x, next, list, toParent, g.At(e.s).isParent == toParent);
  }

  lemma PendingSplits(g: Guesses, e: Entry, x: Entry, next: Entry, list: seq<Entry>, toParent: bool, mine: bool)
    requires Lines(e) == Lines(x) + Lines(next)
    requires g.Route(Lines(x), toParent) == if mine then Lines(Assigned(g, x)) else []
    ensures Pending(g, if mine then [Assigned(g, x)] + list else list, next, toParent) == Pending(g, list, e, toParent)
  {
    hide Lines, Reverse, Expand, Guesses.Route, Assigned;
    RouteJoin(g, Lines(x), Lines(next), toParent);
    if mine {
      PushLines(Assigned(g, x), list);
    }
  }

  /** ignore_blame_entry: carve an entry into runs and push each on one of two lists. */
  method IgnoreEntry(g: Guesses, e0: Entry, diffp0: seq<Entry>, ignoredp0: seq<Entry>)
    returns (diffp: seq<Entry>, ignoredp: seq<Entry>)
    requires e0.num > 0 && Proper(diffp0) && Proper(ignoredp0)
    ensures Proper(diffp) && Proper(ignoredp)
    ensures Expand(Reverse(diffp, [])) == Pending(g, diffp0, e0, false)
    ensures Expand(Reverse(ignoredp, [])) == Pending(g, ignoredp0, e0, true)
  {
    hide Pending, Guesses.At, Expand, Reverse;
    diffp, ignoredp := diffp0, ignoredp0;
    var e, entryLen, nr := e0, 1, e0.num;
    for i := 0 to nr - 1
      invariant 0 < entryLen <= i + 1
      invariant e.s + entryLen == e0.s + i + 1 && e.num == nr - (i + 1 - entryLen)
      invariant Run(g, e, entryLen) && Proper(diffp) && Proper(ignoredp)
      invariant Pending(g, diffp, e, false) == Pending(g, diffp0, e0, false)
      invariant Pending(g, ignoredp, e, true) == Pending(g, ignoredp0, e0, true)
    {
      var first, second := g.At(e0.s + i), g.At(e0.s + i + 1);
      if first.isParent == second.isParent && first.s + 1 == second.s {
        entryLen := entryLen + 1;
      } else {
        var (x, next) := SplitAt(e, entryLen);
        EmitRun(g, e, entryLen, diffp, false);
        EmitRun(g, e, entryLen, ignoredp, true);
        if g.At(e.s).isParent {
          ignoredp := [Assigned(g, x)] + ignoredp;
        } else {
          diffp := [Assigned(g, x)] + diffp;
        }
        e, entryLen := next, 1;
      }
    }
    EmitLast(g, e, diffp, false);
    EmitLast(g, e, ignoredp, true);
    if g.At(e.s).isParent {
      ignoredp := [Assigned(g, e)] + ignoredp;
    } else {
      diffp := [Assigned(g, e)] + diffp;
    }
  }

  lemma EmitLast(g: Guesses, e: Entry, list: seq<Entry>, toParent: bool)
    requires Run(g, e, e.num)
    ensures Expand(Reverse(if g.At(e.s).isParent == toParent then [Assigned(g, e)] + list else list, []))
         == Pending(g, list, e, toParent)
  {
    RunLines(g, e, toParent);
    PushLines(Assigned(g, e), list);
  }

  lemma {:induction false} ReverseProper(list: seq<Entry>, tail: seq<Entry>)
    requires Proper(list) && Proper(tail)
    ensures Proper(Reverse(list, tail))
    decreases |list|
  {
    if list != [] { ReverseProper(list[1..], [list[0]] + tail); }
  }

  /** The second loop of blame_chunk when the target is an ignored commit. */
  method KeepOrGuess(g: Guesses, rest: seq<Entry>, same: int)
    returns (kept: seq<Entry>, guessed: seq<Entry>, rest': seq<Entry>)
    requires Proper(rest)
    ensures Proper(kept) && Proper(guessed)
    ensures Expand(kept) == g.Route(Expand(Front(rest, same)), false)
    ensures Expand(guessed) == g.Route(Expand(Front(rest, same)), true)
    ensures rest' == Back(rest, same)
  {
    hide Reverse, Lines, Expand, Guesses.Route, Guesses.At, Front, Back;
    NoLines();
    var e, samep, diffp, ignoredp := rest, [], [], [];
    ReverseNothing();
    RouteNothing(g);
    ghost var front: seq<Entry> := [];
    while e != [] && e[0].s < same
      invariant Proper(diffp) && Proper(ignoredp) && Proper(e)
      invariant front + Front(e, same) == Front(rest, same)
      invariant Expand(Reverse(diffp, [])) == g.Route(Expand(front), false)
      invariant Expand(Reverse(ignoredp, [])) == g.Route(Expand(front), true)
      invariant Reverse(samep, []) + Back(e, same) == Back(rest, same)
      decreases |e|
    {
      var x, next := e[0], e[1..];
      CutStep(e, same);
      if x.s + x.num > same {
        var (first, n) := SplitAt(x, same - x.s);
        Push(n, samep);
        samep := [n] + samep;
        x := first;
      }
      RouteAppend(g, front, x, false);
      RouteAppend(g, front, x, true);
      diffp, ignoredp := IgnoreEntry(g, x, diffp, ignoredp);
      front := front + [x];
      e := next;
    }
    CutEnd(e, same);
    assert front + [] == front;
    ReverseProper(diffp, []);
    ReverseProper(ignoredp, []);
    kept, guessed := Reverse(diffp, []), Reverse(ignoredp, []);
    ReverseJoin(samep, e);
    rest' := Reverse(samep, e);
  }

  lemma RouteNothing(g: Guesses)
    ensures g.Route([], false) == [] && g.Route([], true) == []
  {}

  lemma RouteAppend(g: Guesses, front: seq<Entry>, x: Entry, toParent: bool)
    ensures g.Route(Expand(front + [x]), toParent) == g.Route(Expand(front), toParent) + g.Route(Lines(x), toParent)
  {
    ExpandJoin(front, [x]);
    ExpandOne(x);
    RouteJoin(g, Expand(front), Lines(x), toParent);
  }
}
