/** Why guessing for an ignored merge is safe.  Guessing can leave the list of an origin
    unsorted, but by then every entry lies inside one hunk of each scapegoat's diff, and
    lines are only disordered inside a hunk. */
module BlameOrder {
  import opened BlameEntries
  import opened BlameChunk
  import opened BlameIgnore
  import opened BlameHunks

  // ---- lists that are in order at the ends of hunks

  /** The entries can be cut at both ends of every hunk. */
  ghost predicate Ready(es: seq<Entry>, hunks: seq<Hunk>) {
    forall h | h in hunks :: PartedAt(es, h.startB) && PartedAt(es, h.EndB())
  }

  /** The lines before line `t` come before the others. */
  ghost predicate Divided(cs: seq<Claim>, t: int) {
    forall i, j | 0 <= i < j < |cs| && cs[i].s >= t :: cs[j].s >= t
  }

  ghost predicate Grouped(cs: seq<Claim>, hunks: seq<Hunk>) {
    forall h | h in hunks :: Divided(cs, h.startB) && Divided(cs, h.EndB())
  }

  lemma {:induction false} DividedParted(es: seq<Entry>, t: int)
    requires Proper(es) && Divided(Expand(es), t)
    ensures PartedAt(es, t)
  {
    if es != [] {
      var cs, rest := Lines(es[0]), Expand(es[1..]);
      DividedTail(cs, rest, t);
      DividedParted(es[1..], t);
      if es[0].s >= t {
        assert (cs + rest)[0].s == es[0].s;
        FirstLines(es[1..], t);
      }
    }
  }

  lemma DividedTail(a: seq<Claim>, b: seq<Claim>, t: int)
    requires Divided(a + b, t)
    ensures Divided(a, t) && Divided(b, t)
    ensures a != [] && a[0].s >= t ==> forall i | 0 <= i < |b| :: b[i].s >= t
  {
    assert forall i | 0 <= i < |a| :: (a + b)[i] == a[i];
    assert forall i | 0 <= i < |b| :: (a + b)[|a| + i] == b[i];
  }

  lemma {:induction false} FirstLines(es: seq<Entry>, lo: int)
    requires Proper(es) && forall i | 0 <= i < |Expand(es)| :: lo <= Expand(es)[i].s
    ensures AllFrom(es, lo)
  {
    if es != [] {
      assert Expand(es)[0] == Lines(es[0])[0];
      assert forall i | 0 <= i < |Expand(es[1..])| :: Expand(es[1..])[i] == Expand(es)[|Lines(es[0])| + i];
      FirstLines(es[1..], lo);
    }
  }

  lemma GroupedReady(es: seq<Entry>, hunks: seq<Hunk>)
    requires Proper(es) && Grouped(Expand(es), hunks)
    ensures Ready(es, hunks)
  {
    forall h | h in hunks ensures PartedAt(es, h.startB) && PartedAt(es, h.EndB()) {
      DividedParted(es, h.startB);
      DividedParted(es, h.EndB());
    }
  }

  // ---- entries inside hunks

  /** Every entry lies inside one hunk. */
  ghost predicate InHunks(es: seq<Entry>, hunks: seq<Hunk>) {
    forall e | e in es :: exists h :: h in hunks && h.startB <= e.s && e.s + e.num <= h.EndB()
  }

  /** Every entry of `parts` is a stretch of an entry of `es`. */
  ghost predicate Parts(parts: seq<Entry>, es: seq<Entry>) {
    forall p | p in parts :: exists e :: e in es && e.s <= p.s && p.s + p.num <= e.s + e.num
  }

  lemma PartsInHunks(parts: seq<Entry>, es: seq<Entry>, hunks: seq<Hunk>)
    requires Parts(parts, es) && InHunks(es, hunks)
    ensures InHunks(parts, hunks)
  {
    forall p | p in parts ensures exists h :: h in hunks && h.startB <= p.s && p.s + p.num <= h.EndB() {
      var e :| e in es && e.s <= p.s && p.s + p.num <= e.s + e.num;
      var h :| h in hunks && h.startB <= e.s && e.s + e.num <= h.EndB();
      assert h.startB <= p.s && p.s + p.num <= h.EndB();
    }
  }

  lemma PartsTransitive(a: seq<Entry>, b: seq<Entry>, c: seq<Entry>)
    requires Parts(a, b) && Parts(b, c)
    ensures Parts(a, c)
  {
    forall p | p in a ensures exists e :: e in c && e.s <= p.s && p.s + p.num <= e.s + e.num {
      var q :| q in b && q.s <= p.s && p.s + p.num <= q.s + q.num;
      var e :| e in c && e.s <= q.s && q.s + q.num <= e.s + e.num;
      assert e.s <= p.s && p.s + p.num <= e.s + e.num;
    }
  }

  lemma PartsJoin(a: seq<Entry>, b: seq<Entry>, c: seq<Entry>)
    requires Parts(a, c) && Parts(b, c)
    ensures Parts(a + b, c)
  {}

  lemma HeadParts(e: Entry, t: int, es: seq<Entry>)
    requires e in es && e.num > 0 && e.s < t
    ensures Parts([Head(e, t)], es) && Parts(Tail(e, t), es)
  {}

  lemma PartsSelf(es: seq<Entry>)
    ensures Parts([], es) && Parts(es, es)
  {
    assert forall p | p in es :: p in es && p.s <= p.s && p.s + p.num <= p.s + p.num;
  }

  lemma {:induction false} CutParts(es: seq<Entry>, t: int)
    requires Proper(es)
    ensures Parts(Front(es, t), es) && Parts(Back(es, t), es)
  {
    hide Parts, Head, Tail;
    PartsSelf(es);
    if es != [] && es[0].s < t {
      CutParts(es[1..], t);
      PartsMore(Front(es[1..], t), es);
      PartsMore(Back(es[1..], t), es);
      HeadParts(es[0], t, es);
      PartsJoin([Head(es[0], t)], Front(es[1..], t), es);
      PartsJoin(Tail(es[0], t), Back(es[1..], t), es);
    }
  }

  lemma PartsMore(parts: seq<Entry>, es: seq<Entry>)
    requires es != [] && Parts(parts, es[1..])
    ensures Parts(parts, es)
  {
    forall p | p in parts ensures exists e :: e in es && e.s <= p.s && p.s + p.num <= e.s + e.num {
      var e :| e in es[1..] && e.s <= p.s && p.s + p.num <= e.s + e.num;
      assert e in es;
    }
  }

  /** No entry reaches across line `t`. */
  ghost predicate Unbroken(es: seq<Entry>, t: int) {
    forall e | e in es :: e.s + e.num <= t || t <= e.s
  }

  lemma {:induction false} OrderedApart(hunks: seq<Hunk>, posB: int, h: Hunk, g: Hunk)
    requires Ordered(hunks, posB) && h in hunks && g in hunks
    ensures posB <= h.startB <= h.EndB() && (h.EndB() <= g.startB || g.EndB() <= h.startB || h == g)
  {
    if h in hunks[1..] { OrderedApart(hunks[1..], hunks[0].EndB(), h, if g in hunks[1..] then g else h); }
    if g in hunks[1..] { OrderedApart(hunks[1..], hunks[0].EndB(), g, if h in hunks[1..] then h else g); }
  }

  lemma InHunksUnbroken(es: seq<Entry>, hunks: seq<Hunk>, h: Hunk)
    requires Ordered(hunks, 0) && InHunks(es, hunks) && h in hunks
    ensures Unbroken(es, h.startB) && Unbroken(es, h.EndB())
  {
    forall e | e in es ensures (e.s + e.num <= h.startB || h.startB <= e.s)
           && (e.s + e.num <= h.EndB() || h.EndB() <= e.s) {
      var g :| g in hunks && g.startB <= e.s && e.s + e.num <= g.EndB();
      OrderedApart(hunks, 0, h, g);
    }
  }

  lemma {:induction false} HunkChanged(hunks: seq<Hunk>, posB: int, offset: int, h: Hunk, s: int)
    requires Ordered(hunks, posB) && h in hunks && h.startB <= s < h.EndB()
    ensures ParentLine(hunks, offset, s).None?
  {
    if h != hunks[0] {
      OrderedApart(hunks, posB, hunks[0], h);
      OrderedApart(hunks[1..], hunks[0].EndB(), h, h);
      HunkChanged(hunks[1..], hunks[0].EndB(), hunks[0].Offset(), h, s);
    }
  }

  /** And only the lines inside a hunk do not come from the parent. */
  lemma {:induction false} OnlyHunksChange(hunks: seq<Hunk>, offset: int, s: int) returns (h: Hunk)
    requires ParentLine(hunks, offset, s).None?
    ensures h in hunks && h.startB <= s < h.EndB()
  {
    if s < hunks[0].EndB() { h := hunks[0]; } else { h := OnlyHunksChange(hunks[1..], hunks[0].Offset(), s); }
  }

  /** No line of an entry inside a hunk comes from the parent. */
  lemma {:induction false} InHunksChanged(es: seq<Entry>, hunks: seq<Hunk>)
    requires InHunks(es, hunks) && Ordered(hunks, 0)
    ensures forall c | c in Expand(es) :: ParentLine(hunks, 0, c.s).None?
  {
    hide ParentLine;
    if es != [] {
      assert forall e | e in es[1..] :: e in es;
      InHunksChanged(es[1..], hunks);
      LinesRange(es[0]);
      assert es[0] in es;
      var h :| h in hunks && h.startB <= es[0].s && es[0].s + es[0].num <= h.EndB();
      forall c | c in Lines(es[0]) ensures ParentLine(hunks, 0, c.s).None? {
        HunkChanged(hunks, 0, 0, h, c.s);
      }
    }
  }

  lemma {:induction false} UnbrokenDivided(es: seq<Entry>, t: int)
    requires Proper(es) && Sorted(es) && Unbroken(es, t)
    ensures Divided(Expand(es), t)
  {
    if es != [] {
      if es[0].s >= t {
        ExpandFrom(es, t);
      } else {
        UnbrokenDivided(es[1..], t);
        LinesRange(es[0]);
        assert es[0] in es;
        DividedJoin(Lines(es[0]), Expand(es[1..]), t);
      }
    }
  }

  lemma DividedJoin(a: seq<Claim>, b: seq<Claim>, t: int)
    requires (forall c | c in a :: c.s < t) && Divided(b, t)
    ensures Divided(a + b, t)
  {
    assert forall i | 0 <= i < |a| :: a[i] in a;
  }

  /** After plain passing, the lines are grouped by hunk. */
  lemma InHunksGrouped(es: seq<Entry>, hunks: seq<Hunk>)
    requires Proper(es) && Sorted(es) && Ordered(hunks, 0) && InHunks(es, hunks)
    ensures Grouped(Expand(es), hunks)
  {
    forall h | h in hunks ensures Divided(Expand(es), h.startB) && Divided(Expand(es), h.EndB()) {
      InHunksUnbroken(es, hunks, h);
      UnbrokenDivided(es, h.startB);
      UnbrokenDivided(es, h.EndB());
    }
  }

  // ---- guessing keeps the groups

  /** `some` are lines of the target among `cs`, in the same order. */
  ghost predicate Among(some: seq<Claim>, cs: seq<Claim>) {
    some == [] || (cs != [] && ((some[0].s == cs[0].s && Among(some[1..], cs[1..])) || Among(some, cs[1..])))
  }

  lemma {:induction false} AmongJoin(a: seq<Claim>, x: seq<Claim>, b: seq<Claim>, y: seq<Claim>)
    requires Among(a, x) && Among(b, y)
    ensures Among(a + b, x + y)
    decreases |x|
  {
    if x == [] {
      assert a + b == b && x + y == y;
    } else {
      assert (x + y)[1..] == x[1..] + y;
      if a != [] && a[0].s == x[0].s && Among(a[1..], x[1..]) {
        AmongJoin(a[1..], x[1..], b, y);
        assert (a + b)[1..] == a[1..] + b;
      } else {
        AmongNothing(x[1..]);
        AmongJoin(a, x[1..], b, y);
        AmongSkip(a + b, x + y);
      }
    }
  }

  lemma AmongNothing(cs: seq<Claim>)
    ensures Among([], cs)
  {}

  lemma AmongSkip(some: seq<Claim>, cs: seq<Claim>)
    requires cs != [] && Among(some, cs[1..])
    ensures Among(some, cs)
  {}

  lemma {:induction false} RouteAmong(g: Guesses, cs: seq<Claim>)
    ensures Among(g.Route(cs, false), cs)
  {
    if cs != [] { RouteAmong(g, cs[1..]); }
  }

  lemma {:induction false} AmongSelf(cs: seq<Claim>)
    ensures Among(cs, cs)
  {
    if cs != [] { AmongSelf(cs[1..]); }
  }

  lemma {:induction false} AmongIn(some: seq<Claim>, cs: seq<Claim>)
    requires Among(some, cs)
    ensures forall c | c in some :: exists d :: d in cs && d.s == c.s
    decreases |cs|
  {
    if some != [] {
      if some[0].s == cs[0].s && Among(some[1..], cs[1..]) {
        AmongIn(some[1..], cs[1..]);
        assert cs[0] in cs;
      } else {
        AmongIn(some, cs[1..]);
      }
      forall c | c in some ensures exists d :: d in cs && d.s == c.s {
        if c != some[0] || some[0].s != cs[0].s {
          if d :| d in cs[1..] && d.s == c.s { assert d in cs; }
        }
      }
    }
  }

  lemma AmongCases(some: seq<Claim>, cs: seq<Claim>)
    requires Among(some, cs) && some != []
    ensures cs != [] && ((some[0].s == cs[0].s && Among(some[1..], cs[1..])) || Among(some, cs[1..]))
  {}

  lemma {:induction false} AmongDivided(some: seq<Claim>, cs: seq<Claim>, t: int)
    requires Among(some, cs) && Divided(cs, t)
    ensures Divided(some, t)
    decreases |cs|
  {
    DividedNothing(t);
    if some != [] {
      AmongCases(some, cs);
      hide *;
      DividedRest(cs, t);
      if some[0].s == cs[0].s && Among(some[1..], cs[1..]) {
        AmongDivided(some[1..], cs[1..], t);
        AmongIn(some[1..], cs[1..]);
        DividedPrepend(some, cs[1..], t);
      } else {
        AmongDivided(some, cs[1..], t);
      }
    }
  }

  lemma DividedNothing(t: int)
    ensures Divided([], t)
  {}

  lemma DividedRest(cs: seq<Claim>, t: int)
    requires cs != [] && Divided(cs, t)
    ensures Divided(cs[1..], t) && (cs[0].s >= t ==> forall d | d in cs[1..] :: d.s >= t)
  {}

  lemma DividedPrepend(some: seq<Claim>, cs: seq<Claim>, t: int)
    requires some != [] && Divided(some[1..], t) && (forall x | x in some[1..] :: exists d :: d in cs && d.s == x.s)
    requires some[0].s >= t ==> forall d | d in cs :: d.s >= t
    ensures Divided(some, t)
  {
    var rest := some[1..];
    assert forall i | 0 <= i < |rest| :: rest[i] in rest && rest[i] == some[i + 1];
    forall i, j | 0 <= i < j < |some| && some[i].s >= t ensures some[j].s >= t {
      assert some[j] == rest[j - 1];
      if i > 0 { assert some[i] == rest[i - 1]; }
    }
  }

  lemma AmongGrouped(some: seq<Claim>, cs: seq<Claim>, hunks: seq<Hunk>)
    requires Among(some, cs) && Grouped(cs, hunks)
    ensures Grouped(some, hunks)
  {
    forall h | h in hunks ensures Divided(some, h.startB) && Divided(some, h.EndB()) {
      AmongDivided(some, cs, h.startB);
      AmongDivided(some, cs, h.EndB());
    }
  }

  /** Selecting from divided lines does not reorder them. */
  lemma {:induction false} DividedSelect(cs: seq<Claim>, t: int)
    requires Divided(cs, t)
    ensures Below(cs, t) + From(cs, t) == cs
  {
    if cs != [] {
      assert cs == [cs[0]] + cs[1..];
      DividedTail([cs[0]], cs[1..], t);
      DividedSelect(cs[1..], t);
      if cs[0].s >= t {
        SelectAll(cs, t, false);
      }
    }
  }

  /** The lines kept are among those that came in, in the same order. */
  lemma {:induction false} PassAmong(cs: seq<Claim>, hunks: seq<Hunk>, offset: int, parent: Origin, mode: Mode)
    requires Grouped(cs, hunks)
    ensures Among(PassLines(cs, hunks, offset, parent, mode).1, cs)
    decreases |hunks|
  {
    hide Divided, Among, Select;
    if hunks == [] {
      AmongNothing(cs);
    } else {
      var h := hunks[0];
      var same, rest := Below(cs, h.startB), From(cs, h.startB);
      var changed, rest' := Below(rest, h.EndB()), From(rest, h.EndB());
      DividedSelect(cs, h.startB);
      AmongNothing(same);
      AmongSelf(rest);
      AmongJoin([], same, rest, rest);
      assert [] + rest == rest;
      AmongGrouped(rest, cs, hunks);
      DividedSelect(rest, h.EndB());
      AmongNothing(changed);
      AmongSelf(rest');
      AmongJoin([], changed, rest', rest');
      assert [] + rest' == rest';
      AmongGrouped(rest', rest, hunks);
      PassAmong(rest', hunks[1..], h.Offset(), parent, mode);
      var kept := PassLines(rest', hunks[1..], h.Offset(), parent, mode).1;
      ChangedAmong(changed, h, parent, mode);
      AmongJoin(Changed(changed, h, parent, mode, false), changed, kept, rest');
      AmongJoin([], same, Changed(changed, h, parent, mode, false) + kept, rest);
      assert [] + (Changed(changed, h, parent, mode, false) + kept) == Changed(changed, h, parent, mode, false) + kept;
    }
  }

  lemma ChangedAmong(cs: seq<Claim>, h: Hunk, parent: Origin, mode: Mode)
    ensures Among(Changed(cs, h, parent, mode, false), cs)
  {
    match mode
    case Plain => AmongSelf(cs);
    case Ignoring(guess) => RouteAmong(Guesses(guess(h), h.startB, parent), cs);
  }
}
