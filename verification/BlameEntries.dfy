/** Blame entries, and the single lines they stand for. */
module BlameEntries {

  type Commit = nat

  /** A blob in a commit that is being suspected. */
  datatype Origin = Origin(commit: Commit, path: string)

  /** Lines [lno, lno + num) of the final image are suspected to be lines
      [s, s + num) of `suspect`. */
  datatype Entry = Entry(lno: int, num: int, suspect: Origin, s: int, ignored: bool, unblamable: bool)

  /** One line of an entry. */
  datatype Claim = Claim(lno: int, suspect: Origin, s: int, ignored: bool, unblamable: bool)

  predicate Proper(es: seq<Entry>) {
    forall i | 0 <= i < |es| :: es[i].num > 0
  }

  function Lines(e: Entry): seq<Claim> {
    if e.num <= 0 then []
    else seq(e.num, i requires 0 <= i => Claim(e.lno + i, e.suspect, e.s + i, e.ignored, e.unblamable))
  }

  function Expand(es: seq<Entry>): seq<Claim> {
    if es == [] then [] else Lines(es[0]) + Expand(es[1..])
  }

  lemma {:induction false} ExpandJoin(a: seq<Entry>, b: seq<Entry>)
    ensures Expand(a + b) == Expand(a) + Expand(b)
  {
    if a == [] {
      assert a + b == b;
    } else {
      assert (a + b)[1..] == a[1..] + b;
      ExpandJoin(a[1..], b);
    }
  }

  lemma ExpandOne(e: Entry)
    ensures Expand([e]) == Lines(e)
  {
    assert Expand([e][1..]) == [];
  }

  /** reverse_blame: the list `head` reversed, followed by `tail`. */
  function Reverse(head: seq<Entry>, tail: seq<Entry>): (r: seq<Entry>)
    ensures |r| == |head| + |tail|
    decreases |head|
  {
    if head == [] then tail else Reverse(head[1..], [head[0]] + tail)
  }

  lemma {:induction false} ReverseJoin(head: seq<Entry>, tail: seq<Entry>)
    ensures Reverse(head, tail) == Reverse(head, []) + tail
    decreases |head|
  {
    if head != [] {
      var r := Reverse(head[1..], []);
      ReverseJoin(head[1..], [head[0]] + tail);
      ReverseJoin(head[1..], [head[0]] + []);
      assert r + ([head[0]] + tail) == (r + ([head[0]] + [])) + tail;
    }
  }

  // ---- selecting lines

  /** The lines before, or from, a chunk boundary at `t`. */
  function Select(cs: seq<Claim>, t: int, below: bool): seq<Claim> {
    if cs == [] then []
    else if (cs[0].s < t) == below then [cs[0]] + Select(cs[1..], t, below)
    else Select(cs[1..], t, below)
  }

  function Below(cs: seq<Claim>, t: int): seq<Claim> { Select(cs, t, true) }

  function From(cs: seq<Claim>, t: int): seq<Claim> { Select(cs, t, false) }

  lemma {:induction false} SelectJoin(a: seq<Claim>, b: seq<Claim>, t: int, below: bool)
    ensures Select(a + b, t, below) == Select(a, t, below) + Select(b, t, below)
  {
    if a == [] {
      assert a + b == b;
    } else {
      assert (a + b)[1..] == a[1..] + b;
      SelectJoin(a[1..], b, t, below);
    }
  }

  lemma {:induction false} SelectAll(cs: seq<Claim>, t: int, below: bool)
    requires forall c | c in cs :: (c.s < t) == below
    ensures Select(cs, t, below) == cs && Select(cs, t, !below) == []
  {
    if cs != [] {
      assert cs[0] in cs;
      SelectAll(cs[1..], t, below);
      assert cs == [cs[0]] + cs[1..];
    }
  }

  /** Selecting loses no line. */
  lemma {:induction false} SelectSplits(cs: seq<Claim>, t: int)
    ensures multiset(Below(cs, t)) + multiset(From(cs, t)) == multiset(cs)
    ensures forall c | c in Below(cs, t) :: c in cs && c.s < t
    ensures forall c | c in From(cs, t) :: c in cs && c.s >= t
  {
    if cs != [] {
      SelectSplits(cs[1..], t);
      assert cs == [cs[0]] + cs[1..];
    }
  }

  /** split_blame_at: the first `len` lines of an entry and the rest. */
  function SplitAt(e: Entry, len: int): (Entry, Entry) {
    (e.(num := len), Entry(e.lno + len, e.num - len, e.suspect, e.s + len, e.ignored, e.unblamable))
  }

  lemma SplitLines(e: Entry, len: int)
    requires 0 < len < e.num
    ensures Lines(e) == Lines(SplitAt(e, len).0) + Lines(SplitAt(e, len).1)
  {}

  lemma LinesRange(e: Entry)
    ensures forall c | c in Lines(e) ::
              e.s <= c.s < e.s + e.num && c.suspect == e.suspect && e.lno <= c.lno < e.lno + e.num
  {}

  lemma SelectTwo(a: seq<Claim>, b: seq<Claim>, t: int)
    requires (forall c | c in a :: c.s < t) && (forall c | c in b :: c.s >= t)
    ensures Below(a + b, t) == a && From(a + b, t) == b
  {
    SelectAll(a, t, true);
    SelectAll(b, t, false);
    SelectJoin(a, b, t, true);
    SelectJoin(a, b, t, false);
  }

  /** The final line numbers of some lines. */
  function Numbers(cs: seq<Claim>): multiset<int> {
    if cs == [] then multiset{} else multiset{cs[0].lno} + Numbers(cs[1..])
  }

  lemma {:induction false} NumbersJoin(a: seq<Claim>, b: seq<Claim>)
    ensures Numbers(a + b) == Numbers(a) + Numbers(b)
  {
    if a == [] {
      assert a + b == b;
    } else {
      assert (a + b)[1..] == a[1..] + b;
      NumbersJoin(a[1..], b);
    }
  }

  lemma NoLines()
    ensures Expand([]) == [] && Numbers(Expand([])) == multiset{}
  {}

  // ---- sorted lists

  ghost predicate Sorted(es: seq<Entry>) {
    forall i, j | 0 <= i < j < |es| :: es[i].s <= es[j].s
  }

  ghost predicate AllFrom(es: seq<Entry>, lo: int) {
    forall i | 0 <= i < |es| :: lo <= es[i].s
  }

  /** The stable merge of two lists by suspect line number. */
  function Merged(a: seq<Entry>, b: seq<Entry>): seq<Entry>
    decreases |a| + |b|
  {
    if a == [] then b
    else if b == [] then a
    else if a[0].s <= b[0].s then [a[0]] + Merged(a[1..], b)
    else [b[0]] + Merged(a, b[1..])
  }

  lemma {:induction false} MergedSorted(a: seq<Entry>, b: seq<Entry>, lo: int)
    requires Sorted(a) && Sorted(b) && AllFrom(a, lo) && AllFrom(b, lo)
    ensures Sorted(Merged(a, b)) && AllFrom(Merged(a, b), lo)
    decreases |a| + |b|
  {
    if a != [] && b != [] {
      if a[0].s <= b[0].s {
        MergedSorted(a[1..], b, a[0].s);
      } else {
        MergedSorted(a, b[1..], b[0].s);
      }
    }
  }

  /** Merging loses no line. */
  lemma {:induction false} MergedLines(a: seq<Entry>, b: seq<Entry>)
    ensures multiset(Expand(Merged(a, b))) == multiset(Expand(a)) + multiset(Expand(b))
    ensures Proper(a) && Proper(b) ==> Proper(Merged(a, b))
    decreases |a| + |b|
  {
    hide Lines;
    if a != [] && b != [] {
      if a[0].s <= b[0].s {
        MergedLines(a[1..], b);
        assert Merged(a, b)[1..] == Merged(a[1..], b);
      } else {
        MergedLines(a, b[1..]);
        assert Merged(a, b)[1..] == Merged(a, b[1..]);
      }
    }
  }

  /** blame_merge. */
  method Merge(list1: seq<Entry>, list2: seq<Entry>) returns (r: seq<Entry>)
    ensures r == Merged(list1, list2)
  {
    var p1, p2 := list1, list2;
    r := [];
    while p1 != [] && p2 != []
      invariant r + Merged(p1, p2) == Merged(list1, list2)
      decreases |p1| + |p2|
    {
      if p1[0].s <= p2[0].s {
        r, p1 := r + [p1[0]], p1[1..];
      } else {
        r, p2 := r + [p2[0]], p2[1..];
      }
    }
    r := r + if p1 == [] then p2 else p1;
  }

  /** `next` goes on where `e` ends, in the final image and in the same origin. */
  predicate Joins(e: Entry, next: Entry) {
    && e.suspect == next.suspect && e.s + e.num == next.s && e.lno + e.num == next.lno
    && e.ignored == next.ignored && e.unblamable == next.unblamable
  }

  lemma JoinLines(e: Entry, next: Entry)
    requires Joins(e, next) && e.num > 0 && next.num > 0
    ensures Lines(e.(num := e.num + next.num)) == Lines(e) + Lines(next)
  {}

  lemma ExpandPrefix(es: seq<Entry>, i: nat)
    requires i < |es|
    ensures Expand(es[..i + 1]) == Expand(es[..i]) + Lines(es[i])
  {
    assert es[..i + 1] == es[..i] + [es[i]];
    ExpandJoin(es[..i], [es[i]]);
    ExpandOne(es[i]);
  }

  /** blame_coalesce: the same lines in the same order, and no two neighbours left to join. */
  method Coalesce(es: seq<Entry>) returns (r: seq<Entry>)
    requires Proper(es)
    ensures Proper(r) && Expand(r) == Expand(es)
    ensures forall i | 0 <= i < |r| - 1 :: !Joins(r[i], r[i + 1])
  {
    hide Expand, Lines;
    if es == [] {
      return [];
    }
    var done: seq<Entry>, ent := [], es[0];
    ExpandOne(ent);
    assert es[..1] == [ent] && [] + [ent] == [ent];
    for i := 1 to |es|
      invariant Proper(done) && ent.num > 0 && Expand(done + [ent]) == Expand(es[..i])
      invariant forall k | 0 <= k < |done| - 1 :: !Joins(done[k], done[k + 1])
      invariant done != [] ==> !Joins(done[|done| - 1], ent)
    {
      var next := es[i];
      ExpandPrefix(es, i);
      ExpandJoin(done, [ent]);
      ExpandOne(ent);
      if Joins(ent, next) {
        JoinLines(ent, next);
        ent := ent.(num := ent.num + next.num);
        ExpandJoin(done, [ent]);
        ExpandOne(ent);
      } else {
        ExpandJoin(done + [ent], [next]);
        ExpandOne(next);
        done, ent := done + [ent], next;
      }
    }
    assert es[..|es|] == es;
    r := done + [ent];
  }
}
