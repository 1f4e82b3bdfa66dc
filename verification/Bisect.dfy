/** Bisection weights on a commit graph: bisect.c. */
module Bisect {
  import opened Wrappers

  type Commit = nat

  /** What bisection sees of the history.  `parents` are those followed: with
      first-parent bisection only the first one.  `boring` is UNINTERESTING, `same` is
      TREESAME. */
  datatype History = History(parents: Commit -> seq<Commit>, boring: Commit -> bool, same: Commit -> bool)

  ghost predicate Acyclic(h: History, rank: Commit -> nat) {
    forall c: Commit, p: Commit | p in h.parents(c) :: rank(p) < rank(c)
  }

  // ---- what can be reached

  /** The interesting commits reachable from `c` through interesting commits. */
  ghost function Reach(h: History, rank: Commit -> nat, c: Commit): set<Commit>
    requires Acyclic(h, rank)
    decreases rank(c), |h.parents(c)| + 1
  {
    if h.boring(c) then {} else {c} + ReachAny(h, rank, h.parents(c), rank(c))
  }

  ghost function ReachAny(h: History, rank: Commit -> nat, ps: seq<Commit>, below: nat): set<Commit>
    requires Acyclic(h, rank) && forall p | p in ps :: rank(p) < below
    decreases below, |ps|
  {
    if ps == [] then {} else Reach(h, rank, ps[0]) + ReachAny(h, rank, ps[1..], below)
  }

  lemma {:induction false} ReachAnyIs(h: History, rank: Commit -> nat, ps: seq<Commit>, below: nat)
    requires Acyclic(h, rank) && forall p | p in ps :: rank(p) < below
    ensures forall p | p in ps :: Reach(h, rank, p) <= ReachAny(h, rank, ps, below)
    ensures forall x | x in ReachAny(h, rank, ps, below) :: exists p :: p in ps && x in Reach(h, rank, p)
    decreases |ps|
  {
    if ps != [] {
      ReachAnyIs(h, rank, ps[1..], below);
      forall x | x in ReachAny(h, rank, ps, below) ensures exists p :: p in ps && x in Reach(h, rank, p) {
        if x in Reach(h, rank, ps[0]) {
          assert ps[0] in ps;
        } else {
          var p :| p in ps[1..] && x in Reach(h, rank, p);
          assert p in ps;
        }
      }
    }
  }

  /** Reachable commits are interesting, of no higher rank, and reach no more. */
  lemma {:induction false} ReachInside(h: History, rank: Commit -> nat, c: Commit, x: Commit)
    requires Acyclic(h, rank) && x in Reach(h, rank, c)
    ensures !h.boring(x) && rank(x) <= rank(c) && (x != c ==> rank(x) < rank(c))
    ensures Reach(h, rank, x) <= Reach(h, rank, c)
    decreases rank(c)
  {
    if x != c {
      ReachAnyIs(h, rank, h.parents(c), rank(c));
      var p :| p in h.parents(c) && x in Reach(h, rank, p);
      ReachInside(h, rank, p, x);
    }
  }

  lemma ReachParent(h: History, rank: Commit -> nat, c: Commit, p: Commit)
    requires Acyclic(h, rank) && !h.boring(c) && p in h.parents(c)
    ensures Reach(h, rank, p) <= Reach(h, rank, c) && c !in Reach(h, rank, p)
  {
    ReachAnyIs(h, rank, h.parents(c), rank(c));
    if c in Reach(h, rank, p) {
      ReachInside(h, rank, p, c);
    }
  }

  /** The tree-changing commits of a set. */
  ghost function Changing(h: History, s: set<Commit>): set<Commit> {
    set x | x in s && !h.same(x)
  }

  ghost function Weight(h: History, rank: Commit -> nat, c: Commit): nat
    requires Acyclic(h, rank)
  {
    |Changing(h, Reach(h, rank, c))|
  }

  /** Counting a part first leaves the rest to count. */
  lemma CountPart(h: History, all: set<Commit>, part: set<Commit>, done: set<Commit>)
    requires part <= all
    ensures |Changing(h, all - done)| == |Changing(h, part - done)| + |Changing(h, all - (done + part))|
  {
    var a, b := Changing(h, part - done), Changing(h, all - (done + part));
    assert Changing(h, all - done) == a + b && a !! b;
  }

  /** What was counted below `c` is counted completely. */
  ghost predicate CountedBelow(h: History, rank: Commit -> nat, c: Commit, counted: set<Commit>)
    requires Acyclic(h, rank)
  {
    forall x | x in counted && x in Reach(h, rank, c) :: Reach(h, rank, x) <= counted
  }

  /** count_interesting_parents. */
  function Interesting(h: History, ps: seq<Commit>): nat {
    if ps == [] then 0 else (if h.boring(ps[0]) then 0 else 1) + Interesting(h, ps[1..])
  }

  lemma {:induction false} NoInteresting(h: History, rank: Commit -> nat, ps: seq<Commit>, below: nat)
    requires Acyclic(h, rank) && (forall p | p in ps :: rank(p) < below)
    requires Interesting(h, ps) == 0
    ensures ReachAny(h, rank, ps, below) == {}
  {
    if ps != [] { NoInteresting(h, rank, ps[1..], below); }
  }

  lemma {:induction false} OneInteresting(h: History, rank: Commit -> nat, ps: seq<Commit>, below: nat, q: Commit)
    requires Acyclic(h, rank) && (forall p | p in ps :: rank(p) < below)
    requires Interesting(h, ps) == 1 && q in ps && !h.boring(q)
    ensures ReachAny(h, rank, ps, below) == Reach(h, rank, q)
  {
    if ps[0] == q {
      NoInteresting(h, rank, ps[1..], below);
    } else {
      if !h.boring(ps[0]) {
        NoInteresting(h, rank, ps[1..], below);
        InterestingMember(h, ps[1..], q);
      }
      OneInteresting(h, rank, ps[1..], below, q);
    }
  }

  lemma {:induction false} InterestingMember(h: History, ps: seq<Commit>, q: Commit)
    requires q in ps && !h.boring(q)
    ensures Interesting(h, ps) > 0
  {
    if ps[0] != q { InterestingMember(h, ps[1..], q); }
  }

  lemma {:induction false} SomeInteresting(h: History, ps: seq<Commit>) returns (q: Commit)
    requires Interesting(h, ps) > 0
    ensures q in ps && !h.boring(q)
  {
    if h.boring(ps[0]) { q := SomeInteresting(h, ps[1..]); } else { q := ps[0]; }
  }

  /** A commit without interesting parents reaches itself only. */
  lemma RootWeight(h: History, rank: Commit -> nat, c: Commit)
    requires Acyclic(h, rank) && !h.boring(c) && Interesting(h, h.parents(c)) == 0
    ensures Weight(h, rank, c) == if h.same(c) then 0 else 1
  {
    NoInteresting(h, rank, h.parents(c), rank(c));
    assert Reach(h, rank, c) == {c};
    assert Changing(h, {c}) == if h.same(c) then {} else {c};
  }

  /** A commit with one interesting parent reaches what that parent reaches, and itself. */
  lemma StrandWeight(h: History, rank: Commit -> nat, c: Commit, q: Commit)
    requires Acyclic(h, rank) && !h.boring(c) && Interesting(h, h.parents(c)) == 1 && q in h.parents(c) && !h.boring(q)
    ensures Weight(h, rank, c) == Weight(h, rank, q) + if h.same(c) then 0 else 1
  {
    OneInteresting(h, rank, h.parents(c), rank(c), q);
    ReachParent(h, rank, c, q);
    var r := Reach(h, rank, q);
    assert Reach(h, rank, c) == r + {c};
    assert Changing(h, r + {c}) == Changing(h, r) + if h.same(c) then {} else {c};
  }

  /** The commits to bisect: distinct, interesting, and closed under interesting parents. */
  ghost predicate Closed(h: History, list: seq<Commit>) {
    && (forall i, j | 0 <= i < j < |list| :: list[i] != list[j])
    && (forall c | c in list :: !h.boring(c))
    && (forall c, p | c in list && p in h.parents(c) :: h.boring(p) || p in list)
  }

  lemma {:induction false} ReachInList(h: History, rank: Commit -> nat, list: seq<Commit>, c: Commit)
    requires Acyclic(h, rank) && Closed(h, list) && c in list
    ensures forall x | x in Reach(h, rank, c) :: x in list
    decreases rank(c)
  {
    ReachAnyIs(h, rank, h.parents(c), rank(c));
    forall x | x in Reach(h, rank, c) ensures x in list {
      if x != c {
        assert x in ReachAny(h, rank, h.parents(c), rank(c));
        var p :| p in h.parents(c) && x in Reach(h, rank, p);
        assert !h.boring(p);
        ReachInList(h, rank, list, p);
      }
    }
  }

  ghost function Elements(list: seq<Commit>): set<Commit> {
    set c | c in list
  }

  /** Within a halfway of at most one, or a thousandth of a large number. */
  predicate Halfway(w: int, nr: int) {
    var diff := 2 * w - nr;
    -1 <= diff <= 1 || (if diff < 0 then -diff else diff) < nr / 1024
  }

  function Distance(w: int, nr: int): int {
    if nr - w < w then nr - w else w
  }

  /** The smaller side when `w` of `all` commits are on one side. */
  function Smaller(w: int, all: int): int {
    if w <= all - w then w else all - w
  }

  /** No division is better than one at a halfway commit by more than 1 in 2048. */
  lemma NearlyBest(w: int, nr: nat, other: int)
    requires Halfway(w, nr)
    ensures Smaller(other, nr) <= Smaller(w, nr) + nr / 2048
  {
    assert nr / 1024 <= 2 * (nr / 2048) + 1;
  }

  type Weights = map<Commit, int>

  /** A weight is right, or a placeholder: -1 for one interesting parent, -2 for more. */
  ghost predicate WeightOk(h: History, rank: Commit -> nat, c: Commit, w: int)
    requires Acyclic(h, rank)
  {
    || w == Weight(h, rank, c)
    || (w == -1 && Interesting(h, h.parents(c)) == 1)
    || (w == -2 && Interesting(h, h.parents(c)) > 1)
  }

  /** All commits of the list have a weight, and the known ones are right. */
  ghost predicate Weighed(h: History, rank: Commit -> nat, weights: Weights, list: seq<Commit>)
    requires Acyclic(h, rank)
  {
    forall c | c in list :: c in weights && WeightOk(h, rank, c, weights[c])
  }

  ghost function Unknown(weights: Weights, list: seq<Commit>): set<Commit> {
    set c | c in list && c in weights && weights[c] < 0
  }

  /** Tree-changing commits whose weight is known. */
  ghost function KnownChanging(h: History, weights: Weights, list: seq<Commit>): set<Commit> {
    set c | c in list && c in weights && weights[c] >= 0 && !h.same(c)
  }

  /** One more weight, for a commit whose weight was not known. */
  lemma SetWeight(h: History, rank: Commit -> nat, weights: Weights, list: seq<Commit>, c: Commit, w: int)
    requires Acyclic(h, rank) && Weighed(h, rank, weights, list) && WeightOk(h, rank, c, w)
    requires c in list ==> c in weights && weights[c] < 0
    ensures Weighed(h, rank, weights[c := w], list) && Weighed(h, rank, weights[c := w], list + [c])
    ensures c in list && w >= 0 ==> Unknown(weights[c := w], list) == Unknown(weights, list) - {c}
    ensures |KnownChanging(h, weights[c := w], list + [c])|
         == |KnownChanging(h, weights, list)| + if w >= 0 && !h.same(c) then 1 else 0
    ensures c in list ==> KnownChanging(h, weights[c := w], list) == KnownChanging(h, weights[c := w], list + [c])
  {
    hide WeightOk;
    SetUnknown(weights, list, c, w);
    SetKnown(h, weights, list, c, w);
    hide Unknown, KnownChanging;
  }

  lemma SetUnknown(weights: Weights, list: seq<Commit>, c: Commit, w: int)
    ensures c in list && w >= 0 ==> Unknown(weights[c := w], list) == Unknown(weights, list) - {c}
  {}

  lemma SetKnown(h: History, weights: Weights, list: seq<Commit>, c: Commit, w: int)
    requires c in list ==> c in weights && weights[c] < 0
    ensures |KnownChanging(h, weights[c := w], list + [c])|
         == |KnownChanging(h, weights, list)| + if w >= 0 && !h.same(c) then 1 else 0
    ensures c in list ==> KnownChanging(h, weights[c := w], list) == KnownChanging(h, weights[c := w], list + [c])
  {
    SetKnownSet(h, weights, list, c, w);
    hide KnownChanging;
    var known, more := KnownChanging(h, weights, list), if w >= 0 && !h.same(c) then {c} else {};
    assert |known + more| == |known| + |more|;
  }

  lemma SetKnownSet(h: History, weights: Weights, list: seq<Commit>, c: Commit, w: int)
    requires c in list ==> c in weights && weights[c] < 0
    ensures c !in KnownChanging(h, weights, list)
    ensures KnownChanging(h, weights[c := w], list + [c])
         == KnownChanging(h, weights, list) + if w >= 0 && !h.same(c) then {c} else {}
    ensures c in list ==> KnownChanging(h, weights[c := w], list) == KnownChanging(h, weights[c := w], list + [c])
  {
    assert forall x :: x in list + [c] <==> x in list || x == c;
  }

  class Bisection {
    const h: History
    ghost const rank: Commit -> nat
    /** Rank all commits instead of stopping at a halfway one: FIND_BISECTION_ALL. */
    const findAll: bool
    /** The commits with the COUNTED flag. */
    var counted: set<Commit>
    /** -1: one interesting parent, not yet known; -2: several, not yet known. */
    var weights: map<Commit, int>

    constructor (h: History, ghost rank: Commit -> nat, findAll: bool)
      ensures this.h == h && this.rank == rank && this.findAll == findAll && counted == {} && weights == map[]
    {
      this.h, this.rank, this.findAll, counted, weights := h, rank, findAll, {}, map[];
    }

    /** count_distance. */
    method CountDistance(c: Commit) returns (nr: nat)
      requires Acyclic(h, rank) && CountedBelow(h, rank, c, counted)
      modifies this`counted
      ensures counted == old(counted) + Reach(h, rank, c)
      ensures nr == |Changing(h, Reach(h, rank, c) - old(counted))|
      decreases rank(c), 1
    {
      hide Reach, Changing, CountedBelow, CountedSome;
      nr := 0;
      var entry := Some(c);
      ghost var target := |Changing(h, Reach(h, rank, c) - counted)|;
      while entry.Some?
        invariant entry.Some? ==> rank(entry.value) <= rank(c) && CountedBelow(h, rank, entry.value, counted)
        invariant entry.Some? ==> counted + Reach(h, rank, entry.value) == old(counted) + Reach(h, rank, c)
        invariant entry.None? ==> counted == old(counted) + Reach(h, rank, c)
        invariant nr + (if entry.Some? then |Changing(h, Reach(h, rank, entry.value) - counted)| else 0) == target
        decreases if entry.Some? then rank(entry.value) + 1 else 0
      {
        var commit := entry.value;
        if h.boring(commit) || commit in counted {
          NothingNew(h, rank, commit, counted);
          break;
        }
        ghost var before := counted;
        CountSelf(h, rank, commit, counted);
        if !h.same(commit) {
          nr := nr + 1;
        }
        counted := counted + {commit};
        var ps := h.parents(commit);
        if ps == [] {
          NoParent(h, rank, commit, before);
          entry := None;
        } else {
          var n := CountOthers(commit, before);
          nr := nr + n;
          LastParent(h, rank, commit, before, counted);
          entry := Some(ps[0]);
        }
      }
    }

    /** The inner loop of count_distance: all parents but the first. */
    method CountOthers(commit: Commit, ghost before: set<Commit>) returns (nr: nat)
      requires Acyclic(h, rank) && !h.boring(commit) && h.parents(commit) != []
      requires CountedBelow(h, rank, commit, before) && counted == before + {commit}
      modifies this`counted
      ensures CountedSome(h, rank, commit, before, counted, h.parents(commit)[1..])
      ensures nr + |Changing(h, Reach(h, rank, commit) - counted)|
              == |Changing(h, Reach(h, rank, commit) - old(counted))|
      decreases rank(commit), 0
    {
      hide Reach, Changing, CountedBelow, CountedSome;
      nr := 0;
      var ps := h.parents(commit);
      ghost var target := |Changing(h, Reach(h, rank, commit) - counted)|;
      NoneCounted(h, rank, commit, before);
      assert ps[1..1] == [] && ps[1..|ps|] == ps[1..];
      for i := 1 to |ps|
        invariant CountedSome(h, rank, commit, before, counted, ps[1..i])
        invariant nr + |Changing(h, Reach(h, rank, commit) - counted)| == target
      {
        ghost var now := counted;
        BelowParent(h, rank, commit, before, now, ps[1..i], ps[i]);
        var n := CountDistance(ps[i]);
        CountPart(h, Reach(h, rank, commit), Reach(h, rank, ps[i]), now);
        MoreCounted(h, rank, commit, before, now, ps[1..i], ps[i]);
        assert ps[1..i + 1] == ps[1..i] + [ps[i]];
        nr := nr + n;
      }
    }

    /** The first loop of do_find_bisection. */
    method Initialize(list: seq<Commit>) returns (nKnown: nat)
      requires Acyclic(h, rank) && Closed(h, list)
      modifies this`weights
      ensures Weighed(h, rank, weights, list)
      ensures nKnown == |KnownChanging(h, weights, list)|
      ensures forall c | c in list && Interesting(h, h.parents(c)) > 1 :: weights[c] == -2
      ensures StrandsUnknown(h, weights, list)
    {
      hide WeightOk, KnownChanging, Unknown, Interesting;
      weights := map[];
      nKnown := 0;
      StartWeights(h, rank);
      for n := 0 to |list|
        invariant Weighed(h, rank, weights, list[..n])
        invariant nKnown == |KnownChanging(h, weights, list[..n])|
        invariant forall c | c in list[..n] && Interesting(h, h.parents(c)) > 1 :: weights[c] == -2
        invariant StrandsUnknown(h, weights, list[..n])
      {
        var c := list[n];
        assert c !in list[..n] && list[..n + 1] == list[..n] + [c];
        var k := Interesting(h, h.parents(c));
        var w := if k == 0 then (if h.same(c) then 0 else 1) else if k == 1 then -1 else -2;
        InitialWeight(h, rank, c);
        SetWeight(h, rank, weights, list[..n], c, w);
        weights := weights[c := w];
        if k == 0 && !h.same(c) {
          nKnown := nKnown + 1;
        }
      }
      assert list[..|list|] == list;
    }

    /** The second loop of do_find_bisection: count merges the usual way.  The counter goes
        up for every merge, tree-changing or not. */
    method CountMerges(list: seq<Commit>, nr: nat, n0: nat) returns (early: Option<Commit>, n: nat)
      requires Acyclic(h, rank) && Closed(h, list) && counted == {} && Weighed(h, rank, weights, list)
      requires n0 == |KnownChanging(h, weights, list)|
      requires StrandsUnknown(h, weights, list)
      requires forall c | c in list && Interesting(h, h.parents(c)) > 1 :: weights[c] == -2
      modifies this`weights, this`counted
      ensures counted == {} && Weighed(h, rank, weights, list)
      ensures StrandsUnknown(h, weights, list)
      ensures early.Some? ==>
                && !findAll
                && IsHalfway(h, rank, weights, list, nr, early.value)
                && Interesting(h, h.parents(early.value)) > 1
      ensures early.None? ==> forall c | c in list :: weights[c] != -2
      ensures early.None? ==> n == |KnownChanging(h, weights, list)| + |SameMerges(h, list)|
    {
      assert SameMerges(h, list[..0]) == {};
      assert MergesDone(h, weights, list, 0);
      hide WeightOk, KnownChanging, Interesting, Weight, Unknown, SameMerges, Acyclic, MergesDone, Closed, Weighed,
        StrandsUnknown;
      n := n0;
      for i := 0 to |list|
        invariant counted == {} && Weighed(h, rank, weights, list)
        invariant MergesDone(h, weights, list, i) && StrandsUnknown(h, weights, list)
        invariant n == |KnownChanging(h, weights, list)| + |SameMerges(h, list[..i])|
      {
        var c := list[i];
        SameMergeStep(h, list, i);
        MergesStep(h, weights, list, i);
        WeighedMember(h, rank, weights, list, c);
        if weights[c] == -2 {
          MergePlaceholder(h, rank, c);
          ghost var before := weights;
          var w := WeighMerge(list, c);
          MergeDone(h, before, list, i, w);
          StillUnknown(h, before, list, c, w);
          if !findAll && !h.same(c) && Halfway(w, nr) {
            return Some(c), n;
          }
          n := n + 1;
        }
      }
      early := None;
      assert list[..|list|] == list;
      AllMergesDone(h, weights, list);
    }

    /** The weight of a merge, counted from scratch. */
    method WeighMerge(list: seq<Commit>, c: Commit) returns (w: nat)
      requires Acyclic(h, rank) && Closed(h, list) && counted == {} && Weighed(h, rank, weights, list)
      requires c in list && weights[c] < 0
      modifies this`weights, this`counted
      ensures counted == {} && Weighed(h, rank, weights, list) && w == Weight(h, rank, c)
              && weights == old(weights)[c := w]
      ensures |KnownChanging(h, weights, list)| == old(|KnownChanging(h, weights, list)|) + if h.same(c) then 0 else 1
    {
      hide WeightOk, KnownChanging, Interesting, Reach, Changing, CountedBelow, Unknown;
      NothingCounted(h, rank, c);
      w := CountDistance(c);
      assert Reach(h, rank, c) - {} == Reach(h, rank, c);
      ReachInList(h, rank, list, c);
      ClearDistance(list);
      TrueWeight(h, rank, c);
      SetWeight(h, rank, weights, list, c, w);
      weights := weights[c := w];
    }

    /** clear_distance. */
    method ClearDistance(list: seq<Commit>)
      requires forall c | c in counted :: c in list
      modifies this`counted
      ensures counted == {}
    {
      for i := 0 to |list|
        invariant forall c | c in counted :: c in list[i..]
      {
        counted := counted - {list[i]};
      }
    }

    /** The parent whose weight fills in the weight of `c`, if it is known. */
    method KnownParent(c: Commit) returns (q: Option<Commit>)
      requires forall p | p in h.parents(c) :: h.boring(p) || p in weights
      ensures q.Some? ==> q.value in h.parents(c) && !h.boring(q.value) && weights[q.value] >= 0
      ensures q.None? ==> forall p | p in h.parents(c) :: h.boring(p) || weights[p] < 0
    {
      var ps := h.parents(c);
      for i := 0 to |ps|
        invariant forall j | 0 <= j < i :: h.boring(ps[j]) || weights[ps[j]] < 0
      {
        if !h.boring(ps[i]) && weights[ps[i]] >= 0 {
          return Some(ps[i]);
        }
      }
      return None;
    }

    /** The weight of a commit on a single strand, from its parent's. */
    method FillOne(list: seq<Commit>, c: Commit, p: Commit) returns (w: int)
      requires Acyclic(h, rank) && Closed(h, list) && Weighed(h, rank, weights, list) && c in list
      requires weights[c] < 0 && weights[c] != -2
      requires p in h.parents(c) && !h.boring(p) && p in weights && weights[p] >= 0
      modifies this`weights
      ensures weights == old(weights)[c := w] && w >= 0 && w == Weight(h, rank, c)
      ensures Weighed(h, rank, weights, list) && Unknown(weights, list) == old(Unknown(weights, list)) - {c}
      ensures |KnownChanging(h, weights, list)| == |old(KnownChanging(h, weights, list))| + if h.same(c) then 0 else 1
    {
      hide WeightOk, KnownChanging, Interesting, Weight, Unknown;
      Placeholder(h, rank, c, weights[c]);
      w := weights[p] + if h.same(c) then 0 else 1;
      Fill(h, rank, list, weights, c, p);
      SetWeight(h, rank, weights, list, c, w);
      weights := weights[c := w];
    }

    /** One pass of the third loop of do_find_bisection over the list: `next` is an unknown
        commit of least rank, which the pass is sure to fill in. */
    method FillPass(list: seq<Commit>, nr: nat, n0: nat, ghost next: Commit) returns (early: Option<Commit>, n: nat)
      requires Acyclic(h, rank) && Closed(h, list) && Weighed(h, rank, weights, list)
      requires (forall c | c in list :: weights[c] != -2) && n0 >= |KnownChanging(h, weights, list)|
      requires next in Unknown(weights, list) && forall c | c in Unknown(weights, list) :: rank(next) <= rank(c)
      modifies this`weights
      ensures Weighed(h, rank, weights, list)
      ensures early.Some? ==> !findAll && IsHalfway(h, rank, weights, list, nr, early.value)
      ensures (forall c | c in list :: weights[c] != -2) && n >= |KnownChanging(h, weights, list)|
      ensures n - |KnownChanging(h, weights, list)| == n0 - old(|KnownChanging(h, weights, list)|)
      ensures Unknown(weights, list) <= old(Unknown(weights, list))
      ensures early.None? ==> next !in Unknown(weights, list)
      ensures early.None? && ParentsFirst(h, list) ==> forall c | c in list :: weights[c] >= 0
    {
      hide WeightOk, KnownChanging, Interesting, Weight, Acyclic, ParentsFirst, Halfway;
      n := n0;
      ghost var q := FilledFrom(h, rank, weights, list, next);
      for i := 0 to |list|
        invariant Weighed(h, rank, weights, list)
        invariant (forall c | c in list :: weights[c] != -2) && n >= |KnownChanging(h, weights, list)|
        invariant n - |KnownChanging(h, weights, list)| == n0 - old(|KnownChanging(h, weights, list)|)
        invariant Unknown(weights, list) <= old(Unknown(weights, list))
        invariant next in list[..i] ==> next !in Unknown(weights, list)
        invariant q in list && weights[q] >= 0
        invariant ParentsFirst(h, list) ==> forall j | 0 <= j < i :: weights[list[j]] >= 0
      {
        var c := list[i];
        assert list[..i + 1] == list[..i] + [c];
        if weights[c] < 0 {
          var p := KnownParent(c);
          if p.Some? {
            var w := FillOne(list, c, p.value);
            if !h.same(c) {
              n := n + 1;
            }
            if !findAll && !h.same(c) && Halfway(w, nr) {
              return Some(c), n;
            }
          } else {
            Placeholder(h, rank, c, weights[c]);
            if ParentsFirst(h, list) { FilledBefore(h, list, weights, i); }
          }
        }
      }
      early := None;
      assert list[..|list|] == list;
    }

    /** The third loop of do_find_bisection: fill in the single strands until as many
        commits are counted as change the tree. */
    method FillIn(list: seq<Commit>, nr: nat, n0: nat) returns (early: Option<Commit>, n: nat)
      requires Acyclic(h, rank) && Closed(h, list) && Weighed(h, rank, weights, list)
      requires nr == |Changing(h, Elements(list))|
      requires (forall c | c in list :: weights[c] != -2) && n0 >= |KnownChanging(h, weights, list)|
      modifies this`weights
      ensures Weighed(h, rank, weights, list)
      ensures early.Some? ==> !findAll && IsHalfway(h, rank, weights, list, nr, early.value)
      ensures early.None? ==> nr <= |KnownChanging(h, weights, list)| + n0 - old(|KnownChanging(h, weights, list)|)
      ensures early.None? ==> forall c | c in list :: weights[c] != -2
      ensures n0 >= nr ==> early.None? && weights == old(weights)
      ensures n0 < nr && early.None? && ParentsFirst(h, list) ==> forall c | c in list :: weights[c] >= 0
    {
      hide WeightOk, Interesting, Weight;
      n, early := n0, None;
      while n < nr
        invariant early.None? && Weighed(h, rank, weights, list)
        invariant (forall c | c in list :: weights[c] != -2) && n >= |KnownChanging(h, weights, list)|
        invariant n - |KnownChanging(h, weights, list)| == n0 - old(|KnownChanging(h, weights, list)|)
        invariant n0 >= nr ==> weights == old(weights)
        invariant n == n0 || (ParentsFirst(h, list) ==> forall c | c in list :: weights[c] >= 0)
        decreases Unknown(weights, list)
      {
        ghost var next := LeastUnknown(h, rank, weights, list, nr);
        early, n := FillPass(list, nr, n, next);
        if early.Some? {
          return;
        }
      }
    }

    /** best_bisection: the first tree-changing commit with the greatest distance from both
        ends, or the head of the list when there is none. */
    method Best(list: seq<Commit>, nr: int) returns (best: Option<Commit>)
      requires forall c | c in list :: c in weights
      ensures best.None? <==> list == []
      ensures best.Some? ==> best.value in list
      ensures forall c | c in list && !h.same(c) && Distance(weights[c], nr) >= 0 ::
                !h.same(best.value) && Distance(weights[c], nr) <= Distance(weights[best.value], nr)
    {
      if list == [] {
        return None;
      }
      var bestDistance := -1;
      best := Some(list[0]);
      for i := 0 to |list|
        invariant best.Some? && best.value in list
        invariant bestDistance >= -1
        invariant bestDistance >= 0 ==> !h.same(best.value) && bestDistance == Distance(weights[best.value], nr)
        invariant forall j | 0 <= j < i && !h.same(list[j]) :: Distance(weights[list[j]], nr) <= bestDistance
      {
        var c := list[i];
        if !h.same(c) {
          var distance := weights[c];
          if nr - distance < distance {
            distance := nr - distance;
          }
          if distance > bestDistance {
            best, bestDistance := Some(c), distance;
          }
        }
      }
      forall c | c in list && !h.same(c) && Distance(weights[c], nr) >= 0
        ensures !h.same(best.value) && Distance(weights[c], nr) <= Distance(weights[best.value], nr)
      {
        var j :| 0 <= j < |list| && list[j] == c;
      }
    }

    /** best_bisection_sorted: all tree-changing commits, the best first; the head of the list
        when there is none. */
    method BestSorted(list: seq<Commit>, nr: int) returns (ranked: seq<Commit>)
      requires forall c | c in list :: c in weights
      ensures IsRanking(h, weights, list, nr, ranked)
    {
      var commits: seq<Commit> := [];
      assert ChangingOnes(h, list[..0]) == [];
      for i := 0 to |list|
        invariant commits == ChangingOnes(h, list[..i])
      {
        assert list[..i + 1][..i] == list[..i];
        if !h.same(list[i]) {
          commits := commits + [list[i]];
        }
      }
      assert list[..|list|] == list;
      ChangingMembers(h, list);
      SortDistancesSorts(weights, commits, nr);
      ranked := SortDistances(weights, commits, nr);
      if commits == [] && list != [] {
        ranked := [list[0]];
      }
    }

    /** do_find_bisection.  `early` tells that the search stopped at a halfway commit.
        Otherwise the result is the best of the commits whose weight is known.  The counter
        also counts TREESAME merges, so the loop that fills in single strands is left out
        when there are as many of those as strands, and may end early when there are any. */
    method DoFind(list: seq<Commit>, nr: nat) returns (best: Option<Commit>, ranked: seq<Commit>, ghost early: bool)
      requires Acyclic(h, rank) && Closed(h, list) && counted == {} && nr == |Changing(h, Elements(list))|
      modifies this
      ensures Weighed(h, rank, weights, list)
      ensures best.None? <==> list == []
      ensures best.Some? ==> best.value in list
      ensures early ==> !findAll && best.Some? && IsHalfway(h, rank, weights, list, nr, best.value)
      ensures early ==> forall w: int :: Smaller(w, nr) <= Smaller(weights[best.value], nr) + nr / 2048
      ensures findAll ==> IsRanking(h, weights, list, nr, ranked)
      ensures early && Skips(h, list) ==> Interesting(h, h.parents(best.value)) > 1
      ensures !early ==> |Changing(h, Elements(list))| - |KnownChanging(h, weights, list)| <= |SameMerges(h, list)|
      ensures !early ==> forall c | c in list && !h.same(c) && weights[c] >= 0 :: IsBest(h, rank, weights, nr, best, c)
      ensures !early ==> forall c | c in list && Interesting(h, h.parents(c)) != 1 :: weights[c] >= 0
      ensures !early && Skips(h, list) ==> StrandsUnknown(h, weights, list)
      ensures !early && ParentsFirst(h, list) ==> (AllKnown(h, weights, list) <==> !Skips(h, list))
      ensures !early && (SameMerges(h, list) == {} || Strands(h, list) == {}) ==> AllKnown(h, weights, list)
    {
      hide WeightOk, Interesting, Weight, KnownChanging, Unknown, Changing, SameMerges, Strands, StrandsUnknown,
        ParentsFirst;
      ranked := [];
      var n := Initialize(list);
      best, n := CountMerges(list, nr, n);
      early := best.Some?;
      if best.Some? {
        HalfwayIsNear(h, rank, weights, list, nr, best.value);
        return;
      }
      CountStrands(h, rank, weights, list);
      best, n := FillIn(list, nr, n);
      early := best.Some?;
      if best.Some? {
        HalfwayIsNear(h, rank, weights, list, nr, best.value);
        return;
      }
      if nr <= |KnownChanging(h, weights, list)| {
        CountedAll(h, weights, list, nr);
      }
      RestKnown(h, rank, weights, list);
      if findAll {
        ranked := BestSorted(list, nr);
        best := if ranked == [] then None else Some(ranked[0]);
        FirstIsBest(h, weights, list, nr, ranked);
      } else {
        best := Best(list, nr);
      }
      forall c | c in list && !h.same(c) && weights[c] >= 0 ensures IsBest(h, rank, weights, nr, best, c) {
        BestIsBest(h, rank, weights, list, nr, best, c);
      }
    }

    /** find_bisection: the commit to try, how many tree-changing commits it reaches, and how
        many there are.  If it was found on the way, no division is better by more than 1 in
        2048.  Otherwise no tree-changing commit divides the history more evenly, except perhaps
        one on a single strand; those count as well if the strands are filled in. */
    method Find(commitList: seq<Commit>)
      returns (best: Option<Commit>, ranked: seq<Commit>, reaches: int, all: nat, ghost early: bool)
      requires Acyclic(h, rank) && counted == {}
      requires Closed(h, Kept(h, commitList))
      modifies this
      ensures IsFound(h, rank, Kept(h, commitList), best, reaches, all, early)
      ensures findAll ==> !early && IsRanking(h, weights, Reversed(Kept(h, commitList)), all, ranked)
    {
      hide Changing, Weight, Weighed, Acyclic, SameMerges, Strands, ParentsFirst, ChildrenFirst, Interesting,
        StrandsUnknown;
      var list: seq<Commit> := [];
      all := 0;
      KeptNothing(h);
      for i := 0 to |commitList|
        invariant list == Reversed(Kept(h, commitList[..i]))
        invariant all == |Changing(h, Elements(Kept(h, commitList[..i])))|
        modifies {}
      {
        var c := commitList[i];
        KeptStep(h, commitList, i);
        if !h.boring(c) {
          if !h.same(c) {
            all := all + 1;
          }
          list := [c] + list;
        }
      }
      assert commitList[..|commitList|] == commitList;
      ReversedClosed(h, Kept(h, commitList));
      ReversedFilled(h, Kept(h, commitList));
      best, ranked, early := DoFind(list, all);
      reaches := 0;
      if best.Some? {
        WeighedMember(h, rank, weights, list, best.value);
        reaches := weights[best.value];
      }
      if !early {
        forall c | c in list && !h.same(c) && (Interesting(h, h.parents(c)) != 1 || Filled(h, Kept(h, commitList)))
          ensures IsBest(h, rank, weights, all, best, c)
                  && (Skips(h, list) ==> Interesting(h, h.parents(best.value)) != 1)
        {
          NotAStrand(h, weights, list, best.value);
        }
      }
    }
  }

  // ---- ranking

  /** The tree-changing commits of a list, in order. */
  function ChangingOnes(h: History, list: seq<Commit>): seq<Commit> {
    if list == [] then []
    else
      var n := |list| - 1;
      ChangingOnes(h, list[..n]) + if h.same(list[n]) then [] else [list[n]]
  }

  lemma {:induction false} ChangingMembers(h: History, list: seq<Commit>)
    ensures forall c :: c in ChangingOnes(h, list) <==> c in list && !h.same(c)
  {
    if list != [] {
      var n := |list| - 1;
      ChangingMembers(h, list[..n]);
      assert list == list[..n] + [list[n]];
    }
  }

  /** compare_commit_dist: by falling distance, then by object id, here the commit itself. */
  predicate RankedBefore(weights: Weights, c: Commit, d: Commit, nr: int)
    requires c in weights && d in weights
  {
    Distance(weights[c], nr) > Distance(weights[d], nr)
      || (Distance(weights[c], nr) == Distance(weights[d], nr) && c <= d)
  }

  predicate AllWeighed(weights: Weights, commits: seq<Commit>) {
    forall c | c in commits :: c in weights
  }

  function InsertRanked(weights: Weights, c: Commit, ranked: seq<Commit>, nr: int): (r: seq<Commit>)
    requires c in weights && AllWeighed(weights, ranked)
    ensures AllWeighed(weights, r)
  {
    if ranked == [] || RankedBefore(weights, c, ranked[0], nr) then [c] + ranked
    else [ranked[0]] + InsertRanked(weights, c, ranked[1..], nr)
  }

  function SortDistances(weights: Weights, commits: seq<Commit>, nr: int): (r: seq<Commit>)
    requires AllWeighed(weights, commits)
    ensures AllWeighed(weights, r)
  {
    if commits == [] then [] else InsertRanked(weights, commits[0], SortDistances(weights, commits[1..], nr), nr)
  }

  ghost predicate InRank(weights: Weights, r: seq<Commit>, nr: int)
    requires AllWeighed(weights, r)
  {
    forall i, j | 0 <= i < j < |r| :: RankedBefore(weights, r[i], r[j], nr)
  }

  lemma {:induction false} InsertRanks(weights: Weights, c: Commit, ranked: seq<Commit>, nr: int)
    requires c in weights && AllWeighed(weights, ranked) && InRank(weights, ranked, nr)
    ensures InRank(weights, InsertRanked(weights, c, ranked, nr), nr)
    ensures multiset(InsertRanked(weights, c, ranked, nr)) == multiset{c} + multiset(ranked)
  {
    if ranked == [] {
      RankFirst(weights, c, ranked, nr);
    } else {
      var first, tail := ranked[0], ranked[1..];
      assert ranked == [first] + tail;
      if RankedBefore(weights, c, first, nr) {
        RankFirst(weights, c, ranked, nr);
      } else {
        InsertRanks(weights, c, tail, nr);
        var rest := InsertRanked(weights, c, tail, nr);
        assert InsertRanked(weights, c, ranked, nr) == [first] + rest;
        hide InsertRanked;
        RankRest(weights, first, c, tail, rest, nr);
        RankFirst(weights, first, rest, nr);
      }
    }
  }

  lemma RankFirst(weights: Weights, c: Commit, ranked: seq<Commit>, nr: int)
    requires c in weights && AllWeighed(weights, ranked) && InRank(weights, ranked, nr)
    requires ranked != [] ==> RankedBefore(weights, c, ranked[0], nr)
    ensures AllWeighed(weights, [c] + ranked) && InRank(weights, [c] + ranked, nr)
  {}

  lemma RankRest(weights: Weights, first: Commit, c: Commit, tail: seq<Commit>, rest: seq<Commit>, nr: int)
    requires first in weights && c in weights && AllWeighed(weights, tail) && AllWeighed(weights, rest)
    requires InRank(weights, [first] + tail, nr) && !RankedBefore(weights, c, first, nr)
    requires multiset(rest) == multiset{c} + multiset(tail)
    ensures rest != [] ==> RankedBefore(weights, first, rest[0], nr)
  {
    if rest != [] {
      assert rest[0] in multiset(rest);
      if rest[0] != c {
        var j :| 0 <= j < |tail| && tail[j] == rest[0];
        var all := [first] + tail;
        assert all[0] == first && all[j + 1] == tail[j];
        assert RankedBefore(weights, all[0], all[j + 1], nr);
      }
    }
  }

  lemma {:induction false} SortDistancesSorts(weights: Weights, commits: seq<Commit>, nr: int)
    requires AllWeighed(weights, commits)
    ensures InRank(weights, SortDistances(weights, commits, nr), nr)
    ensures multiset(SortDistances(weights, commits, nr)) == multiset(commits)
  {
    if commits != [] {
      assert commits == [commits[0]] + commits[1..];
      SortDistancesSorts(weights, commits[1..], nr);
      InsertRanks(weights, commits[0], SortDistances(weights, commits[1..], nr), nr);
    }
  }

  /** All tree-changing commits, each as often as in the list, the best first. */
  ghost predicate IsRanking(h: History, weights: Weights, list: seq<Commit>, nr: int, ranked: seq<Commit>) {
    if ChangingOnes(h, list) == [] then ranked == list[..if list == [] then 0 else 1]
    else
      multiset(ranked) == multiset(ChangingOnes(h, list)) && AllWeighed(weights, ranked) && InRank(weights, ranked, nr)
  }

  lemma FirstIsBest(h: History, weights: Weights, list: seq<Commit>, nr: int, ranked: seq<Commit>)
    requires AllWeighed(weights, list) && IsRanking(h, weights, list, nr, ranked)
    ensures ranked == [] <==> list == []
    ensures ranked != [] ==> ranked[0] in list
    ensures forall c | c in list && !h.same(c) ::
              ranked != [] && !h.same(ranked[0]) && Distance(weights[c], nr) <= Distance(weights[ranked[0]], nr)
  {
    var ones := ChangingOnes(h, list);
    ChangingMembers(h, list);
    if ones != [] {
      assert ones[0] in multiset(ones);
      assert |multiset(ranked)| == |multiset(ones)|;
      assert ranked[0] in multiset(ranked);
      assert ranked[0] in ones;
      forall c | c in list && !h.same(c) ensures Distance(weights[c], nr) <= Distance(weights[ranked[0]], nr) {
        assert c in multiset(ranked);
        var j :| 0 <= j < |ranked| && ranked[j] == c;
      }
    }
  }

  lemma HalfwayIsNear(h: History, rank: Commit -> nat, weights: Weights, list: seq<Commit>, nr: nat, c: Commit)
    requires Acyclic(h, rank) && IsHalfway(h, rank, weights, list, nr, c)
    ensures c in weights && forall w: int :: Smaller(w, nr) <= Smaller(weights[c], nr) + nr / 2048
  {
    hide Smaller, Weight, Acyclic;
    assert Halfway(weights[c], nr);
    hide Halfway;
    forall w: int ensures Smaller(w, nr) <= Smaller(weights[c], nr) + nr / 2048 { NearlyBest(weights[c], nr, w); }
  }

  /** What find_bisection promises for a list of interesting commits. */
  ghost predicate IsFound(h: History, rank: Commit -> nat, list: seq<Commit>, best: Option<Commit>, reaches: int,
                          all: nat, early: bool)
    requires Acyclic(h, rank)
  {
    && all == |Changing(h, Elements(list))|
    && (best.None? <==> list == [])
    && (best.Some? ==> best.value in list)
    && (early ==> best.Some? && !h.same(best.value) && reaches == Weight(h, rank, best.value))
    && (early ==> forall c | c in list && !h.same(c) ::
          Smaller(Weight(h, rank, c), all) <= Smaller(reaches, all) + all / 2048)
    && (early && Skips(h, list) ==> Interesting(h, h.parents(best.value)) > 1)
    && (!early ==> forall c | c in list && !h.same(c) && (Interesting(h, h.parents(c)) != 1 || Filled(h, list)) ::
          && !h.same(best.value) && reaches == Weight(h, rank, best.value)
          && (Skips(h, list) ==> Interesting(h, h.parents(best.value)) != 1)
          && Smaller(Weight(h, rank, c), all) <= Smaller(reaches, all))
  }

  /** The interesting commits of a list, in order. */
  function Kept(h: History, list: seq<Commit>): seq<Commit> {
    if list == [] then []
    else
      var n := |list| - 1;
      Kept(h, list[..n]) + if h.boring(list[n]) then [] else [list[n]]
  }

  function Reversed(list: seq<Commit>): seq<Commit> {
    seq(|list|, i requires 0 <= i < |list| => list[|list| - 1 - i])
  }

  lemma {:induction false} KeptPrefix(h: History, list: seq<Commit>, i: nat)
    requires i <= |list|
    ensures Kept(h, list[..i]) <= Kept(h, list)
    decreases |list|
  {
    if i < |list| {
      KeptPrefix(h, list[..|list| - 1], i);
      assert list[..|list| - 1][..i] == list[..i];
    } else {
      assert list[..i] == list;
    }
  }

  lemma KeptNothing(h: History)
    ensures Reversed(Kept(h, [])) == [] && |Changing(h, Elements(Kept(h, [])))| == 0
  {
    assert Changing(h, Elements([])) == {};
  }

  lemma KeptStep(h: History, list: seq<Commit>, i: nat)
    requires i < |list| && Closed(h, Kept(h, list))
    ensures Reversed(Kept(h, list[..i + 1])) == (if h.boring(list[i]) then [] else [list[i]])
            + Reversed(Kept(h, list[..i]))
    ensures |Changing(h, Elements(Kept(h, list[..i + 1])))|
         == |Changing(h, Elements(Kept(h, list[..i])))| + if h.boring(list[i]) || h.same(list[i]) then 0 else 1
  {
    var c, before, after := list[i], Kept(h, list[..i]), Kept(h, list[..i + 1]);
    assert list[..i + 1][..i] == list[..i];
    KeptPrefix(h, list, i + 1);
    if !h.boring(c) {
      assert after == before + [c];
      hide Kept;
      KeptNew(before, c, Kept(h, list));
      ChangingMore(h, before, c);
      ReversedMore(before, c);
    } else {
      assert after == before;
    }
  }

  lemma KeptNew(before: seq<Commit>, c: Commit, all: seq<Commit>)
    requires before + [c] <= all && forall i, j | 0 <= i < j < |all| :: all[i] != all[j]
    ensures c !in before
  {
    assert all[|before|] == c;
    forall k | 0 <= k < |before| ensures before[k] != c {
      assert all[k] == before[k];
    }
  }

  lemma ReversedMore(before: seq<Commit>, c: Commit)
    ensures Reversed(before + [c]) == [c] + Reversed(before)
  {}

  lemma ChangingMore(h: History, before: seq<Commit>, c: Commit)
    requires c !in before
    ensures |Changing(h, Elements(before + [c]))| == |Changing(h, Elements(before))| + if h.same(c) then 0 else 1
  {
    assert Changing(h, Elements(before + [c])) == Changing(h, Elements(before)) + if h.same(c) then {} else {c};
  }

  lemma ReversedClosed(h: History, list: seq<Commit>)
    requires Closed(h, list)
    ensures Closed(h, Reversed(list)) && Elements(Reversed(list)) == Elements(list)
    ensures (forall c | c in list :: c in Reversed(list)) && (forall c | c in Reversed(list) :: c in list)
  {
    var r := Reversed(list);
    forall c | c in list ensures c in r {
      var i :| 0 <= i < |list| && list[i] == c;
      assert r[|list| - 1 - i] == c;
    }
  }

  lemma WeighedMember(h: History, rank: Commit -> nat, weights: Weights, list: seq<Commit>, c: Commit)
    requires Acyclic(h, rank) && Weighed(h, rank, weights, list) && c in list
    ensures c in weights && WeightOk(h, rank, c, weights[c])
  {}

  /** `best` changes the tree, its weight is right, and no other weight, all right as well,
      is further from both ends. */
  ghost predicate IsBest(h: History, rank: Commit -> nat, weights: Weights, nr: nat, best: Option<Commit>, c: Commit)
    requires Acyclic(h, rank)
  {
    && best.Some? && !h.same(best.value) && best.value in weights && weights[best.value] == Weight(h, rank, best.value)
    && Distance(Weight(h, rank, c), nr) <= Distance(Weight(h, rank, best.value), nr)
  }

  lemma BestIsBest(h: History, rank: Commit -> nat, weights: Weights, list: seq<Commit>, nr: nat, best: Option<Commit>,
                   c: Commit)
    requires Acyclic(h, rank) && Closed(h, list) && Weighed(h, rank, weights, list)
             && nr == |Changing(h, Elements(list))|
    requires best.Some? && best.value in list && c in list && !h.same(c) && weights[c] >= 0
    requires forall x | x in list && !h.same(x) && Distance(weights[x], nr) >= 0 ::
               !h.same(best.value) && Distance(weights[x], nr) <= Distance(weights[best.value], nr)
    ensures IsBest(h, rank, weights, nr, best, c)
  {
    assert WeightOk(h, rank, c, weights[c]);
    WeightBound(h, rank, list, c);
    assert WeightOk(h, rank, best.value, weights[best.value]);
  }

  lemma WeightBound(h: History, rank: Commit -> nat, list: seq<Commit>, c: Commit)
    requires Acyclic(h, rank) && Closed(h, list) && c in list
    ensures Weight(h, rank, c) <= |Changing(h, Elements(list))|
  {
    ReachInList(h, rank, list, c);
    SubsetSize(Changing(h, Reach(h, rank, c)), Changing(h, Elements(list)));
  }

  lemma SubsetSize(a: set<Commit>, b: set<Commit>)
    requires a <= b
    ensures |a| <= |b|
  {
    assert b == a + (b - a);
  }

  /** When fewer commits are counted than change the tree, some weight is unknown. */
  lemma LeastUnknown(h: History, rank: Commit -> nat, weights: Weights, list: seq<Commit>, nr: nat)
    returns (next: Commit)
    requires nr == |Changing(h, Elements(list))| && |KnownChanging(h, weights, list)| < nr
    requires forall c | c in list :: c in weights
    ensures next in Unknown(weights, list) && forall c | c in Unknown(weights, list) :: rank(next) <= rank(c)
  {
    var known, all := KnownChanging(h, weights, list), Changing(h, Elements(list));
    if all <= known { SubsetSize(all, known); }
    var c :| c in all && c !in known;
    next := LeastOf(rank, Unknown(weights, list), c);
  }

  lemma {:induction false} LeastOf(rank: Commit -> nat, s: set<Commit>, c: Commit) returns (least: Commit)
    requires c in s
    ensures least in s && forall x | x in s :: rank(least) <= rank(x)
    decreases rank(c)
  {
    if x :| x in s && rank(x) < rank(c) {
      least := LeastOf(rank, s, x);
    } else {
      least := c;
    }
  }

  /** Every tree-changing commit has its weight. */
  ghost predicate AllKnown(h: History, weights: Weights, list: seq<Commit>) {
    forall c | c in list && !h.same(c) :: c in weights && weights[c] >= 0
  }

  lemma CountedAll(h: History, weights: Weights, list: seq<Commit>, nr: nat)
    requires nr == |Changing(h, Elements(list))| && nr <= |KnownChanging(h, weights, list)|
    requires forall c | c in list :: c in weights
    ensures AllKnown(h, weights, list)
  {
    var known, all := KnownChanging(h, weights, list), Changing(h, Elements(list));
    assert known <= all;
    assert all == known + (all - known);
    forall c | c in list && !h.same(c) ensures weights[c] >= 0 {
      assert c in all;
      assert |all - known| == 0;
      assert c !in all - known;
    }
  }

  // ---- single strands

  /** Every interesting parent comes before its children. */
  ghost predicate ParentsFirst(h: History, list: seq<Commit>) {
    forall i, j | 0 <= i < |list| && 0 <= j < |list| && list[j] in h.parents(list[i]) :: j < i
  }

  ghost predicate ChildrenFirst(h: History, list: seq<Commit>) {
    forall i, j | 0 <= i < |list| && 0 <= j < |list| && list[j] in h.parents(list[i]) :: i < j
  }

  /** The tree-changing commits with one interesting parent. */
  ghost function Strands(h: History, list: seq<Commit>): set<Commit> {
    set c | c in list && !h.same(c) && Interesting(h, h.parents(c)) == 1
  }

  /** With as many TREESAME merges as strands the counter is complete before the strands are. */
  ghost predicate Skips(h: History, list: seq<Commit>) {
    Strands(h, list) != {} && |SameMerges(h, list)| >= |Strands(h, list)|
  }

  /** When strands are sure to be filled in, for a list that is still to be reversed. */
  ghost predicate Filled(h: History, list: seq<Commit>) {
    SameMerges(h, list) == {} || Strands(h, list) == {} || (ChildrenFirst(h, list) && !Skips(h, list))
  }

  ghost predicate StrandsUnknown(h: History, weights: Weights, list: seq<Commit>) {
    forall c | c in list && Interesting(h, h.parents(c)) == 1 :: c in weights && weights[c] == -1
  }

  lemma StillUnknown(h: History, weights: Weights, list: seq<Commit>, c: Commit, w: int)
    requires StrandsUnknown(h, weights, list) && Interesting(h, h.parents(c)) > 1
    ensures StrandsUnknown(h, weights[c := w], list)
  {}

  /** Before the strands are filled in, exactly they are missing. */
  lemma CountStrands(h: History, rank: Commit -> nat, weights: Weights, list: seq<Commit>)
    requires Acyclic(h, rank) && Weighed(h, rank, weights, list) && StrandsUnknown(h, weights, list)
    requires forall c | c in list :: weights[c] != -2
    ensures |Changing(h, Elements(list))| == |KnownChanging(h, weights, list)| + |Strands(h, list)|
    ensures Strands(h, list) != {} ==> !AllKnown(h, weights, list)
    ensures Strands(h, list) == {} <==> |Strands(h, list)| == 0
  {
    hide Interesting, Weight;
    var all, known, strands := Changing(h, Elements(list)), KnownChanging(h, weights, list), Strands(h, list);
    assert forall c | c in list :: WeightOk(h, rank, c, weights[c]);
    assert all == known + strands && known !! strands;
    if strands != {} {
      var c :| c in strands;
      assert c in list && !h.same(c) && weights[c] == -1;
    }
  }

  lemma FilledBefore(h: History, list: seq<Commit>, weights: Weights, i: nat)
    requires Closed(h, list) && ParentsFirst(h, list) && i < |list| && Interesting(h, h.parents(list[i])) == 1
    requires forall j | 0 <= j < |list| :: list[j] in weights
    requires forall j | 0 <= j < i :: weights[list[j]] >= 0
    ensures exists p :: p in h.parents(list[i]) && !h.boring(p) && p in weights && weights[p] >= 0
  {
    var q := SomeInteresting(h, h.parents(list[i]));
    assert list[i] in list;
    var j :| 0 <= j < |list| && list[j] == q;
  }

  lemma ReversedFilled(h: History, list: seq<Commit>)
    requires Closed(h, list)
    ensures SameMerges(h, Reversed(list)) == SameMerges(h, list) && Strands(h, Reversed(list)) == Strands(h, list)
    ensures ChildrenFirst(h, list) ==> ParentsFirst(h, Reversed(list))
  {
    hide Interesting;
    ReversedClosed(h, list);
    var r := Reversed(list);
    if ChildrenFirst(h, list) {
      forall i, j | 0 <= i < |r| && 0 <= j < |r| && r[j] in h.parents(r[i]) ensures j < i {
        assert list[|list| - 1 - j] in h.parents(list[|list| - 1 - i]);
      }
    }
  }

  /** Roots and merges have their weight in the end. */
  lemma RestKnown(h: History, rank: Commit -> nat, weights: Weights, list: seq<Commit>)
    requires Acyclic(h, rank) && Weighed(h, rank, weights, list) && forall c | c in list :: weights[c] != -2
    ensures forall c | c in list && Interesting(h, h.parents(c)) != 1 :: weights[c] >= 0
  {
    hide Weight, Interesting;
    forall c | c in list && Interesting(h, h.parents(c)) != 1 ensures weights[c] >= 0 {
      assert WeightOk(h, rank, c, weights[c]);
    }
  }

  lemma NotAStrand(h: History, weights: Weights, list: seq<Commit>, c: Commit)
    requires c in list && c in weights && weights[c] >= 0
    ensures StrandsUnknown(h, weights, list) ==> Interesting(h, h.parents(c)) != 1
  {}

  /** An unknown commit of least rank has a parent whose weight is known. */
  lemma FilledFrom(h: History, rank: Commit -> nat, weights: Weights, list: seq<Commit>, c: Commit) returns (q: Commit)
    requires Acyclic(h, rank) && Closed(h, list) && Weighed(h, rank, weights, list)
    requires (forall x | x in list :: weights[x] != -2)
    requires c in Unknown(weights, list) && forall x | x in Unknown(weights, list) :: rank(c) <= rank(x)
    ensures q in h.parents(c) && !h.boring(q) && q in list && weights[q] >= 0
  {
    assert WeightOk(h, rank, c, weights[c]);
    q := SomeInteresting(h, h.parents(c));
    assert q in list;
    assert q in Unknown(weights, list) <==> weights[q] < 0;
  }

  lemma Placeholder(h: History, rank: Commit -> nat, c: Commit, w: int)
    requires Acyclic(h, rank) && WeightOk(h, rank, c, w) && w < 0 && w != -2
    ensures Interesting(h, h.parents(c)) == 1
  {}

  lemma Fill(h: History, rank: Commit -> nat, list: seq<Commit>, weights: Weights, c: Commit, q: Commit)
    requires Acyclic(h, rank) && Closed(h, list) && Weighed(h, rank, weights, list) && c in list
    requires Interesting(h, h.parents(c)) == 1 && q in h.parents(c) && !h.boring(q) && q in weights && weights[q] >= 0
    ensures weights[q] + (if h.same(c) then 0 else 1) == Weight(h, rank, c)
    ensures WeightOk(h, rank, c, Weight(h, rank, c))
  {
    assert q in list && WeightOk(h, rank, q, weights[q]);
    StrandWeight(h, rank, c, q);
  }

  /** The TREESAME merges of a list. */
  ghost function SameMerges(h: History, list: seq<Commit>): set<Commit> {
    set c | c in list && h.same(c) && Interesting(h, h.parents(c)) > 1
  }

  lemma SameMergeStep(h: History, list: seq<Commit>, i: nat)
    requires Closed(h, list) && i < |list|
    ensures |SameMerges(h, list[..i + 1])|
         == |SameMerges(h, list[..i])| + if h.same(list[i]) && Interesting(h, h.parents(list[i])) > 1 then 1 else 0
  {
    var c := list[i];
    assert list[..i + 1] == list[..i] + [c] && c !in list[..i];
    hide Closed;
    SameMergeMore(h, list[..i], c);
    hide SameMerges, Interesting;
    var before, more := SameMerges(h, list[..i]), if h.same(c) && Interesting(h, h.parents(c)) > 1 then {c} else {};
    assert |before + more| == |before| + |more|;
  }

  lemma SameMergeMore(h: History, list: seq<Commit>, c: Commit)
    requires c !in list
    ensures c !in SameMerges(h, list)
    ensures SameMerges(h, list + [c])
         == SameMerges(h, list) + if h.same(c) && Interesting(h, h.parents(c)) > 1 then {c} else {}
  {
    hide Interesting;
  }

  /** The merges among the first `i` commits are weighed, the others are not. */
  ghost predicate MergesDone(h: History, weights: Weights, list: seq<Commit>, i: nat) {
    && (forall j | 0 <= j < |list| :: list[j] in weights)
    && (forall j | 0 <= j < i && j < |list| :: weights[list[j]] != -2)
    && (forall j | i <= j < |list| && Interesting(h, h.parents(list[j])) > 1 :: weights[list[j]] == -2)
  }

  lemma MergesStep(h: History, weights: Weights, list: seq<Commit>, i: nat)
    requires Closed(h, list) && MergesDone(h, weights, list, i) && i < |list|
    ensures weights[list[i]] != -2 ==> MergesDone(h, weights, list, i + 1) && Interesting(h, h.parents(list[i])) <= 1
  {}

  lemma MergeDone(h: History, weights: Weights, list: seq<Commit>, i: nat, w: nat)
    requires Closed(h, list) && MergesDone(h, weights, list, i) && i < |list|
    ensures MergesDone(h, weights[list[i] := w], list, i + 1)
  {}

  lemma AllMergesDone(h: History, weights: Weights, list: seq<Commit>)
    requires MergesDone(h, weights, list, |list|)
    ensures forall c | c in list :: c in weights && weights[c] != -2
  {}

  lemma NothingCounted(h: History, rank: Commit -> nat, c: Commit)
    requires Acyclic(h, rank)
    ensures CountedBelow(h, rank, c, {})
  {}

  lemma TrueWeight(h: History, rank: Commit -> nat, c: Commit)
    requires Acyclic(h, rank)
    ensures WeightOk(h, rank, c, Weight(h, rank, c))
  {}

  lemma MergePlaceholder(h: History, rank: Commit -> nat, c: Commit)
    requires Acyclic(h, rank) && WeightOk(h, rank, c, -2)
    ensures Interesting(h, h.parents(c)) > 1
  {}

  ghost predicate IsHalfway(h: History, rank: Commit -> nat, weights: Weights, list: seq<Commit>, nr: nat, c: Commit)
    requires Acyclic(h, rank)
  {
    c in list && !h.same(c) && c in weights && weights[c] == Weight(h, rank, c) && Halfway(weights[c], nr)
  }

  lemma StartWeights(h: History, rank: Commit -> nat)
    requires Acyclic(h, rank)
    ensures Weighed(h, rank, map[], []) && |KnownChanging(h, map[], [])| == 0
  {
    assert KnownChanging(h, map[], []) == {};
  }

  lemma InitialWeight(h: History, rank: Commit -> nat, c: Commit)
    requires Acyclic(h, rank) && !h.boring(c)
    ensures var k := Interesting(h, h.parents(c));
            WeightOk(h, rank, c, if k == 0 then (if h.same(c) then 0 else 1) else if k == 1 then -1 else -2)
  {
    if Interesting(h, h.parents(c)) == 0 { RootWeight(h, rank, c); }
  }

  lemma NoneCounted(h: History, rank: Commit -> nat, c: Commit, before: set<Commit>)
    requires Acyclic(h, rank)
    ensures CountedSome(h, rank, c, before, before + {c}, [])
  {}

  lemma MoreCounted(h: History, rank: Commit -> nat, c: Commit, before: set<Commit>, now: set<Commit>,
                    done: seq<Commit>, p: Commit)
    requires Acyclic(h, rank) && CountedSome(h, rank, c, before, now, done) && p in h.parents(c)
    ensures CountedSome(h, rank, c, before, now + Reach(h, rank, p), done + [p])
  {
    hide Reach;
    var now', done' := now + Reach(h, rank, p), done + [p];
    forall x | x in now' ensures x in before || x == c || exists q :: q in done' && x in Reach(h, rank, q) {
      if x in now {
        if x !in before && x != c {
          var q :| q in done && x in Reach(h, rank, q);
          assert q in done';
        }
      } else {
        assert p in done' && x in Reach(h, rank, p);
      }
    }
  }

  lemma NoParent(h: History, rank: Commit -> nat, c: Commit, before: set<Commit>)
    requires Acyclic(h, rank) && !h.boring(c) && h.parents(c) == []
    ensures Reach(h, rank, c) == {c} && |Changing(h, Reach(h, rank, c) - (before + {c}))| == 0
  {
    assert Reach(h, rank, c) - (before + {c}) == {};
    assert Changing(h, {}) == {};
  }

  lemma NothingNew(h: History, rank: Commit -> nat, c: Commit, counted: set<Commit>)
    requires Acyclic(h, rank) && CountedBelow(h, rank, c, counted) && (h.boring(c) || c in counted)
    ensures Reach(h, rank, c) <= counted && |Changing(h, Reach(h, rank, c) - counted)| == 0
  {
    assert Reach(h, rank, c) - counted == {};
    assert Changing(h, {}) == {};
  }

  lemma CountSelf(h: History, rank: Commit -> nat, c: Commit, counted: set<Commit>)
    requires Acyclic(h, rank) && !h.boring(c) && c !in counted
    ensures |Changing(h, Reach(h, rank, c) - counted)|
         == (if h.same(c) then 0 else 1) + |Changing(h, Reach(h, rank, c) - (counted + {c}))|
  {
    CountPart(h, Reach(h, rank, c), {c}, counted);
    assert Changing(h, {c} - counted) == if h.same(c) then {} else {c};
  }

  /** `now` is `before`, the commit itself and everything below the parents `done`. */
  ghost predicate CountedSome(h: History, rank: Commit -> nat, c: Commit, before: set<Commit>, now: set<Commit>,
                              done: seq<Commit>)
    requires Acyclic(h, rank)
  {
    && (forall p | p in done :: p in h.parents(c) && Reach(h, rank, p) <= now)
    && before + {c} <= now
    && (forall x | x in now :: x in before || x == c || exists p :: p in done && x in Reach(h, rank, p))
  }

  lemma BelowParent(h: History, rank: Commit -> nat, c: Commit, before: set<Commit>, now: set<Commit>,
                    done: seq<Commit>, p: Commit)
    requires Acyclic(h, rank) && !h.boring(c) && CountedBelow(h, rank, c, before)
             && CountedSome(h, rank, c, before, now, done)
    requires p in h.parents(c)
    ensures CountedBelow(h, rank, p, now) && Reach(h, rank, p) <= Reach(h, rank, c)
  {
    ReachParent(h, rank, c, p);
    forall x | x in now && x in Reach(h, rank, p) ensures Reach(h, rank, x) <= now {
      if x !in before {
        var q :| q in done && x in Reach(h, rank, q);
        ReachInside(h, rank, q, x);
      }
    }
  }

  lemma LastParent(h: History, rank: Commit -> nat, c: Commit, before: set<Commit>, now: set<Commit>)
    requires Acyclic(h, rank) && !h.boring(c) && h.parents(c) != []
    requires CountedBelow(h, rank, c, before) && CountedSome(h, rank, c, before, now, h.parents(c)[1..])
    ensures CountedBelow(h, rank, h.parents(c)[0], now)
    ensures Reach(h, rank, c) - now == Reach(h, rank, h.parents(c)[0]) - now
    ensures now + Reach(h, rank, h.parents(c)[0]) == before + Reach(h, rank, c)
  {
    var ps := h.parents(c);
    BelowParent(h, rank, c, before, now, ps[1..], ps[0]);
    ReachAnyIs(h, rank, ps, rank(c));
    forall x | x in Reach(h, rank, c) ensures x in now || x in Reach(h, rank, ps[0]) {
      if x != c {
        var p :| p in ps && x in Reach(h, rank, p);
        assert p == ps[0] || p in ps[1..];
      }
    }
    forall x | x in now ensures x in before + Reach(h, rank, c) {
      if x !in before && x != c {
        var p :| p in ps[1..] && x in Reach(h, rank, p);
        assert p in ps;
      }
    }
  }

  // ---- a history whose strands are skipped

  /** Two roots 0 and 1, TREESAME merges 2, 3 and 4 on top of them, and a strand 5, 6, 7. */
  function SkippedHistory(): History {
    History(c => if c == 2 then [0, 1]
                 else if c == 3 || c == 4 then [c - 1, 1]
                 else if 5 <= c <= 7 then [c - 1]
                 else [],
            c => false,
            c => 2 <= c <= 4)
  }

  function Itself(c: Commit): nat { c }

  /** The commits, newest first. */
  function SkippedList(): seq<Commit> {
    seq(8, i requires 0 <= i < 8 => 7 - i)
  }

  lemma {:induction false} NothingBoring(h: History, list: seq<Commit>)
    requires forall c | c in list :: !h.boring(c)
    ensures Kept(h, list) == list
  {
    if list != [] {
      NothingBoring(h, list[..|list| - 1]);
    }
  }

  lemma InterestingMore(h: History, p: Commit, ps: seq<Commit>)
    ensures Interesting(h, [p] + ps) == (if h.boring(p) then 0 else 1) + Interesting(h, ps)
  {
    assert ([p] + ps)[1..] == ps;
  }

  lemma SkippedParents(c: Commit)
    ensures var h := SkippedHistory();
            && Interesting(h, h.parents(c)) == (if 2 <= c <= 4 then 2 else if 5 <= c <= 7 then 1 else 0)
            && (h.same(c) <==> 2 <= c <= 4) && !h.boring(c) && forall p | p in h.parents(c) :: p < c
  {
    var h := SkippedHistory();
    if 2 <= c <= 4 {
      InterestingMore(h, 1, []);
      InterestingMore(h, h.parents(c)[0], [1] + []);
      assert h.parents(c) == [h.parents(c)[0]] + ([1] + []);
    } else if 5 <= c <= 7 {
      InterestingMore(h, c - 1, []);
      assert h.parents(c) == [c - 1] + [];
    }
  }

  lemma SkippedListed(c: Commit)
    ensures c in SkippedList() <==> c < 8
  {
    if c < 8 {
      assert SkippedList()[7 - c] == c;
    }
  }

  lemma SkippedShape()
    ensures var h, list := SkippedHistory(), SkippedList();
            Acyclic(h, Itself) && Closed(h, list) && ChildrenFirst(h, list) && Kept(h, list) == list
  {
    var h, list := SkippedHistory(), SkippedList();
    assert forall i | 0 <= i < |list| :: list[i] == 7 - i;
    hide SkippedHistory, SkippedList, Kept, Interesting;
    forall c: Commit
      ensures !h.boring(c) && (c in list <==> c < 8)
      ensures forall p | p in h.parents(c) :: p < c
    {
      SkippedParents(c);
      SkippedListed(c);
    }
    NothingBoring(h, list);
  }

  /** The counter is complete without the strand. */
  lemma SkippedSets()
    ensures |Changing(SkippedHistory(), Elements(SkippedList()))| == 5 && Skips(SkippedHistory(), SkippedList())
  {
    hide Interesting, SkippedList, SkippedHistory, Skips;
    var h, list := SkippedHistory(), SkippedList();
    forall c: Commit
      ensures Interesting(h, h.parents(c)) == if 2 <= c <= 4 then 2 else if 5 <= c <= 7 then 1 else 0
      ensures (c in list <==> c < 8) && (h.same(c) <==> 2 <= c <= 4)
    {
      SkippedParents(c);
      SkippedListed(c);
    }
    assert SameMerges(h, list) == {2, 3, 4};
    assert Strands(h, list) == {5, 6, 7};
    assert Changing(h, Elements(list)) == {0, 1, 5, 6, 7};
    SkipsBy(h, list, {2, 3, 4}, {5, 6, 7});
  }

  lemma SkipsBy(h: History, list: seq<Commit>, merges: set<Commit>, strands: set<Commit>)
    requires SameMerges(h, list) == merges && Strands(h, list) == strands && strands != {} && |merges| >= |strands|
    ensures Skips(h, list)
  {}

  lemma ReachMerge(h: History, rank: Commit -> nat, c: Commit, p: Commit, q: Commit)
    requires Acyclic(h, rank) && !h.boring(c) && h.parents(c) == [p, q]
    ensures Reach(h, rank, c) == {c} + Reach(h, rank, p) + Reach(h, rank, q)
  {
    ReachAnyIs(h, rank, [p, q], rank(c));
    assert p in [p, q] && q in [p, q];
  }

  lemma ReachRoot(h: History, rank: Commit -> nat, c: Commit)
    requires Acyclic(h, rank) && !h.boring(c) && h.parents(c) == []
    ensures Reach(h, rank, c) == {c}
  {}

  lemma SkippedWeights()
    requires Acyclic(SkippedHistory(), Itself)
    ensures Weight(SkippedHistory(), Itself, 0) == 1 && Weight(SkippedHistory(), Itself, 1) == 1
    ensures Weight(SkippedHistory(), Itself, 5) == 3
  {
    var h := SkippedHistory();
    SkippedParents(0);
    SkippedParents(1);
    SkippedParents(5);
    RootWeight(h, Itself, 0);
    RootWeight(h, Itself, 1);
    StrandWeight(h, Itself, 5, 4);
    hide Reach, Interesting;
    ReachRoot(h, Itself, 0);
    ReachRoot(h, Itself, 1);
    ReachMerge(h, Itself, 2, 0, 1);
    ReachMerge(h, Itself, 3, 2, 1);
    ReachMerge(h, Itself, 4, 3, 1);
    assert Changing(h, Reach(h, Itself, 4)) == {0, 1};
  }

  lemma SkippedRoot(best: Option<Commit>, reaches: int, all: nat, early: bool)
    requires Acyclic(SkippedHistory(), Itself)
    requires IsFound(SkippedHistory(), Itself, SkippedList(), best, reaches, all, early)
    ensures best.Some? && all == 5 && reaches == 1
  {
    hide Weight, Changing, Interesting, Skips, Filled, SkippedList;
    SkippedSets();
    SkippedWeights();
    SkippedListed(0);
    SkippedParents(0);
    if best.Some? {
      SkippedListed(best.value);
      SkippedParents(best.value);
    }
  }

  /** On this history a root is returned, which splits the five tree-changing commits one to
      four, though commit 5 splits them three to two. */
  method SkippedStrand() returns (best: Option<Commit>, reaches: int, all: nat)
    ensures Acyclic(SkippedHistory(), Itself) && 5 in SkippedList() && !SkippedHistory().same(5)
    ensures best.Some? && all == 5 && Smaller(reaches, all) == 1
            && Smaller(Weight(SkippedHistory(), Itself, 5), all) == 2
  {
    hide Changing, Weight, Kept, Closed, IsFound, SkippedList;
    SkippedShape();
    SkippedWeights();
    SkippedListed(5);
    var bisection := new Bisection(SkippedHistory(), Itself, false);
    var ranked;
    ghost var early;
    best, ranked, reaches, all, early := bisection.Find(SkippedList());
    SkippedRoot(best, reaches, all, early);
  }
}
