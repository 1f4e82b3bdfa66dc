/** The scoreboard of blame.c and its main loop. */
module BlameBoard {
  import opened Wrappers
  import opened BlameEntries
  import opened BlameChunk
  import opened BlameIgnore
  import opened BlameHunks
  import opened BlameOrder
  import opened BlamePass
  import opened BlameMove

  /** What blame asks of the repository: the commits to pass blame to, the blob of an
      origin and its id, the origin of a file in another commit (in two passes: the same
      path, then, if wanted, renames), the diff, the guesses for ignored commits, the other
      files of a scapegoat to look for copies in, and an order on origins. */
  datatype Repo = Repo(
    scapegoats: Commit -> seq<Commit>,
    blob: Origin -> Blob,
    oid: Origin -> int,
    find: (Origin, Commit, int) -> Option<Origin>,
    renames: bool,
    diff: (Blob, Blob) -> seq<Hunk>,
    ignored: Commit -> bool,
    guess: (Origin, Origin, Hunk) -> seq<Tracker>,
    copies: (Origin, Commit, Option<Origin>) -> seq<Origin>,
    key: Origin -> int)

  /** Which moves and copies to look for, and where blame stops: at uninteresting commits and
      those too old, and after roots.  `marked` are the commits mark_parents_uninteresting
      reaches from one that has parents.  Outside reverse mode a commit without parents is one
      without scapegoats; `root` tells in reverse mode. */
  datatype Limits = Limits(
    search: Search,
    reverse: bool,
    showRoot: bool,
    tooOld: Commit -> bool,
    root: Commit -> bool,
    marked: Commit -> set<Commit>)

  /** Guessed lines are lines of the parent. */
  ghost predicate GuessesInside(repo: Repo) {
    forall p: Origin, t: Origin, h: Hunk, i: int | 0 <= i < |repo.guess(p, t, h)| && repo.guess(p, t, h)[i].isParent ::
      0 <= repo.guess(p, t, h)[i].s < |repo.blob(p)|
  }

  /** The history is acyclic (`rank` falls from a commit to those it passes blame to),
      ids determine blobs, diffs are diffs, and guesses are lines of the parent. */
  ghost predicate Sound(repo: Repo, rank: Commit -> nat) {
    && (forall c: Commit, p: Commit | p in repo.scapegoats(c) :: rank(p) < rank(c))
    && (forall o: Origin, p: Commit, pass: int :: repo.find(o, p, pass).Some? ==>
         repo.find(o, p, pass).value.commit == p)
    && (forall o1: Origin, o2: Origin | repo.oid(o1) == repo.oid(o2) :: repo.blob(o1) == repo.blob(o2))
    && (forall o: Origin :: |repo.blob(o)| <= INT_MAX)
    && (forall p: Blob, t: Blob :: IsDiff(p, t, repo.diff(p, t), 0, 0))
    && GuessesInside(repo)
    && (forall o: Origin, p: Commit, q: Option<Origin>, n: Origin | n in repo.copies(o, p, q) :: n.commit == p)
  }

  predicate IsRoot(repo: Repo, limits: Limits, c: Commit) {
    if limits.reverse then limits.root(c) else repo.scapegoats(c) == []
  }

  // ---- where blame stops

  /** A chain of commits, each marking the next when blame stopped there, that begins with one
      uninteresting from the start or too old. */
  ghost predicate Bars(limits: Limits, start: set<Commit>, stops: set<Commit>, p: seq<Commit>) {
    && p != [] && (p[0] in start || limits.tooOld(p[0]))
    && forall i | 0 <= i < |p| - 1 :: p[i] in stops && p[i + 1] in limits.marked(p[i])
  }

  ghost predicate Barred(limits: Limits, start: set<Commit>, stops: set<Commit>, c: Commit) {
    exists p :: Bars(limits, start, stops, p) && p[|p| - 1] == c
  }

  /** The commits that a stop at `c` marks. */
  function Marks(repo: Repo, limits: Limits, c: Commit): set<Commit> {
    if IsRoot(repo, limits, c) then {} else limits.marked(c)
  }

  /** A path of blame from `first`, along scapegoats, past no commit that is uninteresting from
      the start or too old. */
  ghost predicate Leads(repo: Repo, limits: Limits, start: set<Commit>, first: Commit, p: seq<Commit>) {
    && p != [] && p[0] == first
    && forall i | 0 <= i < |p| - 1 :: p[i + 1] in repo.scapegoats(p[i])
                                      && (limits.reverse || (p[i] !in start && !limits.tooOld(p[i])))
  }

  ghost predicate Reached(repo: Repo, limits: Limits, start: set<Commit>, first: Commit, c: Commit) {
    exists p :: Leads(repo, limits, start, first, p) && p[|p| - 1] == c
  }

  lemma BarredMore(limits: Limits, start: set<Commit>, stops: set<Commit>, more: set<Commit>, c: Commit)
    requires Barred(limits, start, stops, c) && stops <= more
    ensures Barred(limits, start, more, c)
  {
    var p :| Bars(limits, start, stops, p) && p[|p| - 1] == c;
    assert Bars(limits, start, more, p);
  }

  lemma BarredNext(limits: Limits, start: set<Commit>, stops: set<Commit>, c: Commit, m: Commit)
    requires Barred(limits, start, stops, c) && c in stops && m in limits.marked(c)
    ensures Barred(limits, start, stops, m)
  {
    var p :| Bars(limits, start, stops, p) && p[|p| - 1] == c;
    assert Bars(limits, start, stops, p + [m]) && (p + [m])[|p|] == m;
  }

  lemma BarredFirst(limits: Limits, start: set<Commit>, stops: set<Commit>, c: Commit)
    requires c in start || limits.tooOld(c)
    ensures Barred(limits, start, stops, c)
  {
    assert Bars(limits, start, stops, [c]) && [c][0] == c;
  }

  lemma ReachedNext(repo: Repo, limits: Limits, start: set<Commit>, first: Commit, c: Commit, p: Commit)
    requires Reached(repo, limits, start, first, c) && p in repo.scapegoats(c)
    requires limits.reverse || (c !in start && !limits.tooOld(c))
    ensures Reached(repo, limits, start, first, p)
  {
    var path :| Leads(repo, limits, start, first, path) && path[|path| - 1] == c;
    assert Leads(repo, limits, start, first, path + [p]) && (path + [p])[|path|] == p;
  }

  lemma ReachedFirst(repo: Repo, limits: Limits, start: set<Commit>, first: Commit)
    ensures Reached(repo, limits, start, first, first)
  {
    assert Leads(repo, limits, start, first, [first]) && [first][0] == first;
  }

  /** The entries an origin is suspected for. */
  datatype Slot = Slot(origin: Origin, suspects: seq<Entry>)

  // ---- counting lines

  ghost function Total(slots: seq<Slot>): multiset<int> {
    if slots == [] then multiset{} else Numbers(Expand(slots[0].suspects)) + Total(slots[1..])
  }

  ghost function Height(slot: Slot, rank: Commit -> nat): nat {
    |Expand(slot.suspects)| * (rank(slot.origin.commit) + 1)
  }

  ghost function Weight(slots: seq<Slot>, rank: Commit -> nat): nat {
    if slots == [] then 0 else Height(slots[0], rank) + Weight(slots[1..], rank)
  }

  lemma {:induction false} TotalJoin(a: seq<Slot>, b: seq<Slot>, rank: Commit -> nat)
    ensures Total(a + b) == Total(a) + Total(b)
    ensures Weight(a + b, rank) == Weight(a, rank) + Weight(b, rank)
  {
    hide Expand, Numbers, Height;
    if a == [] {
      assert a + b == b;
    } else {
      assert (a + b)[1..] == a[1..] + b;
      TotalJoin(a[1..], b, rank);
    }
  }

  lemma TotalUpdate(slots: seq<Slot>, i: int, slot: Slot, rank: Commit -> nat)
    requires 0 <= i < |slots|
    ensures Total(slots[i := slot]) + Numbers(Expand(slots[i].suspects)) == Total(slots)
            + Numbers(Expand(slot.suspects))
    ensures Weight(slots[i := slot], rank) + Height(slots[i], rank) == Weight(slots, rank) + Height(slot, rank)
  {
    hide Expand, Numbers, Height;
    var a, b := slots[..i], slots[i + 1..];
    assert slots == a + ([slots[i]] + b) && slots[i := slot] == a + ([slot] + b);
    TotalJoin(a, [slots[i]] + b, rank);
    TotalJoin(a, [slot] + b, rank);
    TotalJoin([slots[i]], b, rank);
    TotalJoin([slot], b, rank);
    TotalOne(slots[i], rank);
    TotalOne(slot, rank);
  }

  lemma TotalOne(slot: Slot, rank: Commit -> nat)
    ensures Total([slot]) == Numbers(Expand(slot.suspects)) && Weight([slot], rank) == Height(slot, rank)
  {
    assert [slot][1..] == [];
  }

  // ---- the state

  /** An origin's entries are true claims about its own blob. */
  ghost predicate SlotTrue(repo: Repo, final: Blob, slot: Slot) {
    Proper(slot.suspects) && AllTrue(final, repo.blob(slot.origin), slot.origin, Expand(slot.suspects))
  }

  ghost predicate SlotOk(repo: Repo, final: Blob, slot: Slot) {
    SlotTrue(repo, final, slot) && Sorted(slot.suspects)
  }

  ghost function Hunks(repo: Repo, t: Origin, o: Origin): seq<Hunk> { repo.diff(repo.blob(o), repo.blob(t)) }

  /** Line `s` of `t` lies inside a hunk of the diff from `o` to `t`. */
  ghost predicate ChangedLine(repo: Repo, t: Origin, o: Origin, s: int) {
    ParentLine(Hunks(repo, t, o), 0, s).None?
  }

  /** A line differs from the file of the same name in every scapegoat that has one; if
      the commit is ignored and there is one, the line is marked. */
  ghost predicate GuiltyLine(repo: Repo, c: Claim) {
    forall p | p in repo.scapegoats(c.suspect.commit) && repo.find(c.suspect, p, 0).Some? ::
      && ChangedLine(repo, c.suspect, repo.find(c.suspect, p, 0).value, c.s)
      && (repo.ignored(c.suspect.commit) ==> c.unblamable)
  }

  ghost predicate Guilty(repo: Repo, cs: seq<Claim>) {
    forall c | c in cs :: GuiltyLine(repo, c)
  }

  /** Assigned lines are true, in a commit that was seen, and guilty unless it is excused. */
  ghost predicate EntOk(repo: Repo, final: Blob, ent: seq<Entry>, excused: set<Commit>, seen: set<Commit>) {
    Proper(ent) && forall c | c in Expand(ent) ::
      && True(final, repo.blob(c.suspect), c) && c.suspect.commit in seen
      && (c.suspect.commit in excused || GuiltyLine(repo, c))
  }

  ghost predicate AllSeen(slots: seq<Slot>, seen: set<Commit>) {
    forall i | 0 <= i < |slots| :: slots[i].origin.commit in seen
  }

  predicate Unique(slots: seq<Slot>) {
    forall i, j | 0 <= i < j < |slots| :: slots[i].origin != slots[j].origin
  }

  /** Every commit with suspects is queued, except perhaps the one being processed. */
  ghost predicate Queued(slots: seq<Slot>, commits: seq<Commit>, current: Option<Commit>) {
    forall i | 0 <= i < |slots| && slots[i].suspects != [] ::
      slots[i].origin.commit in commits || current == Some(slots[i].origin.commit)
  }

  /** All slots are right; the list of slot `k` need not be sorted. */
  ghost predicate AllOk(repo: Repo, final: Blob, slots: seq<Slot>, k: int) {
    && Unique(slots)
    && forall i | 0 <= i < |slots| :: SlotTrue(repo, final, slots[i]) && (i != k ==> Sorted(slots[i].suspects))
  }

  /** A sorted list merged into the suspects of its origin. */
  lemma MergeOk(repo: Repo, final: Blob, slot: Slot, list: seq<Entry>)
    requires SlotOk(repo, final, slot) && SlotOk(repo, final, Slot(slot.origin, list))
    ensures SlotOk(repo, final, Slot(slot.origin, Merged(slot.suspects, list)))
    ensures Numbers(Expand(Merged(slot.suspects, list))) == Numbers(Expand(slot.suspects)) + Numbers(Expand(list))
    ensures |Expand(Merged(slot.suspects, list))| == |Expand(slot.suspects)| + |Expand(list)|
  {
    var a, b := slot.suspects, list;
    MergedLines(a, b);
    SameLinesCount(Expand(Merged(a, b)), Expand(a) + Expand(b));
    NumbersJoin(Expand(a), Expand(b));
    MergeTrue(repo, final, slot, list);
  }

  lemma MergeTrue(repo: Repo, final: Blob, slot: Slot, list: seq<Entry>)
    requires SlotOk(repo, final, slot) && SlotOk(repo, final, Slot(slot.origin, list))
    ensures Sorted(Merged(slot.suspects, list))
    ensures AllTrue(final, repo.blob(slot.origin), slot.origin, Expand(Merged(slot.suspects, list)))
  {
    var a, b := slot.suspects, list;
    var lo1 := LowerBound(a);
    var lo2 := LowerBound(b);
    var lo := if lo1 < lo2 then lo1 else lo2;
    MergedSorted(a, b, lo);
    MergedLines(a, b);
    forall i | 0 <= i < |Expand(Merged(a, b))|
      ensures Expand(Merged(a, b))[i].suspect == slot.origin
              && True(final, repo.blob(slot.origin), Expand(Merged(a, b))[i])
    {
      var c := Expand(Merged(a, b))[i];
      assert c in multiset(Expand(Merged(a, b)));
      assert c in Expand(a) || c in Expand(b);
    }
  }

  /** Some origin in the commit has suspects. */
  method Busy(slots: seq<Slot>, commit: Commit) returns (busy: bool)
    ensures busy <==> exists m | 0 <= m < |slots| :: slots[m].origin.commit == commit && slots[m].suspects != []
  {
    for j := 0 to |slots|
      invariant forall m | 0 <= m < j :: !(slots[m].origin.commit == commit && slots[m].suspects != [])
    {
      if slots[j].origin.commit == commit && slots[j].suspects != [] {
        return true;
      }
    }
    return false;
  }

  lemma QueuedUpdate(slots: seq<Slot>, commits: seq<Commit>, current: Option<Commit>, i: int, slot: Slot,
                     commits': seq<Commit>)
    requires Queued(slots, commits, current) && 0 <= i < |slots| && slots[i].origin == slot.origin
    requires forall c | c in commits :: c in commits'
    requires slot.suspects == [] || slot.origin.commit in commits' || current == Some(slot.origin.commit)
    ensures Queued(slots[i := slot], commits', current)
  {}

  lemma AllOkUpdate(repo: Repo, final: Blob, slots: seq<Slot>, k: int, i: int, slot: Slot)
    requires AllOk(repo, final, slots, k) && 0 <= i < |slots| && slots[i].origin == slot.origin
    requires SlotTrue(repo, final, slot) && (i != k ==> Sorted(slot.suspects))
    ensures AllOk(repo, final, slots[i := slot], k)
  {}

  /** An origin, if there is one, has the same blob as one of those found. */
  ghost predicate Represented(repo: Repo, o: Option<Origin>, found: seq<Option<Origin>>) {
    o.Some? ==> exists i | 0 <= i < |found| :: found[i].Some? && repo.oid(found[i].value) == repo.oid(o.value)
  }

  lemma StillRepresented(repo: Repo, o: Option<Origin>, found: seq<Option<Origin>>, found': seq<Option<Origin>>)
    requires Represented(repo, o, found) && |found| == |found'|
    requires forall i | 0 <= i < |found| && found[i].Some? :: found'[i] == found[i]
    ensures Represented(repo, o, found')
  {
    if o.Some? {
      var i :| 0 <= i < |found| && found[i].Some? && repo.oid(found[i].value) == repo.oid(o.value);
      assert found'[i].Some?;
    }
  }

  class Scoreboard {
    const repo: Repo
    const limits: Limits
    const final: Blob
    ghost const rank: Commit -> nat
    ghost const first: Commit
    ghost const start: set<Commit>
    var slots: seq<Slot>
    var ent: seq<Entry>
    var commits: seq<Commit>
    var uninteresting: set<Commit>
    /** Commits blame stopped at, those barred by that or from the start, and those reached. */
    ghost var stops: set<Commit>
    ghost var barred: set<Commit>
    ghost var seen: set<Commit>

    /** blame_entry_prepend for each range of lines of the final image, all suspected to be
        lines of `o`, which is queued. */
    constructor (repo: Repo, limits: Limits, final: Blob, o: Origin, ranges: seq<(int, int)>,
                 uninteresting: set<Commit>, ghost rank: Commit -> nat)
      requires Sound(repo, rank) && repo.blob(o) == final
      requires forall i | 0 <= i < |ranges| :: 0 <= ranges[i].0 < ranges[i].1 <= |final|
      requires forall i, j | 0 <= i < j < |ranges| :: ranges[i].1 <= ranges[j].0
      ensures Ok(-1) && Queued(slots, commits, None) && Bounded()
      ensures this.repo == repo && this.limits == limits && this.final == final && ent == []
      ensures start == this.uninteresting == uninteresting && first == o.commit
      ensures forall n :: Covered()[n] == if InRanges(ranges, n) then 1 else 0
    {
      hide Sound, Expand, Numbers, Total, Height, Weight, InRanges;
      var suspects := [];
      StartNone(final, o);
      assert ranges[|ranges|..] == [];
      for i := |ranges| downto 0
        invariant Started(final, o, ranges[i..], suspects)
      {
        StartMore(final, o, ranges, i, suspects);
        suspects := [Entry(ranges[i].0, ranges[i].1 - ranges[i].0, o, ranges[i].0, false, false)] + suspects;
      }
      assert ranges[0..] == ranges;
      this.repo, this.limits, this.final, this.rank := repo, limits, final, rank;
      slots, ent, commits, this.uninteresting := [Slot(o, suspects)], [], [o.commit], uninteresting;
      first, start, stops, seen := o.commit, uninteresting, {}, {o.commit};
      barred := if limits.reverse then {} else uninteresting;
      new;
      forall c | c in barred ensures Barred(limits, start, stops, c) { BarredFirst(limits, start, stops, c); }
      ReachedFirst(repo, limits, start, first);
      TotalOne(Slot(o, suspects), rank);
      NoLines();
    }

    ghost predicate Ok(k: int)
      reads this
    {
      && Sound(repo, rank) && AllOk(repo, final, slots, k) && AllSeen(slots, seen)
      && EntOk(repo, final, ent, barred, seen)
    }

    /** The scapegoats of a commit may be seen. */
    ghost predicate Open(commit: Commit)
      reads this
    {
      forall p | p in repo.scapegoats(commit) :: p in seen
    }

    /** Which commits are barred, uninteresting or reached. */
    ghost predicate Bounded()
      reads this
    {
      && start <= uninteresting && (if limits.reverse then barred == {} else start <= barred)
      && (forall c | c in barred :: Barred(limits, start, stops, c))
      && (forall c | c in uninteresting :: c in start || c in barred || (IsRoot(repo, limits, c) && !limits.showRoot))
      && (forall c | c in seen :: Reached(repo, limits, start, first, c))
    }

    /** The final lines that some entry, pending or assigned, accounts for. */
    ghost function Covered(): multiset<int>
      reads this
    {
      Total(slots) + Numbers(Expand(ent))
    }

    /** get_origin: the slot of an origin, made when there is none. */
    method GetOrigin(o: Origin, ghost k: int) returns (i: nat)
      requires Ok(k) && k < |slots| && o.commit in seen
      modifies this`slots
      ensures Ok(k) && i < |slots| && slots[i].origin == o
      ensures old(slots) <= slots && forall j | |old(slots)| <= j < |slots| :: slots[j].suspects == []
      ensures Total(slots) == old(Total(slots)) && Weight(slots, rank) == old(Weight(slots, rank))
    {
      hide Expand, Sound, Numbers;
      for j := 0 to |slots|
        invariant slots == old(slots)
        invariant forall m | 0 <= m < j :: slots[m].origin != o
      {
        if slots[j].origin == o {
          return j;
        }
      }
      i := |slots|;
      EmptySlot(repo, final, o, rank);
      TotalJoin(slots, [Slot(o, [])], rank);
      slots := slots + [Slot(o, [])];
    }

    /** queue_blames: merge a sorted list into the suspects of an origin, and queue its
        commit if it had none. */
    method QueueBlames(o: Origin, list: seq<Entry>, ghost k: int, ghost current: Option<Commit>)
      requires Ok(k) && Queued(slots, commits, current) && SlotOk(repo, final, Slot(o, list))
      requires k < |slots| && (0 <= k ==> slots[k].origin != o) && o.commit in seen
      modifies this`slots, this`commits
      ensures Ok(k) && Queued(slots, commits, current)
      ensures Total(slots) == old(Total(slots)) + Numbers(Expand(list))
      ensures Weight(slots, rank) == old(Weight(slots, rank)) + Height(Slot(o, list), rank)
      ensures |old(slots)| <= |slots|
      ensures forall j | 0 <= j < |old(slots)| && old(slots)[j].origin != o :: slots[j] == old(slots)[j]
    {
      hide Expand, Sound, Numbers, Height, Merged, Weight, Total, AllTrue, Sorted, Proper, EntOk;
      var i := GetOrigin(o, k);
      EmptySlot(repo, final, o, rank);
      var busy := Busy(slots, o.commit);
      var merged := Merge(slots[i].suspects, list);
      MergeOk(repo, final, slots[i], list);
      HeightMerged(slots[i], list, rank);
      TotalUpdate(slots, i, Slot(o, merged), rank);
      Cancel(Total(slots[i := Slot(o, merged)]), Numbers(Expand(slots[i].suspects)),
             Total(slots) + Numbers(Expand(list)));
      var commits' := if busy then commits else commits + [o.commit];
      AllOkUpdate(repo, final, slots, k, i, Slot(o, merged));
      QueuedUpdate(slots, commits, current, i, Slot(o, merged), commits');
      slots, commits := slots[i := Slot(o, merged)], commits';
    }

    /** Move lines from slot `k` to an origin in a commit of lower rank. */
    method Transfer(k: nat, o: Origin, newdest: seq<Entry>, kept: seq<Entry>)
      requires Ok(k) && k < |slots| && Queued(slots, commits, Some(slots[k].origin.commit))
      requires SlotOk(repo, final, Slot(o, newdest)) && SlotTrue(repo, final, Slot(slots[k].origin, kept))
      requires o.commit in repo.scapegoats(slots[k].origin.commit) && Open(slots[k].origin.commit)
      requires Numbers(Expand(newdest)) + Numbers(Expand(kept)) == Numbers(Expand(slots[k].suspects))
      modifies this`slots, this`commits
      ensures Ok(k) && k < |slots| && slots[k] == Slot(old(slots[k].origin), kept)
      ensures Queued(slots, commits, Some(slots[k].origin.commit))
      ensures Covered() == old(Covered())
      ensures Weight(slots, rank) + |Expand(newdest)| <= old(Weight(slots, rank))
      ensures |Expand(newdest)| + |Expand(kept)| == |old(Expand(slots[k].suspects))|
    {
      hide Expand, Sound, Numbers, Height;
      ghost var slot := slots[k];
      LowerRank(repo, rank, slot.origin.commit, o.commit);
      NumbersCount(Expand(newdest));
      NumbersCount(Expand(kept));
      NumbersCount(Expand(slot.suspects));
      TotalUpdate(slots, k, Slot(slot.origin, kept), rank);
      AllOkUpdate(repo, final, slots, k, k, Slot(slot.origin, kept));
      QueuedUpdate(slots, commits, Some(slot.origin.commit), k, Slot(slot.origin, kept), commits);
      Cancel(Total(slots[k := Slot(slot.origin, kept)]) + Numbers(Expand(newdest)), Numbers(Expand(kept)),
             Total(slots));
      HeightMoves(slot, o, newdest, kept, rank);
      slots := slots[k := Slot(slots[k].origin, kept)];
      QueueBlames(o, newdest, k, Some(slot.origin.commit));
    }

    /** pass_blame_to_parent for one parent origin. */
    method PassOne(k: nat, o: Origin, ignoring: bool)
      requires Ok(k) && k < |slots| && Queued(slots, commits, Some(slots[k].origin.commit))
      requires ignoring ==> Grouped(Expand(slots[k].suspects), Hunks(repo, slots[k].origin, o))
      requires !ignoring ==> Sorted(slots[k].suspects)
      requires o.commit in repo.scapegoats(slots[k].origin.commit) && Open(slots[k].origin.commit)
      modifies this`slots, this`commits
      ensures Ok(k) && k < |slots| && slots[k].origin == old(slots[k].origin)
      ensures Queued(slots, commits, Some(slots[k].origin.commit))
      ensures Covered() == old(Covered())
      ensures |Expand(slots[k].suspects)| <= old(|Expand(slots[k].suspects)|)
      ensures Weight(slots, rank) + old(|Expand(slots[k].suspects)|) - |Expand(slots[k].suspects)|
              <= old(Weight(slots, rank))
      ensures !ignoring ==> Sorted(slots[k].suspects) && Parts(slots[k].suspects, old(slots[k].suspects))
      ensures !ignoring ==> InHunks(slots[k].suspects, Hunks(repo, slots[k].origin, o))
      ensures !ignoring ==> multiset(Expand(slots[k].suspects))
                            == multiset(Stayed(old(Expand(slots[k].suspects)), Hunks(repo, slots[k].origin, o), 0))
      ensures ignoring ==>
                && Among(Expand(slots[k].suspects), old(Expand(slots[k].suspects)))
                && Unblamable(Expand(slots[k].suspects))
    {
      hide Sound, AllOk, EntOk, SlotTrue, Expand, Numbers, PassLines, Total, Weight, Queued, Grouped, InHunks, Parts,
        Among, Unblamable, Passable, PlainInOrder, Sorted, Stayed, Ordered;
      var list, t := slots[k].suspects, slots[k].origin;
      var mode := if ignoring then Ignoring(h => repo.guess(o, t, h)) else Plain;
      var hunks := repo.diff(repo.blob(o), repo.blob(t));
      SlotOf(repo, final, slots, k);
      PassStart(repo, final, rank, slots[k], o, mode);
      var ok, newdest, kept := PassToParent(list, hunks, o, mode);
      PassFacts(repo, final, rank, slots[k], o, mode, newdest, kept);
      KeptFacts(repo, slots[k], o, mode, kept);
      Transfer(k, o, newdest, kept);
    }

    /** pass_whole_blame: the blobs are equal. */
    method PassWhole(k: nat, o: Origin)
      requires Ok(k) && k < |slots| && Queued(slots, commits, Some(slots[k].origin.commit))
      requires Sorted(slots[k].suspects)
      requires o.commit in repo.scapegoats(slots[k].origin.commit) && Open(slots[k].origin.commit)
      requires repo.oid(o) == repo.oid(slots[k].origin)
      modifies this`slots, this`commits
      ensures Ok(k) && k < |slots| && slots[k] == Slot(old(slots[k].origin), [])
      ensures Queued(slots, commits, Some(slots[k].origin.commit))
      ensures Covered() == old(Covered())
      ensures Weight(slots, rank) + old(|Expand(slots[k].suspects)|) <= old(Weight(slots, rank))
    {
      hide Expand, Numbers, Height, Weight, Total, MoveAll, True;
      var list, t := slots[k].suspects, slots[k].origin;
      NoLines();
      WholeFacts(repo, final, rank, Slot(t, list), o);
      EmptySlot(repo, final, t, rank);
      Transfer(k, o, MoveAll(list, o, 0), []);
    }

    /** The first half of pass_blame: look for the file in every scapegoat, first under its
        own name and then renamed.  Stops at one with the same blob. */
    method FindScapegoats(origin: Origin) returns (whole: Option<Origin>, found: seq<Option<Origin>>)
      requires Sound(repo, rank)
      ensures whole.Some? ==>
                repo.oid(whole.value) == repo.oid(origin) && whole.value.commit in repo.scapegoats(origin.commit)
      ensures |found| == |repo.scapegoats(origin.commit)|
      ensures forall i | 0 <= i < |found| && found[i].Some? ::
              found[i].value.commit == repo.scapegoats(origin.commit)[i]
      ensures whole.None? ==>
                forall i | 0 <= i < |found| ::
                       Represented(repo, repo.find(origin, repo.scapegoats(origin.commit)[i], 0), found)
    {
      var sg := repo.scapegoats(origin.commit);
      found := seq(|sg|, _ => None);
      for pass := 0 to if repo.renames then 2 else 1
        invariant |found| == |sg|
        invariant forall i | 0 <= i < |found| && found[i].Some? :: found[i].value.commit == sg[i]
        invariant pass == 0 ==> forall i | 0 <= i < |sg| :: found[i].None?
        invariant pass > 0 ==> forall i | 0 <= i < |sg| :: Represented(repo, repo.find(origin, sg[i], 0), found)
      {
        for i := 0 to |sg|
          invariant |found| == |sg|
          invariant forall j | 0 <= j < |found| && found[j].Some? :: found[j].value.commit == sg[j]
          invariant forall j | 0 <= j < |sg| && (j < i || pass > 0) ::
                    Represented(repo, repo.find(origin, sg[j], 0), found)
          invariant pass == 0 ==> forall j | i <= j < |sg| :: found[j].None?
        {
          ghost var before := found;
          if found[i].None? {
            var porigin := repo.find(origin, sg[i], pass);
            if porigin.Some? {
              if repo.oid(porigin.value) == repo.oid(origin) {
                assert sg[i] in sg;
                return porigin, found;
              }
              if forall j | 0 <= j < i :: found[j].Some? ==> repo.oid(found[j].value) != repo.oid(porigin.value) {
                found := found[i := porigin];
              }
            }
          }
          forall j | 0 <= j < |sg| && Represented(repo, repo.find(origin, sg[j], 0), before)
            ensures Represented(repo, repo.find(origin, sg[j], 0), found) {
            StillRepresented(repo, repo.find(origin, sg[j], 0), before, found);
          }
        }
      }
      whole := None;
    }

    /** The scapegoats found, in the order of the commits they are in. */
    ghost predicate FoundIn(origin: Origin, found: seq<Option<Origin>>) {
      && |found| == |repo.scapegoats(origin.commit)|
      && forall i | 0 <= i < |found| && found[i].Some? :: found[i].value.commit == repo.scapegoats(origin.commit)[i]
    }

    /** Plain passing to every scapegoat: what is left lies inside a hunk of every diff. */
    method PassPlainly(k: nat, found: seq<Option<Origin>>)
      requires Ok(k) && k < |slots| && Queued(slots, commits, Some(slots[k].origin.commit))
      requires Sorted(slots[k].suspects) && FoundIn(slots[k].origin, found) && Open(slots[k].origin.commit)
      modifies this`slots, this`commits
      ensures Ok(k) && k < |slots| && slots[k].origin == old(slots[k].origin) && Sorted(slots[k].suspects)
      ensures Queued(slots, commits, Some(slots[k].origin.commit)) && Covered() == old(Covered())
      ensures Weight(slots, rank) + old(|Expand(slots[k].suspects)|) - |Expand(slots[k].suspects)|
              <= old(Weight(slots, rank))
      ensures Inside(repo, slots[k], found, |found|)
    {
      hide Sound, AllOk, EntOk, SlotTrue, Expand, Numbers, PassLines, Total, Weight, Queued, Grouped, InHunks, Parts,
        Among, Unblamable, Passable, PlainInOrder, Sorted, Stayed, Ordered, Inside;
      var origin := slots[k].origin;
      InsideEmpty(repo, slots[k], found);
      for i := 0 to |found|
        invariant Ok(k) && k < |slots| && slots[k].origin == origin && Sorted(slots[k].suspects)
        invariant Queued(slots, commits, Some(origin.commit)) && Covered() == old(Covered())
        invariant Weight(slots, rank) + old(|Expand(slots[k].suspects)|) - |Expand(slots[k].suspects)|
                  <= old(Weight(slots, rank))
        invariant Inside(repo, slots[k], found, i)
      {
        ghost var before := slots[k];
        if found[i].Some? {
          assert found[i].value.commit in repo.scapegoats(origin.commit);
          PassOne(k, found[i].value, false);
          if slots[k].suspects == [] {
            InsideEmpty(repo, slots[k], found);
            return;
          }
        }
        InsideMore(repo, before, slots[k], found, i);
      }
    }

    /** Passing to every scapegoat of an ignored commit by guesses. */
    method PassGuessing(k: nat, found: seq<Option<Origin>>)
      requires Ok(k) && k < |slots| && Queued(slots, commits, Some(slots[k].origin.commit))
      requires FoundIn(slots[k].origin, found) && Settled(repo, slots[k], found) && Open(slots[k].origin.commit)
      modifies this`slots, this`commits
      ensures Ok(k) && k < |slots| && slots[k].origin == old(slots[k].origin)
      ensures Queued(slots, commits, Some(slots[k].origin.commit)) && Covered() == old(Covered())
      ensures Weight(slots, rank) + old(|Expand(slots[k].suspects)|) - |Expand(slots[k].suspects)|
              <= old(Weight(slots, rank))
      ensures Settled(repo, slots[k], found)
      ensures (exists j :: 0 <= j < |found| && found[j].Some?) ==> Unblamable(Expand(slots[k].suspects))
    {
      hide Sound, AllOk, EntOk, SlotTrue, Expand, Numbers, PassLines, Total, Weight, Queued, Grouped, InHunks, Parts,
        Among, Unblamable, Passable, PlainInOrder, Sorted, Stayed, Ordered, Inside, Settled;
      var origin := slots[k].origin;
      for i := 0 to |found|
        invariant Ok(k) && k < |slots| && slots[k].origin == origin
        invariant Queued(slots, commits, Some(origin.commit)) && Covered() == old(Covered())
        invariant Weight(slots, rank) + old(|Expand(slots[k].suspects)|) - |Expand(slots[k].suspects)|
                  <= old(Weight(slots, rank))
        invariant Settled(repo, slots[k], found)
        invariant forall j | 0 <= j < i && found[j].Some? :: Unblamable(Expand(slots[k].suspects))
      {
        if found[i].Some? {
          assert found[i].value.commit in repo.scapegoats(origin.commit);
          SettledAt(repo, slots[k], found, i);
          ghost var before := slots[k];
          PassOne(k, found[i].value, true);
          SettledMore(repo, before, slots[k], found);
          if slots[k].suspects == [] {
            return;
          }
        }
      }
    }

    /** distribute_blame: hand collected lines to their origins, each list sorted. */
    method DistributeBlame(blamed0: seq<Entry>, ghost k: nat, ghost current: Option<Commit>)
      requires Ok(k) && k < |slots| && Queued(slots, commits, current)
               && Blameable(repo, final, blamed0, slots[k].origin) && Open(slots[k].origin.commit)
      modifies this`slots, this`commits
      ensures Ok(k) && k < |slots| && slots[k] == old(slots[k]) && Queued(slots, commits, current)
      ensures Total(slots) == old(Total(slots)) + Numbers(Expand(blamed0))
      ensures Weight(slots, rank) == old(Weight(slots, rank)) + Weighs(blamed0, rank)
    {
      hide Sound, AllOk, EntOk, SlotOk, Expand, Numbers, Total, Weight, Weighs, Queued, Blameable, SuspectsSorted,
        Height, Reverse, SortSuspects;
      ghost var origin := slots[k].origin;
      var blamed := SortSuspects(repo.key, blamed0);
      SortBlamed(repo, final, rank, blamed0, origin);
      while blamed != []
        invariant Ok(k) && k < |slots| && slots[k] == old(slots[k]) && Queued(slots, commits, current)
        invariant Blameable(repo, final, blamed, origin) && SuspectsSorted(repo.key, blamed)
        invariant Total(slots) + Numbers(Expand(blamed)) == old(Total(slots)) + Numbers(Expand(blamed0))
        invariant Weight(slots, rank) + Weighs(blamed, rank) == old(Weight(slots, rank)) + Weighs(blamed0, rank)
        decreases |blamed|
      {
        var porigin, suspects, rest := blamed[0].suspect, [], blamed;
        ghost var n := 0;
        ReverseNothing();
        while rest != [] && rest[0].suspect == porigin
          invariant 0 <= n <= |blamed| && rest == blamed[n..] && Reverse(suspects, []) == blamed[..n]
          invariant forall i | 0 <= i < n :: blamed[i].suspect == porigin
          modifies {}
          decreases |rest|
        {
          Push(rest[0], suspects);
          suspects := [rest[0]] + suspects;
          rest, n := rest[1..], n + 1;
        }
        assert blamed == blamed[..n] + rest;
        suspects := Reverse(suspects, []);
        GroupOk(repo, final, rank, suspects, rest, porigin, origin);
        QueueBlames(porigin, suspects, k, current);
        blamed := rest;
      }
      NoLines();
      WeighsNothing(rank);
    }

    /** The end of pass_blame: look for moves and copies, and distribute what was found. */
    method PassCopies(k: nat, found: seq<Option<Origin>>)
      requires Ok(k) && k < |slots| && Queued(slots, commits, Some(slots[k].origin.commit))
      requires FoundIn(slots[k].origin, found) && Open(slots[k].origin.commit)
      modifies this`slots, this`commits
      ensures Ok(k) && k < |slots| && slots[k].origin == old(slots[k].origin)
      ensures Queued(slots, commits, Some(slots[k].origin.commit)) && Covered() == old(Covered())
      ensures Weight(slots, rank) + old(|Expand(slots[k].suspects)|) - |Expand(slots[k].suspects)|
              <= old(Weight(slots, rank))
      ensures forall c | c in Expand(slots[k].suspects) :: c in old(Expand(slots[k].suspects))
    {
      hide Sound, AllOk, EntOk, SlotTrue, Expand, Numbers, Total, Weight, Weighs, Queued, Blameable, Height, Accounted,
        Allowed, Placed, ExactDiffs;
      var slot := slots[k];
      var sg := repo.scapegoats(slot.origin.commit);
      var copies := seq(|found|, i requires 0 <= i < |found| => repo.copies(slot.origin, sg[i], found[i]));
      var texts := Texts(final, repo.blob, repo.diff);
      SlotOf(repo, final, slots, k);
      CopyStart(repo, final, rank, slot, texts);
      ghost var tried, gone;
      var blamed, left;
      blamed, left, tried, gone := MovesAndCopies(texts, limits.search, slot.suspects, found, copies);
      CopyFacts(repo, final, rank, slot, found, copies, texts, tried, blamed, gone, left);
      AllOkUpdate(repo, final, slots, k, k, Slot(slot.origin, left));
      QueuedUpdate(slots, commits, Some(slot.origin.commit), k, Slot(slot.origin, left), commits);
      TotalUpdate(slots, k, Slot(slot.origin, left), rank);
      CopyHeights(repo, final, rank, slot, blamed, left, gone);
      Cancel(Total(slots[k := Slot(slot.origin, left)]) + Numbers(Expand(blamed)), Numbers(Expand(left)), Total(slots));
      slots := slots[k := Slot(slot.origin, left)];
      DistributeBlame(blamed, k, Some(slot.origin.commit));
    }

    /** pass_blame: give as many lines as possible of slot `k` to its scapegoats. */
    method PassBlame(k: nat)
      requires Ok(-1) && k < |slots| && Queued(slots, commits, Some(slots[k].origin.commit))
      requires Open(slots[k].origin.commit)
      modifies this`slots, this`commits
      ensures Ok(k) && k < |slots| && slots[k].origin == old(slots[k].origin)
      ensures Queued(slots, commits, Some(slots[k].origin.commit))
      ensures Covered() == old(Covered())
      ensures Weight(slots, rank) + old(|Expand(slots[k].suspects)|) - |Expand(slots[k].suspects)|
              <= old(Weight(slots, rank))
      ensures Guilty(repo, Expand(slots[k].suspects))
    {
      hide Sound, AllOk, EntOk, SlotTrue, Expand, Numbers, Total, Weight, Queued, Grouped, InHunks, Parts, Among,
        Sorted, Stayed, Inside, Settled, GuiltyLine;
      var origin := slots[k].origin;
      WeakerSlots(repo, final, slots, k);
      NoLines();
      var whole, found := FindScapegoats(origin);
      if whole.Some? {
        PassWhole(k, whole.value);
        return;
      }
      PassPlainly(k, found);
      SlotOf(repo, final, slots, k);
      Settle(repo, final, rank, slots[k], found);
      if slots[k].suspects != [] && repo.ignored(origin.commit) {
        PassGuessing(k, found);
      }
      SlotOf(repo, final, slots, k);
      AllGuilty(repo, final, rank, slots[k], found);
      if found != [] && slots[k].suspects != [] {
        PassCopies(k, found);
      }
    }

    /** The origin of a commit that still has suspects, if any. */
    method FindSuspect(commit: Commit) returns (k: int)
      ensures k >= 0 ==> k < |slots| && slots[k].origin.commit == commit && slots[k].suspects != []
      ensures k < 0 ==> forall i | 0 <= i < |slots| && slots[i].origin.commit == commit :: slots[i].suspects == []
    {
      for j := 0 to |slots|
        invariant forall i | 0 <= i < j && slots[i].origin.commit == commit :: slots[i].suspects == []
      {
        if slots[j].origin.commit == commit && slots[j].suspects != [] {
          return j;
        }
      }
      return -1;
    }

    /** prio_queue_get; which commit comes first does not matter here. */
    method GetCommit() returns (commit: Option<Commit>)
      modifies this`commits
      ensures commit.None? <==> old(commits) == []
      ensures commit.None? ==> commits == []
      ensures commit.Some? ==> |commits| == |old(commits)| - 1
      ensures forall c | c in old(commits) :: c in commits || commit == Some(c)
    {
      if commits == [] {
        return None;
      }
      var i :| 0 <= i < |commits|;
      commit := Some(commits[i]);
      commits := commits[..i] + commits[i + 1..];
    }

    /** Take responsibility for the remaining entries of slot `k`. */
    method TakeResponsibility(k: nat)
      requires Ok(k) && k < |slots| && Queued(slots, commits, Some(slots[k].origin.commit))
      requires slots[k].origin.commit in barred || Guilty(repo, Expand(slots[k].suspects))
      modifies this`slots, this`ent
      ensures Ok(-1) && |slots| == |old(slots)|
      ensures Queued(slots, commits, Some(old(slots[k].origin.commit)))
      ensures Covered() == old(Covered())
      ensures Weight(slots, rank) + |old(Expand(slots[k].suspects))| <= old(Weight(slots, rank))
    {
      hide Expand, Numbers, Height, Weight, Total, True, Sound, GuiltyLine;
      ghost var slot := slots[k];
      var empty := Slot(slots[k].origin, []);
      EmptySlot(repo, final, slot.origin, rank);
      NoLines();
      TotalUpdate(slots, k, empty, rank);
      AllOkUpdate(repo, final, slots, k, k, empty);
      QueuedUpdate(slots, commits, Some(slot.origin.commit), k, empty, commits);
      HeightEmpty(slot, rank);
      ExpandJoin(slot.suspects, ent);
      NumbersJoin(Expand(slot.suspects), Expand(ent));
      EntGrows(repo, final, slot, ent, barred, seen);
      assert Total(slots[k := empty]) + Numbers(Expand(slot.suspects)) == Total(slots);
      ent := slots[k].suspects + ent;
      slots := slots[k := empty];
    }

    /** Blame stops at the commit of slot `k`: it is barred, and what it marks, or it is a root
        and has no one to pass blame to. */
    ghost method Stop(k: nat)
      requires Ok(k) && k < |slots| && Bounded() && !limits.reverse
      requires slots[k].origin.commit in uninteresting || limits.tooOld(slots[k].origin.commit)
      modifies this`stops, this`barred
      ensures Ok(k) && Bounded() && old(barred) <= barred && stops <= old(stops) + {slots[k].origin.commit}
      ensures slots[k].origin.commit in barred || Guilty(repo, Expand(slots[k].suspects))
      ensures forall c | c in {slots[k].origin.commit} + Marks(repo, limits, slots[k].origin.commit) ::
                c in barred || (IsRoot(repo, limits, c) && !limits.showRoot)
    {
      hide Sound, AllOk, EntOk, Expand, Barred, Reached;
      var commit := slots[k].origin.commit;
      SlotOf(repo, final, slots, k);
      if commit in barred || limits.tooOld(commit) {
        if limits.tooOld(commit) { BarredFirst(limits, start, stops, commit); }
        var more, marks := stops + {commit}, Marks(repo, limits, commit);
        forall c | c in barred + {commit} + marks ensures Barred(limits, start, more, c) {
          BarredMore(limits, start, stops, more, commit);
          if c in barred {
            BarredMore(limits, start, stops, more, c);
          } else if c in marks {
            BarredNext(limits, start, more, commit, c);
          }
        }
        MoreExcused(repo, final, ent, barred, seen, barred + {commit} + marks, seen);
        stops, barred := more, barred + {commit} + marks;
      } else {
        RootGuilty(repo, final, slots[k]);
      }
    }

    /** What happens to a commit before it takes responsibility.  It passes blame on, to commits
        that may be seen then; or, if it is uninteresting or too old, keeps all lines and makes
        commits before it uninteresting.  Unless barred, it keeps only lines it is guilty of. */
    method Visit(k: nat)
      requires Ok(-1) && k < |slots| && Queued(slots, commits, Some(slots[k].origin.commit)) && Bounded()
      modifies this`slots, this`commits, this`uninteresting, this`stops, this`barred, this`seen
      ensures Ok(k) && k < |slots| && slots[k].origin == old(slots[k].origin) && Bounded()
      ensures Queued(slots, commits, Some(slots[k].origin.commit)) && Covered() == old(Covered())
      ensures Weight(slots, rank) + old(|Expand(slots[k].suspects)|) - |Expand(slots[k].suspects)|
              <= old(Weight(slots, rank))
      ensures slots[k].origin.commit in barred || Guilty(repo, Expand(slots[k].suspects))
      ensures old(uninteresting) <= uninteresting
      ensures var commit := slots[k].origin.commit;
              if limits.reverse || (commit !in old(uninteresting) && !limits.tooOld(commit)) then
                && barred == old(barred) && stops == old(stops)
                && seen == old(seen) + set p | p in repo.scapegoats(commit)
              else
                && slots == old(slots) && commits == old(commits) && seen == old(seen)
                && stops <= old(stops) + {commit} && {commit} + Marks(repo, limits, commit) <= uninteresting
    {
      hide Sound, AllOk, EntOk, SlotTrue, Expand, Numbers, PassLines, Total, Weight, Queued, Grouped, InHunks, Parts,
        Among, Unblamable, Passable, PlainInOrder, Sorted, Stayed, Ordered, Barred, Reached, GuiltyLine;
      var commit := slots[k].origin.commit;
      if limits.reverse || (commit !in uninteresting && !limits.tooOld(commit)) {
        ghost var more := seen + set p | p in repo.scapegoats(commit);
        MoreExcused(repo, final, ent, barred, seen, barred, more);
        forall p | p in repo.scapegoats(commit) ensures Reached(repo, limits, start, first, p) {
          ReachedNext(repo, limits, start, first, commit, p);
        }
        seen := more;
        PassBlame(k);
      } else {
        WeakerSlots(repo, final, slots, k);
        Stop(k);
        uninteresting := uninteresting + {commit} + Marks(repo, limits, commit);
      }
      // a root commit is a boundary
      if IsRoot(repo, limits, commit) && !limits.showRoot {
        uninteresting := uninteresting + {commit};
      }
    }

    /** assign_blame: on any history it returns, and every final line that was pending is
        assigned exactly once, to an origin whose blob has that line where the entry says
        (or where it was guessed).  That origin is in a commit blame could reach.  Unless the
        commit is barred, the line differs from the file of that name in every scapegoat; only
        commits that are uninteresting from the start, too old, or marked by those where blame
        stopped are barred, and besides them only roots become uninteresting. */
    method AssignBlame()
      requires Ok(-1) && Queued(slots, commits, None) && Bounded()
      modifies this
      ensures Ok(-1) && commits == [] && forall i | 0 <= i < |slots| :: slots[i].suspects == []
      ensures Numbers(Expand(ent)) == old(Covered())
      ensures EntOk(repo, final, ent, barred, seen) && Bounded() && old(uninteresting) <= uninteresting
    {
      hide Expand, Numbers, Height, True, Sound, GuiltyLine, AllOk, EntOk, AllSeen, SlotTrue, Guilty, Total, Weight,
        Barred, Reached, IsRoot, Marks, Queued;
      ghost var queue := commits;
      var commit := GetCommit();
      QueuedNext(slots, queue, None, commits, commit);
      while commit.Some?
        invariant Ok(-1) && Queued(slots, commits, commit) && Covered() == old(Covered()) && Bounded()
        invariant (commit.None? ==> commits == []) && old(uninteresting) <= uninteresting
        decreases Weight(slots, rank), |commits|, commit.Some?
      {
        var k := FindSuspect(commit.value);
        if k < 0 {
          queue := commits;
          ghost var before := commit;
          commit := GetCommit();
          QueuedNext(slots, queue, before, commits, commit);
        } else {
          WeakerSlots(repo, final, slots, k);
          SlotOf(repo, final, slots, k);
          SomeLines(repo, final, slots[k]);
          ghost var before, lines := Weight(slots, rank), |Expand(slots[k].suspects)|;
          Visit(k);
          TakeResponsibility(k);
          assert Weight(slots, rank) + lines <= before;
        }
      }
      NoneQueued(slots);
      NothingLeft(slots);
    }
  }

  /** The next commit of the queue is looked at when the current one has no suspects. */
  lemma QueuedNext(slots: seq<Slot>, commits: seq<Commit>, current: Option<Commit>, commits': seq<Commit>,
                   next: Option<Commit>)
    requires Queued(slots, commits, current) && forall c | c in commits :: c in commits' || next == Some(c)
    requires current.Some? ==>
               forall i | 0 <= i < |slots| && slots[i].origin.commit == current.value :: slots[i].suspects == []
    ensures Queued(slots, commits', next)
  {}

  lemma NoneQueued(slots: seq<Slot>)
    requires Queued(slots, [], None)
    ensures forall i | 0 <= i < |slots| :: slots[i].suspects == []
  {}

  /** A scapegoat is of lower rank. */
  lemma LowerRank(repo: Repo, rank: Commit -> nat, c: Commit, p: Commit)
    requires Sound(repo, rank) && p in repo.scapegoats(c)
    ensures rank(p) < rank(c)
  {}

  /** A commit without scapegoats is guilty of all it has. */
  lemma RootGuilty(repo: Repo, final: Blob, slot: Slot)
    requires SlotTrue(repo, final, slot) && repo.scapegoats(slot.origin.commit) == []
    ensures Guilty(repo, Expand(slot.suspects))
  {
    hide Expand, True;
    forall c | c in Expand(slot.suspects) ensures GuiltyLine(repo, c) {
      var i :| 0 <= i < |Expand(slot.suspects)| && Expand(slot.suspects)[i] == c;
    }
  }

  lemma HeightEmpty(slot: Slot, rank: Commit -> nat)
    ensures Height(Slot(slot.origin, []), rank) == 0 && |Expand(slot.suspects)| <= Height(slot, rank)
  {
    hide Expand;
    NoLines();
    assert |Expand(slot.suspects)| * 1 <= |Expand(slot.suspects)| * (rank(slot.origin.commit) + 1);
  }

  lemma EntGrows(repo: Repo, final: Blob, slot: Slot, ent: seq<Entry>, excused: set<Commit>, seen: set<Commit>)
    requires SlotTrue(repo, final, slot) && EntOk(repo, final, ent, excused, seen) && slot.origin.commit in seen
    requires slot.origin.commit in excused || Guilty(repo, Expand(slot.suspects))
    ensures EntOk(repo, final, slot.suspects + ent, excused, seen)
  {
    ExpandJoin(slot.suspects, ent);
    hide Expand, True, GuiltyLine;
    forall c | c in Expand(slot.suspects + ent)
      ensures True(final, repo.blob(c.suspect), c) && c.suspect.commit in seen
      ensures c.suspect.commit in excused || GuiltyLine(repo, c)
    {
      if c in Expand(slot.suspects) {
        var i :| 0 <= i < |Expand(slot.suspects)| && Expand(slot.suspects)[i] == c;
      }
    }
  }

  lemma MoreExcused(repo: Repo, final: Blob, ent: seq<Entry>, excused: set<Commit>, seen: set<Commit>,
                    excused': set<Commit>, seen': set<Commit>)
    requires EntOk(repo, final, ent, excused, seen) && excused <= excused' && seen <= seen'
    ensures EntOk(repo, final, ent, excused', seen')
  {
    hide Expand, True, GuiltyLine;
  }

  lemma WeakerSlots(repo: Repo, final: Blob, slots: seq<Slot>, k: int)
    requires AllOk(repo, final, slots, -1) && 0 <= k < |slots|
    ensures AllOk(repo, final, slots, k) && Sorted(slots[k].suspects)
  {}

  ghost predicate InRanges(ranges: seq<(int, int)>, n: int) {
    exists i :: 0 <= i < |ranges| && ranges[i].0 <= n < ranges[i].1
  }

  /** The entries made of ranges of the final image. */
  ghost predicate Started(final: Blob, o: Origin, ranges: seq<(int, int)>, es: seq<Entry>) {
    && Proper(es) && Sorted(es) && AllTrue(final, final, o, Expand(es))
    && (if ranges == [] then es == [] else AllFrom(es, ranges[0].0))
    && forall n :: Numbers(Expand(es))[n] == if InRanges(ranges, n) then 1 else 0
  }

  lemma StartNone(final: Blob, o: Origin)
    ensures Started(final, o, [], [])
  {}

  lemma StartMore(final: Blob, o: Origin, ranges: seq<(int, int)>, i: nat, es: seq<Entry>)
    requires i < |ranges| && Started(final, o, ranges[i + 1..], es)
    requires forall j | 0 <= j < |ranges| :: 0 <= ranges[j].0 < ranges[j].1 <= |final|
    requires forall j, k | 0 <= j < k < |ranges| :: ranges[j].1 <= ranges[k].0
    ensures Started(final, o, ranges[i..], [Entry(ranges[i].0, ranges[i].1 - ranges[i].0, o, ranges[i].0, false, false)]
              + es)
  {
    var e := Entry(ranges[i].0, ranges[i].1 - ranges[i].0, o, ranges[i].0, false, false);
    StartTrue(final, o, e);
    StartSorted(ranges, i, e, es);
    hide Expand, Lines, Numbers, True, AllTrue, Sorted, InRanges;
    ExpandMore(e, es);
    TrueJoin(final, final, o, Lines(e), Expand(es));
    StartNumbers(ranges, i, e, es);
  }

  /** An entry of the final image has the lines it says. */
  lemma StartTrue(final: Blob, o: Origin, e: Entry)
    requires 0 <= e.lno == e.s && e.lno + e.num <= |final| && e.suspect == o
    ensures AllTrue(final, final, o, Lines(e))
  {}

  lemma StartSorted(ranges: seq<(int, int)>, i: nat, e: Entry, es: seq<Entry>)
    requires i < |ranges| && e.s == ranges[i].0 && e.num > 0 && Proper(es) && Sorted(es)
    requires if ranges[i + 1..] == [] then es == [] else AllFrom(es, ranges[i + 1..][0].0)
    requires (forall j | 0 <= j < |ranges| :: ranges[j].0 < ranges[j].1)
    requires (forall j, k | 0 <= j < k < |ranges| :: ranges[j].1 <= ranges[k].0)
    ensures Proper([e] + es) && Sorted([e] + es) && AllFrom([e] + es, ranges[i..][0].0)
  {
    if i + 1 < |ranges| {
      assert ranges[i + 1..][0] == ranges[i + 1];
    }
    Prepend(e, es);
  }

  lemma StartNumbers(ranges: seq<(int, int)>, i: nat, e: Entry, es: seq<Entry>)
    requires i < |ranges| && e.lno == ranges[i].0 && e.num == ranges[i].1 - ranges[i].0
    requires forall j | 0 <= j < |ranges| :: ranges[j].0 < ranges[j].1
    requires forall j, k | 0 <= j < k < |ranges| :: ranges[j].1 <= ranges[k].0
    requires forall n :: Numbers(Expand(es))[n] == if InRanges(ranges[i + 1..], n) then 1 else 0
    ensures forall n :: Numbers(Expand([e] + es))[n] == if InRanges(ranges[i..], n) then 1 else 0
  {
    assert ranges[i].0 < ranges[i].1;
    hide Expand, Lines, Numbers, InRanges;
    ExpandMore(e, es);
    NumbersJoin(Lines(e), Expand(es));
    LinesNumbers(e);
    forall n ensures Numbers(Expand([e] + es))[n] == if InRanges(ranges[i..], n) then 1 else 0 {
      RangesMore(ranges, i, n);
    }
  }

  lemma ExpandMore(e: Entry, es: seq<Entry>)
    ensures Expand([e] + es) == Lines(e) + Expand(es)
  {
    ExpandJoin([e], es);
    ExpandOne(e);
  }

  lemma RangesMore(ranges: seq<(int, int)>, i: nat, n: int)
    requires i < |ranges| && forall j, k | 0 <= j < k < |ranges| :: ranges[j].1 <= ranges[k].0
    requires forall j | 0 <= j < |ranges| :: ranges[j].0 < ranges[j].1
    ensures InRanges(ranges[i..], n) <==> ranges[i].0 <= n < ranges[i].1 || InRanges(ranges[i + 1..], n)
    ensures !(ranges[i].0 <= n < ranges[i].1 && InRanges(ranges[i + 1..], n))
  {
    var all, rest := ranges[i..], ranges[i + 1..];
    assert all == [ranges[i]] + rest;
    if InRanges(rest, n) {
      var j :| 0 <= j < |rest| && rest[j].0 <= n < rest[j].1;
      assert all[j + 1] == rest[j] && rest[j] == ranges[i + 1 + j];
    }
    if ranges[i].0 <= n < ranges[i].1 {
      assert all[0].0 <= n < all[0].1;
    }
  }

  lemma {:induction false} LinesNumbers(e: Entry)
    requires e.num >= 0
    ensures forall n :: Numbers(Lines(e))[n] == if e.lno <= n < e.lno + e.num then 1 else 0
    decreases e.num
  {
    if e.num > 0 {
      var e' := Entry(e.lno + 1, e.num - 1, e.suspect, e.s + 1, e.ignored, e.unblamable);
      LinesNumbers(e');
      assert Lines(e)[1..] == Lines(e');
    }
  }

  lemma SomeLines(repo: Repo, final: Blob, slot: Slot)
    requires SlotTrue(repo, final, slot) && slot.suspects != []
    ensures |Expand(slot.suspects)| > 0
  {}

  lemma {:induction false} NothingLeft(slots: seq<Slot>)
    requires forall i | 0 <= i < |slots| :: slots[i].suspects == []
    ensures Total(slots) == multiset{}
  {
    if slots != [] {
      NoLines();
      NothingLeft(slots[1..]);
    }
  }

  // ---- moves and copies

  /** What lines are worth at the rank of their suspects. */
  ghost function Weighs(es: seq<Entry>, rank: Commit -> nat): nat {
    if es == [] then 0 else |Lines(es[0])| * (rank(es[0].suspect.commit) + 1) + Weighs(es[1..], rank)
  }

  lemma WeighsNothing(rank: Commit -> nat)
    ensures Weighs([], rank) == 0
  {}

  /** Entries of true lines, in scapegoats of the commit of `origin`. */
  ghost predicate Blameable(repo: Repo, final: Blob, es: seq<Entry>, origin: Origin) {
    && Proper(es) && (forall c | c in Expand(es) :: True(final, repo.blob(c.suspect), c))
    && forall e | e in es :: e.suspect.commit in repo.scapegoats(origin.commit)
  }

  lemma {:induction false} WeighsJoin(a: seq<Entry>, b: seq<Entry>, rank: Commit -> nat)
    ensures Weighs(a + b, rank) == Weighs(a, rank) + Weighs(b, rank)
  {
    hide Lines;
    if a == [] {
      assert a + b == b;
    } else {
      assert (a + b)[1..] == a[1..] + b;
      WeighsJoin(a[1..], b, rank);
    }
  }

  lemma {:induction false} WeighsInsert(key: Origin -> int, e: Entry, es: seq<Entry>, rank: Commit -> nat)
    ensures Weighs(Insert(key, e, es), rank) == Weighs([e], rank) + Weighs(es, rank)
  {
    hide Lines, NotAfter;
    if es == [] || NotAfter(key, e, es[0]) {
      WeighsJoin([e], es, rank);
    } else {
      WeighsInsert(key, e, es[1..], rank);
    }
  }

  lemma {:induction false} WeighsSort(key: Origin -> int, es: seq<Entry>, rank: Commit -> nat)
    ensures Weighs(SortSuspects(key, es), rank) == Weighs(es, rank)
  {
    hide Lines, Insert;
    if es != [] {
      WeighsSort(key, es[1..], rank);
      WeighsInsert(key, es[0], SortSuspects(key, es[1..]), rank);
      WeighsJoin([es[0]], es[1..], rank);
      assert es == [es[0]] + es[1..];
    }
  }

  lemma {:induction false} WeighsGroup(es: seq<Entry>, o: Origin, rank: Commit -> nat)
    requires forall i | 0 <= i < |es| :: es[i].suspect == o
    ensures Weighs(es, rank) == Height(Slot(o, es), rank)
  {
    hide Lines;
    if es != [] {
      WeighsGroup(es[1..], o, rank);
      Distribute(|Lines(es[0])|, |Expand(es[1..])|, rank(o.commit) + 1);
    }
  }

  /** Lines in lower commits weigh at least one less each. */
  lemma {:induction false} WeighsLess(es: seq<Entry>, rank: Commit -> nat, r: nat)
    requires forall i | 0 <= i < |es| :: rank(es[i].suspect.commit) < r
    ensures Weighs(es, rank) + |Expand(es)| <= |Expand(es)| * (r + 1)
  {
    hide Lines;
    if es != [] {
      WeighsLess(es[1..], rank, r);
      Cheaper(|Lines(es[0])|, rank(es[0].suspect.commit) + 1, r + 1);
      Distribute(|Lines(es[0])|, |Expand(es[1..])|, r + 1);
    }
  }

  lemma SortBlamed(repo: Repo, final: Blob, rank: Commit -> nat, es: seq<Entry>, origin: Origin)
    requires Blameable(repo, final, es, origin)
    ensures var r := SortSuspects(repo.key, es);
            && Blameable(repo, final, r, origin) && SuspectsSorted(repo.key, r)
            && Numbers(Expand(r)) == Numbers(Expand(es)) && Weighs(r, rank) == Weighs(es, rank)
  {
    var r := SortSuspects(repo.key, es);
    SortSuspectsSorts(repo.key, es);
    WeighsSort(repo.key, es, rank);
    SameLinesCount(Expand(r), Expand(es));
    hide Expand, SortSuspects, True, Numbers, Weighs, SuspectsSorted;
    forall c | c in Expand(r) ensures True(final, repo.blob(c.suspect), c) {
      assert c in multiset(Expand(r));
      assert c in Expand(es);
    }
    forall i | 0 <= i < |r| ensures r[i].num > 0 {
      assert r[i] in r;
    }
  }

  /** The entries of one suspect at the front of a sorted list. */
  lemma GroupOk(repo: Repo, final: Blob, rank: Commit -> nat, group: seq<Entry>, rest: seq<Entry>, o: Origin,
                origin: Origin)
    requires Sound(repo, rank) && Blameable(repo, final, group + rest, origin)
    requires SuspectsSorted(repo.key, group + rest) && group != []
    requires forall i | 0 <= i < |group| :: group[i].suspect == o
    ensures SlotOk(repo, final, Slot(o, group)) && o != origin && o.commit in repo.scapegoats(origin.commit)
    ensures Blameable(repo, final, rest, origin) && SuspectsSorted(repo.key, rest)
    ensures Numbers(Expand(group + rest)) == Numbers(Expand(group)) + Numbers(Expand(rest))
    ensures Weighs(group + rest, rank) == Height(Slot(o, group), rank) + Weighs(rest, rank)
  {
    hide Expand, Numbers, Weighs, Height, True;
    var all := group + rest;
    ExpandJoin(group, rest);
    NumbersJoin(Expand(group), Expand(rest));
    WeighsJoin(group, rest, rank);
    WeighsGroup(group, o, rank);
    SuspectOfLines(group, o);
    assert forall i | 0 <= i < |group| :: all[i] == group[i];
    assert forall i | 0 <= i < |rest| :: all[|group| + i] == rest[i];
    assert group[0] in all;
    LowerRank(repo, rank, origin.commit, o.commit);
    assert forall e | e in rest :: e in all;
    assert forall c | c in Expand(group) :: c in Expand(all);
  }

  lemma {:induction false} SuspectOfLines(es: seq<Entry>, o: Origin)
    requires forall i | 0 <= i < |es| :: es[i].suspect == o
    ensures forall c | c in Expand(es) :: c.suspect == o
  {
    if es != [] {
      SuspectOfLines(es[1..], o);
      LinesRange(es[0]);
    }
  }

  lemma CopyStart(repo: Repo, final: Blob, rank: Commit -> nat, slot: Slot, texts: Texts)
    requires Sound(repo, rank) && SlotTrue(repo, final, slot) && texts == Texts(final, repo.blob, repo.diff)
    ensures ExactDiffs(texts) && Proper(slot.suspects) && Placed(final, Bag(slot.suspects))
  {
    hide Expand;
  }

  /** What the search found is blameable, and what it left are lines of the slot. */
  lemma CopyFacts(repo: Repo, final: Blob, rank: Commit -> nat, slot: Slot, found: seq<Option<Origin>>,
                  copies: seq<seq<Origin>>,
                  texts: Texts, tried: seq<Origin>, blamed: seq<Entry>, gone: seq<Claim>, left: seq<Entry>)
    requires Sound(repo, rank) && SlotTrue(repo, final, slot) && texts == Texts(final, repo.blob, repo.diff)
    requires |found| == |repo.scapegoats(slot.origin.commit)| == |copies|
    requires forall i | 0 <= i < |found| && found[i].Some? ::
             found[i].value.commit == repo.scapegoats(slot.origin.commit)[i]
    requires forall i | 0 <= i < |copies| ::
             copies[i] == repo.copies(slot.origin, repo.scapegoats(slot.origin.commit)[i], found[i])
    requires Accounted(texts, tried, Bag(slot.suspects), blamed, gone, Bag(left)) && Proper(left)
             && Allowed(tried, found, copies)
    ensures Blameable(repo, final, blamed, slot.origin)
    ensures SlotTrue(repo, final, Slot(slot.origin, left))
    ensures forall c | c in Expand(left) :: c in Expand(slot.suspects)
    ensures Numbers(Expand(slot.suspects)) == Numbers(Expand(left)) + Numbers(Expand(blamed))
  {
    hide Expand, Numbers, True;
    var cs := Expand(slot.suspects);
    assert multiset(Expand(left) + gone) == multiset(Expand(left)) + multiset(gone);
    SameLinesCount(cs, Expand(left) + gone);
    NumbersJoin(Expand(left), gone);
    forall c | c in Expand(left) ensures c in cs {
      assert c in Bag(left);
      assert c in Bag(slot.suspects);
    }
    forall i | 0 <= i < |Expand(left)|
      ensures Expand(left)[i].suspect == slot.origin && True(final, repo.blob(slot.origin), Expand(left)[i])
    {
      assert Expand(left)[i] in cs;
    }
    forall e | e in blamed ensures e.suspect.commit in repo.scapegoats(slot.origin.commit) {
      SomeLine(blamed, e);
      TriedIn(repo, rank, slot.origin, found, copies, tried, e.suspect);
    }
  }

  lemma {:induction false} SomeLine(es: seq<Entry>, e: Entry)
    requires Proper(es) && e in es
    ensures exists c :: c in Expand(es) && c.suspect == e.suspect
  {
    if e == es[0] {
      assert Lines(e)[0] in Expand(es);
    } else {
      SomeLine(es[1..], e);
      var c :| c in Expand(es[1..]) && c.suspect == e.suspect;
      assert c in Expand(es);
    }
  }

  lemma TriedIn(repo: Repo, rank: Commit -> nat, origin: Origin, found: seq<Option<Origin>>,
                   copies: seq<seq<Origin>>, tried: seq<Origin>, o: Origin)
    requires Sound(repo, rank) && |found| == |repo.scapegoats(origin.commit)| == |copies|
    requires forall i | 0 <= i < |found| && found[i].Some? :: found[i].value.commit == repo.scapegoats(origin.commit)[i]
    requires forall i | 0 <= i < |copies| ::
             copies[i] == repo.copies(origin, repo.scapegoats(origin.commit)[i], found[i])
    requires Allowed(tried, found, copies) && o in tried
    ensures o.commit in repo.scapegoats(origin.commit)
  {
    var sg := repo.scapegoats(origin.commit);
    if Some(o) in found {
      var i :| 0 <= i < |found| && found[i] == Some(o);
      assert sg[i] in sg;
    } else {
      var i :| 0 <= i < |copies| && o in copies[i];
      assert sg[i] in sg;
    }
  }

  lemma CopyHeights(repo: Repo, final: Blob, rank: Commit -> nat, slot: Slot, blamed: seq<Entry>, left: seq<Entry>,
                    gone: seq<Claim>)
    requires Sound(repo, rank) && Blameable(repo, final, blamed, slot.origin)
    requires Numbers(Expand(slot.suspects)) == Numbers(Expand(left)) + Numbers(Expand(blamed))
    ensures |Expand(slot.suspects)| == |Expand(left)| + |Expand(blamed)|
    ensures Weighs(blamed, rank) + |Expand(blamed)| + Height(Slot(slot.origin, left), rank) <= Height(slot, rank)
  {
    hide Expand, Numbers, Weighs, True;
    NumbersCount(Expand(slot.suspects));
    NumbersCount(Expand(left));
    NumbersCount(Expand(blamed));
    forall i | 0 <= i < |blamed| ensures rank(blamed[i].suspect.commit) < rank(slot.origin.commit) {
      LowerRank(repo, rank, slot.origin.commit, blamed[i].suspect.commit);
    }
    WeighsLess(blamed, rank, rank(slot.origin.commit));
    Distribute(|Expand(left)|, |Expand(blamed)|, rank(slot.origin.commit) + 1);
  }

  // ---- what is left after passing

  /** Every entry lies inside a hunk of the diff from each of the first `n` scapegoats. */
  ghost predicate Inside(repo: Repo, slot: Slot, found: seq<Option<Origin>>, n: nat) {
    forall j | 0 <= j < n && j < |found| && found[j].Some? ::
           InHunks(slot.suspects, Hunks(repo, slot.origin, found[j].value))
  }

  lemma InsideMore(repo: Repo, before: Slot, slot: Slot, found: seq<Option<Origin>>, i: nat)
    requires i < |found| && before.origin == slot.origin && Inside(repo, before, found, i)
    requires found[i].None? ==> slot == before
    requires found[i].Some? ==>
               Parts(slot.suspects, before.suspects) && InHunks(slot.suspects, Hunks(repo, slot.origin, found[i].value))
    ensures Inside(repo, slot, found, i + 1)
  {
    hide InHunks, Parts, Hunks;
    forall j | 0 <= j < i && found[j].Some? ensures InHunks(slot.suspects, Hunks(repo, slot.origin, found[j].value)) {
      if found[i].Some? {
        PartsInHunks(slot.suspects, before.suspects, Hunks(repo, slot.origin, found[j].value));
      }
    }
  }

  lemma InsideEmpty(repo: Repo, slot: Slot, found: seq<Option<Origin>>)
    ensures slot.suspects == [] ==> Inside(repo, slot, found, |found|)
    ensures Inside(repo, slot, found, 0)
  {}

  /** The lines are grouped by the hunks of every scapegoat's diff and lie inside them. */
  ghost predicate Settled(repo: Repo, slot: Slot, found: seq<Option<Origin>>) {
    forall j | 0 <= j < |found| && found[j].Some? ::
      && Grouped(Expand(slot.suspects), Hunks(repo, slot.origin, found[j].value))
      && forall c | c in Expand(slot.suspects) :: ChangedLine(repo, slot.origin, found[j].value, c.s)
  }

  lemma SettledAt(repo: Repo, slot: Slot, found: seq<Option<Origin>>, i: nat)
    requires Settled(repo, slot, found) && i < |found| && found[i].Some?
    ensures Grouped(Expand(slot.suspects), Hunks(repo, slot.origin, found[i].value))
  {}

  lemma SettledMore(repo: Repo, before: Slot, slot: Slot, found: seq<Option<Origin>>)
    requires Settled(repo, before, found) && before.origin == slot.origin
    requires Among(Expand(slot.suspects), Expand(before.suspects))
    ensures Settled(repo, slot, found)
  {
    hide Expand, Grouped, Among, Hunks, ChangedLine;
    AmongIn(Expand(slot.suspects), Expand(before.suspects));
    forall j | 0 <= j < |found| && found[j].Some?
      ensures Grouped(Expand(slot.suspects), Hunks(repo, slot.origin, found[j].value))
      ensures forall c | c in Expand(slot.suspects) :: ChangedLine(repo, slot.origin, found[j].value, c.s)
    {
      AmongGrouped(Expand(slot.suspects), Expand(before.suspects), Hunks(repo, slot.origin, found[j].value));
    }
  }

  /** After plain passing everything is settled. */
  lemma Settle(repo: Repo, final: Blob, rank: Commit -> nat, slot: Slot, found: seq<Option<Origin>>)
    requires Sound(repo, rank) && SlotOk(repo, final, slot) && Inside(repo, slot, found, |found|)
    ensures Settled(repo, slot, found)
  {
    hide Expand, InHunks, Grouped, Sorted, AllTrue, Sound, ParentLine;
    forall j | 0 <= j < |found| && found[j].Some?
      ensures Grouped(Expand(slot.suspects), Hunks(repo, slot.origin, found[j].value))
      ensures forall c | c in Expand(slot.suspects) :: ChangedLine(repo, slot.origin, found[j].value, c.s)
    {
      DiffOrdered(repo, rank, slot.origin, found[j].value);
      InHunksGrouped(slot.suspects, Hunks(repo, slot.origin, found[j].value));
      InHunksChanged(slot.suspects, Hunks(repo, slot.origin, found[j].value));
    }
  }

  lemma DiffOrdered(repo: Repo, rank: Commit -> nat, t: Origin, o: Origin)
    requires Sound(repo, rank)
    ensures IsDiff(repo.blob(o), repo.blob(t), Hunks(repo, t, o), 0, 0)
    ensures Aligned(Hunks(repo, t, o), 0) && Ordered(Hunks(repo, t, o), 0)
  {
    DiffAligned(repo.blob(o), repo.blob(t), Hunks(repo, t, o), 0, 0);
  }

  /** Lines settled against every scapegoat found are guilty. */
  lemma AllGuilty(repo: Repo, final: Blob, rank: Commit -> nat, slot: Slot, found: seq<Option<Origin>>)
    requires Sound(repo, rank) && SlotTrue(repo, final, slot) && Settled(repo, slot, found)
    requires |found| == |repo.scapegoats(slot.origin.commit)|
    requires forall i | 0 <= i < |found| :: Represented(repo,
                                                        repo.find(slot.origin, repo.scapegoats(slot.origin.commit)[i],
                                                                  0), found)
    requires repo.ignored(slot.origin.commit) && (exists j :: 0 <= j < |found| && found[j].Some?) ==>
             Unblamable(Expand(slot.suspects))
    ensures Guilty(repo, Expand(slot.suspects))
  {
    hide Expand, ParentLine, Grouped, True;
    var sg := repo.scapegoats(slot.origin.commit);
    forall c, p | c in Expand(slot.suspects) && p in sg && repo.find(slot.origin, p, 0).Some?
      ensures c.suspect == slot.origin && ChangedLine(repo, slot.origin, repo.find(slot.origin, p, 0).value, c.s)
      ensures repo.ignored(slot.origin.commit) ==> c.unblamable
    {
      var i :| 0 <= i < |sg| && sg[i] == p;
      var o := repo.find(slot.origin, p, 0).value;
      var j :| 0 <= j < |found| && found[j].Some? && repo.oid(found[j].value) == repo.oid(o);
      assert repo.blob(found[j].value) == repo.blob(o);
    }
  }

  lemma SlotOf(repo: Repo, final: Blob, slots: seq<Slot>, k: int)
    requires AllOk(repo, final, slots, k) && 0 <= k < |slots|
    ensures SlotTrue(repo, final, slots[k])
  {}

  /** What pass_blame_to_parent starts from. */
  lemma PassStart(repo: Repo, final: Blob, rank: Commit -> nat, slot: Slot, o: Origin, mode: Mode)
    requires Sound(repo, rank) && SlotTrue(repo, final, slot)
    requires mode.Ignoring? ==> Grouped(Expand(slot.suspects), Hunks(repo, slot.origin, o))
    requires mode.Plain? ==> Sorted(slot.suspects)
    ensures Proper(slot.suspects) && Aligned(Hunks(repo, slot.origin, o), 0)
            && Passable(slot.suspects, Hunks(repo, slot.origin, o))
    ensures mode.Plain? ==> PlainInOrder(slot.suspects, Hunks(repo, slot.origin, o), mode)
  {
    DiffOrdered(repo, rank, slot.origin, o);
    FirstLines(slot.suspects, 0);
    if mode.Ignoring? {
      GroupedReady(slot.suspects, Hunks(repo, slot.origin, o));
    }
    hide Grouped, Aligned, Ordered, IsDiff, Hunks;
  }

  lemma PassFacts(repo: Repo, final: Blob, rank: Commit -> nat, slot: Slot, o: Origin, mode: Mode, newdest: seq<Entry>,
                  kept: seq<Entry>)
    requires Sound(repo, rank) && SlotTrue(repo, final, slot)
    requires mode.Ignoring? ==> forall h :: mode.guess(h) == repo.guess(o, slot.origin, h)
    requires Proper(newdest) && Proper(kept) && Sorted(newdest)
    requires var all := PassLines(Expand(slot.suspects), Hunks(repo, slot.origin, o), 0, o, mode);
             multiset(Expand(newdest)) == multiset(all.0) && Expand(kept) == all.1
    ensures SlotOk(repo, final, Slot(o, newdest)) && SlotTrue(repo, final, Slot(slot.origin, kept))
  {
    var cs, p, t := Expand(slot.suspects), repo.blob(o), repo.blob(slot.origin);
    var hunks := Hunks(repo, slot.origin, o);
    var all := PassLines(cs, hunks, 0, o, mode);
    hide Expand, Numbers, PassLines, True, IsDiff, Sound, SoundGuesses, Sorted;
    DiffOrdered(repo, rank, slot.origin, o);
    ModeSound(repo, rank, slot.origin, o, mode);
    InBlob(final, t, slot.origin, cs);
    PassTrue(final, p, t, slot.origin, o, cs, hunks, 0, 0, mode);
    PermutedTrue(final, p, o, all.0, Expand(newdest));
  }

  lemma ModeSound(repo: Repo, rank: Commit -> nat, t: Origin, o: Origin, mode: Mode)
    requires Sound(repo, rank) && (mode.Ignoring? ==> forall h :: mode.guess(h) == repo.guess(o, t, h))
    ensures SoundGuesses(repo.blob(o), Hunks(repo, t, o), mode)
  {
    hide IsDiff;
  }

  /** What stays with the target. */
  lemma KeptFacts(repo: Repo, slot: Slot, o: Origin, mode: Mode, kept: seq<Entry>)
    requires Expand(kept) == PassLines(Expand(slot.suspects), Hunks(repo, slot.origin, o), 0, o, mode).1
    ensures mode.Plain? ==>
              multiset(Expand(kept)) == multiset(Stayed(Expand(slot.suspects), Hunks(repo, slot.origin, o), 0))
    ensures mode.Ignoring? && Grouped(Expand(slot.suspects), Hunks(repo, slot.origin, o)) ==>
              Among(Expand(kept), Expand(slot.suspects)) && Unblamable(Expand(kept))
  {
    hide Expand, PassLines, Stayed, Grouped, Among;
    var cs, hunks := Expand(slot.suspects), Hunks(repo, slot.origin, o);
    if mode.Plain? {
      PassExactly(cs, hunks, 0, o);
    } else if Grouped(cs, hunks) {
      PassAmong(cs, hunks, 0, o, mode);
      PassUnblamable(cs, hunks, 0, o, mode);
    }
  }

  lemma PermutedTrue(final: Blob, blob: Blob, o: Origin, a: seq<Claim>, b: seq<Claim>)
    requires AllTrue(final, blob, o, a) && multiset(a) == multiset(b)
    ensures AllTrue(final, blob, o, b)
  {
    forall i | 0 <= i < |b| ensures b[i].suspect == o && True(final, blob, b[i]) {
      assert b[i] in multiset(b);
      assert b[i] in a;
    }
  }

  lemma WholeFacts(repo: Repo, final: Blob, rank: Commit -> nat, slot: Slot, o: Origin)
    requires Sound(repo, rank) && SlotOk(repo, final, slot) && repo.oid(o) == repo.oid(slot.origin)
    ensures SlotOk(repo, final, Slot(o, MoveAll(slot.suspects, o, 0)))
    ensures Numbers(Expand(MoveAll(slot.suspects, o, 0))) == Numbers(Expand(slot.suspects))
    ensures |Expand(MoveAll(slot.suspects, o, 0))| == |Expand(slot.suspects)|
  {
    hide Expand, Numbers, Lines;
    MoveLines(slot.suspects, o, 0);
    NumbersMoved(Expand(slot.suspects), o, 0);
    WholeTrue(repo, final, rank, slot, o);
    var lo := LowerBound(slot.suspects);
    var hi := UpperBound(slot.suspects, lo);
    hide Sound, True, AllTrue, Sorted;
    MoveSorted(slot.suspects, o, 0, lo, hi);
    MoveProper(slot.suspects, o, 0);
  }

  lemma WholeTrue(repo: Repo, final: Blob, rank: Commit -> nat, slot: Slot, o: Origin)
    requires Sound(repo, rank) && SlotTrue(repo, final, slot) && repo.oid(o) == repo.oid(slot.origin)
    ensures AllTrue(final, repo.blob(o), o, Moved(Expand(slot.suspects), o, 0))
  {
    hide Expand, Proper;
    assert repo.blob(o) == repo.blob(slot.origin);
  }

  lemma HeightMoves(slot: Slot, o: Origin, newdest: seq<Entry>, kept: seq<Entry>, rank: Commit -> nat)
    requires rank(o.commit) < rank(slot.origin.commit)
    requires |Expand(newdest)| + |Expand(kept)| == |Expand(slot.suspects)|
    ensures Height(Slot(o, newdest), rank) + Height(Slot(slot.origin, kept), rank) + |Expand(newdest)|
            <= Height(slot, rank)
  {
    hide Expand;
    var n, m, lo, hi := |Expand(newdest)|, |Expand(kept)|, rank(o.commit) + 1, rank(slot.origin.commit) + 1;
    Distribute(n, m, hi);
    Cheaper(n, lo, hi);
  }

  lemma EmptySlot(repo: Repo, final: Blob, o: Origin, rank: Commit -> nat)
    ensures SlotOk(repo, final, Slot(o, []))
    ensures Total([Slot(o, [])]) == multiset{} && Weight([Slot(o, [])], rank) == 0
  {}

  lemma HeightMerged(slot: Slot, list: seq<Entry>, rank: Commit -> nat)
    requires |Expand(Merged(slot.suspects, list))| == |Expand(slot.suspects)| + |Expand(list)|
    ensures Height(Slot(slot.origin, Merged(slot.suspects, list)), rank) == Height(slot, rank)
            + Height(Slot(slot.origin, list), rank)
  {
    hide Expand, Merged;
    Distribute(|Expand(slot.suspects)|, |Expand(list)|, rank(slot.origin.commit) + 1);
  }

  lemma Cancel(x: multiset<int>, a: multiset<int>, y: multiset<int>)
    requires x + a == y + a
    ensures x == y
  {
    assert x == (x + a) - a && y == (y + a) - a;
  }

  lemma Cheaper(n: nat, lo: nat, hi: nat)
    requires lo < hi
    ensures n * lo + n <= n * hi
  {
    assert n * hi == n * (lo + 1) + n * (hi - lo - 1);
  }

  lemma Distribute(x: int, y: int, r: int)
    ensures (x + y) * r == x * r + y * r
  {}
}
