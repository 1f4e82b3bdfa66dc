/** The hunks of one file during interactive staging: any run of splits and choices. */
module PatchFile {
  import opened PatchScript
  import opened PatchSplit
  import opened PatchReassemble
  import opened PatchResult

  /** Part `j` lies within the hunk. */
  lemma {:induction false} PartFrom(s: Script, h: Hunk, parts: seq<Hunk>, j: nat)
    requires Parts(s, h, parts) && j < |parts|
    ensures h.start <= parts[j].start
    decreases j
  {
    hide HunkOk;
    if j > 0 {
      assert Cut(s, parts[j - 1], parts[j]);
      PartFrom(s, h, parts, j - 1);
    }
  }

  lemma {:induction false} PartTo(s: Script, h: Hunk, parts: seq<Hunk>, j: nat)
    requires Parts(s, h, parts) && j < |parts|
    ensures parts[j].end <= h.end
    decreases |parts| - j
  {
    hide HunkOk;
    if j + 1 < |parts| {
      assert Cut(s, parts[j], parts[j + 1]);
      PartTo(s, h, parts, j + 1);
    }
  }

  /** Every line of the hunk is in a part. */
  lemma {:induction false} SomePart(s: Script, h: Hunk, parts: seq<Hunk>, j: nat, x: nat) returns (k: nat)
    requires Parts(s, h, parts) && j < |parts| && parts[j].start <= x < h.end
    ensures k < |parts| && parts[k].start <= x < parts[k].end
    decreases |parts| - j
  {
    hide HunkOk;
    if x < parts[j].end {
      return j;
    }
    assert j + 1 < |parts| && Cut(s, parts[j], parts[j + 1]);
    k := SomePart(s, h, parts, j + 1, x);
  }

  lemma SplitChosen(s: Script, hs: seq<Hunk>, k: nat, parts: seq<Hunk>, split: seq<Hunk>, all: bool, x: nat)
    requires k < |hs| && Parts(s, hs[k], parts) && split == hs[..k] + parts + hs[k + 1..]
    ensures Chosen(split, all, x) == Chosen(hs, all, x)
  {
    hide HunkOk;
    if Chosen(hs, all, x) {
      var i :| 0 <= i < |hs| && Picked(hs[i], all) && hs[i].start <= x < hs[i].end;
      var n := i;
      if i == k { n := SomePart(s, hs[k], parts, 0, x); }
      var m := if i < k then i else if i == k then k + n else i + |parts| - 1;
      assert split[m] == if i == k then parts[n] else hs[i];
    }
    if Chosen(split, all, x) {
      var m :| 0 <= m < |split| && Picked(split[m], all) && split[m].start <= x < split[m].end;
      if k <= m < k + |parts| {
        assert split[m] == parts[m - k];
        PartFrom(s, hs[k], parts, m - k);
        PartTo(s, hs[k], parts, m - k);
        assert Picked(hs[k], all);
      } else {
        assert split[m] == hs[if m < k then m else m - |parts| + 1];
      }
    }
  }

  /** Splitting alone does not change what the patch does. */
  lemma {:induction false} SplitKeepsGoal(s: Script, hs: seq<Hunk>, k: nat, parts: seq<Hunk>, split: seq<Hunk>,
                                          all: bool, from: Side, a: nat, b: nat)
    requires k < |hs| && Parts(s, hs[k], parts) && split == hs[..k] + parts + hs[k + 1..] && a <= b <= |s|
    ensures Goal(s, split, all, from, a, b) == Goal(s, hs, all, from, a, b)
    decreases b
  {
    hide Chosen, Parts;
    if a < b {
      SplitChosen(s, hs, k, parts, split, all, b - 1);
      SplitKeepsGoal(s, hs, k, parts, split, all, from, a, b - 1);
    }
  }

  /** What was chosen: the lines of the hunks marked for use. */
  lemma ChosenUsed(hs: seq<Hunk>, x: nat)
    ensures Chosen(hs, false, x) <==> exists k | 0 <= k < |hs| :: hs[k].use == Used && hs[k].start <= x < hs[k].end
  {
    if k :| 0 <= k < |hs| && hs[k].use == Used && hs[k].start <= x < hs[k].end { assert Picked(hs[k], false); }
  }

  class FileDiff {
    const script: Script
    var hunks: seq<Hunk>

    ghost predicate Valid()
      reads this
    {
      HunksOk(script, hunks)
    }

    constructor (script: Script, hunks: seq<Hunk>)
      requires HunksOk(script, hunks)
      ensures Valid() && this.script == script && this.hunks == hunks
    {
      this.script, this.hunks := script, hunks;
    }

    /** split_hunk: the hunk makes room for its parts, which keep its choice. */
    method Split(k: nat) returns (ghost parts: seq<Hunk>)
      requires Valid() && k < |hunks|
      modifies this
      ensures Valid() && Parts(script, old(hunks)[k], parts)
      ensures hunks == old(hunks)[..k] + parts + old(hunks)[k + 1..]
      ensures forall all: bool, from: Side ::
              Goal(script, hunks, all, from, 0, |script|) == Goal(script, old(hunks), all, from, 0, |script|)
    {
      hide HunksOk, Parts, Goal, HunkOk;
      OneOk(script, hunks, k);
      var ps := SplitHunk(script, hunks[k]);
      PartsFit(script, hunks, k, ps);
      parts := ps;
      forall all: bool, from: Side
        ensures Goal(script, hunks[..k] + ps + hunks[k + 1..], all, from, 0, |script|)
                == Goal(script, hunks, all, from, 0, |script|)
      {
        SplitKeepsGoal(script, hunks, k, ps, hunks[..k] + ps + hunks[k + 1..], all, from, 0, |script|);
      }
      hunks := hunks[..k] + ps + hunks[k + 1..];
    }

    /** Choose or leave out a hunk. */
    method Choose(k: nat, use: Use)
      requires Valid() && k < |hunks|
      modifies this
      ensures Valid() && hunks == old(hunks)[k := old(hunks)[k].(use := use)]
    {
      ChoiceKeeps(script, hunks, k, use);
      hunks := hunks[k := hunks[k].(use := use)];
    }

    /** The patch for the chosen hunks does what was chosen, exactly when every overlap of chosen
        neighbours can be seen; otherwise it does not apply. */
    method Patch(reverse: bool) returns (out: seq<Emitted>)
      requires Valid()
      ensures var from := if reverse then New else Old;
              Applied(Text(script, 0, |script|, from), out, from)
                == if OverlapsSeen(script, hunks, false)
                   then Ok(Goal(script, hunks, false, from, 0, |script|), |Text(script, 0, |script|, from)|)
                   else Fail
    {
      out := Reassemble(script, hunks, false, reverse);
    }
  }

  lemma OneOk(s: Script, hs: seq<Hunk>, k: nat)
    requires HunksOk(s, hs) && k < |hs|
    ensures HunkOk(s, hs[k])
  {}

  lemma ChoiceKeeps(s: Script, hs: seq<Hunk>, k: nat, use: Use)
    requires HunksOk(s, hs) && k < |hs|
    ensures HunksOk(s, hs[k := hs[k].(use := use)])
  {
    var r := hs[k := hs[k].(use := use)];
    hide HunkOk, Overlap, Apart;
    forall i | 0 <= i < |r| ensures HunkOk(s, r[i]) { SameHunk(s, hs[i], r[i]); }
    forall i | 0 <= i < |r| - 1 ensures Overlap(s, r[i], r[i + 1]) || Apart(s, r[i], r[i + 1]) {
      assert Overlap(s, hs[i], hs[i + 1]) || Apart(s, hs[i], hs[i + 1]);
      SameLink(s, hs[i], hs[i + 1], r[i], r[i + 1]);
    }
  }

  lemma SameHunk(s: Script, h: Hunk, g: Hunk)
    requires HunkOk(s, h) && g == h.(use := g.use)
    ensures HunkOk(s, g)
  {}

  lemma SameLink(s: Script, h: Hunk, g: Hunk, h': Hunk, g': Hunk)
    requires h' == h.(use := h'.use) && g' == g.(use := g'.use)
    ensures Overlap(s, h', g') == Overlap(s, h, g) && Apart(s, h', g') == Apart(s, h, g)
  {}

  // ---- a hunk that begins with a deletion

  /** Line "a" deleted and line "c" added around line "b": two groups. */
  function DeletionFirst(): Script {
    [Line(Del, "a"), Line(Ctx, "b"), Line(Add, "c")]
  }

  lemma DeletionFirstOk(h: Hunk)
    requires h.start == 0 && h.end == 3 && h.splittable == 2 && h.header == Header(1, 2, 1, 2)
    ensures HunksOk(DeletionFirst(), [h]) && Text(DeletionFirst(), 0, 3, Old) == ["a", "b"]
  {
    var s := DeletionFirst();
    assert IsStart(s, 0) && !IsStart(s, 1) && IsStart(s, 2);
    assert Groups(s, 0, 1) == 1 && Groups(s, 0, 2) == 1;
    assert Count(s, 0, 1, Old) == 1 && Count(s, 0, 2, Old) == 2;
    assert Count(s, 0, 1, New) == 0 && Count(s, 0, 2, New) == 1;
    assert Text(s, 0, 1, Old) == ["a"] && Text(s, 0, 2, Old) == ["a", "b"];
  }

  lemma DeletionFirstGoal(h: Hunk)
    requires h.start == 0 && h.end == 3 && h.use == Used
    ensures Goal(DeletionFirst(), [h], false, Old, 0, 3) == ["b", "c"] && OverlapsSeen(DeletionFirst(), [h], false)
  {
    var s, hs := DeletionFirst(), [h];
    forall x | 0 <= x < 3 ensures Chosen(hs, false, x) { assert Picked(hs[0], false); }
    hide Chosen;
    assert Goal(s, hs, false, Old, 0, 1) == [] && Goal(s, hs, false, Old, 0, 2) == ["b"];
  }

  lemma DeletionFirstMissed(p: Hunk, q: Hunk)
    requires p.start == 0 && q.end == 3 && Cut(DeletionFirst(), p, q) && p.use == q.use == Used
    ensures Missed(DeletionFirst(), [p, q], false, 0)
  {
    assert Count(DeletionFirst(), 0, 1, New) == 0;
  }

  /** Chosen as one hunk, the change applies; split, with both parts chosen, it does not. */
  method LeadingDeletion() returns (whole: seq<Emitted>, split: seq<Emitted>)
    ensures Applied(["a", "b"], whole, Old) == Ok(["b", "c"], 2)
    ensures Applied(["a", "b"], split, Old) == Fail
  {
    hide HunksOk, Missed, HunkOk, Cut;
    var h := Hunk(0, 3, 2, Undecided, Header(1, 2, 1, 2));
    DeletionFirstOk(h);
    var file := new FileDiff(DeletionFirst(), [h]);
    file.Choose(0, Used);
    DeletionFirstGoal(file.hunks[0]);
    whole := file.Patch(false);
    ghost var parts := file.Split(0);
    assert file.hunks == parts && Cut(file.script, parts[0], parts[1]) && parts == [parts[0], parts[1]];
    DeletionFirstMissed(parts[0], parts[1]);
    MissedOne(file.script, file.hunks, false, 0);
    split := file.Patch(false);
  }

  lemma MissedOne(s: Script, hs: seq<Hunk>, all: bool, k: nat)
    requires Missed(s, hs, all, k)
    ensures !OverlapsSeen(s, hs, all)
  {}
}
