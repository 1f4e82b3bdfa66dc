/** What a run of hunks makes of a file, wherever they are found. */
module ApplyRun {
  import opened ApplyLines
  import opened ApplyImage
  import opened ApplyFind
  import opened ApplyFragment

  // ---- the file as old lines and replaced stretches

  /** A line as it was, or a stretch that a hunk replaced. */
  datatype Cell = Keep(line: string) | Swap(hunk: nat, last: Try, pre: seq<string>, post: seq<string>)

  ghost function Was(c: Cell): seq<string> {
    match c
    case Keep(line) => [line]
    case Swap(_, _, pre, _) => pre
  }

  ghost function Is(c: Cell): seq<string> {
    match c
    case Keep(line) => [line]
    case Swap(_, _, _, post) => post
  }

  ghost function Before(cells: seq<Cell>): seq<string> {
    if cells == [] then [] else Was(cells[0]) + Before(cells[1..])
  }

  ghost function After(cells: seq<Cell>): seq<string> {
    if cells == [] then [] else Is(cells[0]) + After(cells[1..])
  }

  ghost function Marks(n: nat, made: bool): (r: seq<bool>)
    ensures |r| == n && forall i | 0 <= i < n :: r[i] == made
  {
    seq(n, _ => made)
  }

  /** Which lines a hunk made. */
  ghost function Made(cells: seq<Cell>): seq<bool> {
    if cells == [] then [] else Marks(|Is(cells[0])|, cells[0].Swap?) + Made(cells[1..])
  }

  /** The hunks that replaced something. */
  ghost function Hunks(cells: seq<Cell>): multiset<nat> {
    if cells == [] then multiset{}
    else (if cells[0].Swap? then multiset{cells[0].hunk} else multiset{}) + Hunks(cells[1..])
  }

  lemma {:induction false} LinesJoin(a: seq<Cell>, b: seq<Cell>)
    ensures Before(a + b) == Before(a) + Before(b) && After(a + b) == After(a) + After(b)
  {
    hide Was, Is;
    if a == [] {
      assert a + b == b;
    } else {
      assert (a + b)[1..] == a[1..] + b;
      LinesJoin(a[1..], b);
    }
  }

  lemma {:induction false} MarksJoin(a: seq<Cell>, b: seq<Cell>)
    ensures Made(a + b) == Made(a) + Made(b) && Hunks(a + b) == Hunks(a) + Hunks(b)
  {
    hide Is, Marks;
    if a == [] {
      assert a + b == b;
    } else {
      assert (a + b)[1..] == a[1..] + b;
      MarksJoin(a[1..], b);
    }
  }

  lemma CellsJoin(a: seq<Cell>, b: seq<Cell>)
    ensures Before(a + b) == Before(a) + Before(b) && After(a + b) == After(a) + After(b)
    ensures Made(a + b) == Made(a) + Made(b) && Hunks(a + b) == Hunks(a) + Hunks(b)
  {
    hide *;
    LinesJoin(a, b);
    MarksJoin(a, b);
  }

  lemma CellsOne(c: Cell)
    ensures Before([c]) == Was(c) && After([c]) == Is(c) && Made([c]) == Marks(|Is(c)|, c.Swap?)
    ensures Hunks([c]) == if c.Swap? then multiset{c.hunk} else multiset{}
  {
    assert [c][1..] == [];
  }

  lemma {:induction false} MadeSize(cells: seq<Cell>)
    ensures |Made(cells)| == |After(cells)|
  {
    if cells != [] { MadeSize(cells[1..]); }
  }

  /** No stretch is empty. */
  ghost predicate Solid(cells: seq<Cell>) {
    forall i | 0 <= i < |cells| :: Is(cells[i]) != []
  }

  // ---- finding a stretch of old lines

  /** The cell where line `pos` starts, if that is an old line. */
  lemma {:induction false} CellOf(cells: seq<Cell>, pos: nat) returns (i: nat)
    requires pos < |After(cells)| && |Made(cells)| == |After(cells)| && !Made(cells)[pos]
    ensures i < |cells| && cells[i].Keep? && |After(cells[..i])| == pos && After(cells)[pos] == cells[i].line
  {
    MadeSize(cells[1..]);
    var n := |Is(cells[0])|;
    if pos < n {
      i := 0;
      assert cells[..0] == [];
    } else {
      var k := CellOf(cells[1..], pos - n);
      i := k + 1;
      assert cells[..i] == [cells[0]] + cells[1..][..k];
      CellsJoin([cells[0]], cells[1..][..k]);
      CellsOne(cells[0]);
    }
  }

  /** Old lines that follow one another are cells that do. */
  lemma {:induction false} KeepsFollow(cells: seq<Cell>, n: nat)
    requires Solid(cells) && n <= |After(cells)| && |Made(cells)| == |After(cells)|
    requires forall p | 0 <= p < n :: !Made(cells)[p]
    ensures n <= |cells| && After(cells[..n]) == After(cells)[..n] && Before(cells[..n]) == After(cells[..n])
    ensures Hunks(cells[..n]) == multiset{}
    decreases n
  {
    if n == 0 {
      assert cells[..0] == [];
    } else {
      FirstKeep(cells);
      hide *;
      var c, tail := cells[0], cells[1..];
      MadeSize(tail);
      assert forall p | 0 <= p < n - 1 :: Made(tail)[p] == Made(cells)[p + 1];
      SolidTail(cells);
      KeepsFollow(tail, n - 1);
      assert cells[..n] == [c] + tail[..n - 1];
      CellsJoin([c], tail[..n - 1]);
      assert ([c.line] + After(tail))[..n] == [c.line] + After(tail)[..n - 1];
    }
  }

  lemma SolidTail(cells: seq<Cell>)
    requires Solid(cells) && cells != []
    ensures Solid(cells[1..])
  {}

  lemma FirstMade(cells: seq<Cell>)
    requires cells != [] && Is(cells[0]) != []
    ensures |Made(cells)| > 0 && Made(cells)[0] == cells[0].Swap?
  {}

  lemma FirstKeep(cells: seq<Cell>)
    requires Solid(cells) && cells != [] && |Made(cells)| > 0 && !Made(cells)[0]
    ensures cells[0].Keep? && After(cells) == [cells[0].line] + After(cells[1..])
    ensures Made(cells) == [false] + Made(cells[1..])
    ensures After([cells[0]]) == [cells[0].line] == Before([cells[0]]) && Hunks([cells[0]]) == multiset{}
  {
    hide Before, After, Made, Hunks;
    FirstMade(cells);
    CellsOne(cells[0]);
    assert cells == [cells[0]] + cells[1..];
    CellsJoin([cells[0]], cells[1..]);
  }

  /** The cells of a stretch of old lines. */
  lemma Stretch(cells: seq<Cell>, pos: nat, pre: seq<string>) returns (a: seq<Cell>, keeps: seq<Cell>, rest: seq<Cell>)
    requires Solid(cells) && pre != [] && |Made(cells)| == |After(cells)|
    requires pos + |pre| <= |After(cells)| && After(cells)[pos..pos + |pre|] == pre
    requires forall p | pos <= p < pos + |pre| :: !Made(cells)[p]
    ensures cells == a + (keeps + rest) && |After(a)| == pos && |After(keeps)| == |pre|
    ensures Before(keeps) == After(keeps) && Hunks(keeps) == multiset{}
  {
    hide Before, After, Made, Hunks;
    var i := CellOf(cells, pos);
    var n, b := |pre|, cells[i..];
    a := cells[..i];
    assert cells == a + b;
    CellsJoin(a, b);
    MadeSize(a);
    MadeSize(b);
    assert forall p | 0 <= p < n :: Made(cells)[pos + p] == Made(b)[p];
    KeepsFollow(b, n);
    keeps, rest := b[..n], b[n..];
    assert b == keeps + rest;
  }

  /** A stretch of old lines can be replaced by a new cell. */
  lemma SwapIn(cells: seq<Cell>, pos: nat, c: Cell) returns (cells': seq<Cell>)
    requires Solid(cells) && c.Swap? && c.pre != [] && c.post != [] && |Made(cells)| == |After(cells)|
    requires pos + |c.pre| <= |After(cells)| && After(cells)[pos..pos + |c.pre|] == c.pre
    requires forall p | pos <= p < pos + |c.pre| :: !Made(cells)[p]
    ensures Solid(cells') && Before(cells') == Before(cells) && Hunks(cells') == Hunks(cells) + multiset{c.hunk}
    ensures After(cells') == After(cells)[..pos] + c.post + After(cells)[pos + |c.pre|..]
    ensures Made(cells') == Made(cells)[..pos] + Marks(|c.post|, true) + Made(cells)[pos + |c.pre|..]
    ensures forall x | x in cells' :: x == c || x in cells
  {
    hide Before, After, Made, Hunks;
    var a, keeps, rest := Stretch(cells, pos, c.pre);
    cells' := a + ([c] + rest);
    assert Is(c) == c.post;
    SwapSolid(a, keeps, rest, c);
    SwapLines(a, keeps, rest, c);
    SwapMarks(a, keeps, rest, c);
  }

  lemma SwapLines(a: seq<Cell>, keeps: seq<Cell>, rest: seq<Cell>, c: Cell)
    requires c.Swap? && |After(keeps)| == |c.pre| && Before(keeps) == After(keeps)
    requires |After(a)| + |c.pre| <= |After(a + (keeps + rest))|
    requires After(a + (keeps + rest))[|After(a)|..|After(a)| + |c.pre|] == c.pre
    ensures var before, pos := a + (keeps + rest), |After(a)|;
            && Before(a + ([c] + rest)) == Before(before)
            && After(a + ([c] + rest)) == After(before)[..pos] + c.post + After(before)[pos + |c.pre|..]
  {
    CellsOne(c);
    hide Before, After;
    LinesJoin(keeps, rest);
    LinesJoin(a, keeps + rest);
    LinesJoin([c], rest);
    LinesJoin(a, [c] + rest);
    SwapText(After(a), After(keeps), After(rest), c.pre, c.post);
  }

  lemma SwapText(a: seq<string>, k: seq<string>, r: seq<string>, pre: seq<string>, post: seq<string>)
    requires |k| == |pre| && (a + (k + r))[|a|..|a| + |pre|] == pre
    ensures k == pre
    ensures a + (post + r) == (a + (k + r))[..|a|] + post + (a + (k + r))[|a| + |pre|..]
  {
    var all := a + (k + r);
    assert all[|a|..|a| + |pre|] == k;
    assert all[..|a|] == a && all[|a| + |pre|..] == r;
  }

  lemma SwapMarks(a: seq<Cell>, keeps: seq<Cell>, rest: seq<Cell>, c: Cell)
    requires c.Swap? && |After(keeps)| == |c.pre| && Hunks(keeps) == multiset{}
    requires |After(a)| + |c.pre| <= |Made(a + (keeps + rest))|
    ensures var before, pos := a + (keeps + rest), |After(a)|;
            && Hunks(a + ([c] + rest)) == Hunks(before) + multiset{c.hunk}
            && Made(a + ([c] + rest)) == Made(before)[..pos] + Marks(|c.post|, true) + Made(before)[pos + |c.pre|..]
  {
    assert Is(c) == c.post;
    CellsOne(c);
    hide *;
    MarksJoin(keeps, rest);
    MarksJoin(a, keeps + rest);
    MarksJoin([c], rest);
    MarksJoin(a, [c] + rest);
    MadeSize(a);
    MadeSize(keeps);
    SplicedMarks(Made(a), Made(keeps), Made(rest), Marks(|c.post|, true), |c.pre|);
  }

  lemma SwapSolid(a: seq<Cell>, keeps: seq<Cell>, rest: seq<Cell>, c: Cell)
    requires Solid(a + (keeps + rest)) && Is(c) != []
    ensures Solid(a + ([c] + rest)) && forall x | x in a + ([c] + rest) :: x == c || x in a + (keeps + rest)
  {
    hide Is;
    var before, after := a + (keeps + rest), a + ([c] + rest);
    assert forall i | 0 <= i < |a| :: after[i] == before[i];
    assert forall i | 0 <= i < |rest| :: after[|a| + 1 + i] == rest[i] == before[|a| + |keeps| + i];
  }

  lemma SplicedMarks(a: seq<bool>, k: seq<bool>, r: seq<bool>, post: seq<bool>, n: nat)
    requires |k| == n
    ensures a + (post + r) == (a + (k + r))[..|a|] + post + (a + (k + r))[|a| + n..]
  {}

  // ---- a run

  /** One hunk: the end of its search, and the file after it. */
  datatype Step = Step(pos: int, last: Try, lines: seq<string>, table: seq<LineRec>)

  /** The hunk was searched for in `lines` and, where it was found, applied. */
  ghost predicate StepOk(f: Frag, reverse: bool, o: Options, lines: seq<string>, table: seq<LineRec>, step: Step) {
    && |lines| == |table| && FragOk(f, reverse) && Within(f, step.last)
    && Outcome(lines, table, f, reverse, o, FirstTry(f, o), step.pos, step.last)
    && (if step.pos < 0 then step.lines == lines && step.table == table
        else
          && Replaced(lines, step.lines, step.pos, Drop(Pre(f, reverse), step.last.front, step.last.back),
                      Drop(Post(f, reverse), step.last.front, step.last.back))
          && Remarked(table, step.table, step.pos, |Drop(Pre(f, reverse), step.last.front, step.last.back)|,
                      |Drop(Post(f, reverse), step.last.front, step.last.back)|, !o.allowOverlap))
  }

  ghost function LinesAt(lines: seq<string>, steps: seq<Step>, k: nat): seq<string>
    requires k <= |steps|
  {
    if k == 0 then lines else steps[k - 1].lines
  }

  ghost function TableAt(table: seq<LineRec>, steps: seq<Step>, k: nat): seq<LineRec>
    requires k <= |steps|
  {
    if k == 0 then table else steps[k - 1].table
  }

  /** Each hunk in turn, from the file that those before it left. */
  ghost predicate Ran(frags: seq<Frag>, reverse: bool, o: Options, lines: seq<string>, table: seq<LineRec>,
                      steps: seq<Step>) {
    && |steps| <= |frags|
    && forall k | 0 <= k < |steps| ::
         StepOk(frags[k], reverse, o, LinesAt(lines, steps, k), TableAt(table, steps, k), steps[k])
  }

  lemma AtSame(lines: seq<string>, table: seq<LineRec>, steps: seq<Step>, step: Step, k: nat)
    requires k <= |steps|
    ensures LinesAt(lines, steps + [step], k) == LinesAt(lines, steps, k)
    ensures TableAt(table, steps + [step], k) == TableAt(table, steps, k)
  {}

  lemma RanMore(frags: seq<Frag>, reverse: bool, o: Options, lines: seq<string>, table: seq<LineRec>, steps: seq<Step>,
                step: Step)
    requires Ran(frags, reverse, o, lines, table, steps) && |steps| < |frags|
    requires StepOk(frags[|steps|], reverse, o, LinesAt(lines, steps, |steps|), TableAt(table, steps, |steps|), step)
    ensures Ran(frags, reverse, o, lines, table, steps + [step])
  {
    hide StepOk, LinesAt, TableAt;
    var more := steps + [step];
    forall k | 0 <= k < |more|
      ensures StepOk(frags[k], reverse, o, LinesAt(lines, more, k), TableAt(table, more, k), more[k])
    {
      AtSame(lines, table, steps, step, k);
    }
  }

  // ---- where the lines of a run came from

  ghost predicate Whole(lines: seq<string>) {
    forall i | 0 <= i < |lines| :: Complete(lines[i])
  }

  /** Something of the hunk is left on both sides whatever context it gives up. */
  ghost predicate Anchored(f: Frag, reverse: bool, o: Options) {
    && Pre(f, reverse) != [] && Post(f, reverse) != []
    && (|| AtLimit(f, o, FirstTry(f, o))
        || (o.minContext > 0 && f.leading + f.trailing > 0)
        || (|Pre(f, reverse)| > f.leading + f.trailing && |Post(f, reverse)| > f.leading + f.trailing))
  }

  /** A hunk of complete lines that keeps something to hold on to. */
  ghost predicate Sturdy(f: Frag, reverse: bool, o: Options) {
    FragOk(f, reverse) && Whole(Pre(f, reverse)) && Whole(Post(f, reverse)) && Anchored(f, reverse, o)
  }

  lemma WholeProper(lines: seq<string>)
    requires Whole(lines)
    ensures Proper(lines) && EndsWhole(lines, false)
  {}

  lemma SturdySteady(f: Frag, reverse: bool, o: Options)
    requires Sturdy(f, reverse, o)
    ensures Proper(Pre(f, reverse)) && Steady(f, reverse, o)
  {
    WholeProper(Pre(f, reverse));
    hide Pre, Complete, Anchored, Whole;
  }

  lemma ReplacedProper(before: seq<string>, after: seq<string>, pos: nat, pre: seq<string>, post: seq<string>)
    requires Proper(before) && Whole(post) && pre != [] && Replaced(before, after, pos, pre, post)
    ensures Proper(after)
  {
    hide LineShape, Complete;
    assert forall i | 0 <= i < |post| :: Complete(post[i]);
    assert forall i | 0 <= i < |after| ::
             after[i] == if i < pos then before[i] else if i < pos + |post| then post[i - pos]
               else before[i - |post| + |pre|];
    WholeShape(post);
  }

  lemma WholeShape(lines: seq<string>)
    requires Whole(lines)
    ensures forall i | 0 <= i < |lines| :: LineShape(lines[i])
  {}

  lemma WholeDrops(lines: seq<string>, front: nat, back: nat)
    requires Whole(lines) && front + back <= |lines|
    ensures Whole(Drop(lines, front, back))
  {
    hide Complete;
  }

  lemma StillAnchored(f: Frag, reverse: bool, o: Options, last: Try)
    requires FragOk(f, reverse) && Anchored(f, reverse, o) && Within(f, last)
    requires last.front > 0 ==> f.leading - last.front >= o.minContext
    requires last.back > 0 ==> f.trailing - last.back >= o.minContext
    requires AtLimit(f, o, FirstTry(f, o)) ==> last == FirstTry(f, o)
    ensures Drop(Pre(f, reverse), last.front, last.back) != [] && Drop(Post(f, reverse), last.front, last.back) != []
  {
    hide Pre, Post;
  }

  ghost function Applied(n: nat, rejected: set<nat>): set<nat> {
    set k: nat | k < n && k !in rejected
  }

  ghost predicate CellOk(c: Cell, frags: seq<Frag>, reverse: bool) {
    c.Swap? ==>
      && c.hunk < |frags| && FragOk(frags[c.hunk], reverse) && Within(frags[c.hunk], c.last)
      && c.pre == Drop(Pre(frags[c.hunk], reverse), c.last.front, c.last.back)
      && c.post == Drop(Post(frags[c.hunk], reverse), c.last.front, c.last.back)
  }

  /** The file after the first `n` hunks is the first file with disjoint stretches replaced: one
      for each hunk that was not rejected, which is its preimage there and its postimage now. */
  ghost predicate LaidOut(cells: seq<Cell>, frags: seq<Frag>, reverse: bool, n: nat, rejected: set<nat>,
                          first: seq<string>, lines: seq<string>, table: seq<LineRec>) {
    && Solid(cells) && Before(cells) == first && After(cells) == lines
    && |Made(cells)| == |table| && (forall i | 0 <= i < |table| :: table[i].patched == Made(cells)[i])
    && Hunks(cells) == multiset(Applied(n, rejected)) && forall c | c in cells :: CellOk(c, frags, reverse)
  }

  ghost function Keeps(lines: seq<string>): (cells: seq<Cell>)
    ensures |cells| == |lines| && forall i | 0 <= i < |lines| :: cells[i] == Keep(lines[i])
  {
    seq(|lines|, i requires 0 <= i < |lines| => Keep(lines[i]))
  }

  lemma {:induction false} KeepsAre(lines: seq<string>)
    ensures Before(Keeps(lines)) == lines && After(Keeps(lines)) == lines
    ensures Made(Keeps(lines)) == Marks(|lines|, false) && Hunks(Keeps(lines)) == multiset{}
  {
    if lines != [] {
      assert Keeps(lines)[1..] == Keeps(lines[1..]);
      KeepsAre(lines[1..]);
      assert lines == [lines[0]] + lines[1..];
    }
  }

  lemma LayOut(frags: seq<Frag>, reverse: bool, lines: seq<string>, table: seq<LineRec>)
    requires |table| == |lines| && forall i | 0 <= i < |table| :: !table[i].patched
    ensures LaidOut(Keeps(lines), frags, reverse, 0, {}, lines, lines, table)
  {
    KeepsAre(lines);
    assert Applied(0, {}) == {};
    hide Before, After, Made, Hunks;
  }

  lemma AppliedNext(n: nat, rejected: set<nat>)
    requires forall k | k in rejected :: k < n
    ensures Applied(n + 1, rejected) == Applied(n, rejected) + {n} && n !in Applied(n, rejected)
    ensures Applied(n + 1, rejected + {n}) == Applied(n, rejected)
    ensures multiset(Applied(n + 1, rejected)) == multiset(Applied(n, rejected)) + multiset{n}
  {}

  lemma HunkRejected(cells: seq<Cell>, frags: seq<Frag>, reverse: bool, n: nat, rejected: set<nat>,
                     first: seq<string>, lines: seq<string>, table: seq<LineRec>)
    requires LaidOut(cells, frags, reverse, n, rejected, first, lines, table) && forall k | k in rejected :: k < n
    ensures LaidOut(cells, frags, reverse, n + 1, rejected + {n}, first, lines, table)
  {
    AppliedNext(n, rejected);
    hide *;
    SameCells(cells, frags, reverse, n, rejected, n + 1, rejected + {n}, first, lines, table);
  }

  lemma SameCells(cells: seq<Cell>, frags: seq<Frag>, reverse: bool, n: nat, rejected: set<nat>, n': nat,
                  rejected': set<nat>, first: seq<string>, lines: seq<string>, table: seq<LineRec>)
    requires LaidOut(cells, frags, reverse, n, rejected, first, lines, table)
             && Applied(n, rejected) == Applied(n', rejected')
    ensures LaidOut(cells, frags, reverse, n', rejected', first, lines, table)
  {
    hide Before, After, Made, Hunks, Applied, CellOk, Solid;
  }

  /** A hunk that is found takes a stretch of old lines. */
  lemma HunkApplied(cells: seq<Cell>, frags: seq<Frag>, reverse: bool, o: Options, n: nat, rejected: set<nat>,
                    first: seq<string>, lines: seq<string>, table: seq<LineRec>, step: Step) returns (cells': seq<Cell>)
    requires LaidOut(cells, frags, reverse, n, rejected, first, lines, table) && forall k | k in rejected :: k < n
    requires n < |frags| && Sturdy(frags[n], reverse, o) && Proper(lines) && !o.allowOverlap
    requires StepOk(frags[n], reverse, o, lines, table, step) && step.pos >= 0
    ensures LaidOut(cells', frags, reverse, n + 1, rejected, first, step.lines, step.table) && Proper(step.lines)
  {
    StepFacts(frags[n], reverse, o, lines, table, step);
    hide *;
    cells' := PutCell(cells, frags, reverse, n, rejected, first, lines, table, step);
  }

  /** What one hunk of a sturdy patch does. */
  lemma StepFacts(f: Frag, reverse: bool, o: Options, lines: seq<string>, table: seq<LineRec>, step: Step)
    requires Sturdy(f, reverse, o) && Proper(lines) && !o.allowOverlap
    requires StepOk(f, reverse, o, lines, table, step) && step.pos >= 0
    ensures Within(f, step.last) && SwapOk(f, reverse, lines, table, step)
    ensures Proper(step.lines)
  {
    var last := step.last;
    var pre, post := Drop(Pre(f, reverse), last.front, last.back), Drop(Post(f, reverse), last.front, last.back);
    SturdySteady(f, reverse, o);
    OutcomeFacts(lines, table, f, reverse, o, step.pos, last);
    OutcomeEnds(lines, table, f, reverse, o, FirstTry(f, o), step.pos, last);
    StillAnchored(f, reverse, o, last);
    WholeDrops(Post(f, reverse), last.front, last.back);
    ReplacedProper(lines, step.lines, step.pos, pre, post);
    hide *;
    MakeSwapOk(f, reverse, lines, table, step);
  }

  lemma MakeSwapOk(f: Frag, reverse: bool, lines: seq<string>, table: seq<LineRec>, step: Step)
    requires Within(f, step.last) && FragOk(f, reverse) && SamePreimage(lines, f, reverse, step.last, step.pos)
    requires |lines| == |table| && Untouched(table, step.pos, |Pre(f, reverse)| - step.last.front - step.last.back)
    requires var pre, post := Drop(Pre(f, reverse), step.last.front, step.last.back),
             Drop(Post(f, reverse), step.last.front, step.last.back);
             && pre != [] && post != [] && Replaced(lines, step.lines, step.pos, pre, post)
             && Remarked(table, step.table, step.pos, |pre|, |post|, true)
    ensures SwapOk(f, reverse, lines, table, step)
  {
    hide Pre, Post, Remarked, Untouched;
  }

  /** The step replaces old lines that are the preimage. */
  ghost predicate SwapOk(f: Frag, reverse: bool, lines: seq<string>, table: seq<LineRec>, step: Step)
    requires Within(f, step.last)
  {
    && FragOk(f, reverse)
    && var pre, post := Drop(Pre(f, reverse), step.last.front, step.last.back),
       Drop(Post(f, reverse), step.last.front, step.last.back);
       && pre != [] && post != [] && 0 <= step.pos && step.pos + |pre| <= |lines| == |table|
       && lines[step.pos..step.pos + |pre|] == pre && Untouched(table, step.pos, |pre|)
       && step.lines == lines[..step.pos] + post + lines[step.pos + |pre|..]
       && Remarked(table, step.table, step.pos, |pre|, |post|, true)
  }

  lemma PutCell(cells: seq<Cell>, frags: seq<Frag>, reverse: bool, n: nat, rejected: set<nat>, first: seq<string>,
                lines: seq<string>, table: seq<LineRec>, step: Step) returns (cells': seq<Cell>)
    requires LaidOut(cells, frags, reverse, n, rejected, first, lines, table) && forall k | k in rejected :: k < n
    requires n < |frags| && Within(frags[n], step.last) && SwapOk(frags[n], reverse, lines, table, step)
    ensures LaidOut(cells', frags, reverse, n + 1, rejected, first, step.lines, step.table)
  {
    hide Pre, Post, Drop, Before, After, Made, Hunks, Applied, Solid, Is;
    var f, last := frags[n], step.last;
    var pre, post := Drop(Pre(f, reverse), last.front, last.back), Drop(Post(f, reverse), last.front, last.back);
    MadeSize(cells);
    cells' := SwapIn(cells, step.pos, Swap(n, last, pre, post));
    AppliedNext(n, rejected);
    MarksAfter(Made(cells), Made(cells'), table, step.table, step.pos, |pre|, |post|);
  }

  lemma MarksAfter(made: seq<bool>, made': seq<bool>, table: seq<LineRec>, table': seq<LineRec>, pos: nat, n: nat,
                   m: nat)
    requires |made| == |table| && (forall i | 0 <= i < |table| :: table[i].patched == made[i])
    requires pos + n <= |made| && made' == made[..pos] + Marks(m, true) + made[pos + n..]
    requires Remarked(table, table', pos, n, m, true)
    ensures |made'| == |table'| && forall i | 0 <= i < |table'| :: table'[i].patched == made'[i]
  {}
}
