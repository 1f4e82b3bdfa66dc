/** One hunk of a patch: parse_fragment, apply_one_fragment and reverse_patches of apply.c. */
module ApplyFragment {
  import opened PatchScript
  import opened ApplyLines
  import opened ApplyImage
  import opened ApplyFind
  import opened ApplyHash

  /** A hunk: the line numbers of its header, its context and its lines. */
  datatype Frag = Frag(oldpos: nat, newpos: nat, leading: nat, trailing: nat, lines: Script)

  // ---- parsing

  predicate AnyChange(s: Script, n: nat)
    requires n <= |s|
  {
    exists i | 0 <= i < n :: Change(s[i])
  }

  /** The number of context lines before the first change. */
  function Leading(s: Script, n: nat): nat
    requires n <= |s|
  {
    if n == 0 then 0 else Leading(s, n - 1) + if s[n - 1].mark == Ctx && !AnyChange(s, n) then 1 else 0
  }

  /** The number of context lines after the last change. */
  function Trailing(s: Script, n: nat): nat
    requires n <= |s|
  {
    if n == 0 || Change(s[n - 1]) then 0 else Trailing(s, n - 1) + if s[n - 1].mark == Ctx then 1 else 0
  }

  /** Context before the first change and after the last one, by line counts. */
  lemma {:induction false} LeadingIs(s: Script, n: nat, k: nat)
    requires k < n <= |s| && Change(s[k]) && forall i | 0 <= i < k :: !Change(s[i])
    ensures Leading(s, n) == Count(s, 0, k, Old)
    decreases n
  {
    if n == k + 1 {
      LeadingBefore(s, k);
      assert AnyChange(s, n);
    } else {
      assert AnyChange(s, n);
      LeadingIs(s, n - 1, k);
    }
  }

  lemma {:induction false} LeadingBefore(s: Script, k: nat)
    requires k <= |s| && forall i | 0 <= i < k :: !Change(s[i])
    ensures Leading(s, k) == Count(s, 0, k, Old)
    decreases k
  {
    if k > 0 { LeadingBefore(s, k - 1); }
  }

  lemma {:induction false} TrailingIs(s: Script, n: nat, k: nat)
    requires k < n <= |s| && Change(s[k]) && forall i | k < i < n :: !Change(s[i])
    ensures Trailing(s, n) == Count(s, k + 1, n, Old)
    decreases n
  {
    if n > k + 1 { TrailingIs(s, n - 1, k); }
  }

  /** The lines that a header asks for are there. */
  ghost predicate Asked(s: Script, n: nat, oldlines: nat, newlines: nat) {
    n <= |s| && Count(s, 0, n, Old) == oldlines && Count(s, 0, n, New) == newlines && AnyChange(s, n)
  }

  lemma {:induction false} LeadingStops(s: Script, i: nat, n: nat)
    requires i <= n <= |s| && AnyChange(s, i)
    ensures Leading(s, n) == Leading(s, i)
    decreases n
  {
    if i < n {
      var k :| 0 <= k < i && Change(s[k]);
      assert AnyChange(s, n);
      LeadingStops(s, i, n - 1);
    }
  }

  lemma CountGrows(s: Script, k: nat, n: nat)
    requires k <= n <= |s|
    ensures Count(s, 0, k, Old) <= Count(s, 0, n, Old) && Count(s, 0, k, New) <= Count(s, 0, n, New)
    ensures Count(s, 0, k, Old) == Count(s, 0, n, Old) && Count(s, 0, k, New) == Count(s, 0, n, New) ==>
              forall i | k <= i < n :: s[i].mark == Note
  {
    CountSplit(s, 0, k, n, Old);
    CountSplit(s, 0, k, n, New);
    if Count(s, k, n, Old) == 0 && Count(s, k, n, New) == 0 { OnlyNotes(s, k, n); }
  }

  lemma {:induction false} OnlyNotes(s: Script, k: nat, n: nat)
    requires k <= n <= |s| && Count(s, k, n, Old) == 0 && Count(s, k, n, New) == 0
    ensures forall i | k <= i < n :: s[i].mark == Note
    decreases n
  {
    if k < n { OnlyNotes(s, k, n - 1); }
  }

  /** parse_fragment after the header: it succeeds exactly when the lines the header counts are
      there and change something.  A note right after them is taken too. */
  method ParseFragment(s: Script, oldlines: nat, newlines: nat)
    returns (ok: bool, leading: nat, trailing: nat, used: nat)
    ensures ok <==> exists n :: Asked(s, n, oldlines, newlines)
    ensures ok ==> Asked(s, used, oldlines, newlines) && leading == Leading(s, used) && trailing == Trailing(s, used)
    ensures ok && used < |s| ==> s[used].mark != Note || s[used - 1].mark == Note
  {
    var oldleft: int, newleft: int, changed := oldlines, newlines, false;
    leading, trailing, used, ok := 0, 0, 0, false;
    while used < |s| && !(oldleft == 0 && newleft == 0)
      invariant used <= |s| && changed == AnyChange(s, used)
      invariant oldleft == oldlines - Count(s, 0, used, Old) && newleft == newlines - Count(s, 0, used, New)
      invariant leading == Leading(s, used) && trailing == Trailing(s, used)
      invariant forall n | 0 <= n < used :: !(Count(s, 0, n, Old) == oldlines && Count(s, 0, n, New) == newlines)
    {
      match s[used].mark {
        case Ctx =>
          oldleft, newleft, trailing := oldleft - 1, newleft - 1, trailing + 1;
          if !changed {
            leading := leading + 1;
          }
        case Del =>
          oldleft, trailing, changed := oldleft - 1, 0, true;
          assert AnyChange(s, used + 1);
        case Add =>
          newleft, trailing, changed := newleft - 1, 0, true;
          assert AnyChange(s, used + 1);
        case Note =>
      }
      used := used + 1;
    }
    if oldleft != 0 || newleft != 0 || !changed {
      forall n | Asked(s, n, oldlines, newlines) ensures false {
        if used <= n { CountGrows(s, used, n); }
      }
      return;
    }
    ok := true;
    if used < |s| && s[used].mark == Note {
      LeadingStops(s, used, used + 1);
      used := used + 1;
    }
    assert Asked(s, used, oldlines, newlines);
  }

  /** Leading and trailing context do not overlap. */
  lemma {:induction false} ContextFits(s: Script, n: nat, side: Side)
    requires n <= |s| && AnyChange(s, n)
    ensures Leading(s, n) + Trailing(s, n) <= Count(s, 0, n, side)
    decreases n
  {
    if Change(s[n - 1]) {
      LeadingFits(s, n, side);
    } else {
      assert AnyChange(s, n - 1);
      ContextFits(s, n - 1, side);
    }
  }

  lemma {:induction false} LeadingFits(s: Script, n: nat, side: Side)
    requires n <= |s|
    ensures Leading(s, n) <= Count(s, 0, n, side)
    decreases n
  {
    if n > 0 { LeadingFits(s, n - 1, side); }
  }

  // ---- the images of a hunk

  function Flip(line: Line): Line {
    line.(mark := if line.mark == Del then Add else if line.mark == Add then Del else line.mark)
  }

  function Flipped(s: Script): (r: Script)
    ensures |r| == |s| && forall i | 0 <= i < |s| :: r[i] == Flip(s[i])
  {
    seq(|s|, i requires 0 <= i < |s| => Flip(s[i]))
  }

  /** A note takes away the newline of the line before it. */
  function EffText(s: Script, i: nat): string
    requires i < |s|
  {
    if i + 1 < |s| && s[i + 1].mark == Note && s[i].text != "" then s[i].text[..|s[i].text| - 1] else s[i].text
  }

  function Eff(s: Script): (r: Script)
    ensures |r| == |s| && forall i | 0 <= i < |s| :: r[i] == Line(s[i].mark, EffText(s, i))
  {
    seq(|s|, i requires 0 <= i < |s| => Line(s[i].mark, EffText(s, i)))
  }

  /** The lines a hunk is applied to, and those it makes of them. */
  ghost function Pre(f: Frag, reverse: bool): seq<string> {
    Text(Eff(f.lines), 0, |f.lines|, if reverse then New else Old)
  }

  ghost function Post(f: Frag, reverse: bool): seq<string> {
    Text(Eff(f.lines), 0, |f.lines|, if reverse then Old else New)
  }

  lemma NoText(s: Script)
    ensures Text(s, 0, 0, Old) == [] == Text(s, 0, 0, New)
  {}

  lemma TextNext(s: Script, i: nat, side: Side)
    requires i < |s|
    ensures Text(s, 0, i + 1, side) == if Has(s[i], side) then Text(s, 0, i, side) + [s[i].text]
            else Text(s, 0, i, side)
  {}

  /** The first loop of apply_one_fragment. */
  method BuildImages(f: Frag, reverse: bool) returns (pre: Image, post: Image)
    ensures fresh(pre) && fresh(post) && pre != post && pre.Valid() && post.Valid()
    ensures pre.lines == Pre(f, reverse) && post.lines == Post(f, reverse)
    ensures forall i | 0 <= i < |post.table| :: !post.table[i].patched
  {
    pre := new Image();
    post := new Image();
    ghost var e := Eff(f.lines);
    hide Image.Valid, Hash, Text, EffText, Eff, Change, Count, Join;
    NoText(e);
    var i := 0;
    while i < |f.lines|
      invariant fresh(pre) && fresh(post) && pre != post && pre.Valid() && post.Valid()
      invariant 0 <= i <= |f.lines|
      invariant pre.lines == Text(e, 0, i, if reverse then New else Old)
      invariant post.lines == Text(e, 0, i, if reverse then Old else New)
      invariant forall k | 0 <= k < |post.table| :: !post.table[k].patched
      modifies pre, post
    {
      var text := EffText(f.lines, i);
      TextNext(e, i, Old);
      TextNext(e, i, New);
      var first := (if reverse then Flip(f.lines[i]) else f.lines[i]).mark;
      if first == Ctx || first == Del {
        pre.AddLine(text);
      }
      if first == Ctx || first == Add {
        post.AddLine(text);
      }
      i := i + 1;
    }
  }

  // ---- applying it

  /** What the caller of apply_one_fragment set up: the context that must match, and whether
      hunks may overlap.  Whitespace is not ignored here. */
  datatype Options = Options(unidiffZero: bool, minContext: nat, allowOverlap: bool)

  predicate MatchStart(f: Frag, o: Options) {
    f.oldpos == 0 || (f.oldpos == 1 && !o.unidiffZero)
  }

  predicate MatchEnd(f: Frag, o: Options) {
    !o.unidiffZero && f.trailing == 0
  }

  function Wanted(f: Frag): int {
    if f.newpos != 0 then f.newpos - 1 else 0
  }

  /** The context that may be dropped is there. */
  ghost predicate FragOk(f: Frag, reverse: bool) {
    f.leading + f.trailing <= |Pre(f, reverse)| && f.leading + f.trailing <= |Post(f, reverse)|
  }

  /** Lines [pos, pos + |pre|) of the image give way to `post`. */
  ghost predicate Replaced(before: seq<string>, after: seq<string>, pos: nat, pre: seq<string>, post: seq<string>) {
    pos + |pre| <= |before| && after == before[..pos] + post + before[pos + |pre|..]
  }

  /** So do `n` of the marks, to `m` new ones. */
  ghost predicate Remarked(before: seq<LineRec>, after: seq<LineRec>, pos: nat, n: nat, m: nat, patched: bool) {
    && pos + n <= |before| && |after| == |before| - n + m
    && (forall i | 0 <= i < pos :: after[i].patched == before[i].patched)
    && (forall i | pos <= i < pos + m :: after[i].patched == patched)
    && (forall i | pos + m <= i < |after| :: after[i].patched == before[i + n - m].patched)
  }

  function Drop<T>(s: seq<T>, front: nat, back: nat): seq<T>
    requires front + back <= |s|
  {
    s[front..|s| - back]
  }

  /** The hunk is found where its header says. */
  ghost predicate FoundThere(f: Frag, o: Options, reverse: bool, img: seq<string>, table: seq<LineRec>)
    requires |img| == |table|
  {
    var pre := Pre(f, reverse);
    var lno := Clamped(Wanted(f), |img|, |pre|, MatchStart(f, o), MatchEnd(f, o));
    && Fits(|img|, |pre|, lno, MatchStart(f, o), MatchEnd(f, o)) && Untouched(table, lno, |pre|)
    && img[lno..lno + |pre|] == pre
  }

  /** The images with `front` and `back` lines of context dropped. */
  ghost predicate Dropped(pre: Image, post: Image, f: Frag, reverse: bool, front: nat, back: nat)
    reads pre, post
  {
    && pre.Valid() && post.Valid() && front <= f.leading && back <= f.trailing && FragOk(f, reverse)
    && pre.lines == Drop(Pre(f, reverse), front, back) && post.lines == Drop(Post(f, reverse), front, back)
    && forall i | 0 <= i < |post.table| :: !post.table[i].patched
  }

  method DropFirst(pre: Image, post: Image, f: Frag, reverse: bool, ghost front: nat, ghost back: nat)
    requires Dropped(pre, post, f, reverse, front, back) && front < f.leading && pre != post
    modifies pre, post
    ensures Dropped(pre, post, f, reverse, front + 1, back)
  {
    ShorterBy(f, reverse, front, back, f.leading - front, f.trailing - back);
    hide Pre, Post, Drop, Image.Valid;
    pre.RemoveFirstLine();
    post.RemoveFirstLine();
  }

  method DropTail(pre: Image, post: Image, f: Frag, reverse: bool, ghost front: nat, ghost back: nat)
    requires Dropped(pre, post, f, reverse, front, back) && back < f.trailing && pre != post
    modifies pre, post
    ensures Dropped(pre, post, f, reverse, front, back + 1)
  {
    ShorterBy(f, reverse, front, back, f.leading - front, f.trailing - back);
    hide Pre, Post, Drop, Image.Valid;
    pre.RemoveLastLine();
    post.RemoveLastLine();
  }

  // ---- searching with less and less context

  /** One search: the context given up, and whether the hunk must be at either end. */
  datatype Try = Try(front: nat, back: nat, atStart: bool, atEnd: bool)

  function FirstTry(f: Frag, o: Options): Try {
    Try(0, 0, MatchStart(f, o), MatchEnd(f, o))
  }

  predicate Within(f: Frag, t: Try) {
    t.front <= f.leading && t.back <= f.trailing
  }

  /** No more context may be given up. */
  predicate AtLimit(f: Frag, o: Options, t: Try) {
    f.leading - t.front <= o.minContext && f.trailing - t.back <= o.minContext
  }

  /** First the ends are given up, then context from the longer side. */
  function NextTry(f: Frag, o: Options, t: Try): (r: Try)
    requires Within(f, t) && !AtLimit(f, o, t)
    ensures Within(f, r)
  {
    if t.atStart || t.atEnd then t.(atStart := false, atEnd := false)
    else
      var front := if f.leading - t.front >= f.trailing - t.back then t.front + 1 else t.front;
      var back := if f.trailing - t.back > f.leading - front then t.back + 1 else t.back;
      Try(front, back, false, false)
  }

  function Left(f: Frag, t: Try): nat
    requires Within(f, t)
  {
    2 * (f.leading - t.front + f.trailing - t.back) + if t.atStart || t.atEnd then 1 else 0
  }

  /** What find_pos gives for one search. */
  ghost predicate PosAt(lines: seq<string>, table: seq<LineRec>, f: Frag, reverse: bool, o: Options, t: Try, pos: int)
    requires |lines| == |table| && FragOk(f, reverse) && Within(f, t)
  {
    IsPos(lines, table, Drop(Pre(f, reverse), t.front, t.back), Wanted(f) - t.front, t.atStart, t.atEnd, false,
          o.allowOverlap, pos)
  }

  /** The search that starts with `t` ends with `last`, at `pos`: all searches before it fail. */
  ghost predicate Outcome(lines: seq<string>, table: seq<LineRec>, f: Frag, reverse: bool, o: Options, t: Try, pos: int,
                          last: Try)
    requires |lines| == |table| && FragOk(f, reverse) && Within(f, t)
    decreases Left(f, t)
  {
    if t == last then PosAt(lines, table, f, reverse, o, t, pos) && (pos >= 0 || AtLimit(f, o, t))
    else
      && PosAt(lines, table, f, reverse, o, t, -1) && !AtLimit(f, o, t)
      && Outcome(lines, table, f, reverse, o, NextTry(f, o, t), pos, last)
  }

  lemma {:induction false} OutcomeEnds(lines: seq<string>, table: seq<LineRec>, f: Frag, reverse: bool, o: Options,
                                       t: Try, pos: int, last: Try)
    requires |lines| == |table| && FragOk(f, reverse) && Within(f, t)
    requires Outcome(lines, table, f, reverse, o, t, pos, last)
    ensures Within(f, last) && Left(f, last) <= Left(f, t) && t.front <= last.front && t.back <= last.back
    ensures PosAt(lines, table, f, reverse, o, last, pos) && (pos < 0 ==> AtLimit(f, o, last))
    ensures AtLimit(f, o, t) ==> last == t
    decreases Left(f, t)
  {
    hide PosAt;
    if t != last { OutcomeEnds(lines, table, f, reverse, o, NextTry(f, o, t), pos, last); }
  }

  /** Context is given up only beyond the required amount, and only on the longer side. */
  lemma {:induction false} OutcomeContext(lines: seq<string>, table: seq<LineRec>, f: Frag, reverse: bool, o: Options,
                                          t: Try, pos: int, last: Try)
    requires |lines| == |table| && FragOk(f, reverse) && Within(f, t)
    requires Outcome(lines, table, f, reverse, o, t, pos, last)
    ensures last.front > t.front ==> f.leading - last.front >= o.minContext
    ensures last.back > t.back ==> f.trailing - last.back >= o.minContext
    ensures last.front > t.front ==> f.leading - last.front >= f.trailing - last.back
    ensures last.back > t.back ==> f.trailing - last.back >= f.leading - last.front
    decreases Left(f, t)
  {
    hide PosAt;
    if t != last {
      OutcomeContext(lines, table, f, reverse, o, NextTry(f, o, t), pos, last);
      OutcomeEnds(lines, table, f, reverse, o, NextTry(f, o, t), pos, last);
    }
  }

  lemma OutcomeLater(lines: seq<string>, table: seq<LineRec>, f: Frag, reverse: bool, o: Options, t: Try)
    requires |lines| == |table| && FragOk(f, reverse) && Within(f, t)
    requires PosAt(lines, table, f, reverse, o, t, -1) && !AtLimit(f, o, t)
    ensures forall pos: int, last: Try | Outcome(lines, table, f, reverse, o, NextTry(f, o, t), pos, last) ::
              Outcome(lines, table, f, reverse, o, t, pos, last)
  {
    hide PosAt;
    forall pos: int, last: Try | Outcome(lines, table, f, reverse, o, NextTry(f, o, t), pos, last)
      ensures Outcome(lines, table, f, reverse, o, t, pos, last)
    {
      OutcomeEnds(lines, table, f, reverse, o, NextTry(f, o, t), pos, last);
    }
  }

  /** What the place found means: the bytes and hashes of the lines left of the preimage are
      there, on lines no earlier hunk made. */
  ghost predicate FoundAt(lines: seq<string>, table: seq<LineRec>, f: Frag, reverse: bool, o: Options, t: Try, pos: nat)
    requires |lines| == |table| && FragOk(f, reverse) && Within(f, t) && pos <= |lines|
  {
    var pre := Drop(Pre(f, reverse), t.front, t.back);
    Found(lines, table, pre, pos, MustStart(|lines|, |pre|, t.atStart, t.atEnd, o.allowOverlap), t.atEnd, false)
  }

  lemma PosFound(lines: seq<string>, table: seq<LineRec>, f: Frag, reverse: bool, o: Options, t: Try, pos: int)
    requires |lines| == |table| && FragOk(f, reverse) && Within(f, t) && PosAt(lines, table, f, reverse, o, t, pos)
    ensures pos >= 0 ==> pos <= |lines| && FoundAt(lines, table, f, reverse, o, t, pos)
    ensures pos < 0 ==> pos == -1 && forall p | 0 <= p <= |lines| :: !FoundAt(lines, table, f, reverse, o, t, p)
  {
    hide Found, Pre, Drop;
    var pre := Drop(Pre(f, reverse), t.front, t.back);
    var atStart := MustStart(|lines|, |pre|, t.atStart, t.atEnd, o.allowOverlap);
    var hits := Hits(lines, table, pre, atStart, t.atEnd, false);
    forall p | 0 <= p <= |lines| ensures hits[p] == FoundAt(lines, table, f, reverse, o, t, p) {}
  }

  // ---- when the lines that give way are the preimage

  /** The last line of the preimage is complete, or the hunk is only tried at the end. */
  ghost predicate Steady(f: Frag, reverse: bool, o: Options) {
    EndsWhole(Pre(f, reverse), MatchEnd(f, o) && AtLimit(f, o, FirstTry(f, o)))
  }

  ghost predicate SamePreimage(lines: seq<string>, f: Frag, reverse: bool, t: Try, pos: int)
    requires FragOk(f, reverse) && Within(f, t)
  {
    var pre := Drop(Pre(f, reverse), t.front, t.back);
    0 <= pos && pos + |pre| <= |lines| && lines[pos..pos + |pre|] == pre
  }

  lemma DropProper(pre: seq<string>, front: nat, back: nat)
    requires Proper(pre) && front + back <= |pre|
    ensures Proper(Drop(pre, front, back)) && (back > 0 ==> EndsWhole(Drop(pre, front, back), false))
    ensures back == 0 && EndsWhole(pre, false) ==> EndsWhole(Drop(pre, front, back), false)
  {
    hide LineShape, Complete;
    var r := Drop(pre, front, back);
    assert forall i | 0 <= i < |r| :: r[i] == pre[front + i];
  }

  /** A steady hunk replaces its own preimage. */
  lemma SteadyReplaces(lines: seq<string>, table: seq<LineRec>, f: Frag, reverse: bool, o: Options, pos: nat, last: Try)
    requires |lines| == |table| && FragOk(f, reverse) && Within(f, last)
    requires Proper(lines) && Proper(Pre(f, reverse)) && Steady(f, reverse, o)
    requires Outcome(lines, table, f, reverse, o, FirstTry(f, o), pos, last)
    ensures SamePreimage(lines, f, reverse, last, pos)
  {
    hide Outcome, PosAt, Pre, Proper, Found, Complete, Drop;
    OutcomeEnds(lines, table, f, reverse, o, FirstTry(f, o), pos, last);
    PosFound(lines, table, f, reverse, o, last, pos);
    var pre := Drop(Pre(f, reverse), last.front, last.back);
    DropProper(Pre(f, reverse), last.front, last.back);
    var atStart := MustStart(|lines|, |pre|, last.atStart, last.atEnd, o.allowOverlap);
    WholeDrop(f, reverse, o, last);
    HashCheckHarmless(lines, table, pre, pos, atStart, last.atEnd, false);
  }

  lemma WholeDrop(f: Frag, reverse: bool, o: Options, last: Try)
    requires FragOk(f, reverse) && Within(f, last) && Proper(Pre(f, reverse)) && Steady(f, reverse, o)
    requires AtLimit(f, o, FirstTry(f, o)) ==> last == FirstTry(f, o)
    ensures EndsWhole(Drop(Pre(f, reverse), last.front, last.back), last.atEnd)
  {
    hide Pre, Proper, Complete, Drop;
    DropProper(Pre(f, reverse), last.front, last.back);
  }

  /** One that is not replaces a longer line in some image. */
  lemma UnsteadyReplaces(f: Frag, reverse: bool, o: Options) returns (lines: seq<string>, last: Try)
    requires FragOk(f, reverse) && Proper(Pre(f, reverse)) && !Steady(f, reverse, o)
    ensures Proper(lines) && |lines| == |Pre(f, reverse)| && Within(f, last)
    ensures Outcome(lines, Fresh(|lines|), f, reverse, o, FirstTry(f, o), 0, last)
            && !SamePreimage(lines, f, reverse, last, 0)
  {
    hide Pre, Proper, Found, Complete, Join, Hash, PosAt;
    var pre := Pre(f, reverse);
    lines := Grown(pre, "\n");
    GrownLine(pre);
    NoDrop(f, reverse);
    last := FirstTry(f, o);
    OnlyPlace(lines, Fresh(|lines|), f, reverse, o, last);
    if MatchEnd(f, o) {
      last := NextTry(f, o, last);
      OnlyPlace(lines, Fresh(|lines|), f, reverse, o, last);
    }
  }

  lemma GrownLine(pre: seq<string>)
    requires Proper(pre) && !EndsWhole(pre, false)
    ensures Proper(Grown(pre, "\n")) && Grown(pre, "\n")[0..|pre|] != pre && pre != []
    ensures forall atStart: bool :: Found(Grown(pre, "\n"), Fresh(|pre|), pre, 0, atStart, false, false)
    ensures forall atStart: bool :: !Found(Grown(pre, "\n"), Fresh(|pre|), pre, 0, atStart, true, false)
  {
    hide Hash, Proper, SameHashes, Complete;
    var r, last := Grown(pre, "\n"), pre[|pre| - 1];
    assert "" + "\n" == "\n";
    GrownProper(pre, "");
    GrownBytes(pre, "\n");
    GrownHashes(pre, "\n");
    ShortHashMore(last, '\n');
    assert r[0..|pre|][|pre| - 1] == last + "\n";
    assert r[0..] == r;
    hide Join;
  }

  /** In an image of the size of the preimage there is only one place. */
  lemma OnlyPlace(lines: seq<string>, table: seq<LineRec>, f: Frag, reverse: bool, o: Options, t: Try)
    requires |lines| == |table| == |Pre(f, reverse)| > 0 && FragOk(f, reverse) && Within(f, t) && t.front == 0 == t.back
    ensures PosAt(lines, table, f, reverse, o, t,
                  if Found(lines, table, Pre(f, reverse), 0, t.atStart, t.atEnd, false) then 0 else -1)
  {
    hide SameBytes, SameHashes, SameButSpace, Untouched, Pre;
    NoDrop(f, reverse);
    var pre := Pre(f, reverse);
    var atStart := MustStart(|lines|, |pre|, t.atStart, t.atEnd, o.allowOverlap);
    assert atStart == t.atStart;
    forall p | 0 < p <= |lines| ensures !Found(lines, table, pre, p, atStart, t.atEnd, false) {}
    hide Found;
  }

  /** In every image, the lines a hunk replaces are its preimage. */
  ghost predicate ReplacesPreimage(f: Frag, reverse: bool, o: Options)
    requires FragOk(f, reverse)
  {
    forall lines: seq<string>, table: seq<LineRec>, pos: nat, last: Try |
      && |lines| == |table| && Proper(lines) && Within(f, last)
      && Outcome(lines, table, f, reverse, o, FirstTry(f, o), pos, last) ::
      SamePreimage(lines, f, reverse, last, pos)
  }

  /** Exactly the steady hunks do. */
  lemma PreimageReplaced(f: Frag, reverse: bool, o: Options)
    requires FragOk(f, reverse) && Proper(Pre(f, reverse))
    ensures ReplacesPreimage(f, reverse, o) <==> Steady(f, reverse, o)
  {
    hide Outcome, SamePreimage, Steady, Proper, Pre, FragOk;
    if Steady(f, reverse, o) {
      forall lines: seq<string>, table: seq<LineRec>, pos: nat, last: Try |
        && |lines| == |table| && Proper(lines) && Within(f, last)
        && Outcome(lines, table, f, reverse, o, FirstTry(f, o), pos, last)
        ensures SamePreimage(lines, f, reverse, last, pos)
      {
        SteadyReplaces(lines, table, f, reverse, o, pos, last);
      }
    } else {
      var lines, last := UnsteadyReplaces(f, reverse, o);
      assert |Fresh(|lines|)| == |lines|;
    }
  }

  /** Search, dropping context from the longer end while there is more than required. */
  method FindReducing(img: Image, pre: Image, post: Image, f: Frag, reverse: bool, o: Options)
    returns (pos: int, ghost last: Try)
    requires img.Valid() && pre != post && pre != img && post != img && Dropped(pre, post, f, reverse, 0, 0)
    modifies pre, post
    ensures |img.lines| == |img.table| && Within(f, last) && Dropped(pre, post, f, reverse, last.front, last.back)
    ensures Outcome(img.lines, img.table, f, reverse, o, FirstTry(f, o), pos, last)
    ensures Anchored(img.lines, img.table, f, Pre(f, reverse), o, pos, last)
  {
    hide *;
    Sizes(img);
    IsDropped(pre, post, f, reverse, 0, 0);
    var leading: nat, trailing: nat, wanted := f.leading, f.trailing, Wanted(f);
    var atStart, atEnd := MatchStart(f, o), MatchEnd(f, o);
    last := FirstTry(f, o);
    FirstIs(f, o);
    while true
      invariant Within(f, last) && Dropped(pre, post, f, reverse, last.front, last.back)
      invariant last.front + leading == f.leading && last.back + trailing == f.trailing
      invariant last.atStart == atStart && last.atEnd == atEnd && wanted == Wanted(f) - last.front
      invariant forall p: int, u: Try | Outcome(img.lines, img.table, f, reverse, o, last, p, u) ::
                  Outcome(img.lines, img.table, f, reverse, o, FirstTry(f, o), p, u)
      decreases leading + trailing, if atStart || atEnd then 1 else 0
    {
      IsDropped(pre, post, f, reverse, last.front, last.back);
      pos := FindPos(img, pre, wanted, atStart, atEnd, false, o.allowOverlap);
      MakePosAt(img.lines, img.table, f, reverse, o, last, pos);
      LimitIs(f, o, last);
      if pos >= 0 {
        OutcomeHere(img.lines, img.table, f, reverse, o, last, pos);
        break;
      }
      PosFound(img.lines, img.table, f, reverse, o, last, pos);
      if leading <= o.minContext && trailing <= o.minContext {
        OutcomeHere(img.lines, img.table, f, reverse, o, last, pos);
        break;
      }
      OutcomeLater(img.lines, img.table, f, reverse, o, last);
      NextIs(f, o, last);
      ghost var next := NextTry(f, o, last);
      if atStart || atEnd {
        atStart, atEnd := false, false;
        last := next;
        continue;
      }
      ghost var front, back := last.front, last.back;
      if leading >= trailing {
        DropFirst(pre, post, f, reverse, front, back);
        wanted := wanted - 1;
        leading := leading - 1;
        front := front + 1;
      }
      if trailing > leading {
        DropTail(pre, post, f, reverse, front, back);
        trailing := trailing - 1;
        back := back + 1;
      }
      last := next;
    }
    PlaceAnchored(img.lines, img.table, f, reverse, o, pos, last);
  }

  lemma FirstIs(f: Frag, o: Options)
    ensures Within(f, FirstTry(f, o)) && FirstTry(f, o) == Try(0, 0, MatchStart(f, o), MatchEnd(f, o))
  {}

  lemma LimitIs(f: Frag, o: Options, t: Try)
    ensures AtLimit(f, o, t) <==> f.leading - t.front <= o.minContext && f.trailing - t.back <= o.minContext
    ensures Within(f, t) <==> t.front <= f.leading && t.back <= f.trailing
  {}

  lemma NextIs(f: Frag, o: Options, t: Try)
    requires Within(f, t) && !AtLimit(f, o, t)
    ensures t.atStart || t.atEnd ==> NextTry(f, o, t) == Try(t.front, t.back, false, false)
    ensures !t.atStart && !t.atEnd ==>
              var front := if f.leading - t.front >= f.trailing - t.back then t.front + 1 else t.front;
              NextTry(f, o, t) == Try(front, if f.trailing - t.back > f.leading - front then t.back + 1 else t.back,
                                      false, false)
  {}

  lemma MakePosAt(lines: seq<string>, table: seq<LineRec>, f: Frag, reverse: bool, o: Options, t: Try, pos: int)
    requires |lines| == |table| && FragOk(f, reverse) && Within(f, t)
    requires t.front + t.back <= |Pre(f, reverse)|
    requires IsPos(lines, table, Drop(Pre(f, reverse), t.front, t.back), Wanted(f) - t.front, t.atStart, t.atEnd, false,
                   o.allowOverlap, pos)
    ensures PosAt(lines, table, f, reverse, o, t, pos)
  {}

  lemma OutcomeHere(lines: seq<string>, table: seq<LineRec>, f: Frag, reverse: bool, o: Options, t: Try, pos: int)
    requires |lines| == |table| && FragOk(f, reverse) && Within(f, t) && PosAt(lines, table, f, reverse, o, t, pos)
    requires pos >= 0 || AtLimit(f, o, t)
    ensures Outcome(lines, table, f, reverse, o, t, pos, t)
  {}

  lemma IsDropped(pre: Image, post: Image, f: Frag, reverse: bool, front: nat, back: nat)
    requires Dropped(pre, post, f, reverse, front, back)
    ensures pre.Valid() && post.Valid() && front + back <= |Pre(f, reverse)|
            && pre.lines == Drop(Pre(f, reverse), front, back)
    ensures front + back <= |Post(f, reverse)| && post.lines == Drop(Post(f, reverse), front, back)
    ensures front <= f.leading && back <= f.trailing && FragOk(f, reverse)
    ensures forall i | 0 <= i < |post.table| :: !post.table[i].patched
  {}

  lemma NoDrop(f: Frag, reverse: bool)
    ensures Drop(Pre(f, reverse), 0, 0) == Pre(f, reverse) && Drop(Post(f, reverse), 0, 0) == Post(f, reverse)
  {}

  lemma ShorterBy(f: Frag, reverse: bool, front: nat, back: nat, leading: nat, trailing: nat)
    requires FragOk(f, reverse) && front + leading == f.leading && back + trailing == f.trailing
    ensures |Drop(Pre(f, reverse), front, back)| == |Pre(f, reverse)| - front - back >= leading + trailing
    ensures |Drop(Post(f, reverse), front, back)| == |Post(f, reverse)| - front - back >= leading + trailing
    ensures leading > 0 ==> Drop(Pre(f, reverse), front, back)[1..] == Drop(Pre(f, reverse), front + 1, back)
    ensures leading > 0 ==> Drop(Post(f, reverse), front, back)[1..] == Drop(Post(f, reverse), front + 1, back)
    ensures trailing > 0 ==> DropLast(Drop(Pre(f, reverse), front, back)) == Drop(Pre(f, reverse), front, back + 1)
    ensures trailing > 0 ==> DropLast(Drop(Post(f, reverse), front, back)) == Drop(Post(f, reverse), front, back + 1)
  {}

  function DropLast<T>(s: seq<T>): seq<T>
    requires s != []
  {
    s[..|s| - 1]
  }

  /** A hunk that is where its header says is found there at once. */
  lemma ThereFirst(lines: seq<string>, table: seq<LineRec>, f: Frag, reverse: bool, o: Options, pos: int, last: Try)
    requires |lines| == |table| && FragOk(f, reverse) && Within(f, FirstTry(f, o)) && !o.allowOverlap
    requires FoundThere(f, o, reverse, lines, table) && Outcome(lines, table, f, reverse, o, FirstTry(f, o), pos, last)
    ensures last == FirstTry(f, o)
    ensures pos == Clamped(Wanted(f), |lines|, |Pre(f, reverse)|, MatchStart(f, o), MatchEnd(f, o))
  {
    hide Found, Pre, Drop, FoundThere;
    var first, pre := FirstTry(f, o), Pre(f, reverse);
    var lno := Clamped(Wanted(f), |lines|, |pre|, MatchStart(f, o), MatchEnd(f, o));
    NoDrop(f, reverse);
    ThereFound(lines, table, f, reverse, o);
    assert Hits(lines, table, pre, MatchStart(f, o), MatchEnd(f, o), false)[lno];
    assert !PosAt(lines, table, f, reverse, o, first, -1);
  }

  lemma ThereFound(lines: seq<string>, table: seq<LineRec>, f: Frag, reverse: bool, o: Options)
    requires |lines| == |table| && FoundThere(f, o, reverse, lines, table)
    ensures var lno := Clamped(Wanted(f), |lines|, |Pre(f, reverse)|, MatchStart(f, o), MatchEnd(f, o));
            lno <= |lines| && Found(lines, table, Pre(f, reverse), lno, MatchStart(f, o), MatchEnd(f, o), false)
  {
    hide SameBytes, SameHashes, SameButSpace, Pre;
    var pre := Pre(f, reverse);
    var lno := Clamped(Wanted(f), |lines|, |pre|, MatchStart(f, o), MatchEnd(f, o));
    EqualLines(lines, pre, lno);
    SameLinesHashes(lines, pre, lno);
  }

  // ---- what the header says about the place

  /** A hunk for the first line, or for an empty file. */
  predicate ForStart(f: Frag, o: Options) {
    f.oldpos == 0 || (f.oldpos == 1 && !o.unidiffZero)
  }

  /** A hunk without context after its changes, in a patch that has context. */
  predicate ForEnd(f: Frag, o: Options) {
    f.trailing == 0 && !o.unidiffZero
  }

  /** The lines of the hunk are at line `p`, and no earlier hunk made them. */
  ghost predicate Whole(lines: seq<string>, table: seq<LineRec>, pre: seq<string>, p: int) {
    0 <= p <= p + |pre| <= |lines| && lines[p..p + |pre|] == pre && Untouched(table, p, |pre|)
  }

  /** Where a hunk may be.  Without context to give up a hunk for the start is at the start and
      one for the end is at the end; otherwise it is there if its lines are.  Context is given
      up only if all of it is nowhere. */
  ghost predicate Anchored(lines: seq<string>, table: seq<LineRec>, f: Frag, pre: seq<string>, o: Options, pos: int,
                           last: Try) {
    var rigid := f.leading <= o.minContext && f.trailing <= o.minContext;
    && (pos >= 0 && rigid && ForStart(f, o) && !(o.allowOverlap && ForEnd(f, o)) ==> pos == 0)
    && (pos >= 0 && rigid && ForEnd(f, o) ==> pos + |pre| == |lines|)
    && (!o.allowOverlap && ForStart(f, o) && Whole(lines, table, pre, 0) && (ForEnd(f, o) ==> |pre| == |lines|) ==>
          pos == 0 && last.front == 0 == last.back)
    && (!o.allowOverlap && ForEnd(f, o) && !ForStart(f, o) && Whole(lines, table, pre, |lines| - |pre|) ==>
          pos == |lines| - |pre| && last.front == 0 == last.back)
    && (last.front + last.back > 0 ==> forall p | 0 <= p <= |lines| :: !Whole(lines, table, pre, p))
  }

  lemma WholeFound(lines: seq<string>, table: seq<LineRec>, pre: seq<string>, p: nat)
    requires |lines| == |table| && Whole(lines, table, pre, p)
    ensures p <= |lines| && Found(lines, table, pre, p, false, false, false)
  {
    hide SameBytes, SameHashes, SameButSpace;
    EqualLines(lines, pre, p);
    SameLinesHashes(lines, pre, p);
  }

  /** With nothing to give up the first search is the only one. */
  lemma RigidPlace(lines: seq<string>, table: seq<LineRec>, f: Frag, reverse: bool, o: Options, pos: int, last: Try)
    requires |lines| == |table| && FragOk(f, reverse) && Within(f, FirstTry(f, o)) && pos >= 0
    requires Outcome(lines, table, f, reverse, o, FirstTry(f, o), pos, last)
    requires f.leading <= o.minContext && f.trailing <= o.minContext
    ensures ForStart(f, o) && !(o.allowOverlap && ForEnd(f, o)) ==> pos == 0
    ensures ForEnd(f, o) ==> pos + |Pre(f, reverse)| == |lines|
  {
    hide Outcome, PosAt, Pre, FoundAt;
    OutcomeEnds(lines, table, f, reverse, o, FirstTry(f, o), pos, last);
    PosFound(lines, table, f, reverse, o, last, pos);
    NoDrop(f, reverse);
    FirstFits(lines, table, f, reverse, o, pos);
  }

  lemma FirstFits(lines: seq<string>, table: seq<LineRec>, f: Frag, reverse: bool, o: Options, pos: nat)
    requires |lines| == |table| && FragOk(f, reverse) && Within(f, FirstTry(f, o)) && pos <= |lines|
    requires FoundAt(lines, table, f, reverse, o, FirstTry(f, o), pos)
    ensures ForStart(f, o) && !(o.allowOverlap && ForEnd(f, o)) ==> pos == 0
    ensures ForEnd(f, o) ==> pos + |Pre(f, reverse)| == |lines|
  {
    hide Pre, SameBytes, SameHashes, SameButSpace;
    NoDrop(f, reverse);
  }

  /** A hunk for the start or the end whose lines are there is found there at once. */
  lemma WholePlace(lines: seq<string>, table: seq<LineRec>, f: Frag, reverse: bool, o: Options, pos: int, last: Try)
    requires |lines| == |table| && FragOk(f, reverse) && Within(f, FirstTry(f, o)) && !o.allowOverlap
    requires Outcome(lines, table, f, reverse, o, FirstTry(f, o), pos, last)
    ensures var pre := Pre(f, reverse);
            ForStart(f, o) && Whole(lines, table, pre, 0) && (ForEnd(f, o) ==> |pre| == |lines|) ==>
              pos == 0 && last.front == 0 == last.back
    ensures var pre := Pre(f, reverse);
            ForEnd(f, o) && !ForStart(f, o) && Whole(lines, table, pre, |lines| - |pre|) ==>
              pos == |lines| - |pre| && last.front == 0 == last.back
  {
    var pre := Pre(f, reverse);
    hide Outcome, Pre;
    if ForStart(f, o) && Whole(lines, table, pre, 0) && (ForEnd(f, o) ==> |pre| == |lines|) {
      ThereFirst(lines, table, f, reverse, o, pos, last);
    }
    if ForEnd(f, o) && !ForStart(f, o) && Whole(lines, table, pre, |lines| - |pre|) {
      ThereFirst(lines, table, f, reverse, o, pos, last);
    }
  }

  /** Before context is given up the whole preimage is looked for everywhere. */
  lemma WholeFirst(lines: seq<string>, table: seq<LineRec>, f: Frag, reverse: bool, o: Options, pos: int, last: Try)
    requires |lines| == |table| && FragOk(f, reverse) && Within(f, FirstTry(f, o)) && last.front + last.back > 0
    requires Outcome(lines, table, f, reverse, o, FirstTry(f, o), pos, last)
    ensures forall p | 0 <= p <= |lines| :: !Whole(lines, table, Pre(f, reverse), p)
  {
    hide PosAt, Pre, Whole;
    var t := FirstTry(f, o);
    if t.atStart || t.atEnd { t := NextTry(f, o, t); }
    assert t == Try(0, 0, false, false) && PosAt(lines, table, f, reverse, o, t, -1);
    PosFound(lines, table, f, reverse, o, t, -1);
    NoDrop(f, reverse);
    hide Outcome;
    forall p | 0 <= p <= |lines| ensures !Whole(lines, table, Pre(f, reverse), p) {
      NotWhole(lines, table, f, reverse, o, p);
    }
  }

  lemma NotWhole(lines: seq<string>, table: seq<LineRec>, f: Frag, reverse: bool, o: Options, p: nat)
    requires |lines| == |table| && FragOk(f, reverse) && Within(f, Try(0, 0, false, false)) && p <= |lines|
    requires !FoundAt(lines, table, f, reverse, o, Try(0, 0, false, false), p)
    ensures !Whole(lines, table, Pre(f, reverse), p)
  {
    NoDrop(f, reverse);
    hide Pre, Found, Whole;
    if Whole(lines, table, Pre(f, reverse), p) { WholeFound(lines, table, Pre(f, reverse), p); }
  }

  lemma PlaceAnchored(lines: seq<string>, table: seq<LineRec>, f: Frag, reverse: bool, o: Options, pos: int, last: Try)
    requires |lines| == |table| && FragOk(f, reverse) && Within(f, FirstTry(f, o))
    requires Outcome(lines, table, f, reverse, o, FirstTry(f, o), pos, last)
    ensures Anchored(lines, table, f, Pre(f, reverse), o, pos, last)
  {
    hide Outcome, Pre, Whole;
    if pos >= 0 && f.leading <= o.minContext && f.trailing <= o.minContext {
      RigidPlace(lines, table, f, reverse, o, pos, last);
    }
    if !o.allowOverlap { WholePlace(lines, table, f, reverse, o, pos, last); }
    if last.front + last.back > 0 { WholeFirst(lines, table, f, reverse, o, pos, last); }
  }

  /** apply_one_fragment: on success the lines of the hunk, less the context it gave up, are
      replaced at the place found; on failure nothing changes. */
  method ApplyOneFragment(img: Image, f: Frag, reverse: bool, o: Options)
    returns (ok: bool, pos: int, ghost last: Try)
    requires img.Valid() && FragOk(f, reverse)
    modifies img
    ensures img.Valid() && |old(img.lines)| == |old(img.table)| && Within(f, last)
    ensures ok <==> pos >= 0
    ensures Outcome(old(img.lines), old(img.table), f, reverse, o, FirstTry(f, o), pos, last)
    ensures ok ==> Replaced(old(img.lines), img.lines, pos, Drop(Pre(f, reverse), last.front, last.back),
                            Drop(Post(f, reverse), last.front, last.back))
    ensures ok ==> Remarked(old(img.table), img.table, pos, |Pre(f, reverse)| - last.front - last.back,
                            |Post(f, reverse)| - last.front - last.back, !o.allowOverlap)
    ensures ok ==> Untouched(old(img.table), pos, |Pre(f, reverse)| - last.front - last.back)
    ensures ok && Proper(old(img.lines)) && Proper(Pre(f, reverse)) && Steady(f, reverse, o) ==>
              SamePreimage(old(img.lines), f, reverse, last, pos)
    ensures last.front > 0 ==> f.leading - last.front >= o.minContext
    ensures last.back > 0 ==> f.trailing - last.back >= o.minContext
    ensures last.front > 0 ==> f.leading - last.front >= f.trailing - last.back
    ensures last.back > 0 ==> f.trailing - last.back >= f.leading - last.front
    ensures Anchored(old(img.lines), old(img.table), f, Pre(f, reverse), o, pos, last)
    ensures !ok ==> img.lines == old(img.lines) && img.table == old(img.table) && AtLimit(f, o, last)
    ensures !ok ==> forall p | 0 <= p <= |img.lines| :: !FoundAt(img.lines, img.table, f, reverse, o, last, p)
    ensures !o.allowOverlap && old(FoundThere(f, o, reverse, img.lines, img.table)) ==>
              && ok && last == FirstTry(f, o)
              && pos == Clamped(Wanted(f), |old(img.lines)|, |Pre(f, reverse)|, MatchStart(f, o), MatchEnd(f, o))
  {
    hide *;
    Sizes(img);
    FirstIs(f, o);
    var pre, post := BuildImages(f, reverse);
    NothingDropped(pre, post, f, reverse);
    pos, last := FindReducing(img, pre, post, f, reverse, o);
    IsDropped(pre, post, f, reverse, last.front, last.back);
    ShorterBy(f, reverse, last.front, last.back, f.leading - last.front, f.trailing - last.back);
    OutcomeFacts(img.lines, img.table, f, reverse, o, pos, last);
    ok := pos >= 0;
    if ok {
      ghost var table := img.table;
      ghost var lines := img.lines;
      Sizes(pre);
      Sizes(post);
      img.Update(pos, |pre.table|, post, o.allowOverlap);
      MakeReplaced(lines, img.lines, pos, pre.lines, post.lines);
      MakeRemarked(table, img.table, Marked(post.table, o.allowOverlap), pos, |pre.table|, !o.allowOverlap);
    }
  }

  /** What the end of the search tells. */
  lemma OutcomeFacts(lines: seq<string>, table: seq<LineRec>, f: Frag, reverse: bool, o: Options, pos: int, last: Try)
    requires |lines| == |table| && FragOk(f, reverse) && Within(f, last)
    requires Outcome(lines, table, f, reverse, o, FirstTry(f, o), pos, last)
    ensures pos >= 0 ==> pos + |Pre(f, reverse)| - last.front - last.back <= |lines|
    ensures pos >= 0 ==> Untouched(table, pos, |Pre(f, reverse)| - last.front - last.back)
    ensures pos >= 0 && Proper(lines) && Proper(Pre(f, reverse)) && Steady(f, reverse, o) ==>
              SamePreimage(lines, f, reverse, last, pos)
    ensures last.front > 0 ==> f.leading - last.front >= o.minContext
    ensures last.back > 0 ==> f.trailing - last.back >= o.minContext
    ensures last.front > 0 ==> f.leading - last.front >= f.trailing - last.back
    ensures last.back > 0 ==> f.trailing - last.back >= f.leading - last.front
    ensures pos < 0 ==> AtLimit(f, o, last) && forall p | 0 <= p <= |lines| ::
            !FoundAt(lines, table, f, reverse, o, last, p)
    ensures !o.allowOverlap && FoundThere(f, o, reverse, lines, table) ==>
              && pos >= 0 && last == FirstTry(f, o)
              && pos == Clamped(Wanted(f), |lines|, |Pre(f, reverse)|, MatchStart(f, o), MatchEnd(f, o))
  {
    hide *;
    FirstIs(f, o);
    OutcomeEnds(lines, table, f, reverse, o, FirstTry(f, o), pos, last);
    OutcomeContext(lines, table, f, reverse, o, FirstTry(f, o), pos, last);
    PosFound(lines, table, f, reverse, o, last, pos);
    ShorterBy(f, reverse, last.front, last.back, f.leading - last.front, f.trailing - last.back);
    if pos >= 0 {
      FoundUntouched(lines, table, f, reverse, o, last, pos);
      if Proper(lines) && Proper(Pre(f, reverse)) && Steady(f, reverse, o) {
        SteadyReplaces(lines, table, f, reverse, o, pos, last);
      }
    }
    if !o.allowOverlap && FoundThere(f, o, reverse, lines, table) {
      ThereFirst(lines, table, f, reverse, o, pos, last);
    }
  }

  lemma FoundUntouched(lines: seq<string>, table: seq<LineRec>, f: Frag, reverse: bool, o: Options, t: Try, pos: nat)
    requires |lines| == |table| && FragOk(f, reverse) && Within(f, t) && pos <= |lines|
    requires FoundAt(lines, table, f, reverse, o, t, pos)
    ensures t.front + t.back <= |Pre(f, reverse)| && Untouched(table, pos, |Drop(Pre(f, reverse), t.front, t.back)|)
    ensures pos + |Drop(Pre(f, reverse), t.front, t.back)| <= |lines|
  {}

  lemma NothingDropped(pre: Image, post: Image, f: Frag, reverse: bool)
    requires pre.Valid() && post.Valid() && pre.lines == Pre(f, reverse) && post.lines == Post(f, reverse)
             && FragOk(f, reverse)
    requires forall i | 0 <= i < |post.table| :: !post.table[i].patched
    ensures Dropped(pre, post, f, reverse, 0, 0)
  {
    NoDrop(f, reverse);
  }

  lemma MakeReplaced(before: seq<string>, after: seq<string>, pos: nat, pre: seq<string>, post: seq<string>)
    requires pos + |pre| <= |before| && after == before[..pos] + post + before[pos + |pre|..]
    ensures Replaced(before, after, pos, pre, post)
  {}

  lemma Sizes(img: Image)
    requires img.Valid()
    ensures |img.table| == |img.lines|
  {}

  lemma MakeRemarked(before: seq<LineRec>, after: seq<LineRec>, mid: seq<LineRec>, pos: nat, n: nat, patched: bool)
    requires pos + n <= |before| && after == before[..pos] + mid + before[pos + n..]
    requires forall i | 0 <= i < |mid| :: mid[i].patched == patched
    ensures Remarked(before, after, pos, n, |mid|, patched)
  {}
}
