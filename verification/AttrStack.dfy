/** The stack of attribute files reused from query to query: prepare_attr_stack and
    collect_some_attrs of attr.c. */
module AttrStack {
  import opened AttrFill
  import opened AttrSource

  /** A path relative to the top of the work tree, without empty components. */
  predicate Normal(path: string) {
    forall i | 0 <= i < |path| && path[i] == '/' :: i > 0 && path[i - 1] != '/'
  }

  /** path[..n] is a directory of the path, or the top. */
  predicate IsDir(path: string, n: nat) {
    n <= |path| && (n == 0 || (n < |path| && path[n] == '/'))
  }

  /** Where the component that starts at `from` ends. */
  function Scan(path: string, from: nat, n: nat): (k: nat)
    requires from <= n <= |path|
    ensures from <= k <= n && (k < n ==> path[k] == '/') && forall i | from <= i < k :: path[i] != '/'
    decreases n - from
  {
    if from == n || path[from] == '/' then from else Scan(path, from + 1, n)
  }

  /** The end of the next directory below path[..from]. */
  function NextEnd(path: string, from: nat, n: nat): (k: nat)
    requires from < n <= |path|
    ensures from < k <= n && (k < n ==> path[k] == '/')
  {
    Scan(path, if path[from] == '/' then from + 1 else from, n)
  }

  type Files = string -> seq<Match>

  function DirFrame(files: Files, d: string): Frame {
    Frame(true, d, files(d))
  }

  /** The frames of the directories from path[..from] to path[..n], built from nothing. */
  function Frames(files: Files, path: string, from: nat, n: nat): seq<Frame>
    requires from <= n <= |path|
    decreases n - from
  {
    if from == n then []
    else
      var k := NextEnd(path, from, n);
      [DirFrame(files, path[..k])] + Frames(files, path, k, n)
  }

  /** Frames of directories on the way below path[..from], nearer ones higher. */
  ghost predicate Deeper(files: Files, path: string, from: nat, n: nat, fs: seq<Frame>)
    requires n <= |path|
  {
    && (forall i | 0 <= i < |fs| :: from < |fs[i].origin| <= n && fs[i] == DirFrame(files, path[..|fs[i].origin|]))
    && (forall i, j | 0 <= i < j < |fs| :: |fs[i].origin| < |fs[j].origin|)
  }

  lemma {:induction false} FramesDeeper(files: Files, path: string, from: nat, n: nat)
    requires from <= n <= |path|
    ensures Deeper(files, path, from, n, Frames(files, path, from, n))
    decreases n - from
  {
    if from < n {
      var k := NextEnd(path, from, n);
      FramesDeeper(files, path, k, n);
      DeeperMore(files, path, from, k, n, Frames(files, path, k, n));
    }
  }

  lemma DeeperMore(files: Files, path: string, from: nat, k: nat, n: nat, rest: seq<Frame>)
    requires from < k <= n <= |path| && Deeper(files, path, k, n, rest)
    ensures Deeper(files, path, from, n, [DirFrame(files, path[..k])] + rest)
  {
    var fs := [DirFrame(files, path[..k])] + rest;
    assert |path[..k]| == k;
    assert forall i | 0 < i < |fs| :: fs[i] == rest[i - 1];
  }

  /** A shorter way ends at one of the directories on it. */
  lemma {:induction false} FramesSplit(files: Files, path: string, from: nat, k: nat, n: nat)
    requires from <= k <= n <= |path| && Normal(path) && (k == n || path[k] == '/')
    ensures Frames(files, path, from, n) == Frames(files, path, from, k) + Frames(files, path, k, n)
    decreases n - from
  {
    if from < k {
      SameEnd(path, from, k, n);
      var e := NextEnd(path, from, n);
      FramesSplit(files, path, e, k, n);
    }
  }

  lemma SameEnd(path: string, from: nat, k: nat, n: nat)
    requires from < k <= n <= |path| && Normal(path) && (k == n || path[k] == '/')
    ensures NextEnd(path, from, n) == NextEnd(path, from, k)
  {}

  /** The frames depend on the part of the path they are for. */
  lemma {:induction false} FramesSame(files: Files, p: string, q: string, from: nat, n: nat)
    requires from <= n <= |p| && n <= |q| && p[..n] == q[..n]
    ensures Frames(files, p, from, n) == Frames(files, q, from, n)
    decreases n - from
  {
    if from < n {
      assert forall i | 0 <= i < n :: p[i] == p[..n][i] && q[i] == q[..n][i];
      ScanSame(p, q, if p[from] == '/' then from + 1 else from, n);
      var k := NextEnd(p, from, n);
      assert p[..k] == p[..n][..k] && q[..k] == q[..n][..k];
      FramesSame(files, p, q, k, n);
    }
  }

  lemma {:induction false} ScanSame(p: string, q: string, from: nat, n: nat)
    requires from <= n <= |p| && n <= |q| && forall i | 0 <= i < n :: p[i] == q[i]
    ensures Scan(p, from, n) == Scan(q, from, n)
    decreases n - from
  {
    if from < n { ScanSame(p, q, from + 1, n); }
  }

  /** The first `j` frames lead to the directory of the last of them. */
  lemma {:induction false} FramesTake(files: Files, path: string, from: nat, n: nat, j: nat) returns (k: nat)
    requires from <= n <= |path| && Normal(path) && j <= |Frames(files, path, from, n)|
    ensures from <= k <= n && (k == n || k == from || path[k] == '/') && (j > 0 ==> k > from)
    ensures Frames(files, path, from, n)[..j] == Frames(files, path, from, k)
    ensures j > 0 ==> Frames(files, path, from, n)[j - 1] == DirFrame(files, path[..k])
    decreases j
  {
    if j == 0 {
      return from;
    }
    var e := NextEnd(path, from, n);
    k := FramesTake(files, path, e, n, j - 1);
    SameEnd(path, from, k, n);
    assert Frames(files, path, from, n)[..j] == [DirFrame(files, path[..e])] + Frames(files, path, e, n)[..j - 1];
  }

  /** Frames without origin are those of no directory. */
  ghost predicate NoDirs(frames: seq<Frame>) {
    forall i | 0 <= i < |frames| :: !frames[i].dir
  }

  /** A whole stack built from nothing: built-in, system and user files, the top directory,
      the directories of the path, and info/attributes at the top. */
  function Fresh(base: seq<Frame>, info: Frame, files: Files, path: string, n: nat): seq<Frame>
    requires n <= |path|
  {
    base + [DirFrame(files, "")] + Frames(files, path, 0, n) + [info]
  }

  /** Directory `o` holds the directory path[..n] or is it. */
  predicate Holds(o: string, path: string, n: nat) {
    |o| <= n <= |path| && o == path[..|o|] && (|o| == 0 || (|o| < |path| && path[|o|] == '/'))
  }

  class Check {
    const base: seq<Frame>
    const info: Frame
    const files: Files
    var stack: seq<Frame>
    ghost var last: string
    ghost var lastLen: nat

    /** The stack is empty, or what a query of `last` from nothing would have built. */
    ghost predicate Valid()
      reads this
    {
      && NoDirs(base) && Normal(last) && IsDir(last, lastLen)
      && (stack == [] || stack == Fresh(base, info, files, last, lastLen))
    }

    constructor (base: seq<Frame>, info: Frame, files: Files)
      requires NoDirs(base)
      ensures Valid() && this.base == base && this.info == info && this.files == files
    {
      this.base, this.info, this.files := base, info, files;
      stack, last, lastLen := [], "", 0;
    }

    /** prepare_attr_stack: whatever was asked before, the stack is the one built from nothing. */
    method Prepare(path: string, dirlen: nat)
      requires Valid() && Normal(path) && IsDir(path, dirlen)
      modifies this
      ensures Valid() && stack == Fresh(base, info, files, path, dirlen) && last == path && lastLen == dirlen
    {
      hide Frames, NextEnd, Normal;
      if stack == [] {
        stack := base + [DirFrame(files, "")] + [info];
        lastLen := 0;
        NoFrames(files, last);
      }
      var top := stack[|stack| - 1];
      var rest := stack[..|stack| - 1];
      ghost var dirs := Frames(files, last, 0, lastLen);
      rest := PopOthers(rest, path, dirlen, dirs);
      var at := |rest[|rest| - 1].origin|;
      while at < dirlen
        invariant at <= dirlen <= |path|
        invariant rest + Frames(files, path, at, dirlen) == base + [DirFrame(files, "")]
                  + Frames(files, path, 0, dirlen)
        decreases dirlen - at
      {
        NextFrame(files, path, at, dirlen);
        var len := NextEnd(path, at, dirlen);
        rest := rest + [DirFrame(files, path[..len])];
        at := len;
      }
      NoFrames(files, path[..dirlen]);
      EmptyFrames(files, path, dirlen);
      stack := rest + [top];
      last, lastLen := path, dirlen;
    }

    /** Pop the directories that do not hold the one asked for. */
    method PopOthers(frames: seq<Frame>, path: string, dirlen: nat, ghost dirs: seq<Frame>) returns (rest: seq<Frame>)
      requires Valid() && Normal(path) && IsDir(path, dirlen)
      requires dirs == Frames(files, last, 0, lastLen) && frames == base + [DirFrame(files, "")] + dirs
      ensures rest != [] && |rest[|rest| - 1].origin| <= dirlen <= |path|
      ensures rest + Frames(files, path, |rest[|rest| - 1].origin|, dirlen) == base + [DirFrame(files, "")]
              + Frames(files, path, 0, dirlen)
    {
      hide Frames, Normal, Holds, IsDir, Fresh, NoDirs;
      rest := frames;
      ghost var j := |dirs|;
      Whole(dirs);
      LastFrame(base, DirFrame(files, ""), dirs, j);
      while rest[|rest| - 1].dir && !Holds(rest[|rest| - 1].origin, path, dirlen)
        invariant 0 <= j <= |dirs| && rest == base + [DirFrame(files, "")] + dirs[..j] && rest != []
        invariant rest[|rest| - 1] == if j == 0 then DirFrame(files, "") else dirs[j - 1]
        decreases j
      {
        TopHolds(files, path, dirlen);
        LastFrame(base, DirFrame(files, ""), dirs, j);
        LastFrame(base, DirFrame(files, ""), dirs, j - 1);
        rest := rest[..|rest| - 1];
        j := j - 1;
      }
      Kept(files, last, lastLen, path, dirlen, j, rest[|rest| - 1]);
      Regroup(base, [DirFrame(files, "")], dirs[..j], Frames(files, path, |rest[|rest| - 1].origin|, dirlen));
    }
  }

  lemma Whole(s: seq<Frame>)
    ensures s[..|s|] == s
  {}

  lemma TopHolds(files: Files, path: string, n: nat)
    requires IsDir(path, n)
    ensures Holds(DirFrame(files, "").origin, path, n)
  {}

  lemma LastFrame(base: seq<Frame>, root: Frame, dirs: seq<Frame>, j: nat)
    requires j <= |dirs|
    ensures var r := base + [root] + dirs[..j];
            && r != [] && r[|r| - 1] == (if j == 0 then root else dirs[j - 1])
            && (j > 0 ==> r[..|r| - 1] == base + [root] + dirs[..j - 1])
  {}

  lemma Regroup(a: seq<Frame>, b: seq<Frame>, c: seq<Frame>, d: seq<Frame>)
    ensures (a + b + c) + d == a + b + (c + d)
  {}

  lemma NoFrames(files: Files, path: string)
    ensures Frames(files, path, 0, 0) == []
  {}

  lemma EmptyFrames(files: Files, path: string, n: nat)
    requires n <= |path|
    ensures Frames(files, path, n, n) == []
  {}

  lemma NextFrame(files: Files, path: string, at: nat, n: nat)
    requires at < n <= |path|
    ensures Frames(files, path, at, n) == [DirFrame(files, path[..NextEnd(path, at, n)])]
            + Frames(files, path, NextEnd(path, at, n), n)
  {}

  /** What was kept of the old stack is the beginning of the new one. */
  lemma Kept(files: Files, q: string, m: nat, path: string, n: nat, j: nat, top: Frame)
    requires Normal(q) && IsDir(q, m) && Normal(path) && IsDir(path, n) && j <= |Frames(files, q, 0, m)|
    requires top == if j == 0 then DirFrame(files, "") else Frames(files, q, 0, m)[j - 1]
    requires Holds(top.origin, path, n) || !top.dir
    ensures |top.origin| <= n <= |path| && Frames(files, q, 0, m)[..j] + Frames(files, path, |top.origin|, n)
            == Frames(files, path, 0, n)
  {
    var k := FramesTake(files, q, 0, m, j);
    hide Frames;
    if j == 0 { NoFrames(files, q); NoFrames(files, path); }
    assert top.dir && top.origin == q[..k];
    assert path[..k] == q[..k];
    FramesSame(files, path, q, 0, k);
    if k > 0 { FramesSplit(files, path, 0, k, n); }
  }

  // ---- a query

  /** The length of the directory part of a path; a slash at its end does not count. */
  method DirLen(path: string) returns (n: nat)
    requires Normal(path)
    ensures IsDir(path, n) && forall i | n < i < |path| - 1 :: path[i] != '/'
  {
    n := 0;
    for i := 0 to |path|
      invariant IsDir(path, n) && (n > 0 ==> n < i) && forall k | n < k < i && k < |path| - 1 :: path[k] != '/'
    {
      if path[i] == '/' && i + 1 < |path| {
        n := i;
      }
    }
  }

  ghost predicate LinesOk(lines: seq<Match>, n: nat) {
    forall k | 0 <= k < |lines| :: LineOk(lines[k], n)
  }

  ghost predicate FramesOk(frames: seq<Frame>, n: nat) {
    forall i | 0 <= i < |frames| :: LinesOk(frames[i].lines, n)
  }

  lemma {:induction false} DirsOk(files: Files, path: string, from: nat, n: nat, attrs: nat)
    requires from <= n <= |path| && forall d: string :: LinesOk(files(d), attrs)
    ensures FramesOk(Frames(files, path, from, n), attrs)
    decreases n - from
  {
    if from < n { DirsOk(files, path, NextEnd(path, from, n), n, attrs); }
  }

  /** collect_some_attrs: the values are those of a full scan of the stack built from nothing
      for this path, so they do not depend on earlier queries.  Each comes from a matching line
      or a macro set to true, all that those mention have one, and higher lines win. */
  method Collect(c: Check, path: string, attrs: nat, hit: (Frame, Match) -> bool)
    returns (vals: array<Value>, rem: nat, ghost macros: Macros, ghost n: nat)
    requires c.Valid() && Normal(path)
    requires FramesOk(c.base, attrs) && LinesOk(c.info.lines, attrs) && forall d: string :: LinesOk(c.files(d), attrs)
    modifies c
    ensures c.Valid() && IsDir(path, n) && forall i | n < i < |path| - 1 :: path[i] != '/'
    ensures var stack := Fresh(c.base, c.info, c.files, path, n);
            && vals.Length == attrs && StackOk(stack, attrs) && IsMacros(macros, stack) && MacrosOk(macros, attrs)
            && vals[..] == FillStack(seq(attrs, _ => Unknown), macros, stack, |stack|, hit) && rem == Unknowns(vals[..])
            && Sourced(vals[..], macros, stack, hit) && Settled(vals[..], macros, stack, hit)
            && TopWins(vals[..], macros, stack, hit) && LastDefined(macros, stack)
  {
    var dirlen := DirLen(path);
    n := dirlen;
    c.Prepare(path, dirlen);
    DirsOk(c.files, path, 0, dirlen, attrs);
    FreshOk(c.base, c.info, c.files, path, dirlen, attrs);
    hide Fresh, FillStack, IsMacros, FramesOk, LinesOk, Sourced, Settled, TopWins, LastDefined;
    vals := new Value[attrs](_ => Unknown);
    assert vals[..] == seq(attrs, _ => Unknown);
    AllUnknown(attrs);
    var found := DetermineMacros(c.stack, attrs);
    macros := found;
    ScanSourced(attrs, found, c.stack, hit);
    MacrosLast(found, c.stack);
    rem := Fill(vals, found, c.stack, attrs, hit);
  }

  lemma {:induction false} AllUnknown(n: nat)
    ensures Unknowns(seq(n, _ => Unknown)) == n
  {
    if n > 0 {
      AllUnknown(n - 1);
      assert seq(n, _ => Unknown)[..n - 1] == seq(n - 1, _ => Unknown);
    }
  }

  lemma FreshOk(base: seq<Frame>, info: Frame, files: Files, path: string, n: nat, attrs: nat)
    requires n <= |path| && FramesOk(base, attrs) && LinesOk(info.lines, attrs)
             && FramesOk(Frames(files, path, 0, n), attrs)
    requires LinesOk(files(""), attrs)
    ensures StackOk(Fresh(base, info, files, path, n), attrs)
  {
    hide Frames;
    var stack := Fresh(base, info, files, path, n);
    assert FramesOk(stack, attrs);
    forall i, k | 0 <= i < |stack| && 0 <= k < |stack[i].lines| ensures LineOk(stack[i].lines[k], attrs) {
      assert LinesOk(stack[i].lines, attrs);
    }
  }
}
