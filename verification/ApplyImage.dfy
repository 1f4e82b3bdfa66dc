/** A file as a buffer with a table of its lines: image_* and update_image of apply.c. */
module ApplyImage {
  import opened ApplyLines

  /** An entry of the line table: the length of the line, its hash, and LINE_PATCHED. */
  datatype LineRec = LineRec(len: nat, hash: nat, patched: bool)

  function Join(lines: seq<string>): string {
    if lines == [] then "" else lines[0] + Join(lines[1..])
  }

  lemma {:induction false} JoinTwo(a: seq<string>, b: seq<string>)
    ensures Join(a + b) == Join(a) + Join(b)
  {
    if a == [] {
      assert a + b == b;
    } else {
      assert (a + b)[1..] == a[1..] + b;
      JoinTwo(a[1..], b);
      assert a[0] + (Join(a[1..]) + Join(b)) == (a[0] + Join(a[1..])) + Join(b);
    }
  }

  lemma JoinOne(s: string)
    ensures Join([s]) == s
  {
    assert [s][1..] == [];
  }

  /** The line table describes the buffer. */
  ghost predicate InStep(buf: string, table: seq<LineRec>, lines: seq<string>) {
    && buf == Join(lines) && |table| == |lines|
    && forall i | 0 <= i < |table| :: table[i].len == |lines[i]| && table[i].hash == ShortHash(lines[i])
  }

  /** Where line `i` starts. */
  ghost function Start(lines: seq<string>, i: nat): nat
    requires i <= |lines|
  {
    |Join(lines[..i])|
  }

  lemma StartNext(lines: seq<string>, i: nat)
    requires i < |lines|
    ensures Start(lines, i + 1) == Start(lines, i) + |lines[i]|
  {
    assert lines[..i + 1] == lines[..i] + [lines[i]];
    JoinTwo(lines[..i], [lines[i]]);
    JoinOne(lines[i]);
  }

  /** A stretch of lines is a stretch of the buffer. */
  lemma SliceOf(lines: seq<string>, i: nat, j: nat)
    requires i <= j <= |lines|
    ensures Start(lines, i) <= Start(lines, j) <= |Join(lines)|
    ensures Join(lines)[Start(lines, i)..Start(lines, j)] == Join(lines[i..j])
    ensures Join(lines)[..Start(lines, i)] == Join(lines[..i]) && Join(lines)[Start(lines, j)..] == Join(lines[j..])
  {
    hide Join;
    CutTwice(lines, i, j);
    JoinThree(lines[..i], lines[i..j], lines[j..]);
  }

  lemma CutTwice(lines: seq<string>, i: nat, j: nat)
    requires i <= j <= |lines|
    ensures lines == lines[..i] + (lines[i..j] + lines[j..]) && lines[..j] == lines[..i] + lines[i..j]
  {}

  lemma JoinThree(a: seq<string>, b: seq<string>, c: seq<string>)
    ensures var s := Join(a + (b + c));
            && |Join(a)| <= |Join(a + b)| <= |s| && s[..|Join(a)|] == Join(a)
            && s[|Join(a)|..|Join(a + b)|] == Join(b) && s[|Join(a + b)|..] == Join(c)
  {
    hide Join;
    JoinTwo(a, b + c);
    JoinTwo(b, c);
    JoinTwo(a, b);
    Thirds(Join(a), Join(b), Join(c));
  }

  lemma Thirds(a: string, b: string, c: string)
    ensures var s := a + (b + c);
            s[..|a|] == a && s[|a|..|a| + |b|] == b && s[|a| + |b|..] == c && |s| == |a| + |b| + |c|
  {}

  // ---- lines

  /** A line as files have them: a newline at its end only. */
  predicate LineShape(s: string) {
    s != "" && forall i | 0 <= i < |s| - 1 :: s[i] != '\n'
  }

  predicate Complete(s: string) {
    LineShape(s) && s[|s| - 1] == '\n'
  }

  /** All lines but the last are complete. */
  ghost predicate Proper(lines: seq<string>) {
    && (forall i | 0 <= i < |lines| :: LineShape(lines[i]))
    && (forall i | 0 <= i < |lines| - 1 :: Complete(lines[i]))
  }

  lemma NoLines()
    ensures Proper([])
  {}

  /** The end of the line that starts at `cp`. */
  method NextLine(text: string, cp: nat) returns (next: nat)
    requires cp < |text|
    ensures cp < next <= |text| && LineShape(text[cp..next]) && (next < |text| ==> Complete(text[cp..next]))
  {
    next := cp;
    while next < |text| && text[next] != '\n'
      invariant cp <= next <= |text| && forall i | cp <= i < next :: text[i] != '\n'
    {
      next := next + 1;
    }
    if next < |text| {
      next := next + 1;
    }
    LineAt(text, cp, next);
  }

  lemma LineAt(text: string, cp: nat, next: nat)
    requires cp < next <= |text| && (forall i | cp <= i < next - 1 :: text[i] != '\n')
    ensures LineShape(text[cp..next]) && (text[next - 1] == '\n' ==> Complete(text[cp..next]))
  {}

  lemma ProperMore(lines: seq<string>, line: string)
    requires Proper(lines) && (lines != [] ==> Complete(lines[|lines| - 1])) && LineShape(line)
    ensures Proper(lines + [line])
  {
    hide LineShape;
    var more := lines + [line];
    assert forall i | 0 <= i < |lines| - 1 :: more[i] == lines[i] && Complete(lines[i]);
  }

  /** A buffer has one division into lines. */
  lemma {:induction false} SameLines(a: seq<string>, b: seq<string>)
    requires Proper(a) && Proper(b) && Join(a) == Join(b)
    ensures a == b
  {
    if a == [] || b == [] {
      assert a == [] ==> Join(b) == "";
      assert b == [] ==> Join(a) == "";
    } else {
      FirstLine(a, b);
      assert Join(a)[|a[0]|..] == Join(a[1..]) && Join(b)[|b[0]|..] == Join(b[1..]);
      SameLines(a[1..], b[1..]);
      assert a == [a[0]] + a[1..] && b == [b[0]] + b[1..];
    }
  }

  lemma FirstLine(a: seq<string>, b: seq<string>)
    requires Proper(a) && Proper(b) && a != [] && b != []
    requires Join(a) == Join(b)
    ensures a[0] == b[0]
  {
    if |a[0]| < |b[0]| { Shorter(a, b); }
    if |b[0]| < |a[0]| { Shorter(b, a); }
    assert Join(a)[..|a[0]|] == a[0] && Join(b)[..|b[0]|] == b[0];
  }

  lemma Shorter(a: seq<string>, b: seq<string>)
    requires Proper(a) && Proper(b) && a != [] && b != [] && Join(a) == Join(b)
    ensures |a[0]| >= |b[0]|
  {
    var n := |a[0]|;
    assert Join(a)[n - 1] == a[0][n - 1];
    if |a| == 1 {
      assert a[1..] == [];
    } else {
      assert Complete(a[0]);
    }
    assert |b[0]| <= |Join(b)|;
    assert forall i | 0 <= i < |b[0]| :: Join(b)[i] == b[0][i];
  }

  /** Complete lines that begin a buffer are its first lines. */
  lemma {:induction false} PrefixLines(a: seq<string>, b: seq<string>)
    requires (forall i | 0 <= i < |a| :: Complete(a[i])) && Proper(b) && Join(a) <= Join(b)
    ensures a <= b
  {
    if a != [] {
      var n := |a[0]|;
      assert b != [];
      assert Join(b)[..n] == Join(a)[..n] == a[0];
      FirstComplete(a[0], b);
      assert Join(b)[n..] == Join(b[1..]) && Join(a)[n..] == Join(a[1..]);
      PrefixLines(a[1..], b[1..]);
      assert a == [a[0]] + a[1..] && b == [b[0]] + b[1..];
    }
  }

  lemma FirstComplete(line: string, b: seq<string>)
    requires Complete(line) && Proper(b) && b != [] && line <= Join(b)
    ensures b[0] == line
  {
    var n, m := |line|, |b[0]|;
    assert line[n - 1] == '\n' && Join(b)[n - 1] == '\n';
    assert Join(b)[..m] == b[0];
    assert forall i | 0 <= i < m :: b[0][i] == Join(b)[i];
    assert forall i | 0 <= i < n :: line[i] == Join(b)[i];
    if |b| == 1 {
      assert b[1..] == [];
      assert Join(b) == b[0];
    } else {
      assert Complete(b[0]) && Join(b)[m - 1] == '\n';
    }
  }

  /** The lines of a postimage in the patched image. */
  function Marked(table: seq<LineRec>, allowOverlap: bool): (r: seq<LineRec>)
    ensures |r| == |table| && forall i | 0 <= i < |r| :: r[i] == table[i].(patched := table[i].patched || !allowOverlap)
  {
    seq(|table|, i requires 0 <= i < |table| => table[i].(patched := table[i].patched || !allowOverlap))
  }

  class Image {
    var buf: string
    var table: seq<LineRec>
    ghost var lines: seq<string>

    ghost predicate Valid()
      reads this
    {
      InStep(buf, table, lines)
    }

    constructor ()
      ensures Valid() && lines == [] && table == []
    {
      buf, table, lines := "", [], [];
    }

    /** image_add_line, with the text put into the buffer. */
    method AddLine(text: string)
      requires Valid()
      modifies this
      ensures Valid() && buf == old(buf) + text && lines == old(lines) + [text]
              && table == old(table) + [LineRec(|text|, ShortHash(text), false)]
    {
      var h := HashLine(text);
      JoinTwo(lines, [text]);
      JoinOne(text);
      table := table + [LineRec(|text|, h % HASH_BITS, false)];
      buf := buf + text;
      lines := lines + [text];
    }

    /** image_prepare. */
    method Prepare(text: string)
      modifies this
      ensures Valid() && buf == text && Proper(lines) && forall i | 0 <= i < |table| :: !table[i].patched
    {
      buf, table, lines := "", [], [];
      var cp := 0;
      hide Proper, Complete, LineShape, Hash;
      NoLines();
      while cp < |text|
        invariant cp <= |text| && Valid() && buf == text[..cp] && Proper(lines)
        invariant cp < |text| && lines != [] ==> Complete(lines[|lines| - 1])
        invariant forall i | 0 <= i < |table| :: !table[i].patched
      {
        var next := NextLine(text, cp);
        ProperMore(lines, text[cp..next]);
        AddLine(text[cp..next]);
        assert text[..cp] + text[cp..next] == text[..next];
        cp := next;
      }
      assert text[..cp] == text;
    }

    method RemoveFirstLine()
      requires Valid() && lines != []
      modifies this
      ensures Valid() && lines == old(lines)[1..] && table == old(table)[1..]
    {
      buf := buf[table[0].len..];
      table := table[1..];
      lines := lines[1..];
    }

    method RemoveLastLine()
      requires Valid() && lines != []
      modifies this
      ensures Valid() && lines == old(lines)[..|old(lines)| - 1] && table == old(table)[..|old(table)| - 1]
    {
      var n := |table| - 1;
      SliceOf(lines, n, n + 1);
      JoinOne(lines[n]);
      assert lines[n..n + 1] == [lines[n]];
      StartNext(lines, n);
      assert lines[..n + 1] == lines;
      buf := buf[..|buf| - table[n].len];
      table := table[..n];
      lines := lines[..n];
    }

    /** Where line `k` starts, from the line table. */
    method StartOf(k: nat) returns (at: nat)
      requires Valid() && k <= |table|
      ensures at == Start(lines, k)
    {
      at := 0;
      for i := 0 to k
        invariant at == Start(lines, i)
      {
        StartNext(lines, i);
        at := at + table[i].len;
      }
    }

    /** update_image: lines [pos, pos + preNr) give way to those of `post`, which are marked
        as patched. */
    method Update(pos: nat, preNr: nat, post: Image, allowOverlap: bool)
      requires Valid() && post.Valid() && post != this && pos <= |table|
      modifies this
      ensures Valid()
      ensures var limit := if preNr > |old(lines)| - pos then |old(lines)| - pos else preNr;
              && lines == old(lines)[..pos] + post.lines + old(lines)[pos + limit..]
              && table == old(table)[..pos] + Marked(post.table, allowOverlap) + old(table)[pos + limit..]
    {
      var limit := if preNr > |table| - pos then |table| - pos else preNr;
      var at := StartOf(pos);
      var end := StartOf(pos + limit);
      Splice(buf, table, lines, pos, pos + limit, post.buf, post.table, post.lines, allowOverlap);
      buf := buf[..at] + post.buf + buf[end..];
      table := table[..pos] + Marked(post.table, allowOverlap) + table[pos + limit..];
      lines := lines[..pos] + post.lines + lines[pos + limit..];
    }
  }

  lemma Splice(buf: string, table: seq<LineRec>, lines: seq<string>, i: nat, j: nat,
               buf': string, table': seq<LineRec>, lines': seq<string>, allowOverlap: bool)
    requires InStep(buf, table, lines) && InStep(buf', table', lines') && i <= j <= |lines|
    ensures Start(lines, i) <= Start(lines, j) <= |buf|
    ensures InStep(buf[..Start(lines, i)] + buf' + buf[Start(lines, j)..],
                   table[..i] + Marked(table', allowOverlap) + table[j..], lines[..i] + lines' + lines[j..])
  {
    hide Join, Start, Hash;
    SliceOf(lines, i, j);
    JoinTwo(lines[..i] + lines', lines[j..]);
    JoinTwo(lines[..i], lines');
  }
}
