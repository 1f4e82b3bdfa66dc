/** Where a hunk applies: match_fragment and find_pos of apply.c. */
module ApplyFind {
  import opened ApplyLines
  import opened ApplyImage

  // ---- match_fragment

  /** The place is within the image and where the hunk must be. */
  predicate Fits(imgNr: nat, preNr: nat, lno: nat, atStart: bool, atEnd: bool) {
    lno + preNr <= imgNr && (atEnd ==> lno + preNr == imgNr) && (atStart ==> lno == 0)
  }

  /** None of the lines was put there by an earlier hunk. */
  ghost predicate Untouched(table: seq<LineRec>, lno: nat, n: nat) {
    lno + n <= |table| && forall i | lno <= i < lno + n :: !table[i].patched
  }

  /** The buffer of the preimage is found in the image. */
  ghost predicate SameBytes(img: seq<string>, pre: seq<string>, lno: nat, atEnd: bool)
    requires lno <= |img|
  {
    if atEnd then Join(pre) == Join(img[lno..]) else Join(pre) <= Join(img[lno..])
  }

  ghost predicate SameButSpace(img: seq<string>, pre: seq<string>, lno: nat)
    requires lno + |pre| <= |img|
  {
    forall i | 0 <= i < |pre| :: Normal(img[lno + i]) == Normal(pre[i])
  }

  ghost predicate SameHashes(img: seq<string>, pre: seq<string>, lno: nat)
    requires lno + |pre| <= |img|
  {
    forall i | 0 <= i < |pre| :: ShortHash(pre[i]) == ShortHash(img[lno + i])
  }

  /** The lines of the preimage are in the image by their bytes, or but for whitespace. */
  ghost predicate Unchecked(img: seq<string>, table: seq<LineRec>, pre: seq<string>, lno: nat, atStart: bool,
                            atEnd: bool, fuzzy: bool)
    requires |img| == |table| && lno <= |img|
  {
    && Fits(|img|, |pre|, lno, atStart, atEnd) && Untouched(table, lno, |pre|)
    && (SameBytes(img, pre, lno, atEnd) || (fuzzy && SameButSpace(img, pre, lno)))
  }

  /** What match_fragment computes: the same with the quick hash check. */
  ghost predicate Found(img: seq<string>, table: seq<LineRec>, pre: seq<string>, lno: nat, atStart: bool, atEnd: bool,
                        fuzzy: bool)
    requires |img| == |table| && lno <= |img|
  {
    Unchecked(img, table, pre, lno, atStart, atEnd, fuzzy) && SameHashes(img, pre, lno)
  }

  /** What it means: the lines are equal, or equal but for whitespace. */
  ghost predicate Matches(img: seq<string>, table: seq<LineRec>, pre: seq<string>, lno: nat, atStart: bool, atEnd: bool,
                          fuzzy: bool)
    requires |img| == |table| && lno <= |img|
  {
    && Fits(|img|, |pre|, lno, atStart, atEnd) && Untouched(table, lno, |pre|)
    && (if fuzzy then SameButSpace(img, pre, lno) else img[lno..lno + |pre|] == pre)
  }

  lemma SameLinesHashes(img: seq<string>, pre: seq<string>, lno: nat)
    requires lno + |pre| <= |img| && SameButSpace(img, pre, lno)
    ensures SameHashes(img, pre, lno)
  {
    hide Hash, Normal;
    forall i | 0 <= i < |pre| ensures ShortHash(pre[i]) == ShortHash(img[lno + i]) {
      NormalHash(img[lno + i], pre[i]);
    }
  }

  lemma EqualLines(img: seq<string>, pre: seq<string>, lno: nat)
    requires lno + |pre| <= |img| && img[lno..lno + |pre|] == pre
    ensures SameButSpace(img, pre, lno) && SameBytes(img, pre, lno, false)
    ensures lno + |pre| == |img| ==> SameBytes(img, pre, lno, true)
  {
    forall i | 0 <= i < |pre| ensures Normal(img[lno + i]) == Normal(pre[i]) {
      assert img[lno + i] == img[lno..lno + |pre|][i];
    }
    assert img[lno..] == pre + img[lno + |pre|..];
    JoinTwo(pre, img[lno + |pre|..]);
    hide Normal;
  }

  lemma ProperFrom(img: seq<string>, lno: nat)
    requires Proper(img) && lno <= |img|
    ensures Proper(img[lno..])
  {
    hide LineShape, Complete;
    var rest := img[lno..];
    assert forall i | 0 <= i < |rest| :: rest[i] == img[lno + i];
  }

  /** The preimage ends with a complete line, or where the image does. */
  predicate EndsWhole(pre: seq<string>, atEnd: bool) {
    atEnd || pre == [] || Complete(pre[|pre| - 1])
  }

  /** Equal bytes are equal lines when the preimage ends with a complete line, or must end
      where the image does. */
  lemma BytesAreLines(img: seq<string>, pre: seq<string>, lno: nat, atEnd: bool)
    requires Proper(img) && Proper(pre) && lno + |pre| <= |img| && SameBytes(img, pre, lno, atEnd)
    requires EndsWhole(pre, atEnd)
    ensures img[lno..lno + |pre|] == pre
  {
    ProperFrom(img, lno);
    if atEnd {
      SameLines(pre, img[lno..]);
    } else {
      assert forall i | 0 <= i < |pre| :: Complete(pre[i]);
      PrefixLines(pre, img[lno..]);
    }
  }

  /** For such a preimage the hash check never changes the answer, which is equality of lines. */
  lemma HashCheckHarmless(img: seq<string>, table: seq<LineRec>, pre: seq<string>, lno: nat, atStart: bool, atEnd: bool,
                          fuzzy: bool)
    requires Proper(img) && Proper(pre) && |img| == |table| && lno <= |img| && EndsWhole(pre, atEnd)
    ensures Found(img, table, pre, lno, atStart, atEnd, fuzzy) <==>
            Unchecked(img, table, pre, lno, atStart, atEnd, fuzzy)
    ensures Found(img, table, pre, lno, atStart, atEnd, fuzzy) <==> Matches(img, table, pre, lno, atStart, atEnd, fuzzy)
  {
    hide Hash, Normal, Proper, SameBytes, SameButSpace, SameHashes;
    if Fits(|img|, |pre|, lno, atStart, atEnd) {
      if SameBytes(img, pre, lno, atEnd) { BytesAreLines(img, pre, lno, atEnd); }
      if img[lno..lno + |pre|] == pre { EqualLines(img, pre, lno); }
      if SameButSpace(img, pre, lno) { SameLinesHashes(img, pre, lno); }
    }
  }

  /** The quick hash check. */
  method QuickCheck(img: Image, pre: Image, lno: nat) returns (r: bool)
    requires img.Valid() && pre.Valid() && lno + |pre.table| <= |img.table|
    ensures r == (Untouched(img.table, lno, |pre.table|) && SameHashes(img.lines, pre.lines, lno))
  {
    hide Hash, Join;
    for i := 0 to |pre.table|
      invariant Untouched(img.table, lno, i)
      invariant forall k | 0 <= k < i :: pre.table[k].hash == img.table[lno + k].hash
    {
      var j := lno + i;
      if img.table[j].patched || pre.table[i].hash != img.table[j].hash {
        return false;
      }
    }
    return true;
  }

  method MatchFragment(img: Image, pre: Image, current: nat, lno: nat, atStart: bool, atEnd: bool, fuzzy: bool)
    returns (r: bool)
    requires img.Valid() && pre.Valid() && lno <= |img.lines| && current == Start(img.lines, lno)
    ensures r == Found(img.lines, img.table, pre.lines, lno, atStart, atEnd, fuzzy)
  {
    hide Join, Normal, Hash;
    if |pre.table| + lno <= |img.table| {
      if atEnd && |pre.table| + lno != |img.table| {
        return false;
      }
    } else {
      return false;
    }
    if atStart && lno != 0 {
      return false;
    }
    var same := QuickCheck(img, pre, lno);
    if !same {
      return false;
    }
    SliceOf(img.lines, lno, lno);
    if (if atEnd then current + |pre.buf| == |img.buf| else current + |pre.buf| <= |img.buf|)
       && img.buf[current..current + |pre.buf|] == pre.buf
    {
      return true;
    }
    if fuzzy {
      r := LineByLine(img, pre, current, lno);
      return;
    }
    return false;
  }

  /** line_by_line_fuzzy_match, without the whitespace fixing that follows it. */
  method LineByLine(img: Image, pre: Image, current: nat, lno: nat) returns (r: bool)
    requires img.Valid() && pre.Valid() && lno + |pre.lines| <= |img.lines| && current == Start(img.lines, lno)
    ensures r == SameButSpace(img.lines, pre.lines, lno)
  {
    hide Join, Normal, Hash;
    var imgoff, preoff := current, 0;
    assert Start(pre.lines, 0) == 0 by { NothingYet(pre.lines); }
    for i := 0 to |pre.table|
      invariant imgoff == Start(img.lines, lno + i) && preoff == Start(pre.lines, i)
      invariant forall k | 0 <= k < i :: Normal(img.lines[lno + k]) == Normal(pre.lines[k])
    {
      LineSlice(img.lines, lno + i);
      LineSlice(pre.lines, i);
      var same := FuzzyMatchLines(img.buf[imgoff..imgoff + img.table[lno + i].len],
                                  pre.buf[preoff..preoff + pre.table[i].len]);
      if !same {
        return false;
      }
      imgoff, preoff := imgoff + img.table[lno + i].len, preoff + pre.table[i].len;
    }
    return true;
  }

  lemma NothingYet(lines: seq<string>)
    ensures Start(lines, 0) == 0
  {}

  lemma LineSlice(lines: seq<string>, i: nat)
    requires i < |lines|
    ensures Start(lines, i) + |lines[i]| == Start(lines, i + 1) <= |Join(lines)|
    ensures Join(lines)[Start(lines, i)..Start(lines, i) + |lines[i]|] == lines[i]
  {
    hide Join;
    StartNext(lines, i);
    SliceOf(lines, i, i + 1);
    assert lines[i..i + 1] == [lines[i]];
    JoinOne(lines[i]);
  }

  // ---- find_pos

  function Distance(p: int, line: int): nat {
    if p < line then line - p else p - line
  }

  /** `p` is a match, and nearer to `line` than every other, or as near and after it. */
  ghost predicate Nearest(hit: seq<bool>, line: nat, p: nat) {
    && p < |hit| && hit[p]
    && forall q | 0 <= q < |hit| && hit[q] ::
         Distance(p, line) < Distance(q, line) || (Distance(p, line) == Distance(q, line) && p >= q)
  }

  /** The places where match_fragment would say yes. */
  ghost function Hits(img: seq<string>, table: seq<LineRec>, pre: seq<string>, atStart: bool, atEnd: bool,
                      fuzzy: bool): (h: seq<bool>)
    requires |img| == |table|
    ensures |h| == |img| + 1
    ensures forall p | 0 <= p <= |img| :: h[p] == Found(img, table, pre, p, atStart, atEnd, fuzzy)
  {
    seq(|img| + 1, p requires 0 <= p <= |img| => Found(img, table, pre, p, atStart, atEnd, fuzzy))
  }

  /** Where the search starts. */
  function Clamped(line: int, imgNr: nat, preNr: nat, atStart: bool, atEnd: bool): nat {
    var wanted := if atStart then 0 else if atEnd then imgNr - preNr else line;
    if wanted < 0 || wanted > imgNr then imgNr else wanted
  }

  /** The invariant of the search: lines [backward, forward] have been tried, the two sides
      in turn; after an even number of rounds backwards last. */
  ghost predicate Alternating(line: nat, n: nat, backward: nat, forward: nat, i: nat) {
    && backward <= line <= forward <= n
    && (if i % 2 == 0 then forward - line == line - backward || (forward == n && line - backward >= forward - line)
        else forward - line == line - backward + 1 || (backward == 0 && forward - line >= line - backward + 1))
  }

  /** Whether the hunk must be at the start; overlapping hunks need not fill the image. */
  predicate MustStart(imgNr: nat, preNr: nat, matchStart: bool, atEnd: bool, allowOverlap: bool) {
    matchStart && !(allowOverlap && atEnd && imgNr != preNr)
  }

  /** The nearest match, or -1 when no line matches. */
  ghost predicate IsPos(img: seq<string>, table: seq<LineRec>, pre: seq<string>, line: int, matchStart: bool,
                        atEnd: bool, fuzzy: bool, allowOverlap: bool, pos: int)
    requires |img| == |table|
  {
    var atStart := MustStart(|img|, |pre|, matchStart, atEnd, allowOverlap);
    var hits := Hits(img, table, pre, atStart, atEnd, fuzzy);
    if pos < 0 then pos == -1 && (forall p | 0 <= p < |hits| :: !hits[p])
    else Nearest(hits, Clamped(line, |img|, |pre|, atStart, atEnd), pos)
  }

  /** There is only one such answer. */
  lemma OnePos(img: seq<string>, table: seq<LineRec>, pre: seq<string>, line: int, matchStart: bool, atEnd: bool,
               fuzzy: bool, allowOverlap: bool, pos: int, pos': int)
    requires |img| == |table|
    requires IsPos(img, table, pre, line, matchStart, atEnd, fuzzy, allowOverlap, pos)
    requires IsPos(img, table, pre, line, matchStart, atEnd, fuzzy, allowOverlap, pos')
    ensures pos == pos'
  {
    hide Found, Hits;
  }

  /** find_pos. */
  method FindPos(img: Image, pre: Image, line: int, matchStart: bool, atEnd: bool, fuzzy: bool, allowOverlap: bool)
    returns (pos: int)
    requires img.Valid() && pre.Valid()
    ensures IsPos(img.lines, img.table, pre.lines, line, matchStart, atEnd, fuzzy, allowOverlap, pos)
  {
    var atStart := matchStart;
    if allowOverlap && atStart && atEnd && |img.table| - |pre.table| != 0 {
      atStart := false;
    }
    var start := line;
    if atStart {
      start := 0;
    } else if atEnd {
      start := |img.table| - |pre.table|;
    }
    if start < 0 || start > |img.table| {
      start := |img.table|;
    }
    ghost var hits := Hits(img.lines, img.table, pre.lines, atStart, atEnd, fuzzy);
    pos := Search(img, pre, start, atStart, atEnd, fuzzy, hits);
  }

  method Search(img: Image, pre: Image, line: nat, atStart: bool, atEnd: bool, fuzzy: bool, ghost hits: seq<bool>)
    returns (pos: int)
    requires img.Valid() && pre.Valid() && line <= |img.table|
    requires hits == Hits(img.lines, img.table, pre.lines, atStart, atEnd, fuzzy)
    ensures if pos < 0 then pos == -1 && (forall p | 0 <= p < |hits| :: !hits[p]) else Nearest(hits, line, pos)
  {
    hide Found, Start, Join, Hash;
    var n := |img.table|;
    var current := img.StartOf(line);
    var backwards: nat, backwardsLno: nat, forwards: nat, forwardsLno: nat := current, line, current, line;
    var currentLno: nat, i: nat := line, 0;
    while true
      invariant 0 <= i && Alternating(line, n, backwardsLno, forwardsLno, i)
      invariant currentLno == (if i % 2 == 0 then backwardsLno else forwardsLno)
      invariant currentLno <= n && current == Start(img.lines, currentLno)
      invariant backwards == Start(img.lines, backwardsLno) && forwards == Start(img.lines, forwardsLno)
      invariant forall p | backwardsLno <= p <= forwardsLno && p != currentLno :: !hits[p]
      decreases n - forwardsLno + backwardsLno
    {
      var found := MatchFragment(img, pre, current, currentLno, atStart, atEnd, fuzzy);
      if found {
        return currentLno;
      }
      if backwardsLno == 0 && forwardsLno == n {
        break;
      }
      // an exhausted side leaves its turn to the other
      if (if i % 2 == 1 then backwardsLno == 0 else forwardsLno == n) {
        i := i + 1;
      }
      if i % 2 == 1 {
        backwardsLno := backwardsLno - 1;
        StartNext(img.lines, backwardsLno);
        backwards := backwards - img.table[backwardsLno].len;
        current, currentLno := backwards, backwardsLno;
      } else {
        StartNext(img.lines, forwardsLno);
        forwards := forwards + img.table[forwardsLno].len;
        forwardsLno := forwardsLno + 1;
        current, currentLno := forwards, forwardsLno;
      }
      i := i + 1;
    }
    return -1;
  }
}
