/** Comparing lines: hash_line and fuzzy_matchlines of apply.c. */
module ApplyLines {

  predicate IsSpace(c: char) {
    c == ' ' || c == '\t' || c == '\n' || c == '\r'
  }

  const WORD := 0x1_0000_0000
  const HASH_BITS := 0x100_0000

  // ---- hash_line

  /** The hash of a line in 32 bits. */
  function Hash(s: string): (h: nat)
    ensures h < WORD
  {
    if s == "" then 0
    else if IsSpace(s[|s| - 1]) then Hash(s[..|s| - 1])
    else (Hash(s[..|s| - 1]) * 3 + s[|s| - 1] as int % 256) % WORD
  }

  /** The part of it that a line table keeps. */
  function ShortHash(s: string): nat { Hash(s) % HASH_BITS }

  method HashLine(s: string) returns (h: nat)
    ensures h == Hash(s)
  {
    h := 0;
    for i := 0 to |s|
      invariant h == Hash(s[..i])
    {
      assert s[..i + 1][..i] == s[..i];
      if !IsSpace(s[i]) {
        h := (h * 3 + s[i] as int % 256) % WORD;
      }
    }
    assert s[..|s|] == s;
  }

  function NonSpace(s: string): string {
    if s == "" then ""
    else if IsSpace(s[|s| - 1]) then NonSpace(s[..|s| - 1])
    else NonSpace(s[..|s| - 1]) + [s[|s| - 1]]
  }

  lemma {:induction false} HashNonSpace(s: string)
    ensures Hash(s) == Hash(NonSpace(s)) && forall i | 0 <= i < |NonSpace(s)| :: !IsSpace(NonSpace(s)[i])
  {
    if s != "" {
      HashNonSpace(s[..|s| - 1]);
      var t := NonSpace(s[..|s| - 1]) + [s[|s| - 1]];
      assert t[..|t| - 1] == NonSpace(s[..|s| - 1]);
    }
  }

  lemma {:induction false} NonSpaceJoin(a: string, b: string)
    ensures NonSpace(a + b) == NonSpace(a) + NonSpace(b)
  {
    if b == "" {
      assert a + b == a;
    } else {
      assert (a + b)[..|a + b| - 1] == a + b[..|b| - 1];
      NonSpaceJoin(a, b[..|b| - 1]);
    }
  }

  // ---- whitespace normalisation

  /** Without its line ending. */
  function Chomp(s: string): (r: string)
    ensures r <= s
  {
    if s != "" && (s[|s| - 1] == '\r' || s[|s| - 1] == '\n') then Chomp(s[..|s| - 1]) else s
  }

  function AfterSpace(s: string): (r: string)
    ensures |r| <= |s| && (s != "" && IsSpace(s[0]) ==> |r| < |s|)
  {
    if s != "" && IsSpace(s[0]) then AfterSpace(s[1..]) else s
  }

  /** Every run of whitespace as one space. */
  function Collapse(s: string): string
    decreases |s|
  {
    if s == "" then ""
    else if IsSpace(s[0]) then " " + Collapse(AfterSpace(s))
    else [s[0]] + Collapse(s[1..])
  }

  function Normal(s: string): string {
    Collapse(Chomp(s))
  }

  lemma {:induction false} NonSpaceChomp(s: string)
    ensures NonSpace(Chomp(s)) == NonSpace(s)
  {
    if s != "" && (s[|s| - 1] == '\r' || s[|s| - 1] == '\n') { NonSpaceChomp(s[..|s| - 1]); }
  }

  lemma {:induction false} NonSpaceAfter(s: string)
    ensures NonSpace(AfterSpace(s)) == NonSpace(s)
  {
    if s != "" && IsSpace(s[0]) {
      NonSpaceAfter(s[1..]);
      NonSpaceJoin([s[0]], s[1..]);
      assert s == [s[0]] + s[1..];
    }
  }

  lemma {:induction false} NonSpaceCollapse(s: string)
    ensures NonSpace(Collapse(s)) == NonSpace(s)
    decreases |s|
  {
    if s != "" {
      assert s == [s[0]] + s[1..];
      NonSpaceJoin([s[0]], s[1..]);
      if IsSpace(s[0]) {
        NonSpaceCollapse(AfterSpace(s));
        NonSpaceAfter(s);
        NonSpaceJoin(" ", Collapse(AfterSpace(s)));
      } else {
        NonSpaceCollapse(s[1..]);
        NonSpaceJoin([s[0]], Collapse(s[1..]));
      }
    }
  }

  /** Lines that match but for whitespace have the same hash. */
  lemma NormalHash(a: string, b: string)
    requires Normal(a) == Normal(b)
    ensures Hash(a) == Hash(b)
  {
    NonSpaceChomp(a);
    NonSpaceChomp(b);
    NonSpaceCollapse(Chomp(a));
    NonSpaceCollapse(Chomp(b));
    HashNonSpace(a);
    HashNonSpace(b);
  }

  /** fuzzy_matchlines decides equality of the normalised lines. */
  method FuzzyMatchLines(s1: string, s2: string) returns (r: bool)
    ensures r == (Normal(s1) == Normal(s2))
  {
    var end1 := ChompEnd(s1);
    var end2 := ChompEnd(s2);
    var t1, t2 := s1[..end1], s2[..end2];
    var i, j := 0, 0;
    while i < |t1| && j < |t2|
      invariant i <= |t1| && j <= |t2|
      invariant (Collapse(t1) == Collapse(t2)) == (Collapse(t1[i..]) == Collapse(t2[j..]))
      decreases |t1| - i
    {
      if IsSpace(t1[i]) {
        if !IsSpace(t2[j]) {
          assert Collapse(t1[i..])[0] == ' ' && Collapse(t2[j..])[0] == t2[j];
          return false;
        }
        var k1 := SkipSpace(t1, i);
        var k2 := SkipSpace(t2, j);
        SameHead(' ', Collapse(t1[k1..]), Collapse(t2[k2..]));
        i, j := k1, k2;
      } else {
        if t1[i] != t2[j] {
          assert Collapse(t1[i..])[0] == t1[i];
          assert Collapse(t2[j..])[0] == if IsSpace(t2[j]) then ' ' else t2[j];
          return false;
        }
        assert t1[i..][1..] == t1[i + 1..] && t2[j..][1..] == t2[j + 1..];
        SameHead(t1[i], Collapse(t1[i + 1..]), Collapse(t2[j + 1..]));
        i, j := i + 1, j + 1;
      }
    }
    assert i < |t1| ==> Collapse(t1[i..]) != "";
    assert j < |t2| ==> Collapse(t2[j..]) != "";
    return i == |t1| && j == |t2|;
  }

  lemma SameHead(c: char, a: string, b: string)
    ensures ([c] + a == [c] + b) == (a == b)
  {
    assert ([c] + a)[1..] == a && ([c] + b)[1..] == b;
  }

  method ChompEnd(s: string) returns (end: nat)
    ensures end <= |s| && s[..end] == Chomp(s)
  {
    end := |s|;
    assert s[..end] == s;
    while 0 < end && (s[end - 1] == '\r' || s[end - 1] == '\n')
      invariant end <= |s| && Chomp(s[..end]) == Chomp(s)
    {
      assert s[..end][..end - 1] == s[..end - 1];
      end := end - 1;
    }
  }

  method SkipSpace(s: string, from: nat) returns (k: nat)
    requires from < |s| && IsSpace(s[from])
    ensures from < k <= |s| && s[k..] == AfterSpace(s[from..])
    ensures Collapse(s[from..]) == " " + Collapse(s[k..])
  {
    k := from;
    while k < |s| && IsSpace(s[k])
      invariant from <= k <= |s| && AfterSpace(s[k..]) == AfterSpace(s[from..])
    {
      assert s[k..][1..] == s[k + 1..];
      k := k + 1;
    }
  }
}
