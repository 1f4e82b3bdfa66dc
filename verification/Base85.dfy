/** Base-85 text of binary patches: base85.c. */
module Base85 {

  const WORD := 0x1_0000_0000

  // ---- the alphabet

  function En(i: nat): (c: char)
    requires i < 85
  {
    if i < 10 then '0' + i as char
    else if i < 36 then 'A' + (i - 10) as char
    else if i < 62 then 'a' + (i - 36) as char
    else Mark(i - 62)
  }

  function Mark(i: nat): char
    requires i < 23
  {
    if i == 0 then '!' else if i < 5 then '#' + (i - 1) as char
    else if i < 9 then '(' + (i - 5) as char
    else if i == 9 then '-' else if i < 16 then ';' + (i - 10) as char
    else if i < 19 then '^' + (i - 16) as char
    else '{' + (i - 19) as char
  }

  /** A character's place in the alphabet, or -1. */
  function De(c: char): (i: int)
    ensures -1 <= i < 85
  {
    if '0' <= c <= '9' then (c - '0') as int
    else if 'A' <= c <= 'Z' then (c - 'A') as int + 10
    else if 'a' <= c <= 'z' then (c - 'a') as int + 36
    else if c == '!' then 62
    else if '#' <= c <= '&' then (c - '#') as int + 63
    else if '(' <= c <= '+' then (c - '(') as int + 67
    else if c == '-' then 71
    else if ';' <= c <= '@' then (c - ';') as int + 72
    else if '^' <= c <= '`' then (c - '^') as int + 78
    else if '{' <= c <= '~' then (c - '{') as int + 81
    else -1
  }

  /** The alphabet has 85 different characters and De finds each. */
  lemma Alphabet(i: nat, c: char)
    requires i < 85
    ensures De(En(i)) == i && (De(c) == i ==> c == En(i)) && En(i) < 128 as char
  {}

  /** The alphabet spelled out: digits, letters, */
  lemma SpelledLetters(i: nat)
    requires i < 26
    ensures i < 10 ==> En(i) == "0123456789"[i]
    ensures En(10 + i) == "ABCDEFGHIJKLMNOPQRSTUVWXYZ"[i] && En(36 + i) == "abcdefghijklmnopqrstuvwxyz"[i]
  {}

  /** and marks. */
  lemma SpelledMarks(i: nat)
    requires i < 23
    ensures En(62 + i) == "!#$%&()*+-;<=>?@^_`{|}~"[i]
  {}

  function Place(byte: int): int
    requires 0 <= byte < 256
  {
    De(byte as char)
  }

  /** prep_base85: one more than the place of each byte, 0 for the others. */
  method PrepBase85() returns (de: seq<nat>)
    ensures |de| == 256 && forall c | 0 <= c < 256 :: de[c] == Place(c) + 1
  {
    de := seq(256, _ => 0);
    for i := 0 to 85
      invariant |de| == 256
      invariant forall c | 0 <= c < 256 :: de[c] == if Place(c) < i then Place(c) + 1 else 0
    {
      Alphabet(i, En(i));
      forall c | 0 <= c < 256 ensures Place(c) == i ==> c as char == En(i) { Alphabet(i, c as char); }
      de := de[En(i) as int := i + 1];
    }
  }

  // ---- five characters

  /** The character at a position; the text ends with NUL. */
  function CharAt(text: string, i: nat): char {
    if i < |text| then text[i] else '\0'
  }

  ghost predicate Valid5(text: string, at: nat) {
    forall k | at <= k < at + 5 :: De(CharAt(text, k)) >= 0
  }

  ghost function Value(text: string, at: nat, n: nat): int {
    if n == 0 then 0 else Value(text, at, n - 1) * 85 + De(CharAt(text, at + n - 1))
  }

  /** The overflow test, on a value of four characters. */
  lemma OverflowTest(acc: nat, de: nat)
    requires acc < 85 * 85 * 85 * 85 && de < 85
    ensures (0xffff_ffff / 85 < acc || 0xffff_ffff - de < (acc * 85) % WORD) <==> acc * 85 + de >= WORD
    ensures acc * 85 + de < WORD ==> (acc * 85) % WORD == acc * 85
  {
    if 0xffff_ffff / 85 >= acc {
      assert acc * 85 < WORD;
    }
  }

  /** One group of decode_85 in 32-bit arithmetic: accepted exactly when all five characters
      are in the alphabet and their value fits 32 bits, and nothing wraps before the test. */
  method DecodeGroup(text: string, at: nat) returns (ok: bool, acc: nat)
    ensures ok <==> Valid5(text, at) && Value(text, at, 5) < WORD
    ensures ok ==> acc == Value(text, at, 5)
  {
    hide De, CharAt;
    acc := 0;
    for n := 0 to 4
      invariant forall k | at <= k < at + n :: De(CharAt(text, k)) >= 0
      invariant acc == Value(text, at, n) && acc < 85 * 85 * 85 * 85
      invariant n == 0 ==> acc == 0
      invariant n == 1 ==> acc < 85
      invariant n == 2 ==> acc < 85 * 85
      invariant n == 3 ==> acc < 85 * 85 * 85
    {
      var de := De(CharAt(text, at + n));
      if de < 0 {
        return false, 0;
      }
      assert acc * 85 + de < WORD;
      acc := (acc * 85 + de) % WORD;
    }
    var de := De(CharAt(text, at + 4));
    if de < 0 {
      return false, 0;
    }
    OverflowTest(acc, de);
    if 0xffff_ffff / 85 < acc || 0xffff_ffff - de < (acc * 85) % WORD {
      return false, 0;
    }
    return true, (acc * 85) % WORD + de;
  }

  // ---- four bytes

  type Byte = x: int | 0 <= x < 256

  function ByteAt(data: seq<Byte>, i: nat): int {
    if i < |data| then data[i] else 0
  }

  /** Four bytes as a big-endian number, zeros after the end. */
  function Word(data: seq<Byte>, at: nat): (w: nat)
    ensures w < WORD
  {
    ByteAt(data, at) * 0x100_0000 + ByteAt(data, at + 1) * 0x1_0000 + ByteAt(data, at + 2) * 0x100
      + ByteAt(data, at + 3)
  }

  /** The digits of a word, the last one first. */
  method EncodeWord(word: nat) returns (five: string)
    requires word < WORD
    ensures |five| == 5 && forall k | 0 <= k < 5 :: De(five[k]) >= 0
    ensures Digits(five[0], five[1], five[2], five[3], five[4]) == word
  {
    hide En, De;
    five := ['0', '0', '0', '0', '0'];
    var acc := word;
    for cnt := 5 downto 0
      invariant |five| == 5 && acc >= 0 && forall k | cnt <= k < 5 :: De(five[k]) >= 0
      invariant cnt == 5 ==> acc == word
      invariant cnt == 4 ==> acc * 85 + De(five[4]) == word
      invariant cnt == 3 ==> (acc * 85 + De(five[3])) * 85 + De(five[4]) == word
      invariant cnt == 2 ==> ((acc * 85 + De(five[2])) * 85 + De(five[3])) * 85 + De(five[4]) == word
      invariant cnt == 1 ==>
                  (((acc * 85 + De(five[1])) * 85 + De(five[2])) * 85 + De(five[3])) * 85 + De(five[4]) == word
      invariant cnt == 0 ==>
                  ((((acc * 85 + De(five[0])) * 85 + De(five[1])) * 85 + De(five[2])) * 85 + De(five[3])) * 85
                  + De(five[4]) == word
    {
      var val := acc % 85;
      Alphabet(val, En(val));
      five := five[cnt := En(val)];
      acc := acc / 85;
    }
    assert acc == 0;
  }

  function Digits(a: char, b: char, c: char, d: char, e: char): int {
    (((De(a) * 85 + De(b)) * 85 + De(c)) * 85 + De(d)) * 85 + De(e)
  }

  lemma ValueIsDigits(text: string, at: nat)
    ensures Value(text, at, 5) == Digits(CharAt(text, at), CharAt(text, at + 1), CharAt(text, at + 2),
                                         CharAt(text, at + 3), CharAt(text, at + 4))
  {
    hide De, CharAt;
    assert Value(text, at, 1) == De(CharAt(text, at));
    assert Value(text, at, 2) == Value(text, at, 1) * 85 + De(CharAt(text, at + 1));
    assert Value(text, at, 3) == Value(text, at, 2) * 85 + De(CharAt(text, at + 2));
    assert Value(text, at, 4) == Value(text, at, 3) * 85 + De(CharAt(text, at + 3));
  }

  // ---- whole buffers

  /** The number of groups for `n` bytes. */
  function GroupsFor(n: nat): nat {
    (n + 3) / 4
  }

  /** Group `g` of the text stands for bytes 4 g .. 4 g + 3. */
  ghost predicate Stands(data: seq<Byte>, text: string, g: nat) {
    Valid5(text, 5 * g) && Value(text, 5 * g, 5) == Word(data, 4 * g)
  }

  /** encode_85. */
  method Encode(data: seq<Byte>) returns (text: string)
    ensures |text| == 5 * GroupsFor(|data|) && forall g | 0 <= g < GroupsFor(|data|) :: Stands(data, text, g)
  {
    text := "";
    var at := 0;
    ghost var g := 0;
    while at < |data|
      invariant |text| == 5 * g && g <= GroupsFor(|data|)
                && (if at < |data| then at == 4 * g else g == GroupsFor(|data|))
      invariant 0 <= at <= |data|
      invariant forall k | 0 <= k < g :: Stands(data, text, k)
      decreases |data| - at
    {
      var acc, next := Gather(data, at);
      var five := EncodeWord(acc);
      forall k | 0 <= k < g ensures Stands(data, text + five, k) { StandsOn(data, text, five, k); }
      StandsHere(data, text, five, g);
      text := text + five;
      at, g := next, g + 1;
    }
  }

  /** Up to four bytes into a word, the first one highest. */
  method Gather(data: seq<Byte>, at: nat) returns (acc: nat, next: nat)
    requires at < |data|
    ensures acc == Word(data, at) && next == if at + 4 < |data| then at + 4 else |data|
  {
    acc, next := 0, at;
    var shift := 0x100_0000;
    while true
      invariant at <= next < |data| && next < at + 4
      invariant next == at ==> shift == 0x100_0000 && acc == 0
      invariant next == at + 1 ==> shift == 0x1_0000 && acc == ByteAt(data, at) * 0x100_0000
      invariant next == at + 2 ==>
                  shift == 0x100 && acc == ByteAt(data, at) * 0x100_0000 + ByteAt(data, at + 1) * 0x1_0000
      invariant next == at + 3 ==>
                  && shift == 1
                  && acc == ByteAt(data, at) * 0x100_0000 + ByteAt(data, at + 1) * 0x1_0000
                            + ByteAt(data, at + 2) * 0x100
      decreases |data| - next
    {
      var ch: int := data[next];
      acc := acc + ch * shift;
      next := next + 1;
      if next == |data| || shift == 1 {
        break;
      }
      shift := shift / 0x100;
    }
  }

  lemma StandsOn(data: seq<Byte>, text: string, more: string, g: nat)
    requires Stands(data, text, g) && 5 * g + 5 <= |text|
    ensures Stands(data, text + more, g)
  {
    hide De, Digits;
    assert forall k | 5 * g <= k < 5 * g + 5 :: CharAt(text + more, k) == CharAt(text, k);
    ValueIsDigits(text, 5 * g);
    ValueIsDigits(text + more, 5 * g);
  }

  lemma StandsHere(data: seq<Byte>, text: string, five: string, g: nat)
    requires |text| == 5 * g && |five| == 5 && forall k | 0 <= k < 5 :: De(five[k]) >= 0
    requires Digits(five[0], five[1], five[2], five[3], five[4]) == Word(data, 4 * g)
    ensures Stands(data, text + five, g)
  {
    hide De, Digits;
    assert forall k | 0 <= k < 5 :: CharAt(text + five, 5 * g + k) == five[k];
    assert forall k | 5 * g <= k < 5 * g + 5 :: CharAt(text + five, k) == five[k - 5 * g];
    ValueIsDigits(text + five, 5 * g);
  }

  /** Byte `i` of a word, the first one highest. */
  function ByteOf(word: nat, i: nat): (b: Byte)
    requires word < WORD && i < 4
  {
    if i == 0 then word / 0x100_0000 else if i == 1 then word / 0x1_0000 % 0x100
    else if i == 2 then word / 0x100 % 0x100 else word % 0x100
  }

  ghost predicate GroupOk(text: string, g: nat) {
    Valid5(text, 5 * g) && 0 <= Value(text, 5 * g, 5) < WORD
  }

  /** Byte `i` is that of its group. */
  ghost predicate Decoded(text: string, out: seq<Byte>, i: nat) {
    i < |out| && GroupOk(text, i / 4) && out[i] == ByteOf(Value(text, 5 * (i / 4), 5), i % 4)
  }

  /** decode_85 into `len` bytes: it fails exactly when a group is not valid or too large, and
      gives the bytes of the groups, of the last one as many as are wanted. */
  method Decode(text: string, len: nat) returns (ok: bool, out: seq<Byte>)
    ensures ok <==> forall g | 0 <= g < GroupsFor(len) :: GroupOk(text, g)
    ensures ok ==> |out| == len && forall i | 0 <= i < len :: Decoded(text, out, i)
  {
    hide Valid5, Value, ByteOf;
    out := [];
    var g := 0;
    while |out| < len
      invariant |out| <= len && g <= GroupsFor(len) && (if |out| < len then |out| == 4 * g else g == GroupsFor(len))
      invariant forall k | 0 <= k < g :: GroupOk(text, k)
      invariant forall i | 0 <= i < |out| :: Decoded(text, out, i)
      decreases len - |out|
    {
      var acc;
      ok, acc := DecodeGroup(text, 5 * g);
      if !ok {
        assert !GroupOk(text, g);
        return;
      }
      assert GroupOk(text, g);
      var cnt := if len - |out| < 4 then len - |out| else 4;
      ghost var before := out;
      out := Scatter(out, acc, cnt);
      forall i | 0 <= i < |out| ensures Decoded(text, out, i) {
        if i < |before| {
          assert Decoded(text, before, i) && out[i] == before[i];
        } else {
          assert i / 4 == g && i % 4 == i - |before|;
        }
      }
      g := g + 1;
    }
    ok := true;
  }

  /** Four bytes as a word. */
  function Join(a: int, b: int, c: int, d: int): int {
    ((a * 0x100 + b) * 0x100 + c) * 0x100 + d
  }

  lemma Rotate(a: Byte, b: Byte, c: Byte, d: Byte)
    ensures 0 <= Join(a, b, c, d) < WORD
    ensures (Join(a, b, c, d) * 0x100) % WORD + Join(a, b, c, d) / 0x100_0000 == Join(b, c, d, a)
    ensures Join(b, c, d, a) % 0x100 == a
  {
    var low: int := (b * 0x100 + c) * 0x100 + d;
    assert Join(a, b, c, d) == a * 0x100_0000 + low && 0 <= low < 0x100_0000;
    assert Join(b, c, d, a) == low * 0x100 + a;
    RotateParts(a, low);
  }

  lemma RotateParts(a: int, low: int)
    requires 0 <= a < 256 && 0 <= low < 0x100_0000
    ensures ((a * 0x100_0000 + low) * 0x100) % WORD + (a * 0x100_0000 + low) / 0x100_0000 == low * 0x100 + a
    ensures (low * 0x100 + a) % 0x100 == a
  {
    assert (a * 0x100_0000 + low) * 0x100 == a * WORD + low * 0x100;
    assert (a * WORD + low * 0x100) % WORD == low * 0x100;
  }

  lemma Unjoin(word: nat) returns (a: Byte, b: Byte, c: Byte, d: Byte)
    requires word < WORD
    ensures word == Join(a, b, c, d)
    ensures a == ByteOf(word, 0) && b == ByteOf(word, 1) && c == ByteOf(word, 2) && d == ByteOf(word, 3)
  {
    a, b, c, d := word / 0x100_0000, word / 0x1_0000 % 0x100, word / 0x100 % 0x100, word % 0x100;
  }

  lemma SameBytes(a: Byte, b: Byte, c: Byte, d: Byte, a': Byte, b': Byte, c': Byte, d': Byte)
    requires Join(a, b, c, d) == Join(a', b', c', d')
    ensures a == a' && b == b' && c == c' && d == d'
  {
    Rotate(a, b, c, d);
    Rotate(a', b', c', d');
    Rotate(b, c, d, a);
    Rotate(b', c', d', a');
    Rotate(c, d, a, b);
    Rotate(c', d', a', b');
  }

  lemma BytesOf(a: Byte, b: Byte, c: Byte, d: Byte)
    ensures 0 <= Join(a, b, c, d) < WORD
    ensures ByteOf(Join(a, b, c, d), 0) == a && ByteOf(Join(a, b, c, d), 1) == b
    ensures ByteOf(Join(a, b, c, d), 2) == c && ByteOf(Join(a, b, c, d), 3) == d
  {
    var w := Join(a, b, c, d);
    Rotate(a, b, c, d);
    var a', b', c', d' := Unjoin(w);
    SameBytes(a, b, c, d, a', b', c', d');
  }

  /** The bytes of a word are those of the data it was made from. */
  lemma WordBytes(data: seq<Byte>, n: nat, i: nat)
    requires i < 4
    ensures ByteOf(Word(data, n), i) == ByteAt(data, n + i)
  {
    BytesOf(ByteAt(data, n), ByteAt(data, n + 1), ByteAt(data, n + 2), ByteAt(data, n + 3));
  }

  /** Append the first `cnt` bytes of a word by rotating it. */
  method Scatter(start: seq<Byte>, word: nat, cnt: nat) returns (out: seq<Byte>)
    requires word < WORD && 1 <= cnt <= 4
    ensures |out| == |start| + cnt && out[..|start|] == start
    ensures forall k | 0 <= k < cnt :: out[|start| + k] == ByteOf(word, k)
  {
    ghost var a, b, c, d := Unjoin(word);
    ghost var bytes := [a, b, c, d];
    assert forall k | 0 <= k < 4 :: bytes[k] == ByteOf(word, k);
    hide *;
    out := start;
    var acc := word;
    ghost var w, x, y, z := a, b, c, d;
    for k := 0 to cnt
      invariant acc == Join(w, x, y, z) && out == start + bytes[..k] && [w, x, y, z] == bytes[k..] + bytes[..k]
    {
      Rotate(w, x, y, z);
      assert w == [w, x, y, z][0] == bytes[k];
      acc := (acc * 0x100) % WORD + acc / 0x100_0000;
      out := out + [acc % 0x100];
      ghost var before := [w, x, y, z];
      w, x, y, z := x, y, z, w;
      assert [w, x, y, z] == before[1..] + [before[0]];
      assert bytes[..k + 1] == bytes[..k] + [bytes[k]];
    }
  }

  /** decode_85 undoes encode_85 for every length. */
  method RoundTrip(data: seq<Byte>) returns (ok: bool, out: seq<Byte>)
    ensures ok && out == data
  {
    hide Valid5, Value, ByteOf, Word;
    var text := Encode(data);
    forall g | 0 <= g < GroupsFor(|data|) ensures GroupOk(text, g) { assert Stands(data, text, g); }
    ok, out := Decode(text, |data|);
    forall i | 0 <= i < |data| ensures out[i] == data[i] {
      assert Decoded(text, out, i) && Stands(data, text, i / 4);
      WordBytes(data, 4 * (i / 4), i % 4);
    }
  }
}
