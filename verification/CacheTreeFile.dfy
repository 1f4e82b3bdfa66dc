/** The cache-tree extension of the index file: write_one and read_one of cache-tree.c.
    Bytes are chars; an object id is stored in `rawsz` bytes by an uninterpreted codec. */
module CacheTreeFile {
  import opened CacheIndex
  import opened CacheTree

  // ---- decimal numbers

  function DigitChar(d: nat): char
    requires d < 10
  {
    '0' + d as char
  }

  predicate IsDigit(c: char) {
    '0' <= c <= '9'
  }

  function Digits(n: nat): string {
    if n < 10 then [DigitChar(n)] else Digits(n / 10) + [DigitChar(n % 10)]
  }

  /** "%d". */
  function Decimal(n: int): string {
    if n < 0 then "-" + Digits(-n) else Digits(n)
  }

  predicate AllDigits(s: string) {
    forall i | 0 <= i < |s| :: IsDigit(s[i])
  }

  function Value(s: string): nat
    requires AllDigits(s)
  {
    if s == "" then 0
    else
      assert IsDigit(s[|s| - 1]);
      Value(s[..|s| - 1]) * 10 + (s[|s| - 1] - '0') as nat
  }

  predicate Numeral(s: string) {
    s != "" && AllDigits(s)
  }

  lemma {:induction false} DigitsValue(n: nat)
    ensures Numeral(Digits(n)) && Value(Digits(n)) == n
  {
    if n < 10 {
      assert Digits(n)[..0] == "";
    } else {
      DigitsValue(n / 10);
      assert Digits(n)[..|Digits(n)| - 1] == Digits(n / 10);
    }
  }

  /** Decimal notation, digit by digit. */
  lemma DecimalNotation(q: int, r: int)
    requires 0 <= q && 0 <= r < 10
    ensures Digits(r) == ["0123456789"[r]] && (q > 0 ==> Digits(10 * q + r) == Digits(q) + ["0123456789"[r]])
    ensures q > 0 ==> Decimal(-q) == "-" + Digits(q) && Decimal(q) == Digits(q)
  {
    assert (10 * q + r) / 10 == q && (10 * q + r) % 10 == r;
    assert DigitChar(r) == "0123456789"[r];
  }

  // ---- strtol

  predicate IsSpace(c: char) {
    c == ' ' || 9 as char <= c <= 13 as char
  }

  function SkipSpace(s: string, from: nat): (k: nat)
    requires from <= |s|
    ensures from <= k <= |s|
    decreases |s| - from
  {
    if from < |s| && IsSpace(s[from]) then SkipSpace(s, from + 1) else from
  }

  function SkipDigits(s: string, from: nat): (k: nat)
    requires from <= |s|
    ensures from <= k <= |s| && forall i | from <= i < k :: IsDigit(s[i])
    ensures k < |s| ==> !IsDigit(s[k])
    decreases |s| - from
  {
    if from < |s| && IsDigit(s[from]) then SkipDigits(s, from + 1) else from
  }

  const LONG_MAX := 0x7fff_ffff_ffff_ffff
  const INT_LIMIT := 0x8000_0000

  /** strtol saturates; assigning its result to an int keeps the low 32 bits. */
  function ToInt(v: int): int {
    var long := if v > LONG_MAX then LONG_MAX else if v < -LONG_MAX - 1 then -LONG_MAX - 1 else v;
    (long + INT_LIMIT) % (2 * INT_LIMIT) - INT_LIMIT
  }

  predicate FitsInt(v: int) {
    -INT_LIMIT <= v < INT_LIMIT
  }

  /** The int that strtol reads at `from`, and where it stops: `from` when there is none. */
  function Strtol(s: string, from: nat): (r: (int, nat))
    requires from <= |s|
    ensures from <= r.1 <= |s|
  {
    var sign := SkipSpace(s, from);
    var minus := sign < |s| && s[sign] == '-';
    var start := if sign < |s| && (s[sign] == '-' || s[sign] == '+') then sign + 1 else sign;
    var end := SkipDigits(s, start);
    if end == start then (0, from) else (ToInt(Signed(minus, s[start..end])), end)
  }

  function Signed(minus: bool, digits: string): int
    requires AllDigits(digits)
  {
    if minus then 0 - Value(digits) else Value(digits)
  }

  /** `text` is what the buffer holds from `at` on. */
  predicate At(buf: string, at: nat, text: string) {
    at + |text| <= |buf| && buf[at..at + |text|] == text
  }

  lemma AtSplit(buf: string, at: nat, a: string, b: string)
    requires At(buf, at, a + b)
    ensures At(buf, at, a) && At(buf, at + |a|, b)
  {
    assert buf[at..at + |a|] == (a + b)[..|a|];
    assert buf[at + |a|..at + |a| + |b|] == (a + b)[|a|..];
  }

  lemma {:induction false} SkipDigitsAt(buf: string, at: nat, text: string)
    requires Numeral(text) && At(buf, at, text) && at + |text| < |buf| && !IsDigit(buf[at + |text|])
    ensures SkipDigits(buf, at) == at + |text|
  {
    var k := SkipDigits(buf, at);
    assert forall i | 0 <= i < |text| :: buf[at + i] == text[i];
  }

  lemma FirstAt(buf: string, at: nat, text: string)
    requires At(buf, at, text) && text != ""
    ensures at < |buf| && buf[at] == text[0]
  {
    assert buf[at..at + |text|][0] == buf[at];
  }

  lemma DecimalHead(n: int)
    ensures Decimal(n) != "" && !IsSpace(Decimal(n)[0]) && Decimal(n)[0] != '+' && (Decimal(n)[0] == '-' <==> n < 0)
  {
    DigitsValue(if n < 0 then -n else n);
    assert IsDigit(Digits(if n < 0 then -n else n)[0]);
  }

  lemma ToIntFits(v: int)
    requires FitsInt(v)
    ensures ToInt(v) == v
  {}

  /** strtol reads back a printed int up to a non-digit. */
  lemma StrtolReads(buf: string, at: nat, n: int)
    requires FitsInt(n) && At(buf, at, Decimal(n)) && at + |Decimal(n)| < |buf| && !IsDigit(buf[at + |Decimal(n)|])
    ensures Strtol(buf, at) == (n, at + |Decimal(n)|)
  {
    hide *;
    var digits, start := DecimalParts(buf, at, n);
    SkipDigitsAt(buf, start, digits);
    ToIntFits(n);
    AtIs(buf, start, digits);
    StrtolIs(buf, at, start, digits, n);
  }

  lemma AtIs(buf: string, at: nat, text: string)
    requires At(buf, at, text)
    ensures at + |text| <= |buf| && buf[at..at + |text|] == text
  {}

  /** Where the digits of a printed int start. */
  lemma DecimalParts(buf: string, at: nat, n: int) returns (digits: string, start: nat)
    requires At(buf, at, Decimal(n))
    ensures Numeral(digits) && digits != "" && At(buf, start, digits) && start + |digits| == at + |Decimal(n)|
    ensures AllDigits(digits) && Signed(n < 0, digits) == n && at < |buf| && SkipSpace(buf, at) == at
    ensures start == (if n < 0 then at + 1 else at) && buf[at] != '+' && (buf[at] == '-' <==> n < 0)
  {
    var m := if n < 0 then -n else n;
    digits, start := Digits(m), if n < 0 then at + 1 else at;
    assert Decimal(n) == if n < 0 then "-" + digits else digits;
    DigitsValue(m);
    DecimalHead(n);
    FirstAt(buf, at, Decimal(n));
    hide Digits, Decimal, Value, At;
    if n < 0 { AtSplit(buf, at, "-", digits); }
  }

  lemma StrtolIs(buf: string, at: nat, start: nat, digits: string, n: int)
    requires digits != "" && start + |digits| <= |buf| && at < |buf| && buf[start..start + |digits|] == digits
    requires SkipDigits(buf, start) == start + |digits| && SkipSpace(buf, at) == at
    requires start == (if buf[at] == '-' then at + 1 else at) && buf[at] != '+'
    requires AllDigits(digits) && ToInt(Signed(buf[at] == '-', digits)) == n
    ensures Strtol(buf, at) == (n, start + |digits|)
  {
    hide ToInt, SkipSpace, SkipDigits, Value, Signed;
  }

  /** Also after a space. */
  lemma StrtolAfterSpace(buf: string, at: nat, n: int)
    requires at < |buf| && buf[at] == ' '
    requires FitsInt(n) && At(buf, at + 1, Decimal(n)) && at + 1 + |Decimal(n)| < |buf|
             && !IsDigit(buf[at + 1 + |Decimal(n)|])
    ensures Strtol(buf, at) == (n, at + 1 + |Decimal(n)|)
  {
    DecimalSome(n);
    hide *;
    StrtolReads(buf, at + 1, n);
    StrtolSkips(buf, at);
  }

  lemma DecimalSome(n: int)
    ensures Decimal(n) != ""
  {
    DecimalHead(n);
  }

  lemma StrtolSkips(buf: string, at: nat)
    requires at < |buf| && buf[at] == ' '
    ensures Strtol(buf, at + 1).1 > at + 1 ==> Strtol(buf, at) == Strtol(buf, at + 1)
  {
    assert SkipSpace(buf, at) == SkipSpace(buf, at + 1);
    hide ToInt, SkipDigits, Value, SkipSpace, Signed;
  }

  // ---- the format

  type Raw = Oid -> string
  type Unraw = string -> Oid

  ghost predicate Codec(raw: Raw, unraw: Unraw, rawsz: nat) {
    forall oid: Oid :: |raw(oid)| == rawsz && unraw(raw(oid)) == oid
  }

  function Header(t: Tree, name: string, raw: Raw): string {
    name + "\0" + Decimal(t.count) + " " + Decimal(|t.down|) + "\n" + if t.count >= 0 then raw(t.oid) else ""
  }

  function Serial(t: Tree, name: string, raw: Raw): string
    decreases t, 1
  {
    Header(t, name, raw) + SerialDown(t, |t.down|, raw)
  }

  /** The last `k` subdirectories. */
  function SerialDown(t: Tree, k: nat, raw: Raw): string
    requires k <= |t.down|
    decreases t, 0, k
  {
    if k == 0 then ""
    else
      var sub := t.down[|t.down| - k];
      Serial(sub.tree, sub.name, raw) + SerialDown(t, k - 1, raw)
  }

  /** The file of an invalid root with one subdirectory of twelve entries. */
  lemma SmallFile(raw: Raw, old': Oid, oid: Oid)
    ensures Serial(Tree(-1, old', [Sub("lib", Tree(12, oid, []), 0, false)]), "", raw)
         == "\0" + "-1 1\n" + "lib\0" + "12 0\n" + raw(oid)
  {
    var lib := Sub("lib", Tree(12, oid, []), 0, false);
    var t := Tree(-1, old', [lib]);
    DecimalNotation(1, 2);
    DecimalNotation(0, 1);
    DecimalNotation(0, 0);
    assert Digits(12) == "12" && Decimal(-1) == "-1" && Decimal(1) == "1" && Decimal(0) == "0";
    hide Digits, Decimal;
    assert Header(lib.tree, "lib", raw) == "lib\0" + "12 0\n" + raw(oid);
    assert Header(t, "", raw) == "\0" + "-1 1\n";
    hide Header;
    assert SerialDown(lib.tree, 0, raw) == "" && Serial(lib.tree, "lib", raw) == Header(lib.tree, "lib", raw);
    assert SerialDown(t, 0, raw) == "" && SerialDown(t, 1, raw) == Serial(lib.tree, "lib", raw);
  }

  ghost predicate SortedTree(t: Tree) {
    SortedDown(t.down) && forall i | 0 <= i < |t.down| :: SortedTree(t.down[i].tree)
  }

  /** A tree that the file can hold: ints, and names without NUL. */
  ghost predicate Storable(t: Tree) {
    && FitsInt(t.count) && FitsInt(|t.down|)
    && forall i | 0 <= i < |t.down| :: '\0' !in t.down[i].name && Storable(t.down[i].tree)
  }

  /** What comes back: ids of invalid nodes and the scratch fields are not stored. */
  function Stored(t: Tree): Tree {
    Tree(t.count, if t.count >= 0 then t.oid else 0,
         seq(|t.down|, i requires 0 <= i < |t.down| => Sub(t.down[i].name, Stored(t.down[i].tree), 0, false)))
  }

  // ---- writing

  /** write_one; it dies, `ok` is false, on unsorted subdirectories. */
  method WriteOne(t: Tree, name: string, raw: Raw) returns (ok: bool, out: string)
    ensures ok <==> SortedTree(t)
    ensures ok ==> out == Serial(t, name, raw)
    decreases t
  {
    hide Header, NameLess, Decimal;
    out := Header(t, name, raw);
    var i := 0;
    while i < |t.down|
      invariant 0 <= i <= |t.down|
      invariant forall j, k | 0 <= j < k < i :: NameLess(t.down[j].name, t.down[k].name)
      invariant forall j | 0 <= j < i :: SortedTree(t.down[j].tree)
      invariant out + SerialDown(t, |t.down| - i, raw) == Serial(t, name, raw)
    {
      if i > 0 {
        if !NameLess(t.down[i - 1].name, t.down[i].name) {
          return false, "";
        }
        forall j | 0 <= j < i ensures NameLess(t.down[j].name, t.down[i].name) {
          NameOrder(t.down[j].name, t.down[i - 1].name, t.down[i].name);
        }
      }
      var one;
      ok, one := WriteOne(t.down[i].tree, t.down[i].name, raw);
      if !ok {
        return false, "";
      }
      SerialNext(t, i, raw);
      Regroup(out, one, SerialDown(t, |t.down| - i - 1, raw));
      out := out + one;
      i := i + 1;
    }
    ok := true;
  }

  lemma Regroup(a: string, b: string, c: string)
    ensures a + (b + c) == (a + b) + c
  {}

  // ---- reading

  function OidText(t: Tree, raw: Raw): string {
    if t.count >= 0 then raw(t.oid) else ""
  }

  /** Where the counts of a written header end. */
  function CountsEnd(t: Tree, at: nat, name: string): nat {
    at + |name| + 1 + |Decimal(t.count)| + 1 + |Decimal(|t.down|)|
  }

  lemma HeaderParts(buf: string, at: nat, t: Tree, name: string, raw: Raw)
    requires At(buf, at, Header(t, name, raw))
    ensures At(buf, at, name) && At(buf, at + |name|, "\0") && At(buf, at + |name| + 1, Decimal(t.count))
    ensures CountsEnd(t, at, name) == at + |name| + 1 + |Decimal(t.count)| + 1 + |Decimal(|t.down|)|
    ensures At(buf, at + |name| + 1 + |Decimal(t.count)|, " ")
    ensures At(buf, at + |name| + 1 + |Decimal(t.count)| + 1, Decimal(|t.down|))
    ensures At(buf, CountsEnd(t, at, name), "\n") && At(buf, CountsEnd(t, at, name) + 1, OidText(t, raw))
    ensures at + |Header(t, name, raw)| == CountsEnd(t, at, name) + 1 + |OidText(t, raw)|
  {
    var d1, d2 := Decimal(t.count), Decimal(|t.down|);
    hide Decimal, At;
    AtSplit(buf, at, name + "\0" + d1 + " " + d2 + "\n", OidText(t, raw));
    AtSplit(buf, at, name + "\0" + d1 + " " + d2, "\n");
    AtSplit(buf, at, name + "\0" + d1 + " ", d2);
    AtSplit(buf, at, name + "\0" + d1, " ");
    AtSplit(buf, at, name + "\0", d1);
    AtSplit(buf, at, name, "\0");
  }

  lemma DecimalChars(n: int)
    ensures forall i | 0 <= i < |Decimal(n)| :: Decimal(n)[i] == '-' || IsDigit(Decimal(n)[i])
  {
    DigitsValue(if n < 0 then -n else n);
  }

  lemma InAt(buf: string, at: nat, text: string, i: nat)
    requires At(buf, at, text) && at <= i < at + |text|
    ensures i < |buf| && buf[i] == text[i - at]
  {}

  /** The first newline or NUL after the name of a written header is the end of the counts. */
  lemma CountsLine(buf: string, at: nat, t: Tree, name: string, raw: Raw, i: nat)
    requires At(buf, at, Header(t, name, raw)) && at + |name| + 1 <= i < CountsEnd(t, at, name)
    ensures i < |buf| && buf[i] != '\0' && buf[i] != '\n'
  {
    HeaderParts(buf, at, t, name, raw);
    DecimalChars(t.count);
    DecimalChars(|t.down|);
    hide Decimal, At, Header;
    var q := at + |name| + 1;
    if i < q + |Decimal(t.count)| {
      InAt(buf, q, Decimal(t.count), i);
    } else if i == q + |Decimal(t.count)| {
      InAt(buf, i, " ", i);
    } else {
      InAt(buf, q + |Decimal(t.count)| + 1, Decimal(|t.down|), i);
    }
  }

  lemma NotDigit(buf: string, p: nat, text: string)
    requires At(buf, p, text) && (text == " " || text == "\n")
    ensures p < |buf| && buf[p] == text[0] && !IsDigit(buf[p])
  {
    InAt(buf, p, text, p);
  }

  lemma HeaderNumbers(buf: string, at: nat, t: Tree, name: string, raw: Raw)
    requires At(buf, at, Header(t, name, raw)) && FitsInt(t.count) && FitsInt(|t.down|)
    ensures var q := at + |name| + 1;
            && q <= |buf| && Strtol(buf, q) == (t.count, q + |Decimal(t.count)|) && Decimal(t.count) != ""
            && Strtol(buf, q + |Decimal(t.count)|) == (|t.down|, CountsEnd(t, at, name)) && Decimal(|t.down|) != ""
  {
    hide *;
    HeaderParts(buf, at, t, name, raw);
    DecimalHead(t.count);
    DecimalHead(|t.down|);
    var e := at + |name| + 1 + |Decimal(t.count)|;
    NotDigit(buf, e, " ");
    NotDigit(buf, CountsEnd(t, at, name), "\n");
    StrtolReads(buf, at + |name| + 1, t.count);
    StrtolAfterSpace(buf, e, |t.down|);
  }

  /** Skip to the NUL that ends the name. */
  method SkipName(buf: string, at: nat) returns (p: nat)
    requires at <= |buf|
    ensures p == NulAt(buf, at)
  {
    p := at;
    while p < |buf| && buf[p] != '\0'
      invariant at <= p <= |buf| && NulAt(buf, p) == NulAt(buf, at)
    {
      p := p + 1;
    }
  }

  /** Skip to the end of the line. */
  method SkipLine(buf: string, at: nat) returns (p: nat)
    requires at <= |buf|
    ensures at <= p <= |buf| && (p < |buf| ==> buf[p] == '\0' || buf[p] == '\n')
    ensures forall i | at <= i < p :: buf[i] != '\0' && buf[i] != '\n'
  {
    p := at;
    while p < |buf| && buf[p] != '\0' && buf[p] != '\n'
      invariant at <= p <= |buf|
      invariant forall i | at <= i < p :: buf[i] != '\0' && buf[i] != '\n'
    {
      p := p + 1;
    }
  }

  ghost predicate HeaderAt(buf: string, at: nat, t: Tree, name: string, raw: Raw) {
    At(buf, at, Header(t, name, raw)) && '\0' !in name && FitsInt(t.count) && FitsInt(|t.down|)
  }

  lemma HeaderName(buf: string, at: nat, t: Tree, name: string, raw: Raw)
    requires HeaderAt(buf, at, t, name, raw)
    ensures at <= |buf| && NulAt(buf, at) == at + |name| < |buf|
  {
    HeaderParts(buf, at, t, name, raw);
    hide Header, At, Decimal, CountsEnd, OidText;
    NameEnds(buf, at, name);
  }

  lemma HeaderLine(buf: string, at: nat, t: Tree, name: string, raw: Raw, p: nat)
    requires HeaderAt(buf, at, t, name, raw)
    requires at + |name| + 1 <= p <= |buf| && (p < |buf| ==> buf[p] == '\0' || buf[p] == '\n')
    requires forall i | at + |name| + 1 <= i < p :: buf[i] != '\0' && buf[i] != '\n'
    ensures p == CountsEnd(t, at, name) < |buf| && At(buf, p + 1, OidText(t, raw))
    ensures at + |Header(t, name, raw)| == p + 1 + |OidText(t, raw)|
  {
    HeaderParts(buf, at, t, name, raw);
    var end := CountsEnd(t, at, name);
    assert at + |name| + 1 <= end;
    hide Header, At, CountsEnd, OidText;
    InAt(buf, end, "\n", end);
    if p < end { CountsLine(buf, at, t, name, raw, p); }
  }

  /** The part of read_one before the subdirectories. */
  method ReadHeader(buf: string, at: nat, rawsz: nat, unraw: Unraw, ghost raw: Raw, ghost t: Tree, ghost name: string)
    returns (ok: bool, count: int, nr: int, oid: Oid, p: nat)
    requires at <= |buf|
    ensures ok ==> at < p <= |buf|
    ensures HeaderAt(buf, at, t, name, raw) && Codec(raw, unraw, rawsz) ==>
              && ok && count == t.count && nr == |t.down| && oid == (if t.count >= 0 then t.oid else 0)
              && p == at + |Header(t, name, raw)|
  {
    hide *;
    ghost var written := HeaderAt(buf, at, t, name, raw) && Codec(raw, unraw, rawsz);
    if written {
      HeaderName(buf, at, t, name, raw);
      HeaderCounts(buf, at, t, name, raw);
    }
    ok, count, nr, oid := false, 0, 0, 0;
    p := SkipName(buf, at);
    if p == |buf| {
      return;
    }
    p := p + 1;
    var first := Strtol(buf, p);
    var second := Strtol(buf, first.1);
    if first.1 == p || second.1 == first.1 {
      return;
    }
    count, nr := first.0, second.0;
    p := SkipLine(buf, p);
    if written { HeaderLine(buf, at, t, name, raw, p); }
    if p == |buf| {
      return;
    }
    p := p + 1;
    if 0 <= count {
      if written { OidFits(buf, p, t, raw, unraw, rawsz); }
      if |buf| - p < rawsz {
        return;
      }
      oid := unraw(buf[p..p + rawsz]);
      p := p + rawsz;
    } else {
      if written { NoOid(t, raw); }
    }
    ok := true;
  }

  lemma NoOid(t: Tree, raw: Raw)
    requires t.count < 0
    ensures OidText(t, raw) == ""
  {}

  lemma HeaderCounts(buf: string, at: nat, t: Tree, name: string, raw: Raw)
    requires HeaderAt(buf, at, t, name, raw)
    ensures at + |name| + 1 <= |buf|
    ensures var first := Strtol(buf, at + |name| + 1);
            && first.0 == t.count && first.1 > at + |name| + 1
            && Strtol(buf, first.1).0 == |t.down| && Strtol(buf, first.1).1 > first.1
  {
    HeaderNumbers(buf, at, t, name, raw);
    hide Header, Decimal, At, Strtol, FitsInt;
  }

  lemma OidFits(buf: string, p: nat, t: Tree, raw: Raw, unraw: Unraw, rawsz: nat)
    requires At(buf, p, OidText(t, raw)) && Codec(raw, unraw, rawsz) && t.count >= 0
    ensures p + rawsz <= |buf| && |OidText(t, raw)| == rawsz && unraw(buf[p..p + rawsz]) == t.oid
  {
    assert |raw(t.oid)| == rawsz;
  }

  /** strlen. */
  function NulAt(buf: string, p: nat): (k: nat)
    requires p <= |buf|
    ensures p <= k <= |buf| && (k < |buf| ==> buf[k] == '\0') && forall i | p <= i < k :: buf[i] != '\0'
    decreases |buf| - p
  {
    if p == |buf| || buf[p] == '\0' then p else NulAt(buf, p + 1)
  }

  lemma NameRead(buf: string, p: nat, t: Tree, name: string, raw: Raw)
    requires At(buf, p, Serial(t, name, raw)) && '\0' !in name
    ensures p <= |buf| && buf[p..NulAt(buf, p)] == name
  {
    AtSplit(buf, p, Header(t, name, raw), SerialDown(t, |t.down|, raw));
    hide *;
    HeaderParts(buf, p, t, name, raw);
    NameEnds(buf, p, name);
  }

  lemma NameEnds(buf: string, p: nat, name: string)
    requires At(buf, p, name) && At(buf, p + |name|, "\0") && '\0' !in name
    ensures p <= |buf| && NulAt(buf, p) == p + |name| < |buf| && buf[p..NulAt(buf, p)] == name
  {
    hide NulAt;
    InAt(buf, p + |name|, "\0", p + |name|);
    var k := NulAt(buf, p);
    if k < p + |name| { InAt(buf, p, name, k); }
  }

  /** A name after all others is appended. */
  lemma Appended(down: seq<Sub>, down': seq<Sub>, pos: nat, name: string)
    requires SortedDown(down') && pos < |down'| && down'[pos].name == name
    requires down' == down || (down'[pos] == Sub(name, NO_TREE, 0, false) && down == down'[..pos] + down'[pos + 1..])
    requires forall i | 0 <= i < |down| :: NameLess(down[i].name, name)
    ensures pos == |down| && down' == down + [Sub(name, NO_TREE, 0, false)]
  {
    NameOrder(name, name, name);
    assert down' != down;
    assert forall k | pos <= k < |down| :: down[k] == down'[k + 1];
    AfterAll(down, pos, name);
  }

  lemma AfterAll(down: seq<Sub>, pos: nat, name: string)
    requires forall k | 0 <= k < |down| :: NameLess(down[k].name, name)
    requires forall k | pos <= k < |down| :: NameLess(name, down[k].name)
    ensures pos >= |down|
  {
    hide NameLess;
    if pos < |down| { NameOrder(down[pos].name, name, down[pos].name); }
  }

  datatype Outcome = Parsed(tree: Tree, end: nat) | Null | Died

  ghost predicate Written(buf: string, at: nat, t: Tree, name: string, raw: Raw, unraw: Unraw, rawsz: nat) {
    && At(buf, at, Serial(t, name, raw)) && '\0' !in name && SortedTree(t) && Storable(t) && Codec(raw, unraw, rawsz)
  }

  lemma WrittenParts(buf: string, at: nat, t: Tree, name: string, raw: Raw, unraw: Unraw, rawsz: nat)
    requires Written(buf, at, t, name, raw, unraw, rawsz)
    ensures HeaderAt(buf, at, t, name, raw) && SortedTree(t) && Storable(t) && Codec(raw, unraw, rawsz)
    ensures At(buf, at + |Header(t, name, raw)|, SerialDown(t, |t.down|, raw))
    ensures |Serial(t, name, raw)| == |Header(t, name, raw)| + |SerialDown(t, |t.down|, raw)|
  {
    hide Header, SerialDown, At;
    AtSplit(buf, at, Header(t, name, raw), SerialDown(t, |t.down|, raw));
  }

  lemma SubStorable(t: Tree, i: nat)
    requires SortedTree(t) && Storable(t) && i < |t.down|
    ensures SortedTree(t.down[i].tree) && Storable(t.down[i].tree) && '\0' !in t.down[i].name
  {}

  lemma SerialNext(t: Tree, i: nat, raw: Raw)
    requires i < |t.down|
    ensures SerialDown(t, |t.down| - i, raw) == Serial(t.down[i].tree, t.down[i].name, raw)
            + SerialDown(t, |t.down| - i - 1, raw)
  {
    hide Serial;
  }

  lemma MakeWritten(buf: string, p: nat, t: Tree, name: string, raw: Raw, unraw: Unraw, rawsz: nat, rest: string)
    requires At(buf, p, Serial(t, name, raw) + rest)
    requires '\0' !in name && SortedTree(t) && Storable(t) && Codec(raw, unraw, rawsz)
    ensures Written(buf, p, t, name, raw, unraw, rawsz)
  {
    hide Serial, At;
    AtSplit(buf, p, Serial(t, name, raw), rest);
  }

  lemma NextWritten(buf: string, p: nat, t: Tree, i: nat, raw: Raw, unraw: Unraw, rawsz: nat)
    requires i < |t.down| && At(buf, p, SerialDown(t, |t.down| - i, raw))
    requires SortedTree(t) && Storable(t) && Codec(raw, unraw, rawsz)
    ensures Written(buf, p, t.down[i].tree, t.down[i].name, raw, unraw, rawsz)
    ensures p <= |buf| && buf[p..NulAt(buf, p)] == t.down[i].name
  {
    hide *;
    var sub := t.down[i];
    SubStorable(t, i);
    SerialNext(t, i, raw);
    var rest := SerialDown(t, |t.down| - i - 1, raw);
    MakeWritten(buf, p, sub.tree, sub.name, raw, unraw, rawsz, rest);
    AtSplit(buf, p, Serial(sub.tree, sub.name, raw), rest);
    NameRead(buf, p, sub.tree, sub.name, raw);
  }

  lemma AfterNext(buf: string, p: nat, t: Tree, i: nat, raw: Raw, end: nat)
    requires i < |t.down| && At(buf, p, SerialDown(t, |t.down| - i, raw))
             && p + |SerialDown(t, |t.down| - i, raw)| == end
    ensures At(buf, p + |Serial(t.down[i].tree, t.down[i].name, raw)|, SerialDown(t, |t.down| - i - 1, raw))
    ensures p + |Serial(t.down[i].tree, t.down[i].name, raw)| + |SerialDown(t, |t.down| - i - 1, raw)| == end
  {
    hide *;
    SerialNext(t, i, raw);
    AtSplit(buf, p, Serial(t.down[i].tree, t.down[i].name, raw), SerialDown(t, |t.down| - i - 1, raw));
  }

  lemma NoSubs(t: Tree)
    ensures SortedDown([]) && |Stored(t).down| == |t.down|
  {}

  lemma StoredWhole(t: Tree, count: int, oid: Oid, down: seq<Sub>, raw: Raw)
    requires count == t.count && oid == (if t.count >= 0 then t.oid else 0) && down == Stored(t).down[..|t.down|]
    ensures Tree(count, oid, down) == Stored(t) && |down| == |t.down| && SerialDown(t, 0, raw) == ""
  {}

  lemma StoredNext(t: Tree, i: nat, before: seq<Sub>, found: seq<Sub>, pos: nat)
    requires SortedTree(t) && i < |t.down| && before == Stored(t).down[..i]
    requires SortedDown(found) && pos < |found| && found[pos].name == t.down[i].name
    requires found == before || (found[pos] == Sub(t.down[i].name, NO_TREE, 0, false)
               && before == found[..pos] + found[pos + 1..])
    ensures found[pos := found[pos].(tree := Stored(t.down[i].tree))] == Stored(t).down[..i + 1]
  {
    hide NameLess, SortedTree;
    assert SortedDown(t.down) by { Unsorts(t); }
    Appended(before, found, pos, t.down[i].name);
  }

  lemma Unsorts(t: Tree)
    requires SortedTree(t)
    ensures SortedDown(t.down)
  {}

  lemma Sorts(t: Tree)
    requires SortedDown(t.down) && forall k | 0 <= k < |t.down| :: SortedTree(t.down[k].tree)
    ensures SortedTree(t)
  {}

  lemma Still(before: seq<Sub>, found: seq<Sub>, after: seq<Sub>, pos: nat, tree: Tree)
    requires SortedDown(found) && pos < |found| && SortedTree(tree) && after == found[pos := found[pos].(tree := tree)]
    requires found == before || before == found[..pos] + found[pos + 1..]
    requires forall k | 0 <= k < |before| :: SortedTree(before[k].tree)
    ensures SortedDown(after) && forall k | 0 <= k < |after| :: SortedTree(after[k].tree)
  {
    hide SortedTree, NameLess;
    forall k | 0 <= k < |after| ensures SortedTree(after[k].tree) {
      if k != pos {
        var n := if found == before || k < pos then k else k - 1;
        assert before[n] == after[k];
      }
    }
    assert forall k | 0 <= k < |after| :: after[k].name == found[k].name;
  }

  /** read_one.  Whatever the bytes, it ends, stays in the buffer and gives sorted nodes; on
      the bytes written for a tree it gives that tree and takes exactly those bytes. */
  method ReadOne(buf: string, at: nat, rawsz: nat, unraw: Unraw, ghost raw: Raw, ghost t: Tree, ghost name: string)
    returns (r: Outcome)
    requires at <= |buf|
    ensures r.Parsed? ==> at < r.end <= |buf| && SortedTree(r.tree)
    ensures Written(buf, at, t, name, raw, unraw, rawsz) ==> r == Parsed(Stored(t), at + |Serial(t, name, raw)|)
    decreases |buf| - at
  {
    hide *;
    ghost var written := Written(buf, at, t, name, raw, unraw, rawsz);
    NoSubs(t);
    if written { WrittenParts(buf, at, t, name, raw, unraw, rawsz); }
    var ok, count, nr, oid, p := ReadHeader(buf, at, rawsz, unraw, raw, t, name);
    if !ok {
      return Null;
    }
    if nr < 0 {
      return Died;
    }
    ghost var end := at + |Serial(t, name, raw)|;
    var down: seq<Sub> := [];
    var i := 0;
    while i < nr
      invariant at < p <= |buf| && 0 <= i <= nr && SortedDown(down) && forall k | 0 <= k < |down| ::
                SortedTree(down[k].tree)
      invariant written ==> nr == |t.down| && down == Stored(t).down[..i]
      invariant written ==>
                  At(buf, p, SerialDown(t, |t.down| - i, raw)) && p + |SerialDown(t, |t.down| - i, raw)| == end
    {
      if written {
        NextWritten(buf, p, t, i, raw, unraw, rawsz);
        AfterNext(buf, p, t, i, raw, end);
      }
      var one := ReadOne(buf, p, rawsz, unraw, raw, if written then t.down[i].tree else t, if written
            then t.down[i].name else name);
      if !one.Parsed? {
        return one;
      }
      var subname := buf[p..NulAt(buf, p)];
      var before := down;
      var pos;
      down, pos := FindOrCreate(before, subname);
      ghost var found := down;
      if written { StoredNext(t, i, before, found, pos); }
      down := down[pos := down[pos].(tree := one.tree)];
      Still(before, found, down, pos, one.tree);
      p, i := one.end, i + 1;
    }
    if written { StoredWhole(t, count, oid, down, raw); }
    if nr != |down| {
      return Died;
    }
    assert SortedTree(Tree(count, oid, down)) by { Sorts(Tree(count, oid, down)); }
    return Parsed(Tree(count, oid, down), p);
  }

  /** cache_tree_read after cache_tree_write gives the tree back. */
  method ReadWritten(t: Tree, raw: Raw, unraw: Unraw, rawsz: nat) returns (ok: bool, r: Outcome)
    requires Storable(t) && Codec(raw, unraw, rawsz)
    ensures ok <==> SortedTree(t)
    ensures ok ==> r == Parsed(Stored(t), |Serial(t, "", raw)|)
  {
    var out;
    ok, out := WriteOne(t, "", raw);
    r := Null;
    if ok {
      r := Read(out, rawsz, unraw, raw, t);
    }
  }

  /** cache_tree_read: the root has no name. */
  method Read(buf: string, rawsz: nat, unraw: Unraw, ghost raw: Raw, ghost t: Tree) returns (r: Outcome)
    ensures r.Parsed? ==> 0 < r.end <= |buf| && SortedTree(r.tree)
    ensures Written(buf, 0, t, "", raw, unraw, rawsz) ==> r == Parsed(Stored(t), |Serial(t, "", raw)|)
  {
    if buf != "" && buf[0] != '\0' {
      if Written(buf, 0, t, "", raw, unraw, rawsz) { NameRead(buf, 0, t, "", raw); }
      return Null;
    }
    r := ReadOne(buf, 0, rawsz, unraw, raw, t, "");
  }
}
