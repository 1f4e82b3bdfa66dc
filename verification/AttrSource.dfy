/** Where attribute values come from, said without the scan: from matching lines and from macros
    that are set to true. */
module AttrSource {
  import opened AttrFill

  /** A pattern line that matches the path sets `a` to `v`. */
  ghost predicate LineSets(stack: seq<Frame>, hit: (Frame, Match) -> bool, i: int, k: int, j: int, a: nat, v: Value) {
    && 0 <= i < |stack| && 0 <= k < |stack[i].lines|
    && var m := stack[i].lines[k];
    && !m.isMacro && hit(stack[i], m) && 0 <= j < |m.states| && m.states[j] == Setting(a, v)
  }

  /** Some setting of the list gives `a` the value `v`. */
  ghost predicate Has(sts: seq<Setting>, a: nat, v: Value) {
    exists j :: 0 <= j < |sts| && sts[j] == Setting(a, v)
  }

  /** A macro that is set to true sets `a` to `v`. */
  ghost predicate MacroSets(macros: Macros, vals: Values, a: nat, v: Value) {
    exists m :: m in macros && m < |vals| && vals[m] == True && Has(macros[m], a, v)
  }

  /** Every value comes from a matching line or a macro set to true. */
  ghost predicate Sourced(vals: Values, macros: Macros, stack: seq<Frame>, hit: (Frame, Match) -> bool) {
    forall a: nat | a < |vals| && vals[a] != Unknown ::
      || (exists i, k, j :: LineSets(stack, hit, i, k, j, a, vals[a]))
      || MacroSets(macros, vals, a, vals[a])
  }

  /** What such a line or macro mentions has a value. */
  ghost predicate Settled(vals: Values, macros: Macros, stack: seq<Frame>, hit: (Frame, Match) -> bool) {
    && (forall i, k, j, a: nat, v | LineSets(stack, hit, i, k, j, a, v) && a < |vals| :: vals[a] != Unknown)
    && (forall a: nat, v | MacroSets(macros, vals, a, v) && a < |vals| :: vals[a] != Unknown)
  }

  /** The last of the highest lines has the last word, unless a macro may set the attribute. */
  ghost predicate TopWins(vals: Values, macros: Macros, stack: seq<Frame>, hit: (Frame, Match) -> bool) {
    forall i, k, j, a: nat, v | LineSets(stack, hit, i, k, j, a, v) && a < |vals| && Free(macros, a)
        && Last(stack, hit, i, k, j, a) ::
      vals[a] == v
  }

  predicate NotAfter(i': int, k': int, j': int, i: int, k: int, j: int) {
    i' < i || (i' == i && (k' < k || (k' == k && j' <= j)))
  }

  /** No line that comes later mentions `a`. */
  ghost predicate Last(stack: seq<Frame>, hit: (Frame, Match) -> bool, i: int, k: int, j: int, a: nat) {
    forall i', k', j', v' | LineSets(stack, hit, i', k', j', a, v') :: NotAfter(i', k', j', i, k, j)
  }

  /** No macro mentions `a`. */
  ghost predicate Free(macros: Macros, a: nat) {
    forall m, v | m in macros :: !Has(macros[m], a, v)
  }

  /** A macro definition of `a`. */
  ghost predicate Defines(stack: seq<Frame>, i: int, k: int, a: nat) {
    0 <= i < |stack| && 0 <= k < |stack[i].lines| && stack[i].lines[k].isMacro && stack[i].lines[k].macro == a
  }

  /** The macros are the definitions after which there is none. */
  ghost predicate LastDefined(macros: Macros, stack: seq<Frame>) {
    && (forall a | a in macros :: exists i, k :: Defines(stack, i, k, a))
    && forall i, k, a: nat | Defines(stack, i, k, a) ::
         && a in macros
         && ((forall i', k' | Defines(stack, i', k', a) :: NotAfter(i', k', 0, i, k, 0)) ==>
               macros[a] == stack[i].lines[k].states)
  }

  lemma {:induction false} TopMacroIs(stack: seq<Frame>, n: nat, k: nat, a: nat)
    requires n <= |stack| && (n > 0 ==> k <= |stack[n - 1].lines|)
    ensures var top := TopMacro(stack, n, k, a);
            && |top| <= 1
            && (top != [] ==> exists i, m :: Defines(stack, i, m, a))
            && forall i, m | Defines(stack, i, m, a) && (i < n - 1 || (i == n - 1 && m < k)) ::
                 && top != []
                 && ((forall i', m' | Defines(stack, i', m', a) && (i' < n - 1 || (i' == n - 1 && m' < k)) ::
                        NotAfter(i', m', 0, i, m, 0)) ==> top[0] == stack[i].lines[m].states)
    decreases n, k
  {
    if n > 0 {
      if k == 0 {
        if n > 1 { TopMacroIs(stack, n - 1, |stack[n - 2].lines|, a); }
      } else if stack[n - 1].lines[k - 1].isMacro && stack[n - 1].lines[k - 1].macro == a {
        assert Defines(stack, n - 1, k - 1, a);
      } else {
        TopMacroIs(stack, n, k - 1, a);
      }
    }
  }

  lemma MacrosLast(macros: Macros, stack: seq<Frame>)
    requires IsMacros(macros, stack)
    ensures LastDefined(macros, stack)
  {
    var k0 := if stack == [] then 0 else |stack[|stack| - 1].lines|;
    forall a | a in macros ensures exists i, k :: Defines(stack, i, k, a) {
      TopMacroIs(stack, |stack|, k0, a);
      assert Macro(stack, a) != [];
    }
    forall i, k, a: nat | Defines(stack, i, k, a)
      ensures a in macros
      ensures (forall i', k' | Defines(stack, i', k', a) :: NotAfter(i', k', 0, i, k, 0)) ==>
                macros[a] == stack[i].lines[k].states
    {
      TopMacroIs(stack, |stack|, k0, a);
      assert Macro(stack, a) != [];
    }
  }

  // ---- one step

  /** From `before` to `after` values are only added: each comes from `sts` or from a macro set to
      true, and macros that became true are settled. */
  ghost predicate Grows(before: Values, after: Values, macros: Macros, sts: seq<Setting>) {
    && |after| == |before|
    && (forall a: nat | a < |before| && before[a] != Unknown :: after[a] == before[a])
    && (forall a: nat | a < |before| && before[a] == Unknown && after[a] != Unknown ::
          Has(sts, a, after[a]) || MacroSets(macros, after, a, after[a]))
    && (forall m, a: nat, v | m in macros && m < |before| && before[m] == Unknown && after[m] == True
          && Has(macros[m], a, v) && a < |before| :: after[a] != Unknown)
  }

  lemma GrowsNot(vals: Values, macros: Macros, sts: seq<Setting>)
    ensures Grows(vals, vals, macros, sts)
  {}

  lemma GrowsMore(a: Values, b: Values, c: Values, macros: Macros, sts: seq<Setting>, more: seq<Setting>)
    requires Grows(a, b, macros, sts) && Grows(b, c, macros, sts)
    requires forall x: nat, v | Has(sts, x, v) :: Has(more, x, v)
    ensures Grows(a, c, macros, more)
  {
    hide Has;
    forall x: nat | x < |a| && a[x] == Unknown && c[x] != Unknown
      ensures Has(more, x, c[x]) || MacroSets(macros, c, x, c[x])
    {
      if b[x] != Unknown && MacroSets(macros, b, x, b[x]) {
        var m :| m in macros && m < |b| && b[m] == True && Has(macros[m], x, b[x]);
        assert c[m] == True;
      }
    }
    forall m, x: nat, v | m in macros && m < |a| && a[m] == Unknown && c[m] == True && Has(macros[m], x, v) && x < |a|
      ensures c[x] != Unknown
    {
      if b[m] != Unknown { assert b[m] == True && b[x] != Unknown; }
    }
  }

  lemma {:induction false} StatesGrow(vals: Values, macros: Macros, sts: seq<Setting>, n: nat)
    requires n <= |sts| && Settings(sts, |vals|) && MacrosOk(macros, |vals|)
    ensures var r := FillStates(vals, macros, sts, n);
            Grows(vals, r, macros, sts) && forall j | 0 <= j < n :: r[sts[j].attr] != Unknown
    decreases Unknowns(vals), 1, n
  {
    hide Grows;
    if n == 0 {
      GrowsNot(vals, macros, sts);
    } else {
      var s := sts[n - 1];
      if vals[s.attr] != Unknown {
        StatesGrow(vals, macros, sts, n - 1);
        StaysSet(vals, FillStates(vals, macros, sts, n - 1), macros, sts, s.attr);
      } else {
        UnknownsUpdate(vals, s.attr, s.to);
        var next := vals[s.attr := s.to];
        var r := Expand(next, macros, s.attr);
        if s.attr in macros && next[s.attr] == True {
          StatesGrow(next, macros, macros[s.attr], |macros[s.attr]|);
        } else {
          GrowsNot(next, macros, []);
        }
        SetGrows(vals, next, r, macros, sts, n - 1);
        StatesGrow(r, macros, sts, n - 1);
        var end := FillStates(r, macros, sts, n - 1);
        StaysSet(r, end, macros, sts, s.attr);
        GrowsMore(vals, r, end, macros, sts, sts);
      }
    }
  }

  lemma StaysSet(a: Values, b: Values, macros: Macros, sts: seq<Setting>, x: nat)
    requires Grows(a, b, macros, sts) && x < |a| && a[x] != Unknown
    ensures |b| == |a| && b[x] == a[x]
  {}

  /** One setting, and if it is a macro set to true what that brings. */
  lemma SetGrows(vals: Values, next: Values, r: Values, macros: Macros, sts: seq<Setting>, j: nat)
    requires j < |sts| && sts[j].attr < |vals| && vals[sts[j].attr] == Unknown && sts[j].to != Unknown
    requires next == vals[sts[j].attr := sts[j].to]
    requires if sts[j].attr in macros && sts[j].to == True
             then Grows(next, r, macros, macros[sts[j].attr])
                  && forall i | 0 <= i < |macros[sts[j].attr]| && macros[sts[j].attr][i].attr < |vals| ::
                       r[macros[sts[j].attr][i].attr] != Unknown
             else r == next
    ensures Grows(vals, r, macros, sts) && r[sts[j].attr] != Unknown
  {
    var s := sts[j];
    assert Has(sts, s.attr, s.to);
    assert r[s.attr] == s.to;
    forall a: nat | a < |vals| && vals[a] == Unknown && r[a] != Unknown
      ensures Has(sts, a, r[a]) || MacroSets(macros, r, a, r[a])
    {}
    forall m, a: nat, v | m in macros && m < |vals| && vals[m] == Unknown && r[m] == True && Has(macros[m], a, v)
        && a < |vals|
      ensures r[a] != Unknown
    {
      if m == s.attr {
        var i :| 0 <= i < |macros[m]| && macros[m][i] == Setting(a, v);
      }
    }
  }

  // ---- the whole stack

  /** Values come from lines of the stack and are only added. */
  ghost predicate Added(before: Values, after: Values, macros: Macros, stack: seq<Frame>, hit: (Frame, Match) -> bool) {
    && |after| == |before|
    && (forall a: nat | a < |before| && before[a] != Unknown :: after[a] == before[a])
    && (forall a: nat | a < |before| && before[a] == Unknown && after[a] != Unknown ::
          || (exists i, k, j :: LineSets(stack, hit, i, k, j, a, after[a]))
          || MacroSets(macros, after, a, after[a]))
    && (forall m, a: nat, v | m in macros && m < |before| && before[m] == Unknown && after[m] == True
          && Has(macros[m], a, v) && a < |before| :: after[a] != Unknown)
  }

  lemma AddedNot(vals: Values, macros: Macros, stack: seq<Frame>, hit: (Frame, Match) -> bool)
    ensures Added(vals, vals, macros, stack, hit)
  {}

  lemma AddedMore(a: Values, b: Values, c: Values, macros: Macros, stack: seq<Frame>, hit: (Frame, Match) -> bool)
    requires Added(a, b, macros, stack, hit) && Added(b, c, macros, stack, hit)
    ensures Added(a, c, macros, stack, hit)
  {
    hide Has, LineSets;
    forall x: nat | x < |a| && a[x] == Unknown && c[x] != Unknown
      ensures (exists i, k, j :: LineSets(stack, hit, i, k, j, x, c[x])) || MacroSets(macros, c, x, c[x])
    {
      if b[x] != Unknown && MacroSets(macros, b, x, b[x]) {
        var m :| m in macros && m < |b| && b[m] == True && Has(macros[m], x, b[x]);
        assert c[m] == True;
      }
    }
    forall m, x: nat, v | m in macros && m < |a| && a[m] == Unknown && c[m] == True && Has(macros[m], x, v) && x < |a|
      ensures c[x] != Unknown
    {
      if b[m] != Unknown { assert b[m] == True && b[x] != Unknown; }
    }
  }

  lemma LineAdds(vals: Values, r: Values, macros: Macros, stack: seq<Frame>, hit: (Frame, Match) -> bool, i: nat,
                 k: nat)
    requires i < |stack| && k < |stack[i].lines| && !stack[i].lines[k].isMacro && hit(stack[i], stack[i].lines[k])
    requires Grows(vals, r, macros, stack[i].lines[k].states)
    ensures Added(vals, r, macros, stack, hit)
  {
    var sts := stack[i].lines[k].states;
    forall a: nat | a < |vals| && vals[a] == Unknown && r[a] != Unknown && Has(sts, a, r[a])
      ensures exists i, k, j :: LineSets(stack, hit, i, k, j, a, r[a])
    {
      var j :| 0 <= j < |sts| && sts[j] == Setting(a, r[a]);
      assert LineSets(stack, hit, i, k, j, a, r[a]);
    }
  }

  /** The lines of frame `i` before line `k` are settled. */
  lemma {:induction false} LinesAdd(vals: Values, macros: Macros, stack: seq<Frame>, i: nat, k: nat,
                                    hit: (Frame, Match) -> bool)
    requires i < |stack| && k <= |stack[i].lines| && MacrosOk(macros, |vals|) && StackOk(stack, |vals|)
    ensures var r := FillLines(vals, macros, stack[i], k, hit);
            && Added(vals, r, macros, stack, hit)
            && forall k', j, a: nat, v | k' < k && LineSets(stack, hit, i, k', j, a, v) :: a < |vals| && r[a] != Unknown
    decreases k
  {
    hide Grows, Added;
    assert forall x | 0 <= x < |stack[i].lines| :: LineOk(stack[i].lines[x], |vals|);
    if k == 0 {
      AddedNot(vals, macros, stack, hit);
    } else {
      var m := stack[i].lines[k - 1];
      var next := if !m.isMacro && hit(stack[i], m) then FillStates(vals, macros, m.states, |m.states|) else vals;
      if !m.isMacro && hit(stack[i], m) {
        StatesGrow(vals, macros, m.states, |m.states|);
        LineAdds(vals, next, macros, stack, hit, i, k - 1);
      } else {
        AddedNot(vals, macros, stack, hit);
      }
      LinesAdd(next, macros, stack, i, k - 1, hit);
      var r := FillLines(next, macros, stack[i], k - 1, hit);
      AddedMore(vals, next, r, macros, stack, hit);
      forall k', j, a: nat, v | k' < k && LineSets(stack, hit, i, k', j, a, v) ensures a < |vals| && r[a] != Unknown {
        if k' == k - 1 { StillKnown(next, r, macros, stack, hit, a); }
      }
    }
  }

  lemma StillKnown(a: Values, b: Values, macros: Macros, stack: seq<Frame>, hit: (Frame, Match) -> bool, x: nat)
    requires Added(a, b, macros, stack, hit) && x < |a| && a[x] != Unknown
    ensures |b| == |a| && b[x] == a[x]
  {}

  lemma {:induction false} StackAdds(vals: Values, macros: Macros, stack: seq<Frame>, n: nat,
                                     hit: (Frame, Match) -> bool)
    requires n <= |stack| && MacrosOk(macros, |vals|) && StackOk(stack, |vals|)
    ensures var r := FillStack(vals, macros, stack, n, hit);
            && Added(vals, r, macros, stack, hit)
            && forall i, k, j, a: nat, v | i < n && LineSets(stack, hit, i, k, j, a, v) :: a < |vals| && r[a] != Unknown
    decreases n
  {
    hide Added, FillLines;
    if n == 0 {
      AddedNot(vals, macros, stack, hit);
    } else {
      var next := FillLines(vals, macros, stack[n - 1], |stack[n - 1].lines|, hit);
      LinesAdd(vals, macros, stack, n - 1, |stack[n - 1].lines|, hit);
      StackAdds(next, macros, stack, n - 1, hit);
      var r := FillStack(next, macros, stack, n - 1, hit);
      AddedMore(vals, next, r, macros, stack, hit);
      forall i, k, j, a: nat, v | i < n && LineSets(stack, hit, i, k, j, a, v) ensures a < |vals| && r[a] != Unknown {
        if i == n - 1 { StillKnown(next, r, macros, stack, hit, a); }
      }
    }
  }

  // ---- which line has the last word

  /** What expanding a macro leaves alone. */
  lemma ExpandSkips(vals: Values, macros: Macros, m: nat, a: nat)
    requires m < |vals| && a < |vals| && MacrosOk(macros, |vals|) && Free(macros, a)
    ensures Expand(vals, macros, m)[a] == vals[a]
  {
    if m in macros && vals[m] == True {
      StatesGrow(vals, macros, macros[m], |macros[m]|);
      hide FillStates;
      var r := FillStates(vals, macros, macros[m], |macros[m]|);
      assert !Has(macros[m], a, r[a]) && !MacroSets(macros, r, a, r[a]);
    }
  }

  lemma {:induction false} StatesSkip(vals: Values, macros: Macros, sts: seq<Setting>, n: nat, a: nat)
    requires n <= |sts| && Settings(sts, |vals|) && MacrosOk(macros, |vals|) && a < |vals|
    requires Free(macros, a) && (vals[a] != Unknown || forall j | 0 <= j < n :: sts[j].attr != a)
    ensures FillStates(vals, macros, sts, n)[a] == vals[a]
    decreases Unknowns(vals), n
  {
    hide Free, Expand;
    if n > 0 {
      var s := sts[n - 1];
      if vals[s.attr] != Unknown {
        StatesSkip(vals, macros, sts, n - 1, a);
      } else {
        UnknownsUpdate(vals, s.attr, s.to);
        ExpandSkips(vals[s.attr := s.to], macros, s.attr, a);
        StatesSkip(Expand(vals[s.attr := s.to], macros, s.attr), macros, sts, n - 1, a);
      }
    }
  }

  lemma {:induction false} StatesTop(vals: Values, macros: Macros, sts: seq<Setting>, n: nat, j: nat)
    requires j < n <= |sts| && Settings(sts, |vals|) && MacrosOk(macros, |vals|) && Free(macros, sts[j].attr)
    requires vals[sts[j].attr] == Unknown && forall j' | j < j' < n :: sts[j'].attr != sts[j].attr
    ensures FillStates(vals, macros, sts, n)[sts[j].attr] == sts[j].to
    decreases Unknowns(vals), n
  {
    hide Free, Expand;
    var s, a := sts[n - 1], sts[j].attr;
    if vals[s.attr] != Unknown {
      StatesTop(vals, macros, sts, n - 1, j);
    } else {
      UnknownsUpdate(vals, s.attr, s.to);
      var next := Expand(vals[s.attr := s.to], macros, s.attr);
      ExpandSkips(vals[s.attr := s.to], macros, s.attr, a);
      if j == n - 1 { StatesSkip(next, macros, sts, n - 1, a); } else { StatesTop(next, macros, sts, n - 1, j); }
    }
  }

  lemma {:induction false} LinesSkip(vals: Values, macros: Macros, stack: seq<Frame>, i: nat, k: nat,
                                     hit: (Frame, Match) -> bool, a: nat)
    requires i < |stack| && k <= |stack[i].lines| && MacrosOk(macros, |vals|) && StackOk(stack, |vals|) && a < |vals|
    requires Free(macros, a)
    requires vals[a] != Unknown || forall k', j, v | k' < k :: !LineSets(stack, hit, i, k', j, a, v)
    ensures FillLines(vals, macros, stack[i], k, hit)[a] == vals[a]
    decreases k
  {
    hide Free, FillStates;
    assert forall x | 0 <= x < |stack[i].lines| :: LineOk(stack[i].lines[x], |vals|);
    if k > 0 {
      var m := stack[i].lines[k - 1];
      if !m.isMacro && hit(stack[i], m) {
        assert vals[a] != Unknown || forall j | 0 <= j < |m.states| :: m.states[j].attr != a by {
          if vals[a] == Unknown {
            forall j | 0 <= j < |m.states| ensures m.states[j].attr != a {
              assert !LineSets(stack, hit, i, k - 1, j, a, m.states[j].to);
            }
          }
        }
        StatesSkip(vals, macros, m.states, |m.states|, a);
        LinesSkip(FillStates(vals, macros, m.states, |m.states|), macros, stack, i, k - 1, hit, a);
      } else {
        LinesSkip(vals, macros, stack, i, k - 1, hit, a);
      }
    }
  }

  lemma {:induction false} LinesTop(vals: Values, macros: Macros, stack: seq<Frame>, n: nat,
                                    hit: (Frame, Match) -> bool, i: nat, k: nat, j: nat, a: nat, v: Value)
    requires LineSets(stack, hit, i, k, j, a, v) && k < n <= |stack[i].lines|
    requires MacrosOk(macros, |vals|) && StackOk(stack, |vals|) && a < |vals|
    requires Free(macros, a) && vals[a] == Unknown && Last(stack, hit, i, k, j, a)
    ensures FillLines(vals, macros, stack[i], n, hit)[a] == v
    decreases n
  {
    hide Free, FillStates;
    assert forall x | 0 <= x < |stack[i].lines| :: LineOk(stack[i].lines[x], |vals|);
    var m := stack[i].lines[n - 1];
    var hits := !m.isMacro && hit(stack[i], m);
    var next := if hits then FillStates(vals, macros, m.states, |m.states|) else vals;
    if k == n - 1 {
      forall j' | j < j' < |m.states| ensures m.states[j'].attr != a {
        assert !LineSets(stack, hit, i, k, j', a, m.states[j'].to);
      }
      StatesTop(vals, macros, m.states, |m.states|, j);
      assert v != Unknown;
      LinesSkip(next, macros, stack, i, n - 1, hit, a);
    } else {
      if hits {
        forall j' | 0 <= j' < |m.states| ensures m.states[j'].attr != a {
          assert !LineSets(stack, hit, i, n - 1, j', a, m.states[j'].to);
        }
        StatesSkip(vals, macros, m.states, |m.states|, a);
      }
      LinesTop(next, macros, stack, n - 1, hit, i, k, j, a, v);
    }
  }

  lemma {:induction false} StackSkips(vals: Values, macros: Macros, stack: seq<Frame>, n: nat,
                                      hit: (Frame, Match) -> bool, a: nat)
    requires n <= |stack| && MacrosOk(macros, |vals|) && StackOk(stack, |vals|) && a < |vals|
    requires Free(macros, a) && vals[a] != Unknown
    ensures FillStack(vals, macros, stack, n, hit)[a] == vals[a]
    decreases n
  {
    hide Free, FillLines;
    if n > 0 {
      var k := |stack[n - 1].lines|;
      LinesSkip(vals, macros, stack, n - 1, k, hit, a);
      StackSkips(FillLines(vals, macros, stack[n - 1], k, hit), macros, stack, n - 1, hit, a);
    }
  }

  lemma {:induction false} StackTop(vals: Values, macros: Macros, stack: seq<Frame>, n: nat,
                                    hit: (Frame, Match) -> bool, i: nat, k: nat, j: nat, a: nat, v: Value)
    requires LineSets(stack, hit, i, k, j, a, v) && i < n <= |stack|
    requires MacrosOk(macros, |vals|) && StackOk(stack, |vals|) && a < |vals|
    requires Free(macros, a) && vals[a] == Unknown && Last(stack, hit, i, k, j, a)
    ensures FillStack(vals, macros, stack, n, hit)[a] == v
    decreases n
  {
    hide Free, FillLines, LineSets, Last;
    var next := FillLines(vals, macros, stack[n - 1], |stack[n - 1].lines|, hit);
    InStack(stack, hit, i, k, j, a, v);
    if i == n - 1 {
      LinesTop(vals, macros, stack, |stack[i].lines|, hit, i, k, j, a, v);
      NeverUnknown(stack, hit, i, k, j, a, v, |vals|);
      StackSkips(next, macros, stack, n - 1, hit, a);
    } else {
      NoneLater(stack, hit, i, k, j, a, n - 1);
      LinesSkip(vals, macros, stack, n - 1, |stack[n - 1].lines|, hit, a);
      StackTop(next, macros, stack, n - 1, hit, i, k, j, a, v);
    }
  }

  lemma NeverUnknown(stack: seq<Frame>, hit: (Frame, Match) -> bool, i: int, k: int, j: int, a: nat, v: Value, n: nat)
    requires LineSets(stack, hit, i, k, j, a, v) && StackOk(stack, n)
    ensures v != Unknown
  {
    assert LineOk(stack[i].lines[k], n);
  }

  lemma NoneLater(stack: seq<Frame>, hit: (Frame, Match) -> bool, i: int, k: int, j: int, a: nat, n: int)
    requires Last(stack, hit, i, k, j, a) && i < n
    ensures forall k', j', v' :: !LineSets(stack, hit, n, k', j', a, v')
  {}

  /** A scan that starts without values gives every attribute a source, a value to every
      attribute that has one, and the last word to the highest line. */
  lemma ScanSourced(n: nat, macros: Macros, stack: seq<Frame>, hit: (Frame, Match) -> bool)
    requires MacrosOk(macros, n) && StackOk(stack, n)
    ensures var r := FillStack(seq(n, _ => Unknown), macros, stack, |stack|, hit);
            Sourced(r, macros, stack, hit) && Settled(r, macros, stack, hit) && TopWins(r, macros, stack, hit)
  {
    var vals: Values := seq(n, _ => Unknown);
    hide FillStack, LineSets, Has, MacroSets, Added, Free;
    StackAdds(vals, macros, stack, |stack|, hit);
    var r := FillStack(vals, macros, stack, |stack|, hit);
    AddedSourced(vals, r, macros, stack, hit);
    AddedSettled(vals, r, macros, stack, hit);
    forall i, k, j, a: nat, v | LineSets(stack, hit, i, k, j, a, v) && a < |r| && Free(macros, a)
        && Last(stack, hit, i, k, j, a)
      ensures r[a] == v
    {
      InStack(stack, hit, i, k, j, a, v);
      StackTop(vals, macros, stack, |stack|, hit, i, k, j, a, v);
    }
  }

  lemma AddedSourced(vals: Values, r: Values, macros: Macros, stack: seq<Frame>, hit: (Frame, Match) -> bool)
    requires Added(vals, r, macros, stack, hit) && forall a | 0 <= a < |vals| :: vals[a] == Unknown
    ensures Sourced(r, macros, stack, hit)
  {
    hide LineSets, MacroSets;
  }

  lemma AddedSettled(vals: Values, r: Values, macros: Macros, stack: seq<Frame>, hit: (Frame, Match) -> bool)
    requires Added(vals, r, macros, stack, hit) && forall a | 0 <= a < |vals| :: vals[a] == Unknown
    requires forall i, k, j, a: nat, v | i < |stack| && LineSets(stack, hit, i, k, j, a, v) ::
             a < |vals| && r[a] != Unknown
    ensures Settled(r, macros, stack, hit)
  {
    hide Has;
    forall i, k, j, a: nat, v | LineSets(stack, hit, i, k, j, a, v) && a < |r| ensures r[a] != Unknown {
      InStack(stack, hit, i, k, j, a, v);
    }
  }

  lemma InStack(stack: seq<Frame>, hit: (Frame, Match) -> bool, i: int, k: int, j: int, a: nat, v: Value)
    requires LineSets(stack, hit, i, k, j, a, v)
    ensures 0 <= i < |stack| && 0 <= k < |stack[i].lines| && j >= 0
  {}
}
