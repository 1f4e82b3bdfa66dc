/** Filling in attribute values with macro expansion: determine_macros, fill_one,
    macroexpand_one and fill of attr.c. */
module AttrFill {

  datatype Value = Unknown | True | False | Unset | Text(s: string)

  /** `attr=value` of one line, attributes by number. */
  datatype Setting = Setting(attr: nat, to: Value)

  /** A line of an attribute file: a macro definition, or a pattern. */
  datatype Match = Match(isMacro: bool, macro: nat, pattern: string, states: seq<Setting>)

  /** A frame of the stack: the lines of one file; `dir` is false for frames without origin. */
  datatype Frame = Frame(dir: bool, origin: string, lines: seq<Match>)

  type Values = seq<Value>
  type Macros = map<nat, seq<Setting>>

  /** Lines mention known attributes and never set one to unknown. */
  predicate Settings(sts: seq<Setting>, n: nat) {
    forall i | 0 <= i < |sts| :: sts[i].attr < n && sts[i].to != Unknown
  }

  ghost predicate MacrosOk(macros: Macros, n: nat) {
    forall a | a in macros :: Settings(macros[a], n)
  }

  ghost predicate StackOk(stack: seq<Frame>, n: nat) {
    forall i, k | 0 <= i < |stack| && 0 <= k < |stack[i].lines| :: LineOk(stack[i].lines[k], n)
  }

  predicate LineOk(m: Match, n: nat) {
    Settings(m.states, n) && (m.isMacro ==> m.macro < n)
  }

  /** The number of attributes without a value. */
  function Unknowns(vals: Values): nat {
    if vals == [] then 0 else Unknowns(vals[..|vals| - 1]) + if vals[|vals| - 1] == Unknown then 1 else 0
  }

  lemma {:induction false} UnknownsUpdate(vals: Values, i: nat, v: Value)
    requires i < |vals|
    ensures Unknowns(vals[i := v]) == Unknowns(vals) - (if vals[i] == Unknown then 1 else 0) + if v == Unknown then 1
            else 0
  {
    var last := |vals| - 1;
    if i == last {
      assert vals[i := v][..last] == vals[..last];
    } else {
      assert vals[i := v][..last] == vals[..last][i := v];
      UnknownsUpdate(vals[..last], i, v);
    }
  }

  lemma {:induction false} SomeUnknown(vals: Values, i: nat)
    requires i < |vals| && vals[i] == Unknown
    ensures Unknowns(vals) > 0
  {
    if i < |vals| - 1 { SomeUnknown(vals[..|vals| - 1], i); }
  }

  // ---- what a full scan gives

  /** The settings of a line, the last ones first; a macro set to true brings its own at once. */
  function FillStates(vals: Values, macros: Macros, sts: seq<Setting>, n: nat): (r: Values)
    requires n <= |sts| && Settings(sts, |vals|) && MacrosOk(macros, |vals|)
    ensures |r| == |vals| && Unknowns(r) <= Unknowns(vals)
    decreases Unknowns(vals), 1, n
  {
    if n == 0 then vals
    else
      var s := sts[n - 1];
      if vals[s.attr] != Unknown then FillStates(vals, macros, sts, n - 1)
      else
        UnknownsUpdate(vals, s.attr, s.to);
        FillStates(Expand(vals[s.attr := s.to], macros, s.attr), macros, sts, n - 1)
  }

  function Expand(vals: Values, macros: Macros, a: nat): (r: Values)
    requires a < |vals| && MacrosOk(macros, |vals|)
    ensures |r| == |vals| && Unknowns(r) <= Unknowns(vals)
    decreases Unknowns(vals), 2
  {
    if a in macros && vals[a] == True then FillStates(vals, macros, macros[a], |macros[a]|) else vals
  }

  /** The first `k` lines of a frame, the last one first. */
  function FillLines(vals: Values, macros: Macros, f: Frame, k: nat, hit: (Frame, Match) -> bool): (r: Values)
    requires k <= |f.lines| && MacrosOk(macros, |vals|) && forall i | 0 <= i < |f.lines| :: LineOk(f.lines[i], |vals|)
    ensures |r| == |vals|
    decreases k
  {
    if k == 0 then vals
    else
      var m := f.lines[k - 1];
      assert LineOk(m, |vals|);
      FillLines(if !m.isMacro && hit(f, m) then FillStates(vals, macros, m.states, |m.states|) else vals, macros, f,
                k - 1, hit)
  }

  /** The first `n` frames of a stack from the top, which is last, down. */
  function FillStack(vals: Values, macros: Macros, stack: seq<Frame>, n: nat, hit: (Frame, Match) -> bool): (r: Values)
    requires n <= |stack| && MacrosOk(macros, |vals|) && StackOk(stack, |vals|)
    ensures |r| == |vals|
    decreases n
  {
    if n == 0 then vals
    else FillStack(FillLines(vals, macros, stack[n - 1], |stack[n - 1].lines|, hit), macros, stack, n - 1, hit)
  }

  // ---- once everything has a value, nothing changes

  lemma {:induction false} FullStates(vals: Values, macros: Macros, sts: seq<Setting>, n: nat)
    requires n <= |sts| && Settings(sts, |vals|) && MacrosOk(macros, |vals|) && Unknowns(vals) == 0
    ensures FillStates(vals, macros, sts, n) == vals
  {
    if n > 0 {
      if vals[sts[n - 1].attr] == Unknown { SomeUnknown(vals, sts[n - 1].attr); }
      FullStates(vals, macros, sts, n - 1);
    }
  }

  lemma {:induction false} FullLines(vals: Values, macros: Macros, f: Frame, k: nat, hit: (Frame, Match) -> bool)
    requires k <= |f.lines| && MacrosOk(macros, |vals|) && forall i | 0 <= i < |f.lines| :: LineOk(f.lines[i], |vals|)
    requires Unknowns(vals) == 0
    ensures FillLines(vals, macros, f, k, hit) == vals
  {
    if k > 0 {
      FullStates(vals, macros, f.lines[k - 1].states, |f.lines[k - 1].states|);
      FullLines(vals, macros, f, k - 1, hit);
    }
  }

  lemma {:induction false} FullStack(vals: Values, macros: Macros, stack: seq<Frame>, n: nat,
                                     hit: (Frame, Match) -> bool)
    requires n <= |stack| && MacrosOk(macros, |vals|) && StackOk(stack, |vals|) && Unknowns(vals) == 0
    ensures FillStack(vals, macros, stack, n, hit) == vals
  {
    if n > 0 {
      FullLines(vals, macros, stack[n - 1], |stack[n - 1].lines|, hit);
      FullStack(vals, macros, stack, n - 1, hit);
    }
  }

  // ---- the code

  /** fill_one: it ends even when macros name each other, `rem` stays the number of unknown
      values, and stopping at zero loses nothing. */
  method FillOne(vals: array<Value>, macros: Macros, sts: seq<Setting>, rem: nat) returns (rem': nat)
    requires Settings(sts, vals.Length) && MacrosOk(macros, vals.Length) && rem == Unknowns(vals[..])
    modifies vals
    ensures vals[..] == FillStates(old(vals[..]), macros, sts, |sts|) && rem' == Unknowns(vals[..])
    decreases rem, 1
  {
    rem' := rem;
    ghost var goal := FillStates(vals[..], macros, sts, |sts|);
    var i := |sts|;
    while rem' > 0 && i > 0
      invariant 0 <= i <= |sts| && rem' == Unknowns(vals[..]) && rem' <= rem
      invariant FillStates(vals[..], macros, sts, i) == goal
      decreases i
    {
      var s := sts[i - 1];
      if vals[s.attr] == Unknown {
        ghost var before := vals[..];
        UnknownsUpdate(before, s.attr, s.to);
        vals[s.attr] := s.to;
        assert vals[..] == before[s.attr := s.to];
        rem' := MacroExpandOne(vals, macros, s.attr, rem' - 1);
      }
      i := i - 1;
    }
    if rem' == 0 { FullStates(vals[..], macros, sts, i); }
  }

  method MacroExpandOne(vals: array<Value>, macros: Macros, a: nat, rem: nat) returns (rem': nat)
    requires a < vals.Length && MacrosOk(macros, vals.Length) && rem == Unknowns(vals[..])
    modifies vals
    ensures vals[..] == Expand(old(vals[..]), macros, a) && rem' == Unknowns(vals[..]) && rem' <= rem
    decreases rem, 2
  {
    rem' := rem;
    if a in macros && vals[a] == True {
      rem' := FillOne(vals, macros, macros[a], rem);
    }
  }

  /** fill over one frame. */
  method FillFrame(vals: array<Value>, macros: Macros, f: Frame, rem: nat, hit: (Frame, Match) -> bool)
    returns (rem': nat)
    requires MacrosOk(macros, vals.Length) && (forall i | 0 <= i < |f.lines| :: LineOk(f.lines[i], vals.Length))
             && rem == Unknowns(vals[..])
    modifies vals
    ensures vals[..] == FillLines(old(vals[..]), macros, f, |f.lines|, hit) && rem' == Unknowns(vals[..])
  {
    rem' := rem;
    ghost var goal := FillLines(vals[..], macros, f, |f.lines|, hit);
    var i := |f.lines|;
    while rem' > 0 && i > 0
      invariant 0 <= i <= |f.lines| && rem' == Unknowns(vals[..]) && FillLines(vals[..], macros, f, i, hit) == goal
      decreases i
    {
      var m := f.lines[i - 1];
      if !m.isMacro && hit(f, m) {
        rem' := FillOne(vals, macros, m.states, rem');
      }
      i := i - 1;
    }
    if rem' == 0 { FullLines(vals[..], macros, f, i, hit); }
  }

  /** fill: the values of a full scan of the stack. */
  method Fill(vals: array<Value>, macros: Macros, stack: seq<Frame>, rem: nat, hit: (Frame, Match) -> bool)
    returns (rem': nat)
    requires MacrosOk(macros, vals.Length) && StackOk(stack, vals.Length) && rem == Unknowns(vals[..])
    modifies vals
    ensures vals[..] == FillStack(old(vals[..]), macros, stack, |stack|, hit) && rem' == Unknowns(vals[..])
  {
    rem' := rem;
    ghost var goal := FillStack(vals[..], macros, stack, |stack|, hit);
    var i := |stack|;
    while rem' > 0 && i > 0
      invariant 0 <= i <= |stack| && rem' == Unknowns(vals[..]) && FillStack(vals[..], macros, stack, i, hit) == goal
      decreases i
    {
      rem' := FillFrame(vals, macros, stack[i - 1], rem', hit);
      i := i - 1;
    }
    if rem' == 0 { FullStack(vals[..], macros, stack, i, hit); }
  }

  // ---- macros

  /** The macro definition of `a` nearest the top among the first `k` lines of frame `n` - 1 and
      the frames below it. */
  ghost function TopMacro(stack: seq<Frame>, n: nat, k: nat, a: nat): seq<seq<Setting>>
    requires n <= |stack| && (n > 0 ==> k <= |stack[n - 1].lines|)
    decreases n, k
  {
    if n == 0 then []
    else if k == 0 then (if n == 1 then [] else TopMacro(stack, n - 1, |stack[n - 2].lines|, a))
    else
      var m := stack[n - 1].lines[k - 1];
      if m.isMacro && m.macro == a then [m.states] else TopMacro(stack, n, k - 1, a)
  }

  ghost function Macro(stack: seq<Frame>, a: nat): seq<seq<Setting>> {
    TopMacro(stack, |stack|, if stack == [] then 0 else |stack[|stack| - 1].lines|, a)
  }

  /** The macros of a stack: for each attribute its topmost definition. */
  ghost predicate IsMacros(macros: Macros, stack: seq<Frame>) {
    forall a: nat :: if Macro(stack, a) == [] then a !in macros else a in macros && macros[a] == Macro(stack, a)[0]
  }

  /** Lines still to look at decide only attributes that have no macro yet. */
  ghost predicate Pending(macros: Macros, stack: seq<Frame>, n: nat, k: nat) {
    && n <= |stack| && (n > 0 ==> k <= |stack[n - 1].lines|)
    && forall a: nat :: Macro(stack, a) == if a in macros then [macros[a]] else TopMacro(stack, n, k, a)
  }

  /** determine_macros. */
  method DetermineMacros(stack: seq<Frame>, ghost n: nat) returns (macros: Macros)
    requires StackOk(stack, n)
    ensures IsMacros(macros, stack) && MacrosOk(macros, n)
  {
    macros := map[];
    var i := |stack|;
    while i > 0
      invariant 0 <= i <= |stack| && Pending(macros, stack, i, if i == 0 then 0 else |stack[i - 1].lines|)
                && MacrosOk(macros, n)
    {
      var k := |stack[i - 1].lines|;
      while k > 0
        invariant 0 <= k <= |stack[i - 1].lines| && Pending(macros, stack, i, k) && MacrosOk(macros, n)
      {
        var m := stack[i - 1].lines[k - 1];
        assert LineOk(m, n);
        if m.isMacro && m.macro !in macros {
          macros := macros[m.macro := m.states];
        }
        k := k - 1;
      }
      i := i - 1;
    }
  }
}
