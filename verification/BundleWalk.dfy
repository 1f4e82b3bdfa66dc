/** Fetching bundles: the creation-token walk and the retry loop of bundle-uri.c. */
module BundleWalk {

  type Object = nat

  /** A bundle of the list.  It unbundles when the objects it needs are there and then adds
      its own.  `file` and `unbundled` are fields of remote_bundle_info. */
  datatype Bundle = Bundle(token: nat, needs: set<Object>, gives: set<Object>, file: bool, unbundled: bool)

  function Open(bs: seq<Bundle>): (n: nat)
    ensures n <= |bs|
  {
    if bs == [] then 0 else Open(bs[..|bs| - 1]) + if bs[|bs| - 1].unbundled then 0 else 1
  }

  lemma {:induction false} OpenUpdate(bs: seq<Bundle>, i: nat, b: Bundle)
    requires i < |bs|
    ensures Open(bs[i := b]) == Open(bs) - (if bs[i].unbundled then 0 else 1) + (if b.unbundled then 0 else 1)
  {
    var last := |bs| - 1;
    if i == last {
      assert bs[i := b][..last] == bs[..last];
    } else {
      assert bs[i := b][..last] == bs[..last][i := b];
      OpenUpdate(bs[..last], i, b);
    }
  }

  /** Everything that the bundles can add to a set of objects is in it. */
  ghost predicate Closed(bs: seq<Bundle>, have: set<Object>) {
    forall i | 0 <= i < |bs| && bs[i].file && !bs[i].unbundled && bs[i].needs <= have :: bs[i].gives <= have
  }

  /** The order of compare_creation_token_decreasing. */
  ghost predicate Descending(bs: seq<Bundle>) {
    forall i, j | 0 <= i < j < |bs| :: bs[j].token <= bs[i].token
  }

  /** Bundles only get flagged, or downloaded. */
  ghost predicate Later(before: seq<Bundle>, after: seq<Bundle>) {
    && |after| == |before|
    && forall i | 0 <= i < |before| ::
         && after[i].token == before[i].token && after[i].needs == before[i].needs && after[i].gives == before[i].gives
         && (before[i].file ==> after[i].file) && (before[i].unbundled ==> after[i].unbundled)
  }

  class Fetch {
    var bundles: seq<Bundle>
    var have: set<Object>
    var config: nat

    constructor (bundles: seq<Bundle>, have: set<Object>, config: nat)
      ensures this.bundles == bundles && this.have == have && this.config == config
    {
      this.bundles, this.have, this.config := bundles, have, config;
    }

    /** unbundle_from_file. */
    method Unbundle(i: nat) returns (ok: bool)
      requires i < |bundles|
      modifies `have
      ensures ok == (bundles[i].needs <= old(have))
      ensures have == if ok then old(have) + bundles[i].gives else old(have)
    {
      ok := bundles[i].needs <= have;
      if ok {
        have := have + bundles[i].gives;
      }
    }

    /** attempt_unbundle over the list, up to the first success. */
    method AttemptAll() returns (again: bool)
      modifies this
      ensures Later(old(bundles), bundles) && old(have) <= have && config == old(config)
      ensures again ==> exists i :: 0 <= i < |bundles| && Attempted(old(bundles), old(have), bundles, have, i)
      ensures !again ==> bundles == old(bundles) && have == old(have)
      ensures !again ==> forall i | 0 <= i < |bundles| && bundles[i].file && !bundles[i].unbundled ::
              !(bundles[i].needs <= have)
    {
      var i := 0;
      while i < |bundles|
        invariant 0 <= i <= |bundles| && bundles == old(bundles) && have == old(have) && config == old(config)
        invariant forall k | 0 <= k < i && bundles[k].file && !bundles[k].unbundled :: !(bundles[k].needs <= have)
      {
        if bundles[i].file && !bundles[i].unbundled {
          var ok := Unbundle(i);
          if ok {
            bundles := bundles[i := bundles[i].(unbundled := true)];
            assert Attempted(old(bundles), old(have), bundles, have, i);
            return true;
          }
        }
        i := i + 1;
      }
      return false;
    }

    /** Download the current bundle.  What that gives is left open: a bundle, something else,
        or a list with bundles of its own, of which some may be unbundled and a token stored
        before that fails or succeeds (`list`).  When it fails the bundle is flagged so that
        it is not tried again, and the walk looks deeper. */
    method Download(w: Walk, max: nat, ghost before: seq<Bundle>, ghost start: set<Object>)
      returns (w': Walk, stop: bool, moved: bool, ghost start': set<Object>, ghost list: bool, ghost bad: bool)
      requires 0 <= w.cur < w.top <= |bundles| && WalkOk(before, start, max, bundles, have, w)
      requires bundles[w.cur].token > max && !bundles[w.cur].file
      modifies this
      ensures WalkOk(before, start', max, bundles, have, w') && |bundles| == |old(bundles)|
              && Open(bundles) <= Open(old(bundles))
      ensures if moved then w'.direction == 1 && w'.cur == w.cur + 1 && !stop && bundles[w.cur].unbundled
              && w.cur in w'.failed
              else w' == w && bundles[w.cur] == old(bundles)[w.cur].(file := true)
      ensures forall i | 0 <= i < |bundles| && i != w.cur :: bundles[i] == old(bundles)[i]
      ensures start <= start' && (!list ==> start' == start && have == old(have) && config == old(config))
      ensures list && !moved ==> stop
      ensures (stop ==> bad) && w'.top == w.top
    {
      hide *;
      var i: nat := w.cur;
      var isList: bool, fetched: bool, tried: bool := *, *, *;
      start', list, bad := start, isList, false;
      if isList {
        var extra: set<Object>, token: nat := *, *;
        Nested(before, start, max, bundles, have, w, extra);
        have, config, start' := have + extra, token, start + extra;
      }
      if !fetched {
        OpenUpdate(bundles, i, bundles[i].(file := tried, unbundled := true));
        NotFetched(before, start', max, bundles, have, w, tried);
        bundles := bundles[i := bundles[i].(file := tried, unbundled := true)];
        var failed := w.failed + {i};
        return w.(cur := i + 1, direction := 1, failed := failed), false, true, start', list, bad;
      }
      OpenUpdate(bundles, i, bundles[i].(file := true));
      Fetched(before, start', max, bundles, have, w);
      bundles := bundles[i := bundles[i].(file := true)];
      var isBundle: bool := *;
      bad := isList || !isBundle;
      return w, isList || !isBundle, false, start', list, bad;
    }

    /** Unbundle the current bundle, or pass over it, and move. */
    method Try(w: Walk, max: nat, ghost before: seq<Bundle>, ghost start: set<Object>) returns (w': Walk)
      requires 0 <= w.cur < w.top <= |bundles| && WalkOk(before, start, max, bundles, have, w)
      requires bundles[w.cur].token > max && (w.direction == 0 ==> !bundles[w.cur].unbundled)
      modifies `bundles, `have
      ensures WalkOk(before, start, max, bundles, have, w') && |bundles| == |old(bundles)|
      ensures Open(bundles) < Open(old(bundles))
              || (Open(bundles) == Open(old(bundles)) && w'.cur == w.cur + w'.direction
                   && (w'.direction == 1 || w'.direction == w.direction))
      ensures w'.direction != 0 && w'.top == w.top
    {
      hide *;
      var i: nat := w.cur;
      if bundles[i].unbundled {
        Skipped(before, start, max, bundles, have, w);
        return w.(cur := i + w.direction);
      }
      ghost var had := have;
      var ok := Unbundle(i);
      if !ok {
        Deeper(before, start, max, bundles, have, w);
        return w.(cur := i + 1, direction := 1);
      }
      OpenUpdate(bundles, i, bundles[i].(unbundled := true));
      Applied(before, start, max, bundles, had, w);
      var newMax := if bundles[i].token > w.newMax then bundles[i].token else w.newMax;
      bundles := bundles[i := bundles[i].(unbundled := true)];
      var applied := w.applied + {i};
      return w.(cur := i - 1, direction := -1, applied := applied, newMax := newMax);
    }

    /** One round of fetch_bundles_by_token's loop; `stop` when it breaks. */
    method Visit(w: Walk, max: nat, ghost before: seq<Bundle>, ghost start: set<Object>)
      returns (w': Walk, stop: bool, ghost start': set<Object>, ghost list: bool, ghost bad: bool)
      requires 0 <= w.cur < |bundles| && WalkOk(before, start, max, bundles, have, w)
               && (w.direction == 0 ==> !bundles[0].unbundled)
      modifies this
      ensures WalkOk(before, start', max, bundles, have, w') && |bundles| == |old(bundles)|
      ensures start <= start' && (!list ==> start' == start && config == old(config))
      ensures w'.top > 0
      ensures stop ==> w'.cur == w.cur && (bad || bundles[w.cur].token <= max)
      ensures !stop ==> w'.direction != 0
      ensures !stop ==>
                || Open(bundles) < Open(old(bundles))
                || (Open(bundles) == Open(old(bundles)) && Steps(w', |bundles|) < Steps(w, |bundles|))
    {
      hide *;
      WithinWalk(before, start, max, bundles, have, w);
      Entered(before, start, max, bundles, have, w);
      w' := w.(top := if w.cur == w.top then w.cur + 1 else w.top);
      stop, start', list, bad := true, start, false, false;
      if bundles[w.cur].token <= max {
        return;
      }
      if !bundles[w.cur].file {
        var moved;
        w', stop, moved, start', list, bad := Download(w', max, before, start);
        if stop || moved {
          Fewer(w, w', |bundles|);
          return;
        }
      }
      w' := Try(w', max, before, start');
      WithinWalk(before, start', max, bundles, have, w');
      Fewer(w, w', |bundles|);
      stop := false;
    }

    /** fetch_bundles_by_token on the list in order of decreasing token.  `config` holds the
        token of the previous fetch, 0 when there is none.  The walk ends whatever downloads do.
        When it succeeds, every bundle it visited has been unbundled or could not be downloaded,
        the objects of those unbundled are there and nothing else is new, apart from what lists
        among the downloads added (`begin`), and the token stored is the largest of theirs,
        above the one stored before.  It succeeds without a visit exactly if no bundle is newer
        than the token stored, and fails only at the end of the list, at a bundle that is not
        newer, or at a download that is no bundle (`bad`). */
    method FetchByToken(configured: bool)
      returns (ok: bool, ghost w: Walk, ghost begin: set<Object>, ghost lists: bool, ghost bad: bool)
      requires bundles != [] ==> !bundles[0].unbundled
      modifies this
      ensures Later(old(bundles), bundles) && w.top <= |bundles|
      ensures forall i | w.top <= i < |bundles| :: bundles[i] == old(bundles)[i]
      ensures Union(bundles, begin, w.applied, have) && old(have) <= begin
      ensures !lists ==> begin == old(have) && (!ok ==> config == old(config))
      ensures ok && w.top > 0 ==>
                && (forall i | 0 <= i < w.top && !old(bundles)[i].unbundled :: i in w.applied || i in w.failed)
                && config > old(config) && NewMax(old(config), bundles, w.(newMax := config)) && w.applied != {}
      ensures ok && w.top == 0 ==> config == old(config) && bundles == old(bundles) && have == old(have)
      ensures Descending(old(bundles)) ==>
                (ok && w.top == 0 <==>
                   bundles == [] || (configured && forall i | 0 <= i < |bundles| :: bundles[i].token <= old(config)))
      ensures !ok ==> 0 <= w.cur <= |bundles| && (w.cur < |bundles| ==> bad || bundles[w.cur].token <= old(config))
    {
      var st := Walk(0, 0, 0, 0, {}, {});
      w, begin, lists, bad := st, have, false, false;
      if bundles == [] {
        return true, st, begin, lists, bad;
      }
      if configured && bundles[0].token <= config {
        return true, st, begin, lists, bad;
      }
      ghost var before := bundles;
      var max := config;
      WalkStarts(bundles, have, config);
      hide WalkOk, Open, Steps, Flags, NewMax, Union, Later;
      var stop := false;
      while !stop && 0 <= st.cur < |bundles|
        invariant WalkOk(before, begin, max, bundles, have, st) && |bundles| == |before|
        invariant old(have) <= begin && (!lists ==> begin == old(have) && config == old(config))
        invariant st.direction == 0 && !stop ==> bundles == before
        invariant stop ==> 0 <= st.cur < |bundles| && (bad || bundles[st.cur].token <= max)
        invariant st.top == 0 ==> st == Walk(0, 0, 0, 0, {}, {})
        decreases !stop, Open(bundles), Steps(st, |bundles|)
      {
        ghost var list;
        st, stop, begin, list, bad := Visit(st, max, before, begin);
        lists := lists || list;
      }
      w := st;
      ok := st.cur < 0;
      WalkEnds(before, begin, max, bundles, have, st);
      if ok {
        config := st.newMax;
      }
    }

    /** unbundle_all_bundles: retry until nothing more unbundles.  Whatever the order of the
        list, the objects end up as the least set that holds the first ones and is closed
        under the bundles, and a bundle is flagged exactly when its needs are in it. */
    method UnbundleAll()
      modifies this
      ensures Later(old(bundles), bundles) && config == old(config)
      ensures old(have) <= have && Closed(old(bundles), have)
      ensures forall h: set<Object> | old(have) <= h && Closed(old(bundles), h) :: have <= h
      ensures forall i | 0 <= i < |bundles| && bundles[i].file && !old(bundles)[i].unbundled ::
                bundles[i].unbundled <==> bundles[i].needs <= have
    {
      ghost var before := bundles;
      ghost var start := have;
      var again := true;
      while again
        invariant Later(before, bundles) && config == old(config) && start <= have && SameFiles(before, bundles)
        invariant Reached(before, start, bundles, have)
        invariant !again ==> forall i | 0 <= i < |bundles| && bundles[i].file && !bundles[i].unbundled ::
                  !(bundles[i].needs <= have)
        decreases again, Open(bundles)
      {
        ghost var bs, h := bundles, have;
        again := AttemptAll();
        if again {
          ghost var i :| 0 <= i < |bs| && Attempted(bs, h, bundles, have, i);
          OpenUpdate(bs, i, bundles[i]);
          ReachedMore(before, start, bs, h, bundles, have, i);
        }
      }
    }
  }

  /** The state of the walk: `applied` are the bundles it unbundled and `failed` those it could
      not download, among the first `top`, which are the ones visited. */
  datatype Walk = Walk(cur: int, direction: int, newMax: nat, top: nat, applied: set<nat>, failed: set<nat>)

  ghost predicate Union(bs: seq<Bundle>, start: set<Object>, applied: set<nat>, have: set<Object>) {
    && start <= have && (forall i | i in applied :: i < |bs| && bs[i].gives <= have)
    && forall x | x in have && x !in start :: exists i :: i in applied && i < |bs| && x in bs[i].gives
  }

  /** The flags and fields of bundles are accounted for. */
  ghost predicate Flags(before: seq<Bundle>, max: nat, bs: seq<Bundle>, w: Walk) {
    && Later(before, bs) && w.top <= |bs|
    && (forall i | w.top <= i < |bs| :: bs[i] == before[i])
    && (forall i | 0 <= i < |bs| && bs[i].unbundled && !before[i].unbundled :: i in w.applied || i in w.failed)
    && (forall i | i in w.applied :: i < w.top && bs[i].unbundled && bs[i].token > max)
    && (forall i | i in w.failed :: i < w.top && bs[i].unbundled && bs[i].token > max)
  }

  /** The new token is the largest of the bundles unbundled. */
  ghost predicate NewMax(max: nat, bs: seq<Bundle>, w: Walk) {
    if w.applied == {} then w.newMax == 0 && w.direction >= 0
    else
      && w.newMax > max && (forall i | i in w.applied :: i < |bs| && bs[i].token <= w.newMax)
      && exists i :: i in w.applied && i < |bs| && bs[i].token == w.newMax
  }

  /** What every step of the walk keeps.  All visited bundles deeper than the current one are
      flagged; the walk turns to newer bundles only after one has been unbundled. */
  ghost predicate WalkOk(before: seq<Bundle>, start: set<Object>, max: nat, bs: seq<Bundle>, have: set<Object>,
                         w: Walk) {
    && -1 <= w.cur <= w.top && -1 <= w.direction <= 1
    && (w.direction == 0 ==> w.cur == 0 && w.top <= 1) && (w.cur == -1 ==> w.direction == -1)
    && Flags(before, max, bs, w) && (forall i | w.cur < i < w.top :: bs[i].unbundled)
    && Union(bs, start, w.applied, have) && NewMax(max, bs, w)
  }

  function Steps(w: Walk, n: nat): int {
    if w.direction <= 0 then n + 1 + w.cur else n - w.cur
  }

  lemma Fewer(w: Walk, w': Walk, n: nat)
    requires -1 <= w.direction <= 1 && 0 <= w.cur < n
    ensures w'.cur == w.cur + w'.direction && (w'.direction == 1 || (w'.direction == w.direction == -1)) ==>
              Steps(w', n) < Steps(w, n)
  {}

  lemma WalkStarts(bs: seq<Bundle>, have: set<Object>, max: nat)
    ensures WalkOk(bs, have, max, bs, have, Walk(0, 0, 0, 0, {}, {}))
  {}

  /** Objects that come from elsewhere. */
  lemma Nested(before: seq<Bundle>, start: set<Object>, max: nat, bs: seq<Bundle>, have: set<Object>, w: Walk,
               extra: set<Object>)
    requires WalkOk(before, start, max, bs, have, w)
    ensures WalkOk(before, start + extra, max, bs, have + extra, w)
  {
    hide Flags, NewMax;
  }

  lemma WalkEnds(before: seq<Bundle>, start: set<Object>, max: nat, bs: seq<Bundle>, have: set<Object>, w: Walk)
    requires WalkOk(before, start, max, bs, have, w)
    ensures Later(before, bs) && w.top <= |bs| && (forall i | w.top <= i < |bs| :: bs[i] == before[i])
    ensures Union(bs, start, w.applied, have)
    ensures w.cur < 0 ==>
              && (forall i | 0 <= i < w.top && !before[i].unbundled :: i in w.applied || i in w.failed)
              && w.newMax > max && NewMax(max, bs, w) && w.applied != {} && w.top > 0
  {}

  lemma Entered(before: seq<Bundle>, start: set<Object>, max: nat, bs: seq<Bundle>, have: set<Object>, w: Walk)
    requires WalkOk(before, start, max, bs, have, w) && 0 <= w.cur < |bs|
    ensures WalkOk(before, start, max, bs, have, w.(top := if w.cur == w.top then w.cur + 1 else w.top))
  {}

  lemma Fetched(before: seq<Bundle>, start: set<Object>, max: nat, bs: seq<Bundle>, have: set<Object>, w: Walk)
    requires WalkOk(before, start, max, bs, have, w) && 0 <= w.cur < w.top && w.cur < |bs|
    ensures WalkOk(before, start, max, bs[w.cur := bs[w.cur].(file := true)], have, w)
  {
    SameGives(bs, w.cur, bs[w.cur].(file := true), start, w.applied, have);
    hide Union;
  }

  lemma SameGives(bs: seq<Bundle>, i: nat, b: Bundle, start: set<Object>, applied: set<nat>, have: set<Object>)
    requires i < |bs| && b.gives == bs[i].gives && Union(bs, start, applied, have)
    ensures Union(bs[i := b], start, applied, have)
  {
    forall x | x in have && x !in start ensures exists k :: k in applied && k < |bs| && x in bs[i := b][k].gives {
      var k :| k in applied && k < |bs| && x in bs[k].gives;
      assert x in bs[i := b][k].gives;
    }
  }

  lemma NotFetched(before: seq<Bundle>, start: set<Object>, max: nat, bs: seq<Bundle>, have: set<Object>, w: Walk,
                   tried: bool)
    requires WalkOk(before, start, max, bs, have, w) && 0 <= w.cur < w.top && w.cur < |bs| && !bs[w.cur].file
             && bs[w.cur].token > max
    ensures WalkOk(before, start, max, bs[w.cur := bs[w.cur].(file := tried, unbundled := true)], have,
                   w.(cur := w.cur + 1, direction := 1, failed := w.failed + {w.cur}))
  {
    SameGives(bs, w.cur, bs[w.cur].(file := tried, unbundled := true), start, w.applied, have);
    hide Union;
  }

  lemma Deeper(before: seq<Bundle>, start: set<Object>, max: nat, bs: seq<Bundle>, have: set<Object>, w: Walk)
    requires WalkOk(before, start, max, bs, have, w) && 0 <= w.cur < w.top
    ensures WalkOk(before, start, max, bs, have, w.(cur := w.cur + 1, direction := 1))
  {
    hide Union;
  }

  lemma Skipped(before: seq<Bundle>, start: set<Object>, max: nat, bs: seq<Bundle>, have: set<Object>, w: Walk)
    requires WalkOk(before, start, max, bs, have, w) && 0 <= w.cur < w.top && w.cur < |bs| && bs[w.cur].unbundled
             && w.direction != 0
    ensures WalkOk(before, start, max, bs, have, w.(cur := w.cur + w.direction))
  {
    hide Union;
  }

  lemma Applied(before: seq<Bundle>, start: set<Object>, max: nat, bs: seq<Bundle>, had: set<Object>, w: Walk)
    requires WalkOk(before, start, max, bs, had, w) && 0 <= w.cur < w.top && w.cur < |bs| && !bs[w.cur].unbundled
             && bs[w.cur].token > max
    ensures var newMax := if bs[w.cur].token > w.newMax then bs[w.cur].token else w.newMax;
            var w' := w.(cur := w.cur - 1, direction := -1, applied := w.applied + {w.cur}, newMax := newMax);
            WalkOk(before, start, max, bs[w.cur := bs[w.cur].(unbundled := true)], had + bs[w.cur].gives, w')
  {
    var i: nat := w.cur;
    var newMax := if bs[i].token > w.newMax then bs[i].token else w.newMax;
    var bs' := bs[i := bs[i].(unbundled := true)];
    var w' := w.(cur := i - 1, direction := -1, applied := w.applied + {i}, newMax := newMax);
    SameGives(bs, i, bs[i].(unbundled := true), start, w.applied, had);
    MoreGives(bs', i, start, w.applied, had);
    AppliedMax(max, bs, bs', w, w', i);
    hide Union, NewMax;
  }

  lemma MoreGives(bs: seq<Bundle>, i: nat, start: set<Object>, applied: set<nat>, had: set<Object>)
    requires i < |bs| && Union(bs, start, applied, had)
    ensures Union(bs, start, applied + {i}, had + bs[i].gives)
  {}

  lemma AppliedMax(max: nat, bs: seq<Bundle>, bs': seq<Bundle>, w: Walk, w': Walk, i: nat)
    requires NewMax(max, bs, w) && i < |bs| && bs[i].token > max && bs' == bs[i := bs[i].(unbundled := true)]
    requires w'.applied == w.applied + {i} && w'.newMax == if bs[i].token > w.newMax then bs[i].token else w.newMax
    ensures NewMax(max, bs', w')
  {
    assert i in w'.applied;
    if bs[i].token <= w.newMax && w.applied != {} {
      var k :| k in w.applied && k < |bs| && bs[k].token == w.newMax;
      assert k in w'.applied && bs'[k].token == w'.newMax;
    }
  }

  lemma WithinWalk(before: seq<Bundle>, start: set<Object>, max: nat, bs: seq<Bundle>, have: set<Object>, w: Walk)
    requires WalkOk(before, start, max, bs, have, w)
    ensures -1 <= w.direction <= 1 && w.top <= |bs| && (w.direction == 0 ==> w.cur == 0) && w.cur <= w.top
  {}

  /** Bundle `i` was unbundled. */
  ghost predicate Attempted(before: seq<Bundle>, had: set<Object>, after: seq<Bundle>, have: set<Object>, i: nat) {
    && i < |before| && before[i].file && !before[i].unbundled && before[i].needs <= had
    && after == before[i := before[i].(unbundled := true)] && have == had + before[i].gives
  }

  ghost predicate SameFiles(before: seq<Bundle>, after: seq<Bundle>) {
    |after| == |before| && forall i | 0 <= i < |before| :: after[i].file == before[i].file
  }

  /** Every object came from a bundle whose needs were met, and flagged bundles gave theirs. */
  ghost predicate Reached(before: seq<Bundle>, start: set<Object>, after: seq<Bundle>, have: set<Object>) {
    && |after| == |before|
    && (forall h: set<Object> | start <= h && Closed(before, h) :: have <= h)
    && (forall i | 0 <= i < |after| && after[i].unbundled && !before[i].unbundled :: before[i].needs <= have
         && before[i].gives <= have)
  }

  lemma ReachedMore(before: seq<Bundle>, start: set<Object>, bs: seq<Bundle>, had: set<Object>, after: seq<Bundle>,
                    have: set<Object>, i: nat)
    requires Later(before, bs) && SameFiles(before, bs) && Reached(before, start, bs, had)
             && Attempted(bs, had, after, have, i)
    ensures Reached(before, start, after, have) && Later(before, after) && SameFiles(before, after)
  {
    forall h: set<Object> | start <= h && Closed(before, h) ensures have <= h {
      assert had <= h;
      assert before[i].file && !before[i].unbundled && before[i].needs <= h;
    }
  }
}
