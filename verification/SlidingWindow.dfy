/** When detect fires: the sliding-window counters, against a count made over the whole history. */
module SlidingWindow {
  import opened Wrappers
  import opened Text
  import opened Enforcement

  // ------------------------------------------------------------- one bucket

  /** What repeated pruning, pushing and clearing leaves of a stream of timestamps. */
  function BucketAfter(ts: seq<nat>, windowNs: nat, threshold: nat): seq<nat> {
    if ts == [] then []
    else
      var last := ts[|ts| - 1];
      var filled := Prune(BucketAfter(ts[..|ts| - 1], windowNs, threshold), last, windowNs) + [last];
      if |filled| % U32_LIMIT >= threshold then [] else filled
  }

  /** No later match has left this one behind its window. */
  predicate Survives(ts: seq<nat>, i: nat, windowNs: nat)
    requires i < |ts|
  {
    forall j :: i < j < |ts| ==> ts[i] >= ts[j] - windowNs
  }

  /** Of the first n matches, in order, those that no later match has left behind. */
  function Survivors(ts: seq<nat>, n: nat, windowNs: nat): (kept: seq<nat>)
    requires n <= |ts|
    ensures |kept| <= n
  {
    if n == 0 then []
    else Survivors(ts, n - 1, windowNs) + if Survives(ts, n - 1, windowNs) then [ts[n - 1]] else []
  }

  /** What the window still holds of the matches from position `from` on; any order of timestamps will do. */
  function InWindow(ts: seq<nat>, from: nat, windowNs: nat): seq<nat>
    requires from < |ts|
  {
    Survivors(ts[from..], |ts| - from, windowNs)
  }

  /** Whether the newest timestamp completes a pattern begun after the last completed one. */
  predicate Fires(ts: seq<nat>, windowNs: nat, threshold: nat)
    requires ts != []
    decreases |ts|, 1
  {
    |InWindow(ts, Rearmed(ts[..|ts| - 1], windowNs, threshold), windowNs)| >= threshold
  }

  /** The position after the last completed pattern. */
  function Rearmed(ts: seq<nat>, windowNs: nat, threshold: nat): (k: nat)
    ensures k <= |ts|
    decreases |ts|, 2
  {
    if ts == [] then 0
    else if Fires(ts, windowNs, threshold) then |ts|
    else Rearmed(ts[..|ts| - 1], windowNs, threshold)
  }

  predicate Sorted(ts: seq<nat>) {
    forall i, j :: 0 <= i < j < |ts| ==> ts[i] <= ts[j]
  }

  lemma {:induction false} KeepsAll(ts: seq<nat>, cutoff: int)
    requires cutoff <= 0
    ensures AtOrAfter(ts, cutoff) == ts
  {
    if ts != [] {
      KeepsAll(ts[..|ts| - 1], cutoff);
    }
  }

  /** One more match leaves behind exactly what lies before its window. */
  lemma {:induction false} SurvivorsNext(ts: seq<nat>, last: nat, n: nat, windowNs: nat)
    requires n <= |ts|
    ensures Survivors(ts + [last], n, windowNs) == AtOrAfter(Survivors(ts, n, windowNs), last - windowNs)
  {
    if n > 0 {
      hide AtOrAfter;
      SurvivorsNext(ts, last, n - 1, windowNs);
      var more := ts + [last];
      assert Survives(more, n - 1, windowNs) <==> Survives(ts, n - 1, windowNs) && ts[n - 1] >= last - windowNs by {
        assert more[|ts|] == last;
        assert forall j :: n - 1 < j < |ts| ==> more[j] == ts[j];
      }
      assert more[n - 1] == ts[n - 1];
      hide Survives;
      var kept := Survivors(ts, n - 1, windowNs);
      if Survives(ts, n - 1, windowNs) {
        CutOneMore(kept, ts[n - 1], last - windowNs);
        var cut := AtOrAfter(kept, last - windowNs);
        assert cut + [] == cut;
      } else {
        assert kept + [] == kept;
      }
    } else {
      NothingAfter(last - windowNs);
    }
  }

  lemma CutOneMore(ts: seq<nat>, t: nat, cutoff: int)
    ensures AtOrAfter(ts + [t], cutoff) == AtOrAfter(ts, cutoff) + if t >= cutoff then [t] else []
  {
    assert (ts + [t])[..|ts|] == ts;
  }

  lemma NewestSurvives(ts: seq<nat>, last: nat, windowNs: nat)
    ensures Survivors(ts + [last], |ts| + 1, windowNs)
      == AtOrAfter(Survivors(ts, |ts|, windowNs), last - windowNs) + [last]
  {
    SurvivorsNext(ts, last, |ts|, windowNs);
    hide AtOrAfter;
  }

  /** For timestamps in order the window holds exactly those at or after its own beginning. */
  lemma {:induction false} SurvivorsInOrder(ts: seq<nat>, n: nat, windowNs: nat)
    requires Sorted(ts) && n <= |ts| && ts != []
    ensures Survivors(ts, n, windowNs) == AtOrAfter(ts[..n], ts[|ts| - 1] - windowNs)
  {
    if n > 0 {
      SurvivorsInOrder(ts, n - 1, windowNs);
      assert ts[..n] == ts[..n - 1] + [ts[n - 1]];
      CutOneMore(ts[..n - 1], ts[n - 1], ts[|ts| - 1] - windowNs);
      LastDecides(ts, n - 1, windowNs);
      hide AtOrAfter, Survives, Sorted;
      assert AtOrAfter(ts[..n - 1], ts[|ts| - 1] - windowNs) + [] == AtOrAfter(ts[..n - 1], ts[|ts| - 1] - windowNs);
    } else {
      NothingAfter(ts[|ts| - 1] - windowNs);
      assert ts[..0] == [];
    }
  }

  lemma LastDecides(ts: seq<nat>, k: nat, windowNs: nat)
    requires Sorted(ts) && k < |ts|
    ensures Survives(ts, k, windowNs) <==> ts[k] >= ts[|ts| - 1] - windowNs
  {
  }

  lemma PruneIsCutoff(ts: seq<nat>, nowNs: nat, windowNs: nat)
    ensures Prune(ts, nowNs, windowNs) == AtOrAfter(ts, nowNs - windowNs)
  {
    if nowNs < windowNs {
      KeepsAll(ts, nowNs - windowNs);
    }
  }

  /** At rest a bucket is shorter than its threshold, so the cast to u32 never truncates. */
  lemma {:induction false} BucketStaysShort(ts: seq<nat>, windowNs: nat, threshold: nat)
    requires 1 <= threshold < U32_LIMIT
    ensures |BucketAfter(ts, windowNs, threshold)| < threshold
  {
    if ts != [] {
      BucketStaysShort(ts[..|ts| - 1], windowNs, threshold);
    }
  }

  /** The bucket is what history leaves in the window, and detect fires on reaching the threshold exactly. */
  lemma {:induction false} BucketIsWindow(ts: seq<nat>, windowNs: nat, threshold: nat)
    requires 1 <= threshold < U32_LIMIT && ts != []
    ensures var window := InWindow(ts, Rearmed(ts[..|ts| - 1], windowNs, threshold), windowNs);
      && BucketAfter(ts, windowNs, threshold) == (if Fires(ts, windowNs, threshold) then [] else window)
      && Prune(BucketAfter(ts[..|ts| - 1], windowNs, threshold), ts[|ts| - 1], windowNs) + [ts[|ts| - 1]] == window
      && (Fires(ts, windowNs, threshold) <==> |window| == threshold)
  {
    hide AtOrAfter, Prune, Rearmed;
    var init, last := ts[..|ts| - 1], ts[|ts| - 1];
    var from := Rearmed(init, windowNs, threshold);
    if init != [] {
      BucketIsWindow(init, windowNs, threshold);
    }
    PrunedPushed(ts, windowNs, threshold);
    PushedFires(ts, windowNs, threshold);
    hide InWindow, Fires, BucketAfter;
  }

  /** The bucket that has just been pushed to is at most as long as the threshold. */
  lemma PushedFires(ts: seq<nat>, windowNs: nat, threshold: nat)
    requires 1 <= threshold < U32_LIMIT && ts != []
    requires var (init, last) := (ts[..|ts| - 1], ts[|ts| - 1]);
      Prune(BucketAfter(init, windowNs, threshold), last, windowNs) + [last]
      == InWindow(ts, Rearmed(init, windowNs, threshold), windowNs)
    ensures var window := InWindow(ts, Rearmed(ts[..|ts| - 1], windowNs, threshold), windowNs);
      && BucketAfter(ts, windowNs, threshold) == (if Fires(ts, windowNs, threshold) then [] else window)
      && (Fires(ts, windowNs, threshold) <==> |window| == threshold)
  {
    hide AtOrAfter, Prune, Rearmed, InWindow, BucketAfter, Survivors;
    var init, last := ts[..|ts| - 1], ts[|ts| - 1];
    var window := InWindow(ts, Rearmed(init, windowNs, threshold), windowNs);
    BucketStaysShort(init, windowNs, threshold);
    PruneShortens(BucketAfter(init, windowNs, threshold), last, windowNs);
    assert |window| <= threshold;
    BucketStep(ts, windowNs, threshold, window);
  }

  lemma BucketStep(ts: seq<nat>, windowNs: nat, threshold: nat, filled: seq<nat>)
    requires ts != [] && |filled| < U32_LIMIT
    requires filled == Prune(BucketAfter(ts[..|ts| - 1], windowNs, threshold), ts[|ts| - 1], windowNs) + [ts[|ts| - 1]]
    ensures BucketAfter(ts, windowNs, threshold) == if |filled| >= threshold then [] else filled
  {
    hide AtOrAfter, Prune;
    assert |filled| % U32_LIMIT == |filled|;
  }

  lemma PrunedPushed(ts: seq<nat>, windowNs: nat, threshold: nat)
    requires ts != []
    requires var init := ts[..|ts| - 1];
      init != [] ==>
        BucketAfter(init, windowNs, threshold)
        == if Fires(init, windowNs, threshold) then []
           else InWindow(init, Rearmed(init[..|init| - 1], windowNs, threshold), windowNs)
    ensures Prune(BucketAfter(ts[..|ts| - 1], windowNs, threshold), ts[|ts| - 1], windowNs) + [ts[|ts| - 1]]
      == InWindow(ts, Rearmed(ts[..|ts| - 1], windowNs, threshold), windowNs)
  {
    hide AtOrAfter, Prune, Rearmed, BucketAfter, Fires, Survivors;
    var init, last := ts[..|ts| - 1], ts[|ts| - 1];
    var from := Rearmed(init, windowNs, threshold);
    PrunedBucket(ts, windowNs, threshold);
    NewestSurvives(init[from..], last, windowNs);
    assert ts[from..] == init[from..] + [last];
  }

  lemma PruneShortens(ts: seq<nat>, nowNs: nat, windowNs: nat)
    ensures |Prune(ts, nowNs, windowNs)| <= |ts|
  {
  }

  lemma NothingAfter(cutoff: int)
    ensures AtOrAfter([], cutoff) == []
    ensures forall windowNs, threshold :: BucketAfter([], windowNs, threshold) == []
  {
  }

  /** Pruning what earlier prunings kept is one pruning of everything since the last detect. */
  lemma PrunedBucket(ts: seq<nat>, windowNs: nat, threshold: nat)
    requires ts != []
    requires var init := ts[..|ts| - 1];
      init != [] ==>
        BucketAfter(init, windowNs, threshold)
        == if Fires(init, windowNs, threshold) then []
           else InWindow(init, Rearmed(init[..|init| - 1], windowNs, threshold), windowNs)
    ensures var init, last := ts[..|ts| - 1], ts[|ts| - 1];
      Prune(BucketAfter(init, windowNs, threshold), last, windowNs)
      == AtOrAfter(Survivors(init[Rearmed(init, windowNs, threshold)..],
                             |init| - Rearmed(init, windowNs, threshold), windowNs), last - windowNs)
  {
    hide Prune, AtOrAfter, BucketAfter, Fires;
    var init, last := ts[..|ts| - 1], ts[|ts| - 1];
    var from := Rearmed(init, windowNs, threshold);
    NothingAfter(last - windowNs);
    PruneIsCutoff(BucketAfter(init, windowNs, threshold), last, windowNs);
    if init == [] || Fires(init, windowNs, threshold) {
      assert from == |init| && Survivors(init[from..], 0, windowNs) == [];
    }
  }

  // ------------------------------------------------------------- the engine

  predicate Counts(rule: Rule, group: string, r: Receipt) {
    !IsEnforcementKind(r.kind) && Matches(rule, r) && GroupKey(rule, r) == group
  }

  /** The timestamps a rule's group has matched since the last activation. */
  function Matched(rule: Rule, group: string, events: seq<Event>): seq<nat> {
    if events == [] then []
    else
      var before := Matched(rule, group, events[..|events| - 1]);
      match events[|events| - 1]
      case Activated(_) => []
      case Polled(_) => before
      case Landed(r) => if Counts(rule, group, r) then before + [r.occurredNs] else before
  }

  predicate Detected(effects: seq<Effect>, rule: Rule, group: string) {
    exists i :: 0 <= i < |effects| && effects[i].rule == rule.name && effects[i].target == group
  }

  lemma OneRule(s: State, last: Rule, r: Receipt, name: string, group: string)
    ensures var (end, effect) := CheckDetect(s, last, r);
      var before, after := Bucket(s.counters, (name, group)), Bucket(end.counters, (name, group));
      if last.name == name && Matches(last, r) && GroupKey(last, r) == group then
        var filled := Prune(before, r.occurredNs, WindowNs(last)) + [r.occurredNs];
        && after == (if Reaches(filled, last) then [] else filled)
        && (effect.Some? <==> Reaches(filled, last))
        && (effect.Some? ==> effect.value.rule == name && effect.value.target == group)
      else
        after == before && (effect.Some? ==> effect.value.rule != name || effect.value.target != group)
  {
    hide Matches, WindowNs, Prune, Reaches, Plan, Summary, DetectDelta;
  }

  lemma DetectedOr(effects: seq<Effect>, effect: Option<Effect>, rule: Rule, group: string)
    ensures Detected(effects + Opt(effect), rule, group) <==>
      Detected(effects, rule, group) || (effect.Some? && effect.value.rule == rule.name && effect.value.target == group)
  {
    var all := effects + Opt(effect);
    assert forall i :: 0 <= i < |effects| ==> all[i] == effects[i];
    if effect.Some? {
      assert all[|effects|] == effect.value;
    }
  }

  /** A rule's bucket answers to that rule alone, and its detect comes out exactly when the filled bucket reaches the threshold. */
  lemma {:induction false} OnlyItsOwnRule(s: State, rules: seq<Rule>, r: Receipt, rule: Rule, group: string)
    requires UniqueNames(rules) && forall other :: other in rules && other.name == rule.name ==> other == rule
    ensures var (end, effects) := CheckRules(s, rules, r);
      var before, after := Bucket(s.counters, (rule.name, group)), Bucket(end.counters, (rule.name, group));
      if rule in rules && Matches(rule, r) && GroupKey(rule, r) == group then
        var filled := Prune(before, r.occurredNs, WindowNs(rule)) + [r.occurredNs];
        && after == (if Reaches(filled, rule) then [] else filled)
        && (Detected(effects, rule, group) <==> Reaches(filled, rule))
      else
        after == before && !Detected(effects, rule, group)
  {
    hide Matches, WindowNs, Prune, Reaches, CheckDetect, GroupKey, Bucket;
    if rules != [] {
      var init, last := rules[..|rules| - 1], rules[|rules| - 1];
      assert rules == init + [last];
      OnlyItsOwnRule(s, init, r, rule, group);
      var (mid, effects) := CheckRules(s, init, r);
      OneRule(mid, last, r, rule.name, group);
      DetectedOr(effects, CheckDetect(mid, last, r).1, rule, group);
    }
  }

  /** Each counter holds what its own rule's matches since activation leave. */
  lemma {:induction false} CounterFollowsHistory(events: seq<Event>, rules: seq<Rule>, rule: Rule, group: string)
    requires Run(events).0.active == Some(rules) && UniqueNames(rules) && rule in rules
    ensures Bucket(Run(events).0.counters, (rule.name, group))
         == BucketAfter(Matched(rule, group, events), WindowNs(rule), rule.countThreshold)
  {
    hide Prune, Matches, Fires, GroupKey;
    var init, event := events[..|events| - 1], events[|events| - 1];
    var s := Run(init).0;
    match event
    case Activated(_) =>
    case Polled(_) => CounterFollowsHistory(init, rules, rule, group);
    case Landed(r) =>
      if !IsEnforcementKind(r.kind) && s.active.Some? {
        RulesKeepActive(s, s.active.value, r);
        UniqueByName(rules, rule);
        OnlyItsOwnRule(s, rules, r, rule, group);
      }
      CounterFollowsHistory(init, rules, rule, group);
      var before := Matched(rule, group, init);
      assert Counts(rule, group, r) ==> (before + [r.occurredNs])[..|before|] == before;
  }

  lemma UniqueByName(rules: seq<Rule>, rule: Rule)
    requires UniqueNames(rules) && rule in rules
    ensures forall other :: other in rules && other.name == rule.name ==> other == rule
  {
  }

  /**
   For every reachable engine, every rule and every matching receipt, whatever the order of the timestamps:
   detect fires exactly when the matches since the last detect that no later match has left behind its
   window, this one included, number the threshold; otherwise the bucket now holds exactly those matches;
   and a detect empties it. In order, those are the matches inside the window of this one.
   */
  lemma DetectExactly(events: seq<Event>, rules: seq<Rule>, rule: Rule, r: Receipt)
    requires Run(events).0.active == Some(rules) && UniqueNames(rules) && rule in rules
    requires 1 <= rule.countThreshold < U32_LIMIT
    requires !IsEnforcementKind(r.kind) && Matches(rule, r)
    ensures var group, earlier := GroupKey(rule, r), Matched(rule, GroupKey(rule, r), events);
      var window := InWindow(earlier + [r.occurredNs], Rearmed(earlier, WindowNs(rule), rule.countThreshold), WindowNs(rule));
      var (end, effects) := Step(Run(events).0, Landed(r));
      && (Detected(effects, rule, group) <==> |window| == rule.countThreshold)
      && Bucket(end.counters, (rule.name, group)) == (if |window| == rule.countThreshold then [] else window)
      && |Bucket(end.counters, (rule.name, group))| < rule.countThreshold
  {
    var group := GroupKey(rule, r);
    var earlier := Matched(rule, group, events);
    var ts := earlier + [r.occurredNs];
    assert ts[..|ts| - 1] == earlier;
    CounterFollowsHistory(events, rules, rule, group);
    UniqueByName(rules, rule);
    OnlyItsOwnRule(Run(events).0, rules, r, rule, group);
    BucketIsWindow(ts, WindowNs(rule), rule.countThreshold);
    BucketStaysShort(earlier, WindowNs(rule), rule.countThreshold);
    BucketStaysShort(ts, WindowNs(rule), rule.countThreshold);
  }
}
