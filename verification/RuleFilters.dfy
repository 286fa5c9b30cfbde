/** Which receipts a rule counts, under which group, and what its detects say, in the words of rule and receipt. */
module RuleFilters {
  import opened Wrappers
  import opened Text
  import opened Enforcement
  import opened SlidingWindow

  /** The rule names another kind, or a deny reason or a forbid rule that the receipt does not carry. */
  predicate Misses(rule: Rule, r: Receipt) {
    || r.kind != rule.receiptKind
    || (rule.denyReason.Some? && r.denyReason != rule.denyReason)
    || (rule.forbidRuleId.Some? && r.forbidRuleId != rule.forbidRuleId)
  }

  /** A rule leaves out the receipts that miss it: no detect of that rule, and none of its buckets changes. */
  lemma MissedIsIgnored(s: State, rules: seq<Rule>, rule: Rule, r: Receipt)
    requires s.active == Some(rules) && UniqueNames(rules) && rule in rules && Misses(rule, r)
    ensures var (end, effects) := Step(s, Landed(r));
      && (forall e :: e in effects ==> e.rule != rule.name)
      && (forall group :: Bucket(end.counters, (rule.name, group)) == Bucket(s.counters, (rule.name, group)))
  {
    var (end, effects) := Step(s, Landed(r));
    UniqueByName(rules, rule);
    if !IsEnforcementKind(r.kind) {
      assert !Matches(rule, r);
      hide Matches, CheckRules, Bucket, GroupKey, Prune, Reaches, WindowNs;
      forall group
        ensures Bucket(end.counters, (rule.name, group)) == Bucket(s.counters, (rule.name, group))
        ensures !Detected(effects, rule, group)
      {
        OnlyItsOwnRule(s, rules, r, rule, group);
      }
      forall e | e in effects
        ensures e.rule != rule.name
      {
        var i :| 0 <= i < |effects| && effects[i] == e;
        assert !Detected(effects, rule, e.target);
      }
    }
  }

  /** Whom a rule counts a receipt under: nobody in particular, or its principal. */
  predicate Under(rule: Rule, r: Receipt, group: string) {
    if rule.groupBy != "none" && r.principal.Some? then r.principal.value == group else group == ""
  }

  /** What the bucket holds once this receipt is in it. */
  function Counting(s: State, rule: Rule, r: Receipt, group: string): seq<nat> {
    AtOrAfter(Bucket(s.counters, (rule.name, group)), r.occurredNs - WindowNs(rule)) + [r.occurredNs]
  }

  /**
   Every other receipt, unless it is the enforcement's own, is counted in the one bucket of its group and in no
   other: what has left the window goes, the receipt comes in, and a full bucket gives a detect and is emptied.
   */
  lemma OthersAreCounted(s: State, rules: seq<Rule>, rule: Rule, r: Receipt, group: string)
    requires s.active == Some(rules) && UniqueNames(rules) && rule in rules && !Misses(rule, r)
    requires !("enforcement." <= r.kind)
    ensures var (end, effects) := Step(s, Landed(r));
      var before, after := Bucket(s.counters, (rule.name, group)), Bucket(end.counters, (rule.name, group));
      var full := |Counting(s, rule, r, group)| % 0x1_0000_0000 >= rule.countThreshold;
      if Under(rule, r, group) then
        && after == (if full then [] else Counting(s, rule, r, group))
        && ((exists e :: e in effects && e.rule == rule.name && e.target == group) <==> full)
      else
        after == before && forall e :: e in effects ==> e.rule != rule.name || e.target != group
  {
    hide Matches, CheckRules, Bucket, GroupKey, Prune, AtOrAfter, WindowNs, Under, Misses, Detected;
    var (end, effects) := Step(s, Landed(r));
    FilterMeans(rule, r, group);
    UniqueByName(rules, rule);
    OnlyItsOwnRule(s, rules, r, rule, group);
    PruneIsCutoff(Bucket(s.counters, (rule.name, group)), r.occurredNs, WindowNs(rule));
    DetectedMeans(effects, rule, group);
  }

  lemma FilterMeans(rule: Rule, r: Receipt, group: string)
    ensures Matches(rule, r) <==> !Misses(rule, r)
    ensures GroupKey(rule, r) == group <==> Under(rule, r, group)
  {
  }

  lemma DetectedMeans(effects: seq<Effect>, rule: Rule, group: string)
    ensures Detected(effects, rule, group) <==> exists e :: e in effects && e.rule == rule.name && e.target == group
  {
    if Detected(effects, rule, group) {
      var i :| 0 <= i < |effects| && effects[i].rule == rule.name && effects[i].target == group;
      assert effects[i] in effects;
    }
  }

  /** What a detect says: its group, the configured delta or the default one, and the timestamps that made it up. */
  function Saying(rule: Rule, group: string, matched: seq<nat>): Effect {
    Effect(Detect, group, rule.name, if "detect" in rule.reputationDelta then rule.reputationDelta["detect"] else "-0.05",
           Some(Evidence(matched, group,
                         Digits(rule.countThreshold) + "+ matches of " + rule.receiptKind + " in " + rule.timeWindow)))
  }

  /** The effect is this rule's detect for this receipt. */
  predicate SaidBy(s: State, rule: Rule, r: Receipt, e: Effect) {
    && e.rule == rule.name && Under(rule, r, e.target)
    && e == Saying(rule, e.target, Counting(s, rule, r, e.target))
  }

  lemma OneSays(s: State, rule: Rule, r: Receipt)
    ensures var effect := CheckDetect(s, rule, r).1;
      effect.Some? ==> SaidBy(s, rule, r, effect.value)
  {
    hide AtOrAfter, WindowNs, Plan, Matches, Reaches;
    var group := GroupKey(rule, r);
    PruneIsCutoff(Bucket(s.counters, (rule.name, group)), r.occurredNs, WindowNs(rule));
  }

  lemma {:induction false} RulesSay(s: State, rules: seq<Rule>, r: Receipt, e: Effect)
    requires UniqueNames(rules) && e in CheckRules(s, rules, r).1
    ensures exists rule :: rule in rules && SaidBy(s, rule, r, e)
  {
    hide CheckDetect, Matches, Reaches, AtOrAfter, WindowNs, Saying, Under, Bucket, Prune;
    var init, last := rules[..|rules| - 1], rules[|rules| - 1];
    assert rules == init + [last];
    var (mid, effects) := CheckRules(s, init, r);
    if e in effects {
      RulesSay(s, init, r, e);
    } else {
      OneSays(mid, last, r);
      assert e == CheckDetect(mid, last, r).1.value;
      OnlyItsOwnRule(s, init, r, last, e.target);
      assert last in rules && last !in init;
      assert Counting(mid, last, r, e.target) == Counting(s, last, r, e.target);
      assert SaidBy(s, last, r, e);
    }
  }

  /** Every effect of a receipt is such a detect, of one rule in force. */
  lemma DetectsSay(s: State, r: Receipt, e: Effect)
    requires s.active.Some? && UniqueNames(s.active.value) && e in Step(s, Landed(r)).1
    ensures exists rule :: rule in s.active.value && SaidBy(s, rule, r, e)
  {
    RulesSay(s, s.active.value, r, e);
  }

  /** Each of these effects is the detect of the rule at its place, and the places ascend. */
  predicate AtPlaces(rules: seq<Rule>, effects: seq<Effect>, places: seq<nat>) {
    && |places| == |effects|
    && (forall i :: 0 <= i < |places| ==>
          places[i] < |rules| && effects[i].stage == Detect && effects[i].rule == rules[places[i]].name)
    && (forall i, j :: 0 <= i < j < |places| ==> places[i] < places[j])
  }

  /** The detects of one receipt come in the order of their rules, at most one of each. */
  lemma {:induction false} DetectsInOrder(s: State, rules: seq<Rule>, r: Receipt) returns (places: seq<nat>)
    ensures AtPlaces(rules, CheckRules(s, rules, r).1, places)
  {
    if rules == [] {
      return [];
    }
    var init, last := rules[..|rules| - 1], rules[|rules| - 1];
    assert rules == init + [last];
    places := DetectsInOrder(s, init, r);
    var (mid, effects) := CheckRules(s, init, r);
    var effect := CheckDetect(mid, last, r).1;
    DetectNames(mid, last, r);
    OneMorePlace(init, last, effects, effect, places);
    hide CheckDetect, AtPlaces;
    if effect.Some? {
      places := places + [|init|];
    }
  }

  lemma OneMorePlace(rules: seq<Rule>, rule: Rule, effects: seq<Effect>, effect: Option<Effect>, places: seq<nat>)
    requires AtPlaces(rules, effects, places)
    requires effect.Some? ==> effect.value.stage == Detect && effect.value.rule == rule.name
    ensures AtPlaces(rules + [rule], effects + Opt(effect), if effect.Some? then places + [|rules|] else places)
  {
  }

  lemma DetectNames(s: State, rule: Rule, r: Receipt)
    ensures var effect := CheckDetect(s, rule, r).1;
      effect.Some? ==> effect.value.stage == Detect && effect.value.rule == rule.name
  {
  }

  /** A detect marks its target, and nothing else touches an agent's stage. */
  lemma {:induction false} DetectsMark(s: State, rules: seq<Rule>, r: Receipt, id: string)
    ensures var (end, effects) := CheckRules(s, rules, r);
      AgentOf(end.agents, id).stage
      == if id != "" && exists e :: e in effects && e.target == id then Some(Detect) else AgentOf(s.agents, id).stage
  {
    hide Matches, Reaches, Plan, WindowNs, Prune, Summary, DetectDelta, GroupKey;
    if rules != [] {
      DetectsMark(s, rules[..|rules| - 1], r, id);
    }
  }

  /** A rule that waits for an enforcement receipt never detects anything, although the loader accepts it. */
  lemma EnforcementTriggersAreDead(s: State, rules: seq<Rule>, rule: Rule, r: Receipt)
    requires s.active == Some(rules) && UniqueNames(rules) && rule in rules && "enforcement." <= rule.receiptKind
    ensures forall e :: e in Step(s, Landed(r)).1 ==> e.rule != rule.name
  {
    if r.kind != rule.receiptKind {
      MissedIsIgnored(s, rules, rule, r);
    } else {
      assert IsEnforcementKind(r.kind) && OnReceipt(s, r).1 == [];
    }
  }

  /** The effect of a due entry: its own stage, target and rule, and the stage's fixed delta. */
  predicate SaidAtStage(x: Scheduled, e: Effect) {
    && e.stage == x.stage && e.target == x.target && e.rule == x.rule && e.evidence.None?
    && (x.stage.Coach? ==> e.delta == "0.0") && (x.stage.Quarantine? ==> e.delta == "-0.25")
    && (x.stage.Evict? ==> e.delta == "-1.0") && (x.stage.Reverse? ==> e.delta == "0.15")
  }

  /** What a fired stage says. */
  lemma StagesSay(s: State, now: Instant, e: Effect)
    requires e in Step(s, Polled(now)).1
    ensures exists x :: x in s.scheduled && x.fireAt <= now && SaidAtStage(x, e)
  {
    SweepSays(s.active, s.scheduled, now, e);
    var x :| x in s.scheduled && x.fireAt <= now && e == StageEffect(x);
    assert SaidAtStage(x, e);
  }

  lemma {:induction false} SweepSays(active: Option<seq<Rule>>, queue: seq<Scheduled>, now: Instant, e: Effect)
    requires e in SweepQueue(active, queue, now).effects
    ensures exists x :: x in queue && x.fireAt <= now && e == StageEffect(x)
  {
    hide FollowUps, StageEffect;
    var init, last := queue[..|queue| - 1], queue[|queue| - 1];
    if e in SweepQueue(active, init, now).effects {
      SweepSays(active, init, now, e);
      var x :| x in init && x.fireAt <= now && e == StageEffect(x);
      assert x in queue;
    }
  }
}
