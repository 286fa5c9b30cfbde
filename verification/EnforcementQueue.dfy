/** The queue of scheduled stages: what one poll keeps and fires, and why every chain ends. */
module EnforcementQueue {
  import opened Wrappers
  import opened Enforcement

  function DueAt(queue: seq<Scheduled>, now: Instant): seq<Scheduled> {
    if queue == [] then []
    else DueAt(queue[..|queue| - 1], now)
         + if queue[|queue| - 1].fireAt <= now then [queue[|queue| - 1]] else []
  }

  function NotDueAt(queue: seq<Scheduled>, now: Instant): seq<Scheduled> {
    if queue == [] then []
    else NotDueAt(queue[..|queue| - 1], now)
         + if queue[|queue| - 1].fireAt <= now then [] else [queue[|queue| - 1]]
  }

  /**
   A poll loses and invents nothing: every due entry gives one effect, in queue order, everything
   else stays in order, and what it schedules itself cannot be among the effects.
   */
  lemma SweepSplits(active: Option<seq<Rule>>, queue: seq<Scheduled>, now: Instant)
    ensures var sweep, due := SweepQueue(active, queue, now), DueAt(queue, now);
      && sweep.kept == NotDueAt(queue, now)
      && |sweep.effects| == |due| && (forall i :: 0 <= i < |due| ==> sweep.effects[i] == StageEffect(due[i]))
      && multiset(queue) == multiset(due) + multiset(sweep.kept)
      && (forall e :: e in due ==> e.fireAt <= now) && (forall e :: e in sweep.kept ==> e.fireAt > now)
  {
    SweepFilters(active, queue, now);
    Partition(queue, now);
  }

  lemma {:induction false} SweepFilters(active: Option<seq<Rule>>, queue: seq<Scheduled>, now: Instant)
    ensures var sweep, due := SweepQueue(active, queue, now), DueAt(queue, now);
      && sweep.kept == NotDueAt(queue, now)
      && |sweep.effects| == |due| && (forall i :: 0 <= i < |due| ==> sweep.effects[i] == StageEffect(due[i]))
  {
    hide FollowUps;
    if queue != [] {
      SweepFilters(active, queue[..|queue| - 1], now);
    }
  }

  lemma Partition(queue: seq<Scheduled>, now: Instant)
    ensures multiset(queue) == multiset(DueAt(queue, now)) + multiset(NotDueAt(queue, now))
    ensures forall e :: e in DueAt(queue, now) ==> e.fireAt <= now
    ensures forall e :: e in NotDueAt(queue, now) ==> e.fireAt > now
  {
    EachOnItsSide(queue, now);
    hide DueAt, NotDueAt;
    forall e
      ensures multiset(queue)[e] == (multiset(DueAt(queue, now)) + multiset(NotDueAt(queue, now)))[e]
    {
      EachCounted(queue, now, e);
    }
  }

  lemma {:induction false} EachOnItsSide(queue: seq<Scheduled>, now: Instant)
    ensures forall e :: e in DueAt(queue, now) ==> e.fireAt <= now
    ensures forall e :: e in NotDueAt(queue, now) ==> e.fireAt > now
  {
    if queue != [] {
      EachOnItsSide(queue[..|queue| - 1], now);
    }
  }

  lemma {:induction false} EachCounted(queue: seq<Scheduled>, now: Instant, e: Scheduled)
    ensures multiset(queue)[e] == multiset(DueAt(queue, now))[e] + multiset(NotDueAt(queue, now))[e]
  {
    if queue != [] {
      var init, last := queue[..|queue| - 1], queue[|queue| - 1];
      EachCounted(init, now, e);
      assert queue == init + [last];
      CountOneMore(init, last, e);
      CountOneMore(if last.fireAt <= now then DueAt(init, now) else NotDueAt(init, now), last, e);
    }
  }

  lemma CountOneMore(s: seq<Scheduled>, x: Scheduled, e: Scheduled)
    ensures multiset(s + [x])[e] == multiset(s)[e] + if x == e then 1 else 0
  {
  }

  /** The most effects an entry can still lead to, itself included. */
  function StageWeight(stage: Stage): nat {
    match stage
    case Coach => 4
    case Quarantine => 3
    case _ => 1
  }

  function Weight(queue: seq<Scheduled>): nat {
    if queue == [] then 0 else Weight(queue[..|queue| - 1]) + StageWeight(queue[|queue| - 1].stage)
  }

  lemma {:induction false} WeightOfSum(a: seq<Scheduled>, b: seq<Scheduled>)
    ensures Weight(a + b) == Weight(a) + Weight(b)
  {
    if b == [] {
      assert a + b == a;
    } else {
      assert (a + b)[..|a + b| - 1] == a + b[..|b| - 1];
      WeightOfSum(a, b[..|b| - 1]);
    }
  }

  lemma PlanWeight(stage: Stage, after: Option<string>, base: Option<Instant>, target: string, rule: string)
    ensures Weight(Plan(stage, after, base, target, rule)) <= StageWeight(stage)
  {
    hide ComputeFireAt;
    var plan := Plan(stage, after, base, target, rule);
    if plan != [] {
      assert plan == [plan[0]] && plan[..0] == [];
    }
  }

  lemma FollowUpWeight(active: Option<seq<Rule>>, entry: Scheduled, now: Instant)
    ensures Weight(FollowUps(active, entry, now)) + 1 <= StageWeight(entry.stage)
  {
    hide Plan, FindRule, Weight;
    WeightOfNone();
    var found := RuleFor(active, entry.rule);
    if found.Some? {
      var rule := found.value;
      var after := if rule.quarantine.None? then None else Some(rule.quarantine.value.escalateAfter);
      var expiry := if rule.quarantine.None? then None else rule.quarantine.value.expiresAfter;
      PlanWeight(Quarantine, after, Some(now), entry.target, entry.rule);
      PlanWeight(Evict, rule.evictAfter, Some(now), entry.target, entry.rule);
      PlanWeight(Reverse, expiry, Some(now), entry.target, entry.rule);
      WeightOfSum(Plan(Evict, rule.evictAfter, Some(now), entry.target, entry.rule),
                  Plan(Reverse, expiry, Some(now), entry.target, entry.rule));
    }
  }

  lemma WeightOfNone()
    ensures Weight([]) == 0
  {
  }

  /** A poll pays for each effect with at least one unit of weight. */
  lemma {:induction false} SweepWeight(active: Option<seq<Rule>>, queue: seq<Scheduled>, now: Instant)
    ensures var sweep := SweepQueue(active, queue, now);
      Weight(sweep.kept + sweep.added) + |sweep.effects| <= Weight(queue)
  {
    var sweep := SweepQueue(active, queue, now);
    WeightOfSum(sweep.kept, sweep.added);
    if queue != [] {
      var init, entry := queue[..|queue| - 1], queue[|queue| - 1];
      SweepWeight(active, init, now);
      var before := SweepQueue(active, init, now);
      WeightOfSum(before.kept, before.added);
      if entry.fireAt <= now {
        FollowUpWeight(active, entry, now);
        WeightOfSum(before.added, FollowUps(active, entry, now));
      } else {
        WeightOfSum(before.kept, [entry]);
        assert [entry][..0] == [];
      }
    }
  }

  function Detects(effects: seq<Effect>): nat {
    if effects == [] then 0
    else Detects(effects[..|effects| - 1]) + if effects[|effects| - 1].stage == Detect then 1 else 0
  }

  lemma {:induction false} DetectsOfSum(a: seq<Effect>, b: seq<Effect>)
    ensures Detects(a + b) == Detects(a) + Detects(b)
  {
    if b == [] {
      assert a + b == a;
    } else {
      assert (a + b)[..|a + b| - 1] == a + b[..|b| - 1];
      DetectsOfSum(a, b[..|b| - 1]);
    }
  }

  lemma {:induction false} RulesWeight(s: State, rules: seq<Rule>, r: Receipt)
    ensures var (end, effects) := CheckRules(s, rules, r);
      Detects(effects) == |effects| && Weight(end.scheduled) <= Weight(s.scheduled) + 4 * |effects|
  {
    hide Filled, Reaches, Matches, Plan;
    if rules != [] {
      var init, rule := rules[..|rules| - 1], rules[|rules| - 1];
      RulesWeight(s, init, r);
      var (mid, before) := CheckRules(s, init, r);
      var (end, effect) := CheckDetect(mid, rule, r);
      DetectsOfSum(before, Opt(effect));
      if effect.Some? {
        assert Opt(effect)[..0] == [];
        var plan := Plan(Coach, rule.coachCooldown, r.wall, GroupKey(rule, r), rule.name);
        PlanWeight(Coach, rule.coachCooldown, r.wall, GroupKey(rule, r), rule.name);
        WeightOfSum(mid.scheduled, plan);
      }
    }
  }

  /** A run with d detects emits at most 5d effects, less whatever its queue can still give. */
  lemma {:induction false} EffectBudget(events: seq<Event>)
    ensures var (s, effects) := Run(events);
      |effects| + Weight(s.scheduled) <= 5 * Detects(effects)
  {
    if events != [] {
      var init, event := events[..|events| - 1], events[|events| - 1];
      EffectBudget(init);
      var (s, before) := Run(init);
      var (end, more) := Step(s, event);
      DetectsOfSum(before, more);
      match event
      case Activated(_) =>
      case Landed(r) =>
        if !IsEnforcementKind(r.kind) && s.active.Some? {
          RulesWeight(s, s.active.value, r);
        }
      case Polled(now) =>
        SweepWeight(s.active, s.scheduled, now);
    }
  }

  function Depth(stage: Stage): nat {
    match stage
    case Coach => 3
    case Quarantine => 2
    case _ => 1
  }

  predicate WithinDepth(queue: seq<Scheduled>, d: nat) {
    forall e :: e in queue ==> Depth(e.stage) <= d
  }

  predicate AllDue(queue: seq<Scheduled>, now: Instant) {
    forall e :: e in queue ==> e.fireAt <= now
  }

  lemma {:induction false} SweepLowers(active: Option<seq<Rule>>, queue: seq<Scheduled>, now: Instant, d: nat)
    requires AllDue(queue, now) && WithinDepth(queue, d + 1)
    ensures var sweep := SweepQueue(active, queue, now);
      sweep.kept == [] && WithinDepth(sweep.added, d)
  {
    hide Plan, FindRule;
    if queue != [] {
      SweepLowers(active, queue[..|queue| - 1], now, d);
      FollowUpDepth(active, queue[|queue| - 1], now, d);
    }
  }

  lemma FollowUpDepth(active: Option<seq<Rule>>, entry: Scheduled, now: Instant, d: nat)
    requires Depth(entry.stage) <= d + 1
    ensures WithinDepth(FollowUps(active, entry, now), d)
  {
    hide ComputeFireAt, FindRule;
  }

  /** Three polls, each late enough for all that is queued, empty the queue. */
  lemma DrainsInThreePolls(s: State, n1: Instant, n2: Instant, n3: Instant)
    requires AllDue(s.scheduled, n1)
    requires AllDue(Poll(s, n1).0.scheduled, n2)
    requires AllDue(Poll(Poll(s, n1).0, n2).0.scheduled, n3)
    ensures Poll(Poll(Poll(s, n1).0, n2).0, n3).0.scheduled == []
  {
    var s1 := Poll(s, n1).0;
    SweepLowers(s.active, s.scheduled, n1, 2);
    assert s1.scheduled == SweepQueue(s.active, s.scheduled, n1).added;
    var s2 := Poll(s1, n2).0;
    SweepLowers(s1.active, s1.scheduled, n2, 1);
    assert s2.scheduled == SweepQueue(s1.active, s1.scheduled, n2).added;
    SweepLowers(s2.active, s2.scheduled, n3, 0);
    var last := SweepQueue(s2.active, s2.scheduled, n3);
    HasFirst(last.added);
  }

  lemma HasFirst(queue: seq<Scheduled>)
    ensures queue != [] ==> queue[0] in queue
  {
  }
}
