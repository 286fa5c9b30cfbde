/** The long-lived engine object: its fields are updated in place, one call at a time. */
module EnforcementEngine {
  import opened Wrappers
  import opened Text
  import opened Enforcement

  class Engine {
    var active: Option<seq<Rule>>
    var agents: map<string, Agent>
    var counters: map<BucketKey, seq<nat>>
    var scheduled: seq<Scheduled>
    /** Every call so far, and every effect returned. */
    ghost var history: seq<Event>
    ghost var emitted: seq<Effect>

    ghost function View(): State
      reads this
    {
      State(active, agents, counters, scheduled)
    }

    /** The engine is where its own history leads. */
    ghost predicate Valid()
      reads this
    {
      Run(history) == (View(), emitted)
    }

    constructor ()
      ensures Valid() && View() == FRESH && history == [] && emitted == []
    {
      active, agents, counters, scheduled := None, map[], map[], [];
      history, emitted := [], [];
    }

    method Activate(rules: seq<Rule>)
      requires Valid()
      modifies this
      ensures Valid() && history == old(history) + [Activated(rules)] && emitted == old(emitted)
      ensures View() == Step(old(View()), Activated(rules)).0
    {
      active := Some(rules);
      counters := map[];
      Record(Activated(rules), []);
    }

    method OnReceipt(r: Receipt) returns (effects: seq<Effect>)
      requires Valid()
      modifies this
      ensures Valid() && history == old(history) + [Landed(r)] && emitted == old(emitted) + effects
      ensures (View(), effects) == Step(old(View()), Landed(r))
    {
      hide Filled, Reaches, ApplyDelta, SetQuarantine, ComputeFireAt, Enforcement.Absorb, Enforcement.CheckDetect;
      effects := [];
      if IsEnforcementKind(r.kind) {
        Absorb(r);
      } else if active.Some? {
        var rules := active.value;
        ghost var start := View();
        var i := 0;
        while i < |rules|
          invariant 0 <= i <= |rules|
          invariant (View(), effects) == CheckRules(start, rules[..i], r)
          invariant history == old(history) && emitted == old(emitted)
        {
          assert rules[..i + 1][..i] == rules[..i];
          var effect := CheckDetect(rules[i], r);
          effects := effects + Opt(effect);
          i := i + 1;
        }
        assert rules[..|rules|] == rules;
      }
      Record(Landed(r), effects);
    }

    /** Reputation first, then the quarantine flag, when the receipt names a principal. */
    method Absorb(r: Receipt)
      modifies `agents
      ensures agents == Enforcement.Absorb(old(agents), r)
    {
      if r.principal.Some? {
        if r.delta.Some? {
          agents := ApplyDelta(agents, r.principal.value, r.delta.value);
        }
        if r.kind == "enforcement.quarantine" {
          agents := SetQuarantine(agents, r.principal.value, true);
        } else if r.kind == "enforcement.reverse" || r.kind == "enforcement.evict" {
          agents := SetQuarantine(agents, r.principal.value, false);
        }
      }
    }

    /** Match one rule against one receipt: bump its bucket, or fire and re-arm. */
    method CheckDetect(rule: Rule, r: Receipt) returns (effect: Option<Effect>)
      modifies this
      ensures (View(), effect) == Enforcement.CheckDetect(old(View()), rule, r)
      ensures history == old(history) && emitted == old(emitted)
    {
      hide ComputeFireAt, WindowNs, Summary, DetectDelta, GroupKey, AtOrAfter;
      if r.kind != rule.receiptKind {
        return None;
      }
      if rule.denyReason.Some? && r.denyReason != rule.denyReason {
        return None;
      }
      if rule.forbidRuleId.Some? && r.forbidRuleId != rule.forbidRuleId {
        return None;
      }
      var group := GroupKey(rule, r);
      var key := (rule.name, group);
      var window := WindowNs(rule);
      var bucket := if key in counters then counters[key] else [];
      if r.occurredNs >= window {
        bucket := Retain(bucket, r.occurredNs - window);
      }
      bucket := bucket + [r.occurredNs];
      assert bucket == Filled(old(counters), rule, r);
      counters := counters[key := bucket];
      if |bucket| % U32_LIMIT < rule.countThreshold {
        return None;
      }
      var evidence := Evidence(bucket, group, Summary(rule));
      counters := counters[key := []];
      assert counters == old(counters)[key := []];
      if group != "" {
        agents := agents[group := AgentOf(agents, group).(stage := Some(Detect))];
      }
      ghost var plan := Plan(Coach, rule.coachCooldown, r.wall, group, rule.name);
      assert old(scheduled) + [] == old(scheduled);
      if rule.coachCooldown.Some? {
        var fireAt := ComputeFireAt(r.wall, rule.coachCooldown.value);
        if fireAt.Some? {
          scheduled := scheduled + [Scheduled(fireAt.value, group, rule.name, Coach)];
        }
      }
      assert scheduled == old(scheduled) + plan;
      effect := Some(Effect(Detect, group, rule.name, DetectDelta(rule), Some(evidence)));
    }

    method Retain(ts: seq<nat>, cutoff: int) returns (kept: seq<nat>)
      ensures kept == AtOrAfter(ts, cutoff)
    {
      kept := [];
      for i := 0 to |ts|
        invariant kept == AtOrAfter(ts[..i], cutoff)
      {
        assert ts[..i + 1][..i] == ts[..i];
        if ts[i] >= cutoff {
          kept := kept + [ts[i]];
        }
      }
      assert ts[..|ts|] == ts;
    }

    method PollScheduled(now: Instant) returns (effects: seq<Effect>)
      requires Valid()
      modifies this
      ensures Valid() && history == old(history) + [Polled(now)] && emitted == old(emitted) + effects
      ensures (View(), effects) == Step(old(View()), Polled(now))
    {
      effects := [];
      var stillPending, newlyScheduled: seq<Scheduled> := [], [];
      var queue := scheduled;
      scheduled := [];
      for i := 0 to |queue|
        invariant SweepQueue(active, queue[..i], now) == Sweep(stillPending, newlyScheduled, effects)
        invariant active == old(active) && agents == old(agents) && counters == old(counters)
        invariant history == old(history) && emitted == old(emitted)
      {
        assert queue[..i + 1][..i] == queue[..i];
        var entry := queue[i];
        if entry.fireAt <= now {
          var rule := RuleFor(active, entry.rule);
          if rule.Some? {
            newlyScheduled := newlyScheduled + NextStages(rule.value, entry, now);
          }
          effects := effects + [StageEffect(entry)];
        } else {
          stillPending := stillPending + [entry];
        }
      }
      assert queue[..|queue|] == queue;
      scheduled := stillPending + newlyScheduled;
      Record(Polled(now), effects);
    }

    /** True exactly when the run so far left the agent quarantined. */
    method IsAgentQuarantined(id: string) returns (b: bool)
      requires Valid()
      ensures b == AgentOf(Run(history).0.agents, id).quarantined
    {
      b := id in agents && agents[id].quarantined;
    }

    ghost method Record(e: Event, effects: seq<Effect>)
      modifies `history, `emitted
      ensures history == old(history) + [e] && emitted == old(emitted) + effects
    {
      history, emitted := history + [e], emitted + effects;
      assert history[..|history| - 1] == old(history);
    }
  }
}
