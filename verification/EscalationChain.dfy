/**
 Where every enforcement effect comes from. A run's effects are laid out as a log in which each
 coach, quarantine, evict and reverse points at the one earlier effect that scheduled it.
 */
module EscalationChain {
  import opened Wrappers
  import opened Text
  import opened Enforcement
  import Durations

  /**
   One effect of a run: when it happened, in which event, the rule whose blocks decided what it
   scheduled (none when the rule was amended away), and the effect that scheduled it.
   */
  datatype Logged = Logged(effect: Effect, at: Option<Instant>, step: nat, governing: Option<Rule>, cause: Option<nat>)

  /** A queued entry together with the position of the effect that scheduled it. */
  datatype Pending = Pending(entry: Scheduled, cause: nat)

  predicate Follows(parent: Stage, child: Stage) {
    || (parent == Detect && child == Coach)
    || (parent == Coach && child == Quarantine)
    || (parent == Quarantine && (child == Evict || child == Reverse))
  }

  /** The configured delay before a stage. */
  function DelayBefore(stage: Stage, rule: Rule): Option<string> {
    match stage
    case Detect => None
    case Coach => rule.coachCooldown
    case Quarantine => if rule.quarantine.None? then None else Some(rule.quarantine.value.escalateAfter)
    case Evict => rule.evictAfter
    case Reverse => if rule.quarantine.None? then None else rule.quarantine.value.expiresAfter
  }

  /** `parent` scheduled this stage for this agent and rule, due at `deadline` or before. */
  predicate Scheduler(parent: Logged, stage: Stage, target: string, rule: string, deadline: Instant) {
    && Follows(parent.effect.stage, stage)
    && parent.effect.target == target && parent.effect.rule == rule
    && parent.governing.Some? && DelayBefore(stage, parent.governing.value).Some?
    && var due := ComputeFireAt(parent.at, DelayBefore(stage, parent.governing.value).value);
       due.Some? && due.value <= deadline
  }

  /**
   A stage that fires at `base` leads to this entry: its stage comes next, its delay is configured and well formed,
   and the delay, cast to i64, ends at the entry's instant, which has a text.
   */
  predicate Leads(stage: Stage, target: string, name: string, rule: Rule, base: Option<Instant>, x: Scheduled) {
    && Follows(stage, x.stage) && x.target == target && x.rule == name
    && base.Some? && DelayBefore(x.stage, rule).Some?
    && var delay := DelayBefore(x.stage, rule).value;
       Durations.LoaderAccepts(delay) && Durations.Nanos(delay) < U64_LIMIT
       && x.fireAt == base.value + Durations.AsI64(Durations.Nanos(delay)) && Representable(x.fireAt)
  }

  predicate LeadsTo(e: Logged, x: Scheduled) {
    e.governing.Some? && Leads(e.effect.stage, e.effect.target, e.effect.rule, e.governing.value, e.at, x)
  }

  ghost predicate Explained(log: seq<Logged>, i: nat)
    requires i < |log|
  {
    var e := log[i];
    if e.effect.stage == Detect then e.cause.None?
    else
      && e.cause.Some? && e.cause.value < i && log[e.cause.value].step < e.step
      && e.at.Some?
      && Scheduler(log[e.cause.value], e.effect.stage, e.effect.target, e.effect.rule, e.at.value)
  }

  /** Every effect is explained, and no two effects of one stage share a cause. */
  ghost predicate GoodLog(log: seq<Logged>) {
    && (forall i :: 0 <= i < |log| ==> Explained(log, i))
    && (forall i, j :: 0 <= i < j < |log| && log[i].cause.Some? && log[i].cause == log[j].cause ==>
          log[i].effect.stage != log[j].effect.stage)
  }

  /** Every queued entry has a cause of its own, not yet used for its stage. */
  ghost predicate GoodPending(log: seq<Logged>, pend: seq<Pending>) {
    && (forall k :: 0 <= k < |pend| ==> pend[k].cause < |log|)
    && (forall k :: 0 <= k < |pend| ==>
          var p := pend[k];
          Scheduler(log[p.cause], p.entry.stage, p.entry.target, p.entry.rule, p.entry.fireAt))
    && (forall k, l :: 0 <= k < l < |pend| && pend[k].cause == pend[l].cause ==>
          pend[k].entry.stage != pend[l].entry.stage)
    && (forall k, i :: 0 <= k < |pend| && 0 <= i < |log| && log[i].cause == Some(pend[k].cause) ==>
          log[i].effect.stage != pend[k].entry.stage)
  }

  predicate Queued(pend: seq<Pending>, cause: nat, x: Scheduled) {
    Pending(x, cause) in pend
  }

  ghost predicate Fired(log: seq<Logged>, cause: nat, x: Scheduled) {
    exists j :: cause < j < |log| && log[j].cause == Some(cause) && FiredAs(log[j], x)
  }

  predicate FiredAs(e: Logged, x: Scheduled) {
    e.effect.stage == x.stage && e.effect.target == x.target && e.effect.rule == x.rule && e.at.Some? && x.fireAt <= e.at.value
  }

  /** Whatever an effect leads to is in the queue or has come out of it. */
  ghost predicate Covered(log: seq<Logged>, pend: seq<Pending>) {
    forall i, x :: 0 <= i < |log| && LeadsTo(log[i], x) ==> Queued(pend, i, x) || Fired(log, i, x)
  }

  function Effects(log: seq<Logged>): (effects: seq<Effect>)
    ensures |effects| == |log|
    ensures forall i :: 0 <= i < |log| ==> effects[i] == log[i].effect
  {
    seq(|log|, i requires 0 <= i < |log| => log[i].effect)
  }

  function Entries(pend: seq<Pending>): (entries: seq<Scheduled>)
    ensures |entries| == |pend|
    ensures forall k :: 0 <= k < |pend| ==> entries[k] == pend[k].entry
  {
    seq(|pend|, k requires 0 <= k < |pend| => pend[k].entry)
  }

  function Tag(entries: seq<Scheduled>, cause: nat): (pend: seq<Pending>)
    ensures |pend| == |entries|
    ensures forall k :: 0 <= k < |pend| ==> pend[k] == Pending(entries[k], cause)
  {
    seq(|entries|, k requires 0 <= k < |entries| => Pending(entries[k], cause))
  }

  // --------------------------------------------------------- one new effect

  /** New entries, of distinct stages, all scheduled by one effect. */
  ghost predicate ScheduledBy(added: seq<Scheduled>, parent: Logged) {
    && (forall k :: 0 <= k < |added| ==>
          Scheduler(parent, added[k].stage, added[k].target, added[k].rule, added[k].fireAt))
    && (forall k, l :: 0 <= k < l < |added| ==> added[k].stage != added[l].stage)
  }

  lemma CausesPointBack(log: seq<Logged>, i: nat)
    requires GoodLog(log) && i < |log|
    ensures log[i].cause.Some? ==> log[i].cause.value < i
  {
    assert Explained(log, i);
  }

  lemma Prefix(log: seq<Logged>, e: Logged)
    requires GoodLog(log)
    ensures forall i :: 0 <= i < |log| ==> Explained(log + [e], i)
  {
    forall i | 0 <= i < |log|
      ensures Explained(log + [e], i)
    {
      assert Explained(log, i);
    }
  }

  /** The newest effect queues entries of its own. */
  lemma Enqueue(log: seq<Logged>, pend: seq<Pending>, e: Logged, added: seq<Scheduled>)
    requires GoodLog(log + [e]) && GoodPending(log + [e], pend) && ScheduledBy(added, e)
    requires forall k :: 0 <= k < |pend| ==> pend[k].cause < |log|
    ensures GoodPending(log + [e], pend + Tag(added, |log|))
  {
    var log', all := log + [e], pend + Tag(added, |log|);
    forall k, i | 0 <= k < |all| && 0 <= i < |log'| && log'[i].cause == Some(all[k].cause)
      ensures log'[i].effect.stage != all[k].entry.stage
    {
      CausesPointBack(log', i);
    }
  }

  /** An effect nobody scheduled, and the entries it queues. */
  lemma AppendRoot(log: seq<Logged>, pend: seq<Pending>, e: Logged, added: seq<Scheduled>)
    requires GoodLog(log) && GoodPending(log, pend)
    requires e.effect.stage == Detect && e.cause.None? && ScheduledBy(added, e)
    ensures GoodLog(log + [e]) && GoodPending(log + [e], pend + Tag(added, |log|))
  {
    Prefix(log, e);
    assert Explained(log + [e], |log|);
    Enqueue(log, pend, e, added);
  }

  function Without<T>(s: seq<T>, k: nat): (r: seq<T>)
    requires k < |s|
    ensures |r| == |s| - 1
    ensures forall i :: 0 <= i < |r| ==> r[i] == s[if i < k then i else i + 1]
  {
    s[..k] + s[k + 1..]
  }

  /** A queued entry becomes an effect, and the entries that effect queues. */
  lemma AppendFired(log: seq<Logged>, pend: seq<Pending>, k: nat, e: Logged, added: seq<Scheduled>)
    requires GoodLog(log) && GoodPending(log, pend) && k < |pend|
    requires e.effect == StageEffect(pend[k].entry) && e.cause == Some(pend[k].cause)
    requires e.at.Some? && pend[k].entry.fireAt <= e.at.value && log[pend[k].cause].step < e.step
    requires ScheduledBy(added, e)
    ensures GoodLog(log + [e]) && GoodPending(log + [e], Without(pend, k) + Tag(added, |log|))
  {
    var p := pend[k];
    assert Scheduler(log[p.cause], p.entry.stage, p.entry.target, p.entry.rule, p.entry.fireAt);
    Prefix(log, e);
    assert Explained(log + [e], |log|);
    assert GoodLog(log + [e]);
    Enqueue(log, Without(pend, k), e, added);
  }

  /** The new entries are all that the effect leads to. */
  ghost predicate AllLedTo(added: seq<Scheduled>, parent: Logged) {
    forall x :: LeadsTo(parent, x) <==> x in added
  }

  lemma FiredStill(log: seq<Logged>, e: Logged, cause: nat, x: Scheduled)
    requires Fired(log, cause, x)
    ensures Fired(log + [e], cause, x)
  {
    var j :| cause < j < |log| && log[j].cause == Some(cause) && FiredAs(log[j], x);
    assert (log + [e])[j] == log[j];
  }

  lemma CoverRoot(log: seq<Logged>, pend: seq<Pending>, e: Logged, added: seq<Scheduled>)
    requires Covered(log, pend) && AllLedTo(added, e)
    ensures Covered(log + [e], pend + Tag(added, |log|))
  {
    hide LeadsTo, FiredAs, Fired;
    var log', all := log + [e], pend + Tag(added, |log|);
    forall i, x | 0 <= i < |log'| && LeadsTo(log'[i], x)
      ensures Queued(all, i, x) || Fired(log', i, x)
    {
      if i == |log| {
        var k :| 0 <= k < |added| && added[k] == x;
        assert Tag(added, |log|)[k] == Pending(x, i);
      } else if Fired(log, i, x) {
        FiredStill(log, e, i, x);
      }
    }
  }

  lemma CoverFired(log: seq<Logged>, pend: seq<Pending>, k: nat, e: Logged, added: seq<Scheduled>)
    requires Covered(log, pend) && k < |pend| && AllLedTo(added, e)
    requires pend[k].cause < |log| && e.cause == Some(pend[k].cause) && FiredAs(e, pend[k].entry)
    ensures Covered(log + [e], Without(pend, k) + Tag(added, |log|))
  {
    hide LeadsTo, FiredAs, Fired;
    var log', rest := log + [e], Without(pend, k);
    forall i, x | 0 <= i < |log| && LeadsTo(log[i], x)
      ensures Queued(rest, i, x) || Fired(log', i, x)
    {
      if Fired(log, i, x) {
        FiredStill(log, e, i, x);
      } else {
        var l :| 0 <= l < |pend| && pend[l] == Pending(x, i);
        if l == k {
          FiredNow(log, e, i, x);
        } else {
          assert rest[if l < k then l else l - 1] == pend[l];
        }
      }
    }
    forall x | LeadsTo(e, x)
      ensures Queued(Tag(added, |log|), |log|, x)
    {
      var m :| 0 <= m < |added| && added[m] == x;
      assert Tag(added, |log|)[m] == Pending(x, |log|);
    }
  }

  lemma FiredNow(log: seq<Logged>, e: Logged, cause: nat, x: Scheduled)
    requires cause < |log| && e.cause == Some(cause) && FiredAs(e, x)
    ensures Fired(log + [e], cause, x)
  {
    assert (log + [e])[|log|] == e;
  }

  // ------------------------------------------------------------ one receipt

  /** What is planned is what the delay and the instant allow. */
  lemma PlanExactly(stage: Stage, after: Option<string>, base: Option<Instant>, target: string, rule: string, x: Scheduled)
    ensures x in Plan(stage, after, base, target, rule) <==>
      && x.stage == stage && x.target == target && x.rule == rule && after.Some? && base.Some?
      && Durations.LoaderAccepts(after.value) && Durations.Nanos(after.value) < U64_LIMIT
      && x.fireAt == base.value + Durations.AsI64(Durations.Nanos(after.value)) && Representable(x.fireAt)
    ensures |Plan(stage, after, base, target, rule)| <= 1
  {
    hide Durations.ParseWindow, Durations.LoaderAccepts, Durations.Nanos;
    if after.Some? {
      Durations.ReadExactlyWhenItFits(after.value);
    }
  }

  predicate FirstNamed(rules: seq<Rule>, i: nat, rule: Rule) {
    i < |rules| && rules[i] == rule && forall j :: 0 <= j < i ==> rules[j].name != rule.name
  }

  /** The rule of this name that counts: the first one in force. */
  predicate Governs(active: Option<seq<Rule>>, name: string, rule: Rule) {
    active.Some? && rule.name == name && exists i :: 0 <= i < |active.value| && FirstNamed(active.value, i, rule)
  }

  lemma {:induction false} FoundIsFirst(rules: seq<Rule>, name: string, rule: Rule)
    ensures FindRule(rules, name) == Some(rule) <==> Governs(Some(rules), name, rule)
  {
    if rules != [] {
      var rest := rules[1..];
      FoundIsFirst(rest, name, rule);
      if rules[0].name == name {
        assert FirstNamed(rules, 0, rules[0]);
        assert forall i: nat :: i > 0 && FirstNamed(rules, i, rule) ==> rules[0].name != rule.name;
      } else {
        if Governs(Some(rest), name, rule) {
          var i :| 0 <= i < |rest| && FirstNamed(rest, i, rule);
          assert FirstNamed(rules, i + 1, rule);
        }
        if Governs(Some(rules), name, rule) {
          var i :| 0 <= i < |rules| && FirstNamed(rules, i, rule);
          assert forall j :: 0 <= j < |rest| ==> rest[j] == rules[j + 1];
          assert FirstNamed(rest, i - 1, rule);
        }
      }
    }
  }

  /** A due entry leads to this one under the rules in force. */
  ghost predicate Successor(active: Option<seq<Rule>>, fired: Scheduled, now: Instant, x: Scheduled) {
    fired.stage != Detect
    && exists rule :: Governs(active, fired.rule, rule) && Leads(fired.stage, fired.target, fired.rule, rule, Some(now), x)
  }

  /** A fired stage schedules each stage that comes next, once, and nothing else. */
  lemma FollowUpsExactly(active: Option<seq<Rule>>, fired: Scheduled, now: Instant, x: Scheduled)
    ensures multiset(FollowUps(active, fired, now))[x] == if Successor(active, fired, now, x) then 1 else 0
  {
    var found := RuleFor(active, fired.rule);
    if fired.stage == Detect {
      DetectIsNeverQueued(active, fired, now);
    } else if found.Some? {
      var rule := found.value;
      NextExactly(rule, fired, now, x);
      GovernsOne(active, fired.rule, rule);
      hide NextStages, Leads, FindRule;
    } else {
      hide Leads, FindRule;
      forall rule
        ensures !Governs(active, fired.rule, rule)
      {
        GovernsOne(active, fired.rule, rule);
      }
    }
  }

  lemma DetectIsNeverQueued(active: Option<seq<Rule>>, fired: Scheduled, now: Instant)
    requires fired.stage == Detect
    ensures FollowUps(active, fired, now) == []
  {
  }

  lemma GovernsOne(active: Option<seq<Rule>>, name: string, rule: Rule)
    ensures RuleFor(active, name) == Some(rule) <==> Governs(active, name, rule)
    ensures forall other :: Governs(active, name, other) ==> RuleFor(active, name) == Some(other)
  {
    hide FindRule, Governs;
    forall other
      ensures RuleFor(active, name) == Some(other) <==> Governs(active, name, other)
    {
      if active.Some? {
        FoundIsFirst(active.value, name, other);
      } else {
        NoneGoverns(name, other);
      }
    }
  }

  lemma NoneGoverns(name: string, rule: Rule)
    ensures !Governs(None, name, rule)
  {
  }

  lemma NextExactly(rule: Rule, fired: Scheduled, now: Instant, x: Scheduled)
    requires fired.stage != Detect
    ensures multiset(NextStages(rule, fired, now))[x]
      == if Leads(fired.stage, fired.target, fired.rule, rule, Some(now), x) then 1 else 0
  {
    hide Plan, Durations.LoaderAccepts, Durations.Nanos, Durations.AsI64;
    match fired.stage
    case Coach => PlanCounts(Quarantine, rule, fired, now, x);
    case Quarantine =>
      PlanCounts(Evict, rule, fired, now, x);
      PlanCounts(Reverse, rule, fired, now, x);
      CountSum(Plan(Evict, DelayBefore(Evict, rule), Some(now), fired.target, fired.rule),
               Plan(Reverse, DelayBefore(Reverse, rule), Some(now), fired.target, fired.rule), x);
    case _ =>
  }

  lemma PlanCounts(stage: Stage, rule: Rule, fired: Scheduled, now: Instant, x: Scheduled)
    requires Follows(fired.stage, stage)
    ensures multiset(Plan(stage, DelayBefore(stage, rule), Some(now), fired.target, fired.rule))[x]
      == if x.stage == stage && Leads(fired.stage, fired.target, fired.rule, rule, Some(now), x) then 1 else 0
  {
    hide Plan, Durations.LoaderAccepts, Durations.Nanos, Durations.AsI64;
    PlanExactly(stage, DelayBefore(stage, rule), Some(now), fired.target, fired.rule, x);
    CountOne(Plan(stage, DelayBefore(stage, rule), Some(now), fired.target, fired.rule), x);
  }

  lemma CountSum(a: seq<Scheduled>, b: seq<Scheduled>, x: Scheduled)
    ensures multiset(a + b)[x] == multiset(a)[x] + multiset(b)[x]
  {
  }

  lemma CountOne(s: seq<Scheduled>, x: Scheduled)
    requires |s| <= 1
    ensures multiset(s)[x] == if x in s then 1 else 0
  {
    if |s| == 1 {
      assert s == [s[0]];
    }
  }

  lemma FollowUpsScheduled(active: Option<seq<Rule>>, entry: Scheduled, now: Instant, e: Logged)
    requires entry.stage != Detect
    requires e.effect == StageEffect(entry) && e.at == Some(now) && e.governing == RuleFor(active, entry.rule)
    ensures ScheduledBy(FollowUps(active, entry, now), e) && AllLedTo(FollowUps(active, entry, now), e)
  {
    FollowUpsAreAll(active, entry, now, e);
    hide FindRule, AllLedTo, NextPlan, NextStages, Scheduler;
    if e.governing.Some? {
      var rule := e.governing.value;
      NextArePlans(rule, entry, now);
      match entry.stage
      case Coach =>
        PlanScheduled(Quarantine, rule, entry, now, e);
      case Quarantine =>
        PlanScheduled(Evict, rule, entry, now, e);
        PlanScheduled(Reverse, rule, entry, now, e);
        BothScheduled(NextPlan(Evict, rule, entry, now), NextPlan(Reverse, rule, entry, now), e);
      case _ =>
    }
  }

  lemma NextArePlans(rule: Rule, entry: Scheduled, now: Instant)
    ensures NextStages(rule, entry, now) ==
      match entry.stage
      case Coach => NextPlan(Quarantine, rule, entry, now)
      case Quarantine => NextPlan(Evict, rule, entry, now) + NextPlan(Reverse, rule, entry, now)
      case _ => []
  {
    hide Plan;
  }

  lemma BothScheduled(a: seq<Scheduled>, b: seq<Scheduled>, e: Logged)
    requires ScheduledBy(a, e) && ScheduledBy(b, e)
    requires forall x, y :: x in a && y in b ==> x.stage != y.stage
    ensures ScheduledBy(a + b, e)
  {
    hide Scheduler;
  }

  lemma PlanScheduled(stage: Stage, rule: Rule, entry: Scheduled, now: Instant, e: Logged)
    requires Follows(entry.stage, stage) && e.governing == Some(rule)
    requires e.effect == StageEffect(entry) && e.at == Some(now)
    ensures ScheduledBy(NextPlan(stage, rule, entry, now), e)
    ensures forall x :: x in NextPlan(stage, rule, entry, now) ==> x.stage == stage
  {
    hide ComputeFireAt;
  }

  /** The plan for a stage that comes next. */
  function NextPlan(stage: Stage, rule: Rule, fired: Scheduled, now: Instant): seq<Scheduled> {
    Plan(stage, DelayBefore(stage, rule), Some(now), fired.target, fired.rule)
  }

  lemma FollowUpsAreAll(active: Option<seq<Rule>>, entry: Scheduled, now: Instant, e: Logged)
    requires entry.stage != Detect
    requires e.effect == StageEffect(entry) && e.at == Some(now) && e.governing == RuleFor(active, entry.rule)
    ensures AllLedTo(FollowUps(active, entry, now), e)
  {
    hide Leads, NextStages, FindRule;
    forall x
      ensures LeadsTo(e, x) <==> x in FollowUps(active, entry, now)
    {
      if e.governing.Some? {
        NextExactly(e.governing.value, entry, now, x);
        assert x in FollowUps(active, entry, now) <==> x in multiset(FollowUps(active, entry, now));
      }
    }
  }

  lemma CoachIsAll(rule: Rule, r: Receipt, e: Logged)
    requires e.effect.stage == Detect && e.effect.rule == rule.name && e.at == r.wall && e.governing == Some(rule)
    ensures AllLedTo(Plan(Coach, rule.coachCooldown, r.wall, e.effect.target, rule.name), e)
  {
    hide Durations.LoaderAccepts, Durations.Nanos, Durations.AsI64, Plan;
    forall x
      ensures LeadsTo(e, x) <==> x in Plan(Coach, rule.coachCooldown, r.wall, e.effect.target, rule.name)
    {
      PlanExactly(Coach, rule.coachCooldown, r.wall, e.effect.target, rule.name, x);
    }
  }

  predicate DetectedAt(rules: seq<Rule>, r: Receipt, step: nat, e: Logged) {
    && e.step == step && e.at == r.wall && e.effect.stage == Detect
    && e.governing.Some? && e.governing.value in rules && e.governing.value.name == e.effect.rule
  }

  lemma DetectOutcome(s: State, rule: Rule, r: Receipt)
    ensures var (end, effect) := CheckDetect(s, rule, r);
      if effect.None? then end.scheduled == s.scheduled
      else
        && effect.value.stage == Detect && effect.value.rule == rule.name
        && end.scheduled == s.scheduled + Plan(Coach, rule.coachCooldown, r.wall, effect.value.target, rule.name)
  {
  }

  /** The checked rules extend the log by their detects and the queue by the coaches those schedule. */
  lemma {:induction false} TraceRules(s: State, rules: seq<Rule>, r: Receipt, step: nat, start: seq<Logged>, pend: seq<Pending>)
    returns (log': seq<Logged>, pend': seq<Pending>)
    requires GoodLog(start) && GoodPending(start, pend) && Covered(start, pend) && Entries(pend) == s.scheduled
    ensures GoodLog(log') && GoodPending(log', pend') && Covered(log', pend')
    ensures Entries(pend') == CheckRules(s, rules, r).0.scheduled
    ensures start <= log' && Effects(log') == Effects(start) + CheckRules(s, rules, r).1
    ensures forall i :: |start| <= i < |log'| ==> DetectedAt(rules, r, step, log'[i])
  {
    hide GoodLog, GoodPending, Covered, AllLedTo, ComputeFireAt, CheckDetect;
    log', pend' := start, pend;
    if rules != [] {
      var init, rule := rules[..|rules| - 1], rules[|rules| - 1];
      log', pend' := TraceRules(s, init, r, step, start, pend);
      var mid := CheckRules(s, init, r).0;
      var effect := CheckDetect(mid, rule, r).1;
      DetectOutcome(mid, rule, r);
      if effect.Some? {
        var e := Logged(effect.value, r.wall, step, Some(rule), None);
        var added := Plan(Coach, rule.coachCooldown, r.wall, effect.value.target, rule.name);
        AppendRoot(log', pend', e, added);
        CoachIsAll(rule, r, e);
        CoverRoot(log', pend', e, added);
        assert Effects(log' + [e]) == Effects(log') + [effect.value];
        assert Entries(pend' + Tag(added, |log'|)) == Entries(pend') + added;
        log', pend' := log' + [e], pend' + Tag(added, |log'|);
      }
    }
  }

  // --------------------------------------------------------------- one poll

  /**
   The first `i` queue entries are swept: survivors first, then the unswept, then what was added;
   nothing added in this sweep has fired in it.
   */
  ghost predicate Swept(active: Option<seq<Rule>>, queue: seq<Scheduled>, i: nat, now: Instant, step: nat,
                        start: seq<Logged>, log: seq<Logged>, pend: seq<Pending>)
    requires i <= |queue|
  {
    var sweep := SweepQueue(active, queue[..i], now);
    && Entries(pend) == sweep.kept + queue[i..] + sweep.added
    && (forall k :: 0 <= k < |sweep.kept| + |queue| - i ==> pend[k].cause < |start|)
    && start <= log && Effects(log) == Effects(start) + sweep.effects
    && (forall j :: |start| <= j < |log| ==> FiredAt(active, now, step, log[j]))
  }

  predicate FiredAt(active: Option<seq<Rule>>, now: Instant, step: nat, e: Logged) {
    && e.step == step && e.at == Some(now) && e.governing == RuleFor(active, e.effect.rule)
    && e.effect.stage != Detect
  }

  lemma {:induction false} TraceSweep(active: Option<seq<Rule>>, queue: seq<Scheduled>, i: nat, now: Instant, step: nat,
                                      start: seq<Logged>, pend: seq<Pending>)
    returns (log': seq<Logged>, pend': seq<Pending>)
    requires GoodLog(start) && GoodPending(start, pend) && Covered(start, pend) && Entries(pend) == queue && i <= |queue|
    requires forall j :: 0 <= j < |start| ==> start[j].step < step
    ensures GoodLog(log') && GoodPending(log', pend') && Covered(log', pend')
    ensures Swept(active, queue, i, now, step, start, log', pend')
  {
    hide GoodLog, Swept, SweepQueue, Covered;
    if i == 0 {
      log', pend' := start, pend;
      SweptNone(active, queue, now, step, start, pend);
    } else {
      log', pend' := TraceSweep(active, queue, i - 1, now, step, start, pend);
      log', pend' := SweepNext(active, queue, i, now, step, start, log', pend');
    }
  }

  lemma SweptNone(active: Option<seq<Rule>>, queue: seq<Scheduled>, now: Instant, step: nat,
                  start: seq<Logged>, pend: seq<Pending>)
    requires Entries(pend) == queue && forall k :: 0 <= k < |pend| ==> pend[k].cause < |start|
    ensures Swept(active, queue, 0, now, step, start, start, pend)
  {
    assert queue[..0] == [] && queue[0..] == queue;
    assert Entries(pend) == [] + queue[0..] + [];
  }

  lemma SweepNext(active: Option<seq<Rule>>, queue: seq<Scheduled>, i: nat, now: Instant, step: nat,
                  start: seq<Logged>, log: seq<Logged>, pend: seq<Pending>)
    returns (log': seq<Logged>, pend': seq<Pending>)
    requires GoodLog(log) && GoodPending(log, pend) && Covered(log, pend) && 0 < i <= |queue|
    requires Swept(active, queue, i - 1, now, step, start, log, pend)
    requires forall j :: 0 <= j < |start| ==> start[j].step < step
    ensures GoodLog(log') && GoodPending(log', pend') && Covered(log', pend')
    ensures Swept(active, queue, i, now, step, start, log', pend')
  {
    hide GoodLog, GoodPending, Covered, FollowUps, SweepQueue;
    SweepStep(active, queue, i, now);
    var sweep, entry := SweepQueue(active, queue[..i - 1], now), queue[i - 1];
    var k := |sweep.kept|;
    assert queue[i - 1..] == [entry] + queue[i..];
    assert Entries(pend)[k] == entry;
    if entry.fireAt <= now {
      log', pend' := TraceOne(active, k, now, step, log, pend);
      var added := FollowUps(active, entry, now);
      assert Without(Entries(pend), k) == sweep.kept + queue[i..] + sweep.added;
      assert (sweep.kept + queue[i..] + sweep.added) + added == sweep.kept + queue[i..] + (sweep.added + added);
      assert Effects(log') == Effects(log) + [StageEffect(entry)];
      assert Effects(log') == Effects(start) + (sweep.effects + [StageEffect(entry)]);
    } else {
      log', pend' := log, pend;
      assert sweep.kept + [entry] + queue[i..] == sweep.kept + queue[i - 1..];
    }
  }

  lemma SweepStep(active: Option<seq<Rule>>, queue: seq<Scheduled>, i: nat, now: Instant)
    requires 0 < i <= |queue|
    ensures var sweep, entry := SweepQueue(active, queue[..i - 1], now), queue[i - 1];
      SweepQueue(active, queue[..i], now)
      == if entry.fireAt <= now
         then Sweep(sweep.kept, sweep.added + FollowUps(active, entry, now), sweep.effects + [StageEffect(entry)])
         else Sweep(sweep.kept + [entry], sweep.added, sweep.effects)
  {
    assert queue[..i][..i - 1] == queue[..i - 1];
  }

  /** One due entry fires. */
  lemma TraceOne(active: Option<seq<Rule>>, k: nat, now: Instant, step: nat, log: seq<Logged>, pend: seq<Pending>)
    returns (log': seq<Logged>, pend': seq<Pending>)
    requires GoodLog(log) && GoodPending(log, pend) && Covered(log, pend) && k < |pend|
    requires pend[k].entry.fireAt <= now && log[pend[k].cause].step < step
    ensures GoodLog(log') && GoodPending(log', pend') && Covered(log', pend')
    ensures var entry := pend[k].entry;
      && |log'| == |log| + 1 && log <= log' && log'[|log|].effect == StageEffect(entry)
      && Entries(pend') == Without(Entries(pend), k) + FollowUps(active, entry, now)
      && (forall j :: 0 <= j < |pend| - 1 ==> pend'[j] == Without(pend, k)[j])
    ensures FiredAt(active, now, step, log'[|log|])
  {
    var p := pend[k];
    assert Scheduler(log[p.cause], p.entry.stage, p.entry.target, p.entry.rule, p.entry.fireAt);
    var e := Logged(StageEffect(p.entry), Some(now), step, RuleFor(active, p.entry.rule), Some(p.cause));
    var added := FollowUps(active, p.entry, now);
    FollowUpsScheduled(active, p.entry, now, e);
    AppendFired(log, pend, k, e, added);
    CoverFired(log, pend, k, e, added);
    hide Covered, AllLedTo, ScheduledBy;
    log', pend' := log + [e], Without(pend, k) + Tag(added, |log|);
    assert Entries(pend') == Without(Entries(pend), k) + added;
  }

  // --------------------------------------------------------------- whole runs

  /** A logged effect came out of the event at its step, under the rules in force just before it. */
  ghost predicate Placed(events: seq<Event>, e: Logged) {
    && e.step < |events|
    && var active := Run(events[..e.step]).0.active;
       match events[e.step]
       case Activated(_) => false
       case Landed(r) => active.Some? && DetectedAt(active.value, r, e.step, e)
       case Polled(now) => FiredAt(active, now, e.step, e)
  }

  ghost predicate LogOf(events: seq<Event>, log: seq<Logged>) {
    && GoodLog(log) && Effects(log) == Run(events).1
    && forall i :: 0 <= i < |log| ==> Placed(events, log[i])
  }

  lemma StillPlaced(events: seq<Event>, event: Event, e: Logged)
    requires Placed(events, e)
    ensures Placed(events + [event], e)
  {
    assert (events + [event])[..e.step] == events[..e.step];
  }

  lemma {:induction false} TraceRun(events: seq<Event>) returns (log: seq<Logged>, pend: seq<Pending>)
    ensures LogOf(events, log) && GoodPending(log, pend) && Covered(log, pend) && Entries(pend) == Run(events).0.scheduled
  {
    if events == [] {
      log, pend := [], [];
      assert Entries(pend) == [];
    } else {
      var init, event := events[..|events| - 1], events[|events| - 1];
      log, pend := TraceRun(init);
      log, pend := TraceStep(init, event, log, pend);
      assert init + [event] == events;
    }
  }

  lemma TraceStep(events: seq<Event>, event: Event, log: seq<Logged>, pend: seq<Pending>)
    returns (log': seq<Logged>, pend': seq<Pending>)
    requires LogOf(events, log) && GoodPending(log, pend) && Covered(log, pend) && Entries(pend) == Run(events).0.scheduled
    ensures LogOf(events + [event], log') && GoodPending(log', pend') && Covered(log', pend')
    ensures Entries(pend') == Run(events + [event]).0.scheduled
  {
    hide GoodLog, GoodPending, Covered;
    var all, step := events + [event], |events|;
    assert all[..|all| - 1] == events;
    var s := Run(events).0;
    forall i | 0 <= i < |log|
      ensures Placed(all, log[i])
    {
      StillPlaced(events, event, log[i]);
    }
    log', pend' := log, pend;
    match event
    case Activated(_) =>
    case Landed(r) =>
      if !IsEnforcementKind(r.kind) && s.active.Some? {
        log', pend' := TraceRules(s, s.active.value, r, step, log, pend);
      }
    case Polled(now) =>
      log', pend' := TraceSweep(s.active, s.scheduled, |s.scheduled|, now, step, log, pend);
      assert s.scheduled[..|s.scheduled|] == s.scheduled;
  }

  /**
   In every run, amendments included: each coach, quarantine, evict and reverse points at an effect
   of the stage before it, for the same agent and rule, from a strictly earlier event; the delay
   configured at that moment has passed; and no other effect of the same stage points there.
   */
  lemma EveryEffectHasItsOwnCause(events: seq<Event>)
    ensures exists log :: LogOf(events, log)
  {
    var log, pend := TraceRun(events);
  }

  /**
   And conversely: in every run whatever an effect leads to, under the rule that governed it, has come out as a later
   effect caused by it, no sooner than it was due, or is still in the queue.
   */
  lemma NoStageIsLost(events: seq<Event>)
    ensures exists log, pend ::
      LogOf(events, log) && GoodPending(log, pend) && Covered(log, pend) && Entries(pend) == Run(events).0.scheduled
  {
    var log, pend := TraceRun(events);
  }

  // ---------------------------------------------------------- one step, exactly

  /** How many due entries lead to this one. */
  ghost function Parents(active: Option<seq<Rule>>, queue: seq<Scheduled>, now: Instant, x: Scheduled): nat {
    if queue == [] then 0
    else
      var entry := queue[|queue| - 1];
      Parents(active, queue[..|queue| - 1], now, x)
      + if entry.fireAt <= now && Successor(active, entry, now, x) then 1 else 0
  }

  lemma {:induction false} SweepCounts(active: Option<seq<Rule>>, queue: seq<Scheduled>, now: Instant, x: Scheduled)
    ensures var sweep := SweepQueue(active, queue, now);
      && multiset(sweep.kept)[x] == (if x.fireAt > now then multiset(queue)[x] else 0)
      && multiset(sweep.added)[x] == Parents(active, queue, now, x)
  {
    hide FollowUps, Successor;
    if queue != [] {
      var init, entry := queue[..|queue| - 1], queue[|queue| - 1];
      SweepCounts(active, init, now, x);
      var before := SweepQueue(active, init, now);
      assert queue == init + [entry];
      CountSum(init, [entry], x);
      if entry.fireAt <= now {
        FollowUpsExactly(active, entry, now, x);
        CountSum(before.added, FollowUps(active, entry, now), x);
      } else {
        CountSum(before.kept, [entry], x);
      }
    }
  }

  /**
   After a poll the queue holds, entry by entry, what was there and is not yet due, and one entry for each due one that
   leads to it.
   */
  lemma PollQueuesExactly(s: State, now: Instant, x: Scheduled)
    ensures multiset(Step(s, Polled(now)).0.scheduled)[x]
      == (if x.fireAt > now then multiset(s.scheduled)[x] else 0) + Parents(s.active, s.scheduled, now, x)
  {
    SweepCounts(s.active, s.scheduled, now, x);
    var sweep := SweepQueue(s.active, s.scheduled, now);
    CountSum(sweep.kept, sweep.added, x);
    hide SweepQueue, Parents;
  }

  /** How many of these detects lead to this entry; each detect carries the name of its rule. */
  ghost function DetectParents(rules: seq<Rule>, effects: seq<Effect>, wall: Option<Instant>, x: Scheduled): nat {
    if effects == [] then 0
    else
      var e := effects[|effects| - 1];
      DetectParents(rules, effects[..|effects| - 1], wall, x)
      + if exists rule :: Governs(Some(rules), e.rule, rule) && Leads(Detect, e.target, e.rule, rule, wall, x) then 1 else 0
  }

  lemma {:induction false} RulesCount(s: State, all: seq<Rule>, n: nat, r: Receipt, x: Scheduled)
    requires UniqueNames(all) && n <= |all|
    ensures var (end, effects) := CheckRules(s, all[..n], r);
      multiset(end.scheduled)[x] == multiset(s.scheduled)[x] + DetectParents(all, effects, r.wall, x)
  {
    hide CheckDetect, Leads, Governs;
    if n > 0 {
      RulesCount(s, all, n - 1, r, x);
      assert all[..n][..n - 1] == all[..n - 1];
      var rule := all[n - 1];
      var (mid, effects) := CheckRules(s, all[..n - 1], r);
      var (end, effect) := CheckDetect(mid, rule, r);
      DetectOutcome(mid, rule, r);
      if effect.Some? {
        var e := effect.value;
        var added := Plan(Coach, rule.coachCooldown, r.wall, e.target, rule.name);
        CountSum(mid.scheduled, added, x);
        CoachCounts(rule, r.wall, e.target, x);
        OwnName(all, n - 1);
        GovernsOne(Some(all), rule.name, rule);
        OneDetect(all, effects, e, rule, r.wall, x);
        assert CheckRules(s, all[..n], r) == (end, effects + [e]);
      } else {
        assert effects + [] == effects;
      }
    }
  }

  lemma OneDetect(rules: seq<Rule>, effects: seq<Effect>, e: Effect, rule: Rule, wall: Option<Instant>, x: Scheduled)
    requires Governs(Some(rules), e.rule, rule) && forall other :: Governs(Some(rules), e.rule, other) ==> other == rule
    ensures DetectParents(rules, effects + [e], wall, x)
      == DetectParents(rules, effects, wall, x) + if Leads(Detect, e.target, e.rule, rule, wall, x) then 1 else 0
  {
    hide Leads, Governs;
    var more := effects + [e];
    assert more[..|more| - 1] == effects && more[|more| - 1] == e;
    assert (exists other :: Governs(Some(rules), e.rule, other) && Leads(Detect, e.target, e.rule, other, wall, x))
      <==> Leads(Detect, e.target, e.rule, rule, wall, x);
  }

  lemma OwnName(rules: seq<Rule>, i: nat)
    requires UniqueNames(rules) && i < |rules|
    ensures Governs(Some(rules), rules[i].name, rules[i])
  {
    assert FirstNamed(rules, i, rules[i]);
  }

  lemma CoachCounts(rule: Rule, wall: Option<Instant>, target: string, x: Scheduled)
    ensures multiset(Plan(Coach, rule.coachCooldown, wall, target, rule.name))[x]
      == if Leads(Detect, target, rule.name, rule, wall, x) then 1 else 0
  {
    hide Durations.LoaderAccepts, Durations.Nanos, Durations.AsI64;
    PlanExactly(Coach, rule.coachCooldown, wall, target, rule.name, x);
    CountOne(Plan(Coach, rule.coachCooldown, wall, target, rule.name), x);
    hide Plan;
  }

  /** A receipt adds to the queue exactly the coaches that its detects lead to, and takes nothing away. */
  lemma ReceiptQueuesExactly(s: State, r: Receipt, x: Scheduled)
    requires s.active.Some? ==> UniqueNames(s.active.value)
    ensures var (end, effects) := Step(s, Landed(r));
      multiset(end.scheduled)[x] == multiset(s.scheduled)[x]
        + if s.active.Some? then DetectParents(s.active.value, effects, r.wall, x) else 0
  {
    if s.active.Some? && !IsEnforcementKind(r.kind) {
      RulesCount(s, s.active.value, |s.active.value|, r, x);
      assert s.active.value[..|s.active.value|] == s.active.value;
    } else {
      assert OnReceipt(s, r).1 == [] && OnReceipt(s, r).0.scheduled == s.scheduled;
    }
  }

  // ------------------------------------------------------------------ counts

  predicate Of(e: Effect, stage: Stage, target: string, rule: string) {
    e.stage == stage && e.target == target && e.rule == rule
  }

  function Positions(effects: seq<Effect>, stage: Stage, target: string, rule: string): set<nat> {
    set i: nat | i < |effects| && Of(effects[i], stage, target, rule)
  }

  lemma InjectionCard<T>(from: set<T>, into: set<T>, f: map<T, T>)
    requires from <= f.Keys && (forall x :: x in from ==> f[x] in into)
    requires forall x, y :: x in from && y in from && x != y ==> f[x] != f[y]
    ensures |from| <= |into|
  {
    if from != {} {
      var x :| x in from;
      InjectionCard(from - {x}, into - {f[x]}, f);
    }
  }

  lemma StagesOrderedIn(log: seq<Logged>, parent: Stage, child: Stage, target: string, rule: string)
    requires GoodLog(log) && Follows(parent, child)
    ensures |Positions(Effects(log), child, target, rule)| <= |Positions(Effects(log), parent, target, rule)|
  {
    var children, parents := Positions(Effects(log), child, target, rule), Positions(Effects(log), parent, target, rule);
    var cause := map i: nat | i in children && log[i].cause.Some? :: log[i].cause.value;
    forall i | i in children
      ensures i in cause && cause[i] in parents
    {
      assert Explained(log, i);
    }
    forall i, j | i in children && j in children && i != j
      ensures cause[i] != cause[j]
    {
      assert log[i].effect.stage == log[j].effect.stage;
    }
    InjectionCard(children, parents, cause);
  }

  /** For each agent and rule, a later stage is never emitted more often than the stage before it. */
  lemma StagesOrdered(events: seq<Event>, parent: Stage, child: Stage, target: string, rule: string)
    requires Follows(parent, child)
    ensures |Positions(Run(events).1, child, target, rule)| <= |Positions(Run(events).1, parent, target, rule)|
  {
    var log, _ := TraceRun(events);
    StagesOrderedIn(log, parent, child, target, rule);
  }

  // ------------------------------------------------------------------ timing

  /** How long a configured delay really waits: the u64 count of nanoseconds, cast to i64. */
  function Wait(duration: string): int {
    match Durations.ParseWindow(duration)
    case None => 0
    case Some(ns) =>
      assert ns < U64_LIMIT by { Durations.ReadExactlyWhenItFits(duration); }
      Durations.AsI64(ns)
  }

  predicate Constant(events: seq<Event>, rules: seq<Rule>) {
    forall i :: 0 <= i < |events| && events[i].Activated? ==> events[i].rules == rules
  }

  lemma {:induction false} ActiveUnderConstant(events: seq<Event>, rules: seq<Rule>)
    requires Constant(events, rules)
    ensures Run(events).0.active in {None, Some(rules)}
  {
    if events != [] {
      var init, event := events[..|events| - 1], events[|events| - 1];
      ActiveUnderConstant(init, rules);
      if event.Landed? && !IsEnforcementKind(event.receipt.kind) && Run(init).0.active.Some? {
        RulesKeepActive(Run(init).0, Run(init).0.active.value, event.receipt);
      }
    }
  }

  lemma {:induction false} FoundByName(rules: seq<Rule>, rule: Rule)
    requires UniqueNames(rules) && rule in rules
    ensures FindRule(rules, rule.name) == Some(rule)
  {
    if rules[0] != rule {
      assert rule in rules[1..];
      FoundByName(rules[1..], rule);
    }
  }

  /** Under one constitution every effect is governed by the rule of its name. */
  lemma GovernedByName(events: seq<Event>, rules: seq<Rule>, e: Logged)
    requires Constant(events, rules) && UniqueNames(rules) && Placed(events, e) && e.governing.Some?
    ensures FindRule(rules, e.effect.rule) == e.governing
  {
    ActiveUnderConstant(events[..e.step], rules);
    if events[e.step].Landed? {
      FoundByName(rules, e.governing.value);
    }
  }

  /** Position `c` holds the cause of the effect at `i`, and the whole delay between them has passed. */
  ghost predicate Link(rules: seq<Rule>, log: seq<Logged>, i: nat, c: nat) {
    && c < i < |log| && log[i].cause == Some(c)
    && Follows(log[c].effect.stage, log[i].effect.stage)
    && log[c].effect.target == log[i].effect.target && log[c].effect.rule == log[i].effect.rule
    && FindRule(rules, log[i].effect.rule).Some?
    && DelayBefore(log[i].effect.stage, FindRule(rules, log[i].effect.rule).value).Some?
    && log[c].at.Some? && log[i].at.Some?
    && log[i].at.value >= log[c].at.value + StageWait(rules, log[i].effect)
  }

  /** The delay the constitution configures before an effect of this stage and rule. */
  function StageWait(rules: seq<Rule>, e: Effect): int {
    var rule := FindRule(rules, e.rule);
    if rule.None? || DelayBefore(e.stage, rule.value).None? then 0 else Wait(DelayBefore(e.stage, rule.value).value)
  }

  lemma WaitsForCause(events: seq<Event>, rules: seq<Rule>, log: seq<Logged>, i: nat)
    requires Constant(events, rules) && UniqueNames(rules) && LogOf(events, log)
    requires i < |log| && log[i].effect.stage != Detect
    ensures log[i].cause.Some? && Link(rules, log, i, log[i].cause.value)
  {
    assert Explained(log, i);
    GovernedByName(events, rules, log[log[i].cause.value]);
  }

  /** The quarantine, coach and detect behind an evict or a reverse, and the time since the detect. */
  ghost predicate FullChain(rules: seq<Rule>, log: seq<Logged>, i: nat)
    requires i < |log|
  {
    exists q: nat, c: nat, d: nat ::
      && Link(rules, log, i, q) && Link(rules, log, q, c) && Link(rules, log, c, d)
      && log[q].effect.stage == Quarantine && log[c].effect.stage == Coach && log[d].effect.stage == Detect
      && log[i].at.value >= log[d].at.value
           + StageWait(rules, log[c].effect) + StageWait(rules, log[q].effect) + StageWait(rules, log[i].effect)
  }

  /**
   Under a fixed constitution an evict, or a reverse, fires no earlier than its detect receipt's
   time plus the cooldown plus both later delays.
   */
  lemma EvictWaitsItsTurn(events: seq<Event>, rules: seq<Rule>)
    requires Constant(events, rules) && UniqueNames(rules)
    ensures exists log: seq<Logged> ::
      && LogOf(events, log)
      && (forall i :: 0 <= i < |log| && log[i].effect.stage in {Evict, Reverse} ==> FullChain(rules, log, i))
  {
    var log, _ := TraceRun(events);
    forall i | 0 <= i < |log| && log[i].effect.stage in {Evict, Reverse}
      ensures FullChain(rules, log, i)
    {
      hide LogOf, StageWait;
      WaitsForCause(events, rules, log, i);
      var q := log[i].cause.value;
      WaitsForCause(events, rules, log, q);
      var c := log[q].cause.value;
      WaitsForCause(events, rules, log, c);
      var d := log[c].cause.value;
      assert Link(rules, log, i, q) && Link(rules, log, q, c) && Link(rules, log, c, d);
    }
  }

  /**
   A configured stage is scheduled exactly when its delay is well formed and shorter than 2^64 ns, and the instant that
   the cast gives can be written as text.
   */
  lemma ScheduledExactly(stage: Stage, base: Instant, duration: string, target: string, rule: string)
    ensures Plan(stage, Some(duration), Some(base), target, rule) != [] <==>
      && Durations.LoaderAccepts(duration) && Durations.Nanos(duration) < U64_LIMIT
      && Representable(base + Durations.AsI64(Durations.Nanos(duration)))
    ensures Plan(stage, Some(duration), Some(base), target, rule) != [] ==>
      Plan(stage, Some(duration), Some(base), target, rule)
      == [Scheduled(base + Durations.AsI64(Durations.Nanos(duration)), target, rule, stage)]
  {
    hide Durations.ParseWindow, Durations.LoaderAccepts, Durations.Nanos;
    Durations.ReadExactlyWhenItFits(duration);
  }

  /**
   Of the delays that load, those below 2^63 ns are waited for, those from there to 2^64 ns fall due in the past, and
   longer ones are never scheduled; instants beyond the year 9999 or before the year 0 are never scheduled either.
   */
  lemma FiresEarlyExactly(base: Instant, duration: string)
    requires Durations.LoaderAccepts(duration)
    ensures var due, ns := ComputeFireAt(Some(base), duration), Durations.Nanos(duration);
      && (due.Some? && due.value < base <==> I64_LIMIT <= ns < U64_LIMIT && Representable(base + ns - U64_LIMIT))
      && (due.Some? && due.value >= base <==> ns < I64_LIMIT && Representable(base + ns))
      && (due.Some? && due.value >= base ==> due.value == base + ns && Wait(duration) == ns)
  {
    hide Durations.ParseWindow, Durations.LoaderAccepts, Durations.Nanos;
    Durations.ReadExactlyWhenItFits(duration);
  }

  lemma DaysText()
    ensures Digits(106752) == "106752"
  {
    hide Value;
    assert Digits(1) == "1" && Digits(10) == Digits(1) + "0" && Digits(106) == Digits(10) + "6";
    assert Digits(1067) == Digits(106) + "7" && Digits(10675) == Digits(1067) + "5";
    assert Digits(106752) == Digits(10675) + "2";
  }

  /** A loadable cooldown of 106752 days is due before the detect that schedules it. */
  lemma LongCooldownFiresAtOnce(base: Instant)
    requires 0 <= base < I64_LIMIT
    ensures Durations.LoaderAccepts("106752d")
    ensures ComputeFireAt(Some(base), "106752d").Some? && ComputeFireAt(Some(base), "106752d").value < base
  {
    hide Digits, Value, Durations.ParseWindow, Trim;
    DaysText();
    assert "106752" + "d" == "106752d";
    Durations.ReadsWritten(106752, "d");
    Durations.ReadExactlyWhenItFits("106752d");
  }
}
