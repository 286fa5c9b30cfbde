/** The enforcement loop as functions on values: what one activation, one receipt and one poll do. */
module Enforcement {
  import opened Wrappers
  import opened Text
  import Durations
  import Scores

  // ------------------------------------------------------------------- data

  datatype Stage = Detect | Coach | Quarantine | Evict | Reverse

  function ActionKind(stage: Stage): string {
    match stage
    case Detect => "enforcement.detect"
    case Coach => "enforcement.coach"
    case Quarantine => "enforcement.quarantine"
    case Evict => "enforcement.evict"
    case Reverse => "enforcement.reverse"
  }

  datatype QuarantineBlock = QuarantineBlock(escalateAfter: string, expiresAfter: Option<string>)

  /** One enforcement rule. An absent block means the stage is not configured. */
  datatype Rule = Rule(
    name: string,
    receiptKind: string,
    denyReason: Option<string>,
    forbidRuleId: Option<string>,
    countThreshold: nat,
    timeWindow: string,
    groupBy: string,
    coachCooldown: Option<string>,
    quarantine: Option<QuarantineBlock>,
    evictAfter: Option<string>,
    reputationDelta: map<string, string>)

  /** A wall-clock instant in nanoseconds since the Unix epoch. */
  type Instant = int

  /** The instants RFC 3339 text can show: years 0000 to 9999. */
  predicate Representable(t: Instant) {
    -62_167_219_200_000_000_000 <= t < 253_402_300_800_000_000_000
  }

  /** `wall` is absent when the receipt's wall-clock text does not parse. */
  datatype Receipt = Receipt(
    kind: string,
    principal: Option<string>,
    denyReason: Option<string>,
    forbidRuleId: Option<string>,
    occurredNs: nat,
    wall: Option<Instant>,
    delta: Option<string>)

  datatype Evidence = Evidence(matched: seq<nat>, groupKey: string, summary: string)

  datatype Effect = Effect(stage: Stage, target: string, rule: string, delta: string, evidence: Option<Evidence>)

  datatype Agent = Agent(reputation: int, stage: Option<Stage>, quarantined: bool)

  datatype Scheduled = Scheduled(fireAt: Instant, target: string, rule: string, stage: Stage)

  type BucketKey = (string, string)

  datatype State = State(
    active: Option<seq<Rule>>,
    agents: map<string, Agent>,
    counters: map<BucketKey, seq<nat>>,
    scheduled: seq<Scheduled>)

  const FRESH := State(None, map[], map[], [])
  const INITIAL_REPUTATION := 10_000
  const MIN_REPUTATION := 0
  const MAX_REPUTATION := 10_000
  const INITIAL_AGENT := Agent(INITIAL_REPUTATION, None, false)

  // --------------------------------------------------------------- receipts

  function AgentOf(agents: map<string, Agent>, id: string): Agent {
    if id in agents then agents[id] else INITIAL_AGENT
  }

  function SaturatingAdd(a: int, b: int): int {
    if a + b >= I64_LIMIT then I64_LIMIT - 1 else if a + b < -I64_LIMIT then -I64_LIMIT else a + b
  }

  function Clamp(x: int): int {
    if x < MIN_REPUTATION then MIN_REPUTATION else if x > MAX_REPUTATION then MAX_REPUTATION else x
  }

  function ApplyDelta(agents: map<string, Agent>, id: string, delta: string): map<string, Agent> {
    var agent := AgentOf(agents, id);
    match Scores.Parse(delta)
    case None => agents[id := agent]
    case Some(d) => agents[id := agent.(reputation := Clamp(SaturatingAdd(agent.reputation, d)))]
  }

  function SetQuarantine(agents: map<string, Agent>, id: string, on: bool): map<string, Agent> {
    agents[id := AgentOf(agents, id).(quarantined := on)]
  }

  predicate IsEnforcementKind(kind: string) {
    "enforcement." <= kind
  }

  /** What an enforcement receipt does to the agents. */
  function Absorb(agents: map<string, Agent>, r: Receipt): map<string, Agent> {
    if r.principal.None? then agents
    else
      var id := r.principal.value;
      var scored := if r.delta.Some? then ApplyDelta(agents, id, r.delta.value) else agents;
      if r.kind == "enforcement.quarantine" then SetQuarantine(scored, id, true)
      else if r.kind == "enforcement.reverse" || r.kind == "enforcement.evict" then SetQuarantine(scored, id, false)
      else scored
  }

  predicate Matches(rule: Rule, r: Receipt) {
    && r.kind == rule.receiptKind
    && (rule.denyReason.Some? ==> r.denyReason == rule.denyReason)
    && (rule.forbidRuleId.Some? ==> r.forbidRuleId == rule.forbidRuleId)
  }

  function GroupKey(rule: Rule, r: Receipt): string {
    if rule.groupBy == "none" || r.principal.None? then "" else r.principal.value
  }

  function WindowNs(rule: Rule): nat {
    match Durations.ParseWindow(rule.timeWindow)
    case Some(ns) => ns
    case None => 60_000_000_000
  }

  /** Keep the timestamps at or after a cutoff, in order. */
  function AtOrAfter(ts: seq<nat>, cutoff: int): (kept: seq<nat>)
    ensures |kept| <= |ts|
    ensures forall t :: multiset(kept)[t] == if t >= cutoff then multiset(ts)[t] else 0
  {
    if ts == [] then []
    else
      assert ts == ts[..|ts| - 1] + [ts[|ts| - 1]];
      var init := AtOrAfter(ts[..|ts| - 1], cutoff);
      if ts[|ts| - 1] >= cutoff then init + [ts[|ts| - 1]] else init
  }

  function Prune(ts: seq<nat>, nowNs: nat, windowNs: nat): seq<nat> {
    if nowNs < windowNs then ts else AtOrAfter(ts, nowNs - windowNs)
  }

  function Bucket(counters: map<BucketKey, seq<nat>>, key: BucketKey): seq<nat> {
    if key in counters then counters[key] else []
  }

  /** The bucket with the new receipt in it, before the threshold is tested. */
  function Filled(counters: map<BucketKey, seq<nat>>, rule: Rule, r: Receipt): seq<nat> {
    Prune(Bucket(counters, (rule.name, GroupKey(rule, r))), r.occurredNs, WindowNs(rule)) + [r.occurredNs]
  }

  /** The length is cast to u32 before it is compared. */
  predicate Reaches(filled: seq<nat>, rule: Rule) {
    |filled| % U32_LIMIT >= rule.countThreshold
  }

  function ComputeFireAt(base: Option<Instant>, duration: string): Option<Instant> {
    match Durations.ParseWindow(duration)
    case None => None
    case Some(ns) =>
      if base.None? then None
      else
        assert ns < U64_LIMIT by { Durations.ReadExactlyWhenItFits(duration); }
        var t := base.value + Durations.AsI64(ns);
        if Representable(t) then Some(t) else None
  }

  /** The scheduled stage, if its duration is configured and its instant can be computed. */
  function Plan(stage: Stage, after: Option<string>, base: Option<Instant>, target: string, rule: string): seq<Scheduled> {
    if after.None? then []
    else
      match ComputeFireAt(base, after.value)
      case None => []
      case Some(t) => [Scheduled(t, target, rule, stage)]
  }

  function DetectDelta(rule: Rule): string {
    if "detect" in rule.reputationDelta then rule.reputationDelta["detect"] else "-0.05"
  }

  function Summary(rule: Rule): string {
    Digits(rule.countThreshold) + "+ matches of " + rule.receiptKind + " in " + rule.timeWindow
  }

  function CheckDetect(s: State, rule: Rule, r: Receipt): (State, Option<Effect>) {
    if !Matches(rule, r) then (s, None)
    else
      var group := GroupKey(rule, r);
      var filled := Filled(s.counters, rule, r);
      if !Reaches(filled, rule) then (s.(counters := s.counters[(rule.name, group) := filled]), None)
      else
        var agents := if group == "" then s.agents
                      else s.agents[group := AgentOf(s.agents, group).(stage := Some(Detect))];
        (State(s.active, agents, s.counters[(rule.name, group) := []],
               s.scheduled + Plan(Coach, rule.coachCooldown, r.wall, group, rule.name)),
         Some(Effect(Detect, group, rule.name, DetectDelta(rule), Some(Evidence(filled, group, Summary(rule))))))
  }

  function Opt(e: Option<Effect>): seq<Effect> {
    if e.Some? then [e.value] else []
  }

  /** Every rule in order, later rules seeing what earlier ones did. */
  function CheckRules(s: State, rules: seq<Rule>, r: Receipt): (State, seq<Effect>) {
    if rules == [] then (s, [])
    else
      var (mid, effects) := CheckRules(s, rules[..|rules| - 1], r);
      var (end, effect) := CheckDetect(mid, rules[|rules| - 1], r);
      (end, effects + Opt(effect))
  }

  function OnReceipt(s: State, r: Receipt): (State, seq<Effect>) {
    if IsEnforcementKind(r.kind) then (s.(agents := Absorb(s.agents, r)), [])
    else if s.active.None? then (s, [])
    else CheckRules(s, s.active.value, r)
  }

  // ------------------------------------------------------------------ polls

  function StageDelta(stage: Stage): string {
    match stage
    case Detect => "-0.05"
    case Coach => "0.0"
    case Quarantine => "-0.25"
    case Evict => "-1.0"
    case Reverse => "0.15"
  }

  function StageEffect(entry: Scheduled): Effect {
    Effect(entry.stage, entry.target, entry.rule, StageDelta(entry.stage), None)
  }

  function FindRule(rules: seq<Rule>, name: string): Option<Rule> {
    if rules == [] then None
    else if rules[0].name == name then Some(rules[0])
    else FindRule(rules[1..], name)
  }

  function RuleFor(active: Option<seq<Rule>>, name: string): Option<Rule> {
    if active.None? then None else FindRule(active.value, name)
  }

  function NextStages(rule: Rule, fired: Scheduled, now: Instant): seq<Scheduled> {
    match fired.stage
    case Coach =>
      Plan(Quarantine, if rule.quarantine.None? then None else Some(rule.quarantine.value.escalateAfter),
           Some(now), fired.target, fired.rule)
    case Quarantine =>
      Plan(Evict, rule.evictAfter, Some(now), fired.target, fired.rule)
      + Plan(Reverse, if rule.quarantine.None? then None else rule.quarantine.value.expiresAfter,
             Some(now), fired.target, fired.rule)
    case _ => []
  }

  /** What a due entry schedules: nothing once its rule has been amended away. */
  function FollowUps(active: Option<seq<Rule>>, entry: Scheduled, now: Instant): seq<Scheduled> {
    match RuleFor(active, entry.rule)
    case None => []
    case Some(rule) => NextStages(rule, entry, now)
  }

  datatype Sweep = Sweep(kept: seq<Scheduled>, added: seq<Scheduled>, effects: seq<Effect>)

  /** One pass over the queue. */
  function SweepQueue(active: Option<seq<Rule>>, queue: seq<Scheduled>, now: Instant): Sweep {
    if queue == [] then Sweep([], [], [])
    else
      var before := SweepQueue(active, queue[..|queue| - 1], now);
      var entry := queue[|queue| - 1];
      if entry.fireAt <= now then
        Sweep(before.kept, before.added + FollowUps(active, entry, now), before.effects + [StageEffect(entry)])
      else
        before.(kept := before.kept + [entry])
  }

  function Poll(s: State, now: Instant): (State, seq<Effect>) {
    var sweep := SweepQueue(s.active, s.scheduled, now);
    (s.(scheduled := sweep.kept + sweep.added), sweep.effects)
  }

  // ------------------------------------------------------------------- runs

  datatype Event = Activated(rules: seq<Rule>) | Landed(receipt: Receipt) | Polled(now: Instant)

  function Step(s: State, e: Event): (State, seq<Effect>) {
    match e
    case Activated(rules) => (s.(active := Some(rules), counters := map[]), [])
    case Landed(r) => OnReceipt(s, r)
    case Polled(now) => Poll(s, now)
  }

  /** A whole run from a fresh engine: the state reached and every effect emitted, in order. */
  function Run(events: seq<Event>): (State, seq<Effect>) {
    if events == [] then (FRESH, [])
    else
      var (s, effects) := Run(events[..|events| - 1]);
      var (end, more) := Step(s, events[|events| - 1]);
      (end, effects + more)
  }

  // ----------------------------------------------------------------- facts

  /** What the loader demands of rule names. */
  predicate UniqueNames(rules: seq<Rule>) {
    forall i, j :: 0 <= i < j < |rules| ==> rules[i].name != rules[j].name
  }

  lemma {:induction false} RulesKeepActive(s: State, rules: seq<Rule>, r: Receipt)
    ensures CheckRules(s, rules, r).0.active == s.active
  {
    hide Filled, Reaches, ComputeFireAt, Matches;
    if rules != [] {
      RulesKeepActive(s, rules[..|rules| - 1], r);
    }
  }
}
