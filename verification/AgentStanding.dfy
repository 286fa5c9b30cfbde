/** What a run leaves of each agent: quarantine flag and reputation, against the receipts about it. */
module AgentStanding {
  import opened Wrappers
  import opened Text
  import opened Enforcement
  import Scores

  predicate About(e: Event, agent: string) {
    e.Landed? && "enforcement." <= e.receipt.kind && e.receipt.principal == Some(agent)
  }

  predicate Quarantines(e: Event, agent: string) {
    About(e, agent) && e.receipt.kind == "enforcement.quarantine"
  }

  predicate Releases(e: Event, agent: string) {
    About(e, agent) && (e.receipt.kind == "enforcement.reverse" || e.receipt.kind == "enforcement.evict")
  }

  /** The latest quarantine, reverse or evict receipt about the agent is a quarantine. */
  ghost predicate LatestIsQuarantine(events: seq<Event>, agent: string) {
    exists i :: 0 <= i < |events| && Quarantines(events[i], agent)
      && forall j :: i < j < |events| ==> !Releases(events[j], agent)
  }

  function DeltaOf(e: Event, agent: string): int {
    if About(e, agent) && e.receipt.delta.Some? && Scores.Parse(e.receipt.delta.value).Some?
    then Scores.Parse(e.receipt.delta.value).value else 0
  }

  /** A running sum that never leaves 0 to 10000. */
  function Within(sum: int): (score: int)
    ensures 0 <= score <= 10_000
  {
    if sum > 10_000 then 10_000 else if sum < 0 then 0 else sum
  }

  /** The running sum of the agent's deltas from full marks, in exact arithmetic. */
  function Reputation(events: seq<Event>, agent: string): (score: int)
    ensures 0 <= score <= 10_000
  {
    if events == [] then 10_000
    else Within(Reputation(events[..|events| - 1], agent) + DeltaOf(events[|events| - 1], agent))
  }

  lemma SaturationHidden(score: int, delta: int)
    requires 0 <= score <= 10_000 && IsI64(delta)
    ensures Clamp(SaturatingAdd(score, delta)) == Within(score + delta)
  {
  }

  /** Matching rules may set an agent's stage and nothing else of it. */
  lemma {:induction false} RulesKeepStanding(s: State, rules: seq<Rule>, r: Receipt, agent: string)
    ensures var before, after := AgentOf(s.agents, agent), AgentOf(CheckRules(s, rules, r).0.agents, agent);
      after.quarantined == before.quarantined && after.reputation == before.reputation
  {
    hide Filled, Reaches, ComputeFireAt, Matches, Plan, Summary, DetectDelta;
    if rules != [] {
      RulesKeepStanding(s, rules[..|rules| - 1], r, agent);
    }
  }

  lemma AbsorbOne(agents: map<string, Agent>, r: Receipt, agent: string)
    requires IsEnforcementKind(r.kind)
    requires 0 <= AgentOf(agents, agent).reputation <= 10_000
    ensures var before, after := AgentOf(agents, agent), AgentOf(Absorb(agents, r), agent);
      && after.reputation == Within(before.reputation + DeltaOf(Landed(r), agent))
      && after.quarantined == (Quarantines(Landed(r), agent) || (before.quarantined && !Releases(Landed(r), agent)))
  {
    hide Scores.Parse;
    if r.delta.Some? && Scores.Parse(r.delta.value).Some? {
      ParsedIsI64(r.delta.value);
      SaturationHidden(AgentOf(agents, agent).reputation, Scores.Parse(r.delta.value).value);
    }
    hide SaturatingAdd;
  }

  lemma ParsedIsI64(text: string)
    ensures Scores.Parse(text).Some? ==> IsI64(Scores.Parse(text).value)
  {
  }

  lemma LatestStep(events: seq<Event>, e: Event, agent: string)
    ensures LatestIsQuarantine(events + [e], agent)
       <==> Quarantines(e, agent) || (LatestIsQuarantine(events, agent) && !Releases(e, agent))
  {
    var all := events + [e];
    assert all[|events|] == e && forall j :: 0 <= j < |events| ==> all[j] == events[j];
    if Quarantines(e, agent) {
      assert Quarantines(all[|events|], agent);
    } else if LatestIsQuarantine(events, agent) && !Releases(e, agent) {
      var i :| 0 <= i < |events| && Quarantines(events[i], agent)
        && forall j :: i < j < |events| ==> !Releases(events[j], agent);
      assert Quarantines(all[i], agent);
    }
    if LatestIsQuarantine(all, agent) && !Quarantines(e, agent) {
      var i :| 0 <= i < |all| && Quarantines(all[i], agent) && forall j :: i < j < |all| ==> !Releases(all[j], agent);
      assert i < |events| && Quarantines(events[i], agent);
      assert !Releases(all[|events|], agent);
    }
  }

  /**
   In every reachable state an agent is quarantined exactly when the latest quarantine, reverse or
   evict receipt about it is a quarantine, and its reputation is the clamped sum of its deltas.
   */
  lemma {:induction false} StandingFollowsReceipts(events: seq<Event>, agent: string)
    ensures var a := AgentOf(Run(events).0.agents, agent);
      && (a.quarantined <==> LatestIsQuarantine(events, agent))
      && a.reputation == Reputation(events, agent)
      && 0 <= a.reputation <= 10_000
  {
    hide LatestIsQuarantine, Quarantines, Releases, Step, DeltaOf, Within;
    if events == [] {
      NothingYet(agent);
    } else {
      var init, e := events[..|events| - 1], events[|events| - 1];
      assert init + [e] == events;
      StandingFollowsReceipts(init, agent);
      LatestStep(init, e, agent);
      StandingStep(init, e, agent);
    }
  }

  lemma NothingYet(agent: string)
    ensures !LatestIsQuarantine([], agent) && !AgentOf(Run([]).0.agents, agent).quarantined
  {
  }

  lemma NoDelta(e: Event, agent: string)
    ensures !About(e, agent) ==> DeltaOf(e, agent) == 0
  {
  }

  lemma StandingStep(events: seq<Event>, e: Event, agent: string)
    requires 0 <= AgentOf(Run(events).0.agents, agent).reputation <= 10_000
    ensures var before, after := AgentOf(Run(events).0.agents, agent), AgentOf(Step(Run(events).0, e).0.agents, agent);
      && after.reputation == Within(before.reputation + DeltaOf(e, agent))
      && after.quarantined == (Quarantines(e, agent) || (before.quarantined && !Releases(e, agent)))
  {
    hide Absorb, CheckRules, DeltaOf;
    NoDelta(e, agent);
    var s := Run(events).0;
    match e
    case Activated(_) =>
    case Polled(_) =>
    case Landed(r) =>
      if IsEnforcementKind(r.kind) {
        AbsorbOne(s.agents, r, agent);
      } else if s.active.Some? {
        RulesKeepStanding(s, s.active.value, r, agent);
      }
  }
}
