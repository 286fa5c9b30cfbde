/** The loader's structural checks, each against what it promises about an accepted configuration. */
module Validators {
  import opened Wrappers
  import opened EscalationGraph
  import Durations
  import Enforcement
  import Text

  datatype LoadError =
    | InvalidScoringRule(name: string)
    | InvalidProcedure(name: string)
    | InvalidEnforcementRule(name: string)
    | DuplicatePredicate(name: string)

  // ------------------------------------------------------------------- names

  predicate Distinct(names: seq<string>) {
    forall i, j :: 0 <= i < j < |names| ==> names[i] != names[j]
  }

  /** The first name that repeats an earlier one. */
  method FirstRepeat(names: seq<string>) returns (r: Option<string>)
    ensures r.None? <==> Distinct(names)
    ensures r.Some? ==> exists k :: 0 < k < |names| && names[k] == r.value && r.value in names[..k] && Distinct(names[..k])
  {
    var seen: set<string> := {};
    for i := 0 to |names|
      invariant seen == (set x | x in names[..i])
      invariant Distinct(names[..i])
    {
      if names[i] in seen {
        assert names[i] in names[..i];
        return Some(names[i]);
      }
      seen := seen + {names[i]};
      assert names[..i + 1] == names[..i] + [names[i]];
    }
    assert names[..|names|] == names;
    r := None;
  }

  /** Scoring rules, procedures, enforcement rules and predicates, in that order. */
  method CheckUniqueNames(scoring: seq<string>, procs: seq<string>, rules: seq<string>, predicates: seq<string>)
    returns (r: Result<(), LoadError>)
    ensures r.Ok? <==> Distinct(scoring) && Distinct(procs) && Distinct(rules) && Distinct(predicates)
    ensures r.Err? ==>
      match r.error
      case InvalidScoringRule(n) => n in scoring && !Distinct(scoring)
      case InvalidProcedure(n) => n in procs && !Distinct(procs) && Distinct(scoring)
      case InvalidEnforcementRule(n) => n in rules && !Distinct(rules) && Distinct(procs) && Distinct(scoring)
      case DuplicatePredicate(n) => n in predicates && !Distinct(predicates) && Distinct(rules) && Distinct(procs) && Distinct(scoring)
  {
    var dup := FirstRepeat(scoring);
    if dup.Some? {
      return Err(InvalidScoringRule(dup.value));
    }
    dup := FirstRepeat(procs);
    if dup.Some? {
      return Err(InvalidProcedure(dup.value));
    }
    dup := FirstRepeat(rules);
    if dup.Some? {
      return Err(InvalidEnforcementRule(dup.value));
    }
    dup := FirstRepeat(predicates);
    if dup.Some? {
      return Err(DuplicatePredicate(dup.value));
    }
    r := Ok(());
  }

  // -------------------------------------------------------------- procedures

  predicate StatesOk(p: Procedure) {
    p.initialState in p.states && forall t :: t in p.terminalStates ==> t in p.states
  }

  predicate TransitionOk(p: Procedure, t: Transition) {
    && t.source in p.states && t.target in p.states && t.source !in p.terminalStates
    && (t.action.Some? <==> t.onTimeout.None?)
  }

  predicate SameTrigger(a: Transition, b: Transition) {
    a.source == b.source && a.action == b.action && a.onTimeout == b.onTimeout
  }

  /** No two transitions leave one state on one action or one timeout. */
  predicate Unambiguous(ts: seq<Transition>) {
    forall i, j :: 0 <= i < j < |ts| ==> !SameTrigger(ts[i], ts[j])
  }

  predicate HasExit(p: Procedure, state: string) {
    exists i :: 0 <= i < |p.transitions| && p.transitions[i].source == state
  }

  predicate TransitionsOk(p: Procedure) {
    && (forall t :: t in p.transitions ==> TransitionOk(p, t))
    && Unambiguous(p.transitions)
    && (forall s :: s in p.states && s !in p.terminalStates ==> HasExit(p, s))
  }

  predicate ProcedureOk(p: Procedure) {
    StatesOk(p) && TransitionsOk(p)
  }

  function ActionKey(t: Transition): string {
    if t.action.Some? then "action:" + t.action.value
    else if t.onTimeout.Some? then "timeout:" + t.onTimeout.value
    else "unreachable"
  }

  lemma KeysTellTriggersApart(p: Procedure, a: Transition, b: Transition)
    requires TransitionOk(p, a) && TransitionOk(p, b)
    ensures (a.source == b.source && ActionKey(a) == ActionKey(b)) <==> SameTrigger(a, b)
  {
    var x, y := ActionKey(a), ActionKey(b);
    assert a.action.Some? ==> x[0] == 'a' && x[7..] == a.action.value;
    assert b.action.Some? ==> y[0] == 'a' && y[7..] == b.action.value;
    assert a.action.None? ==> x[0] == 't' && x[8..] == a.onTimeout.value;
    assert b.action.None? ==> y[0] == 't' && y[8..] == b.onTimeout.value;
  }

  method CheckProcedureStates(p: Procedure) returns (ok: bool)
    ensures ok <==> StatesOk(p)
  {
    if p.initialState !in p.states {
      return false;
    }
    for i := 0 to |p.terminalStates|
      invariant forall j :: 0 <= j < i ==> p.terminalStates[j] in p.states
    {
      if p.terminalStates[i] !in p.states {
        return false;
      }
    }
    ok := true;
  }

  method CheckProcedureTransitions(p: Procedure) returns (ok: bool)
    ensures ok <==> TransitionsOk(p)
  {
    ok := CheckEachTransition(p);
    if ok {
      ok := CheckExits(p);
    }
  }

  /** Which of the first `n` transitions use a key. */
  predicate KeyUsed(p: Procedure, n: nat, key: (string, string))
    requires n <= |p.transitions|
  {
    exists j :: 0 <= j < n && key == (p.transitions[j].source, ActionKey(p.transitions[j]))
  }

  lemma KeyUsedIsAmbiguous(p: Procedure, n: nat)
    requires n < |p.transitions| && Unambiguous(p.transitions[..n])
    requires forall j :: 0 <= j <= n ==> TransitionOk(p, p.transitions[j])
    ensures var t := p.transitions[n];
      KeyUsed(p, n, (t.source, ActionKey(t))) <==> !Unambiguous(p.transitions[..n + 1])
  {
    hide ActionKey;
    var t := p.transitions[n];
    forall j | 0 <= j < n
      ensures SameTrigger(p.transitions[j], t) <==> (t.source, ActionKey(t)) == (p.transitions[j].source, ActionKey(p.transitions[j]))
    {
      KeysTellTriggersApart(p, p.transitions[j], t);
    }
    hide SameTrigger;
    var more := p.transitions[..n + 1];
    assert forall j :: 0 <= j < n ==> more[j] == p.transitions[..n][j] == p.transitions[j];
    assert more[n] == t;
    if j :| 0 <= j < n && SameTrigger(p.transitions[j], t) {
      assert SameTrigger(more[j], more[n]);
    }
  }

  method CheckEachTransition(p: Procedure) returns (ok: bool)
    ensures ok <==> (forall t :: t in p.transitions ==> TransitionOk(p, t)) && Unambiguous(p.transitions)
  {
    hide ActionKey, SameTrigger;
    var counts: map<(string, string), nat> := map[];
    for i := 0 to |p.transitions|
      invariant forall j :: 0 <= j < i ==> TransitionOk(p, p.transitions[j])
      invariant Unambiguous(p.transitions[..i])
      invariant forall k :: k in counts <==> KeyUsed(p, i, k)
      invariant forall k :: k in counts ==> counts[k] == 1
    {
      var t := p.transitions[i];
      assert t in p.transitions;
      if t.source !in p.states || t.target !in p.states || t.source in p.terminalStates {
        return false;
      }
      if (t.action.None? && t.onTimeout.None?) || (t.action.Some? && t.onTimeout.Some?) {
        return false;
      }
      var key := (t.source, ActionKey(t));
      KeyUsedIsAmbiguous(p, i);
      assert forall k :: KeyUsed(p, i + 1, k) <==> KeyUsed(p, i, k) || k == key;
      counts := counts[key := if key in counts then counts[key] + 1 else 1];
      if counts[key] > 1 {
        PrefixUnambiguous(p.transitions, i + 1);
        return false;
      }
    }
    assert p.transitions[..|p.transitions|] == p.transitions;
    ok := true;
  }

  lemma PrefixUnambiguous(ts: seq<Transition>, n: nat)
    requires n <= |ts|
    ensures Unambiguous(ts) ==> Unambiguous(ts[..n])
  {
  }

  method CheckExits(p: Procedure) returns (ok: bool)
    ensures ok <==> forall s :: s in p.states && s !in p.terminalStates ==> HasExit(p, s)
  {
    for i := 0 to |p.states|
      invariant forall j :: 0 <= j < i && p.states[j] !in p.terminalStates ==> HasExit(p, p.states[j])
    {
      if p.states[i] !in p.terminalStates && !HasExit(p, p.states[i]) {
        return false;
      }
    }
    ok := true;
  }

  /** Every procedure is well formed, and escalation between them never circles. */
  method CheckProcedures(procs: seq<Procedure>) returns (ok: bool)
    ensures ok <==> (forall p :: p in procs ==> ProcedureOk(p)) && Declared(GraphOf(procs)) && !Cyclic(GraphOf(procs))
    ensures UniqueProcedures(procs) ==>
      (ok <==> (forall p :: p in procs ==> ProcedureOk(p)) && TargetsDeclared(procs) && !EscalatesInCircle(procs))
  {
    for i := 0 to |procs|
      invariant forall j :: 0 <= j < i ==> ProcedureOk(procs[j])
    {
      var fine := CheckProcedureStates(procs[i]);
      if fine {
        fine := CheckProcedureTransitions(procs[i]);
      }
      if !fine {
        assert !ProcedureOk(procs[i]) && procs[i] in procs;
        return false;
      }
    }
    var r := CheckEscalationAcyclic(procs);
    ok := r.Ok?;
  }

  // -------------------------------------------------------- enforcement rules

  /** The canonical action kinds a trigger may name. */
  const KNOWN_RECEIPT_KINDS: set<string> := {
    "agent.register", "agent.revoke", "agent.operator_revoke", "agent.rotate_key", "agent.heartbeat.missed",
    "envelope.send", "envelope.deliver", "envelope.deliver.failed",
    "capability.issue", "capability.attenuate", "capability.revoke", "capability.check.pass", "capability.check.deny",
    "memory.write", "memory.read", "memory.forget", "memory.share",
    "constitution.activate", "constitution.evaluate.pass", "constitution.evaluate.deny",
    "constitution.amend.propose", "constitution.amend.commit", "constitution.amend.timeout",
    "procedure.enter", "procedure.transition", "procedure.timeout", "procedure.escalate",
    "enforcement.detect", "enforcement.coach", "enforcement.quarantine", "enforcement.evict",
    "enforcement.reverse", "enforcement.evict_timeout"}

  predicate DurationOk(d: Option<string>) {
    d.Some? ==> Durations.LoaderAccepts(d.value)
  }

  predicate RuleOk(rule: Enforcement.Rule) {
    && rule.receiptKind in KNOWN_RECEIPT_KINDS
    && rule.countThreshold >= 1
    && Durations.LoaderAccepts(rule.timeWindow)
    && DurationOk(rule.coachCooldown)
    && (rule.quarantine.Some? ==>
          Durations.LoaderAccepts(rule.quarantine.value.escalateAfter) && DurationOk(rule.quarantine.value.expiresAfter))
    && DurationOk(rule.evictAfter)
  }

  predicate FirstBad(rules: seq<Enforcement.Rule>, k: int) {
    0 <= k < |rules| && !RuleOk(rules[k]) && forall j :: 0 <= j < k ==> RuleOk(rules[j])
  }

  method CheckEnforcementRules(rules: seq<Enforcement.Rule>) returns (r: Result<(), LoadError>)
    ensures r.Ok? <==> forall rule :: rule in rules ==> RuleOk(rule)
    ensures r.Err? ==> exists k :: FirstBad(rules, k) && r.error == InvalidEnforcementRule(rules[k].name)
  {
    hide Durations.LoaderAccepts;
    for i := 0 to |rules|
      invariant forall j :: 0 <= j < i ==> RuleOk(rules[j])
    {
      var rule := rules[i];
      var bad := Err(InvalidEnforcementRule(rule.name));
      assert rule in rules;
      assert !RuleOk(rule) ==> FirstBad(rules, i);
      if rule.receiptKind !in KNOWN_RECEIPT_KINDS || rule.countThreshold == 0 {
        return bad;
      }
      if !Durations.LoaderAccepts(rule.timeWindow) {
        return bad;
      }
      if rule.coachCooldown.Some? && !Durations.LoaderAccepts(rule.coachCooldown.value) {
        return bad;
      }
      if rule.quarantine.Some? {
        if !Durations.LoaderAccepts(rule.quarantine.value.escalateAfter) {
          return bad;
        }
        if rule.quarantine.value.expiresAfter.Some? && !Durations.LoaderAccepts(rule.quarantine.value.expiresAfter.value) {
          return bad;
        }
      }
      if rule.evictAfter.Some? && !Durations.LoaderAccepts(rule.evictAfter.value) {
        return bad;
      }
    }
    r := Ok(());
  }

  /** The durations of a rule: its window and each of its delays. */
  predicate Gives(rule: Enforcement.Rule, duration: string) {
    || rule.timeWindow == duration || rule.coachCooldown == Some(duration) || rule.evictAfter == Some(duration)
    || (rule.quarantine.Some?
        && (rule.quarantine.value.escalateAfter == duration || rule.quarantine.value.expiresAfter == Some(duration)))
  }

  /** A rule is accepted exactly for a threshold, a known kind and durations that all load. */
  lemma RuleMeans(rule: Enforcement.Rule)
    ensures RuleOk(rule) <==>
      && rule.countThreshold > 0 && rule.receiptKind in KNOWN_RECEIPT_KINDS
      && forall duration :: Gives(rule, duration) ==> Durations.LoaderAccepts(duration)
  {
    hide Durations.LoaderAccepts;
    assert Gives(rule, rule.timeWindow);
    assert rule.coachCooldown.Some? ==> Gives(rule, rule.coachCooldown.value);
    assert rule.evictAfter.Some? ==> Gives(rule, rule.evictAfter.value);
    if rule.quarantine.Some? {
      assert Gives(rule, rule.quarantine.value.escalateAfter);
      assert rule.quarantine.value.expiresAfter.Some? ==> Gives(rule, rule.quarantine.value.expiresAfter.value);
    }
  }

  /** An accepted window is honoured at run time exactly below 2^64 ns; above, one minute is used in its place. */
  lemma AcceptedWindowUsed(rule: Enforcement.Rule)
    requires RuleOk(rule)
    ensures Enforcement.WindowNs(rule)
         == if Durations.Nanos(rule.timeWindow) < 0x1_0000_0000_0000_0000 then Durations.Nanos(rule.timeWindow)
            else 60_000_000_000
  {
    Durations.ReadExactlyWhenItFits(rule.timeWindow);
  }

  /** A window of 213504 days loads, and the engine counts over one minute. */
  lemma LongWindowIgnored(rule: Enforcement.Rule)
    requires rule.timeWindow == "213504d"
    ensures Durations.LoaderAccepts(rule.timeWindow) && Enforcement.WindowNs(rule) == 60_000_000_000
  {
    hide Text.Digits, Durations.ParseWindow, Durations.LoaderAccepts, Durations.Nanos;
    LongDays();
    assert "213504" + "d" == "213504d";
    Durations.ReadsWritten(213504, "d");
    Durations.ReadExactlyWhenItFits("213504d");
  }

  lemma LongDays()
    ensures Text.Digits(213504) == "213504"
  {
    hide Text.Value;
    assert Text.Digits(2) == "2" && Text.Digits(21) == Text.Digits(2) + "1" && Text.Digits(213) == Text.Digits(21) + "3";
    assert Text.Digits(2135) == Text.Digits(213) + "5" && Text.Digits(21350) == Text.Digits(2135) + "0";
    assert Text.Digits(213504) == Text.Digits(21350) + "4";
  }
}
