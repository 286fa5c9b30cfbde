/** The feedback loop: an effect becomes a receipt, and the receipt's view goes back into the engine. */
module ReceiptPublisher {
  import opened Wrappers
  import E = Enforcement
  import AgentStanding
  import Scores
  import Capabilities
  import CapabilityLaws
  import Scope

  type Bytes = seq<bv8>

  datatype Item = Item(key: string, value: Bytes)

  datatype Receipt = Receipt(actor: string, actionKind: string, evidence: seq<Item>, monotonicNs: nat, wall: Option<E.Instant>)

  /** UTF-8 as the code uses it, and the canonical JSON of an effect's own evidence. */
  datatype Codec = Codec(encode: string -> Bytes, decode: Bytes -> Option<string>, json: (string, E.Evidence) -> Bytes)

  ghost predicate Faithful(c: Codec) {
    forall s :: c.decode(c.encode(s)) == Some(s)
  }

  // --------------------------------------------------------------- receipt to view

  predicate NamesSubject(key: string) {
    key == "subject_agent_id" || key == "target_agent_id"
  }

  /** The first subject or target that decodes. */
  function Subject(c: Codec, evidence: seq<Item>): Option<string> {
    if evidence == [] then None
    else
      var earlier := Subject(c, evidence[..|evidence| - 1]);
      var last := evidence[|evidence| - 1];
      if earlier.None? && NamesSubject(last.key) then c.decode(last.value) else earlier
  }

  /** The last item under the key, decodable or not. */
  function LastUnder(c: Codec, evidence: seq<Item>, key: string): Option<string> {
    if evidence == [] then None
    else if evidence[|evidence| - 1].key == key then c.decode(evidence[|evidence| - 1].value)
    else LastUnder(c, evidence[..|evidence| - 1], key)
  }

  /** The last reputation delta that decodes. */
  function LastDelta(c: Codec, evidence: seq<Item>): Option<string> {
    if evidence == [] then None
    else
      var last := evidence[|evidence| - 1];
      if last.key == "reputation_delta" && c.decode(last.value).Some? then c.decode(last.value)
      else LastDelta(c, evidence[..|evidence| - 1])
  }

  function View(c: Codec, r: Receipt): E.Receipt {
    var subject := Subject(c, r.evidence);
    E.Receipt(
      r.actionKind,
      if subject.None? then Some(r.actor) else subject,
      LastUnder(c, r.evidence, "deny_reason"),
      LastUnder(c, r.evidence, "forbid_rule_id"),
      r.monotonicNs,
      r.wall,
      LastDelta(c, r.evidence))
  }

  method BuildView(c: Codec, r: Receipt) returns (v: E.Receipt)
    ensures v == View(c, r)
  {
    var principal, denyReason, forbidRuleId, delta: Option<string> := None, None, None, None;
    for i := 0 to |r.evidence|
      invariant principal == Subject(c, r.evidence[..i])
      invariant denyReason == LastUnder(c, r.evidence[..i], "deny_reason")
      invariant forbidRuleId == LastUnder(c, r.evidence[..i], "forbid_rule_id")
      invariant delta == LastDelta(c, r.evidence[..i])
    {
      assert r.evidence[..i + 1][..i] == r.evidence[..i];
      var ev := r.evidence[i];
      if NamesSubject(ev.key) && principal.None? {
        principal := c.decode(ev.value);
      } else if ev.key == "deny_reason" {
        denyReason := c.decode(ev.value);
      } else if ev.key == "forbid_rule_id" {
        forbidRuleId := c.decode(ev.value);
      } else if ev.key == "reputation_delta" {
        if c.decode(ev.value).Some? {
          delta := c.decode(ev.value);
        }
      }
    }
    assert r.evidence[..|r.evidence|] == r.evidence;
    if principal.None? {
      principal := Some(r.actor);
    }
    v := E.Receipt(r.actionKind, principal, denyReason, forbidRuleId, r.monotonicNs, r.wall, delta);
  }

  /** The item at i is the last one under the key. */
  predicate LastAt(evidence: seq<Item>, key: string, i: int) {
    0 <= i < |evidence| && evidence[i].key == key && forall j :: i < j < |evidence| ==> evidence[j].key != key
  }

  lemma {:induction false} LastUnderMeans(c: Codec, evidence: seq<Item>, key: string)
    ensures forall i :: LastAt(evidence, key, i) ==> LastUnder(c, evidence, key) == c.decode(evidence[i].value)
    ensures (forall i :: 0 <= i < |evidence| ==> evidence[i].key != key) ==> LastUnder(c, evidence, key) == None
  {
    if evidence != [] {
      var init := evidence[..|evidence| - 1];
      LastUnderMeans(c, init, key);
      forall i | LastAt(evidence, key, i)
        ensures LastUnder(c, evidence, key) == c.decode(evidence[i].value)
      {
        if i < |init| {
          assert evidence[|evidence| - 1].key != key;
          assert LastAt(init, key, i);
        }
      }
    }
  }

  /** The item at i is the first of those that name a subject and decode. */
  predicate FirstSubject(c: Codec, evidence: seq<Item>, i: int) {
    && 0 <= i < |evidence| && IsSubject(c, evidence[i])
    && forall j :: 0 <= j < i ==> !IsSubject(c, evidence[j])
  }

  predicate IsSubject(c: Codec, item: Item) {
    (item.key == "subject_agent_id" || item.key == "target_agent_id") && c.decode(item.value).Some?
  }

  lemma {:induction false} SubjectMeans(c: Codec, evidence: seq<Item>)
    ensures forall i :: FirstSubject(c, evidence, i) ==> Subject(c, evidence) == c.decode(evidence[i].value)
    ensures (forall i :: 0 <= i < |evidence| ==> !IsSubject(c, evidence[i])) ==> Subject(c, evidence) == None
  {
    if evidence != [] {
      var init, n := evidence[..|evidence| - 1], |evidence| - 1;
      SubjectMeans(c, init);
      forall i | FirstSubject(c, evidence, i)
        ensures Subject(c, evidence) == c.decode(evidence[i].value)
      {
        if i < n {
          assert FirstSubject(c, init, i);
        }
      }
    }
  }

  /** The item at i is the last readable delta. */
  predicate LastReadable(c: Codec, evidence: seq<Item>, i: int) {
    && 0 <= i < |evidence| && IsDelta(c, evidence[i])
    && forall j :: i < j < |evidence| ==> !IsDelta(c, evidence[j])
  }

  predicate IsDelta(c: Codec, item: Item) {
    item.key == "reputation_delta" && c.decode(item.value).Some?
  }

  lemma {:induction false} DeltaMeans(c: Codec, evidence: seq<Item>)
    ensures forall i :: LastReadable(c, evidence, i) ==> LastDelta(c, evidence) == c.decode(evidence[i].value)
    ensures (forall i :: 0 <= i < |evidence| ==> !IsDelta(c, evidence[i])) ==> LastDelta(c, evidence) == None
  {
    if evidence != [] {
      var init, n := evidence[..|evidence| - 1], |evidence| - 1;
      DeltaMeans(c, init);
      forall i | LastReadable(c, evidence, i)
        ensures LastDelta(c, evidence) == c.decode(evidence[i].value)
      {
        if i < n {
          assert !IsDelta(c, evidence[n]);
          assert LastReadable(c, init, i);
        }
      }
    }
  }

  /**
   What the engine is told of a receipt: the first subject or target that decodes, or else the actor; of deny reasons
   and forbid rules the last, if it decodes; of deltas the last that decodes.
   */
  lemma ViewMeans(c: Codec, r: Receipt)
    ensures var v := View(c, r);
      && v.kind == r.actionKind && v.occurredNs == r.monotonicNs && v.wall == r.wall && v.principal.Some?
      && (forall i :: FirstSubject(c, r.evidence, i) ==> v.principal == c.decode(r.evidence[i].value))
      && ((forall i :: 0 <= i < |r.evidence| ==> !IsSubject(c, r.evidence[i])) ==> v.principal == Some(r.actor))
      && (forall i :: LastAt(r.evidence, "deny_reason", i) ==> v.denyReason == c.decode(r.evidence[i].value))
      && (forall i :: LastAt(r.evidence, "forbid_rule_id", i) ==> v.forbidRuleId == c.decode(r.evidence[i].value))
      && (forall i :: LastReadable(c, r.evidence, i) ==> v.delta == c.decode(r.evidence[i].value))
    ensures (forall i :: 0 <= i < |r.evidence| ==> r.evidence[i].key != "deny_reason") ==> View(c, r).denyReason.None?
    ensures (forall i :: 0 <= i < |r.evidence| ==> r.evidence[i].key != "forbid_rule_id") ==> View(c, r).forbidRuleId.None?
    ensures (forall i :: 0 <= i < |r.evidence| ==> !IsDelta(c, r.evidence[i])) ==> View(c, r).delta.None?
  {
    hide Subject, LastUnder, LastDelta;
    SubjectMeans(c, r.evidence);
    LastUnderMeans(c, r.evidence, "deny_reason");
    LastUnderMeans(c, r.evidence, "forbid_rule_id");
    DeltaMeans(c, r.evidence);
  }

  // -------------------------------------------------------------- effect to receipt

  /** An effect's own evidence in key order. */
  function Additional(c: Codec, e: E.Effect): seq<Item> {
    if e.evidence.None? then []
    else [Item("group_key", c.json("group_key", e.evidence.value)),
          Item("matched_timestamps_ns", c.json("matched_timestamps_ns", e.evidence.value)),
          Item("pattern_summary", c.json("pattern_summary", e.evidence.value))]
  }

  function Universal(c: Codec, e: E.Effect, constitutionHash: Bytes): seq<Item> {
    [Item("target_agent_id", c.encode(e.target)),
     Item("enforcement_rule_id", c.encode(e.rule)),
     Item("reputation_delta", c.encode(e.delta)),
     Item("constitution_hash", constitutionHash)]
  }

  method EmitEvidence(c: Codec, e: E.Effect, constitutionHash: Bytes, additional: seq<Item>) returns (evidence: seq<Item>)
    ensures evidence == Universal(c, e, constitutionHash) + additional
    ensures additional <= evidence[4..]
    ensures evidence[0] == Item("target_agent_id", c.encode(e.target)) && evidence[1] == Item("enforcement_rule_id", c.encode(e.rule))
    ensures evidence[2] == Item("reputation_delta", c.encode(e.delta)) && evidence[3] == Item("constitution_hash", constitutionHash)
  {
    evidence := Universal(c, e, constitutionHash);
    for i := 0 to |additional|
      invariant evidence == Universal(c, e, constitutionHash) + additional[..i]
    {
      evidence := evidence + [additional[i]];
    }
  }

  function Emitted(c: Codec, e: E.Effect, actor: string, constitutionHash: Bytes, additional: seq<Item>, ns: nat,
                   wall: Option<E.Instant>): Receipt {
    Receipt(actor, E.ActionKind(e.stage), Universal(c, e, constitutionHash) + additional, ns, wall)
  }

  // ------------------------------------------------------------------------ the loop

  lemma {:induction false} SubjectStands(c: Codec, first: seq<Item>, more: seq<Item>)
    requires Subject(c, first).Some?
    ensures Subject(c, first + more) == Subject(c, first)
  {
    if more == [] {
      assert first + more == first;
    } else {
      assert (first + more)[..|first + more| - 1] == first + more[..|more| - 1];
      SubjectStands(c, first, more[..|more| - 1]);
    }
  }

  lemma {:induction false} DeltaOverridden(c: Codec, first: seq<Item>, more: seq<Item>)
    ensures LastDelta(c, first + more) == if LastDelta(c, more).Some? then LastDelta(c, more) else LastDelta(c, first)
  {
    if more == [] {
      assert first + more == first;
    } else {
      assert (first + more)[..|first + more| - 1] == first + more[..|more| - 1];
      DeltaOverridden(c, first, more[..|more| - 1]);
    }
  }

  lemma UniversalReads(c: Codec, e: E.Effect, constitutionHash: Bytes)
    requires Faithful(c)
    ensures Subject(c, Universal(c, e, constitutionHash)) == Some(e.target)
    ensures LastDelta(c, Universal(c, e, constitutionHash)) == Some(e.delta)
  {
    var u := Universal(c, e, constitutionHash);
    assert u[..3] == [u[0], u[1], u[2]] && u[..3][..2] == [u[0], u[1]] && u[..3][..2][..1] == [u[0]];
    assert Subject(c, []) == None;
    assert Subject(c, [u[0]]) == Some(e.target);
    assert Subject(c, [u[0], u[1]]) == Some(e.target);
    assert Subject(c, u[..3]) == Some(e.target);
    assert LastDelta(c, u[..3]) == Some(e.delta);
  }

  /**
   Reading back an emitted effect always restores its kind and target; it restores the delta exactly
   when the additional evidence carries no other readable delta after it.
   */
  lemma EmittedReadsBack(c: Codec, e: E.Effect, actor: string, constitutionHash: Bytes, additional: seq<Item>, ns: nat,
                         wall: Option<E.Instant>)
    requires Faithful(c)
    ensures var v := View(c, Emitted(c, e, actor, constitutionHash, additional, ns, wall));
      && v.kind == E.ActionKind(e.stage) && v.principal == Some(e.target) && v.delta.Some?
      && (v.delta == Some(e.delta) <==> LastDelta(c, additional) in {None, Some(e.delta)})
  {
    var u := Universal(c, e, constitutionHash);
    UniversalReads(c, e, constitutionHash);
    SubjectStands(c, u, additional);
    DeltaOverridden(c, u, additional);
  }

  lemma OwnEvidenceHasNoDelta(c: Codec, e: E.Effect)
    ensures LastDelta(c, Additional(c, e)) == None
  {
    var a := Additional(c, e);
    if a != [] {
      assert a[..2] == [a[0], a[1]] && a[..2][..1] == [a[0]];
      assert LastDelta(c, [a[0]]) == None && LastDelta(c, a[..2]) == None;
    }
  }

  /** The view the engine gets back for one of its own effects. */
  function Echo(c: Codec, e: E.Effect, actor: string, constitutionHash: Bytes, ns: nat, wall: Option<E.Instant>): E.Receipt {
    View(c, Emitted(c, e, actor, constitutionHash, Additional(c, e), ns, wall))
  }

  function ParsedDelta(text: string): int {
    match Scores.Parse(text)
    case None => 0
    case Some(d) => d
  }

  /**
   Any effect fed back keeps kind, target and delta, triggers nothing further, moves its target's
   reputation by exactly its delta and sets or clears its quarantine as its stage says.
   */
  lemma EchoIsAbsorbed(events: seq<E.Event>, c: Codec, e: E.Effect, actor: string, constitutionHash: Bytes, ns: nat,
                       wall: Option<E.Instant>)
    requires Faithful(c)
    ensures var r := Echo(c, e, actor, constitutionHash, ns, wall);
      && r.kind == E.ActionKind(e.stage) && r.principal == Some(e.target) && r.delta == Some(e.delta)
      && var (end, effects) := E.Step(E.Run(events).0, E.Landed(r));
      && effects == []
      && var before, after := E.AgentOf(E.Run(events).0.agents, e.target), E.AgentOf(end.agents, e.target);
      && after.reputation == AgentStanding.Within(before.reputation + ParsedDelta(e.delta))
      && after.quarantined == (e.stage.Quarantine? || (before.quarantined && !e.stage.Reverse? && !e.stage.Evict?))
  {
    hide Scores.Parse, E.Absorb, E.Run, Subject, LastDelta, Additional, Emitted;
    EmittedReadsBack(c, e, actor, constitutionHash, Additional(c, e), ns, wall);
    OwnEvidenceHasNoDelta(c, e);
    AgentStanding.StandingFollowsReceipts(events, e.target);
    StageKinds(e.stage);
    AgentStanding.AbsorbOne(E.Run(events).0.agents, Echo(c, e, actor, constitutionHash, ns, wall), e.target);
  }

  lemma StageKinds(stage: E.Stage)
    ensures E.IsEnforcementKind(E.ActionKind(stage))
    ensures E.ActionKind(stage) == "enforcement.quarantine" <==> stage.Quarantine?
    ensures E.ActionKind(stage) == "enforcement.reverse" <==> stage.Reverse?
    ensures E.ActionKind(stage) == "enforcement.evict" <==> stage.Evict?
    ensures E.ActionKind(stage) == "enforcement.detect" <==> stage.Detect?
    ensures E.ActionKind(stage) == "enforcement.coach" <==> stage.Coach?
  {
  }

  // --------------------------------------------------------------- the capability gate

  /** The predicate the capability layer consults. */
  function QuarantinedAfter(events: seq<E.Event>): Capabilities.AgentId -> bool {
    agent => E.AgentOf(E.Run(events).0.agents, agent).quarantined
  }

  /**
   Once a quarantine effect has been fed back, and until a reverse or evict about the same agent
   lands, no check of any of its capabilities permits and nothing new is minted for it.
   */
  lemma QuarantineReachesCapabilities(
      events: seq<E.Event>, later: seq<E.Event>, cd: Codec, e: E.Effect, actor: string, constitutionHash: Bytes, ns: nat,
      wall: Option<E.Instant>, env: Capabilities.Env, store: Capabilities.Store, c: Capabilities.Capability,
      id: Capabilities.Hash, d: Scope.Descriptor, now: Option<int>)
    requires Faithful(cd) && e.stage.Quarantine? && c.content.subject == e.target
    requires forall l :: l in later ==> !AgentStanding.Releases(l, e.target)
    requires id in store.byId ==> store.byId[id].content.subject == e.target
    ensures var gate := QuarantinedAfter(events + [E.Landed(Echo(cd, e, actor, constitutionHash, ns, wall))] + later);
      && !Capabilities.IsPermit(Capabilities.Check(env, store, id, d, now, gate))
      && Capabilities.Issue(env, store, c, gate) == (store, Err(Capabilities.SubjectQuarantined(e.target)))
      && Capabilities.Attenuate(env, store, c, gate) == (store, Err(Capabilities.SubjectQuarantined(e.target)))
  {
    hide Echo, Capabilities.Check, Capabilities.Issue, Capabilities.Attenuate, E.Run;
    var landed := E.Landed(Echo(cd, e, actor, constitutionHash, ns, wall));
    EchoIsAbsorbed(events, cd, e, actor, constitutionHash, ns, wall);
    StageKinds(e.stage);
    var all := events + [landed] + later;
    assert all[|events|] == landed && AgentStanding.Quarantines(all[|events|], e.target);
    assert forall j :: |events| < j < |all| ==> all[j] == later[j - |events| - 1];
    assert AgentStanding.LatestIsQuarantine(all, e.target);
    AgentStanding.StandingFollowsReceipts(all, e.target);
    assert QuarantinedAfter(all)(e.target);
    CapabilityLaws.QuarantineBlocks(env, store, c, id, d, now, QuarantinedAfter(all));
  }
}
