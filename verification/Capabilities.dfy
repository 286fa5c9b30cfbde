/** Capabilities and the store's operations as functions on values. */
module Capabilities {
  import opened Wrappers
  import opened Scope

  type Hash = string
  type AgentId = string

  /** Only the tag caveats are decided at this layer; the other four always pass here. */
  datatype Caveat =
    | OnlyIfTagged(requiredTags: seq<string>)
    | NeverIfTagged(forbiddenTags: seq<string>)
    | TimeOfDay(fromUtc: string, toUtc: string)
    | ConstitutionVersion(minVersion: string, maxVersion: Option<string>)
    | SupervisorRequired(role: string)
    | RateLimit(maxActions: nat, windowSeconds: nat)

  predicate CaveatPermits(c: Caveat, d: Descriptor) {
    match c
    case OnlyIfTagged(tags) => forall t :: t in tags ==> t in d.resourceTags
    case NeverIfTagged(tags) => forall t :: t in tags ==> t !in d.resourceTags
    case _ => true
  }

  function CaveatLabel(c: Caveat): string {
    match c
    case OnlyIfTagged(_) => "only_if_tagged"
    case NeverIfTagged(_) => "never_if_tagged"
    case TimeOfDay(_, _) => "time_of_day"
    case ConstitutionVersion(_, _) => "constitution_version"
    case SupervisorRequired(_) => "supervisor_required"
    case RateLimit(_, _) => "rate_limit"
  }

  /** What a content address covers: everything but the signature. Times are absent when their text is malformed. */
  datatype Content = Content(
    identity: string,
    swarm: string,
    subject: AgentId,
    scope: Scope,
    parent: Option<Hash>,
    validFrom: Option<int>,
    validUntil: Option<int>,
    caveats: seq<Caveat>)

  datatype Capability = Capability(content: Content, signature: Option<string>)

  predicate WithinWindow(c: Content, now: Option<int>) {
    && now.Some? && c.validFrom.Some? && c.validUntil.Some?
    && c.validFrom.value <= now.value <= c.validUntil.value
  }

  /** What the store is configured with. */
  datatype Env = Env(addr: Content -> Hash, parse: Parser, maxDepth: nat)

  datatype Store = Store(byId: map<Hash, Capability>, revoked: map<Hash, string>)

  const NEW_STORE := Store(map[], map[])

  datatype Error =
    | SubjectQuarantined(subject: AgentId)
    | MissingParent
    | ParentNotFound(parent: Hash)
    | AttenuationBroadens
    | NotFound(id: Hash)
    | ChainTooDeep(actual: nat, max: nat)
    | MissingLink(id: Hash)

  // ------------------------------------------------------- changing the store

  function Insert(env: Env, s: Store, c: Capability): Store {
    s.(byId := s.byId[env.addr(c.content) := c])
  }

  function Issue(env: Env, s: Store, c: Capability, quarantined: AgentId -> bool): (Store, Result<Hash, Error>) {
    if quarantined(c.content.subject) then (s, Err(SubjectQuarantined(c.content.subject)))
    else (Insert(env, s, c), Ok(env.addr(c.content)))
  }

  function Attenuate(env: Env, s: Store, child: Capability, quarantined: AgentId -> bool): (Store, Result<Hash, Error>) {
    var parent := child.content.parent;
    if quarantined(child.content.subject) then (s, Err(SubjectQuarantined(child.content.subject)))
    else if parent.None? then (s, Err(MissingParent))
    else if parent.value !in s.byId then (s, Err(ParentNotFound(parent.value)))
    else if Intersect(env.parse, s.byId[parent.value].content.scope, child.content.scope) != child.content.scope then
      (s, Err(AttenuationBroadens))
    else (Insert(env, s, child), Ok(env.addr(child.content)))
  }

  function Revoke(s: Store, id: Hash, reason: string): (Store, Result<(), Error>) {
    if id !in s.byId then (s, Err(NotFound(id)))
    else (s.(revoked := s.revoked[id := reason]), Ok(()))
  }

  function Lookup(s: Store, id: Hash): Option<Capability> {
    if id in s.revoked || id !in s.byId then None else Some(s.byId[id])
  }

  function Listed(s: Store, agent: AgentId): set<Hash> {
    set id | id in s.byId && s.byId[id].content.subject == agent && id !in s.revoked
  }

  // ----------------------------------------------------------------- checking

  datatype Outcome = Outcome(permitted: bool, denyReason: string, matched: seq<string>, unmet: seq<string>)

  function Deny(reason: string, unmet: seq<string>): Outcome {
    Outcome(false, reason, [], unmet)
  }

  /** The leaf-to-root walk: the links found, or why it stopped. */
  datatype Walk = Links(caps: seq<Content>) | Stopped(result: Result<Outcome, Error>)

  function Before(cap: Content, rest: Walk): Walk {
    match rest
    case Links(caps) => Links([cap] + caps)
    case Stopped(_) => rest
  }

  function WalkFrom(env: Env, s: Store, now: Option<int>, cursor: Option<Hash>, depth: nat): Walk
    requires depth <= env.maxDepth
    decreases env.maxDepth - depth
  {
    if cursor.None? then Links([])
    else
      var id := cursor.value;
      if depth + 1 > env.maxDepth then Stopped(Err(ChainTooDeep(depth + 1, env.maxDepth)))
      else if id in s.revoked then Stopped(Ok(Deny("capability revoked in chain", [])))
      else if id !in s.byId then Stopped(Err(MissingLink(id)))
      else
        var cap := s.byId[id].content;
        if !WithinWindow(cap, now) then Stopped(Ok(Deny("capability outside validity window", [])))
        else Before(cap, WalkFrom(env, s, now, cap.parent, depth + 1))
  }

  /** Intersect scopes from the first (the root) to the last (the leaf). */
  function Fold(parse: Parser, caps: seq<Content>): Scope {
    if caps == [] then EMPTY
    else if |caps| == 1 then caps[0].scope
    else Intersect(parse, Fold(parse, caps[..|caps| - 1]), caps[|caps| - 1].scope)
  }

  function Labels(caveats: seq<Caveat>, d: Descriptor, permitted: bool): seq<string> {
    if caveats == [] then []
    else
      Labels(caveats[..|caveats| - 1], d, permitted)
      + if CaveatPermits(caveats[|caveats| - 1], d) == permitted then [CaveatLabel(caveats[|caveats| - 1])] else []
  }

  function AllCaveats(caps: seq<Content>): seq<Caveat> {
    if caps == [] then [] else AllCaveats(caps[..|caps| - 1]) + caps[|caps| - 1].caveats
  }

  function Reversed<T>(s: seq<T>): (r: seq<T>)
    ensures |r| == |s| && forall i :: 0 <= i < |s| ==> r[i] == s[|s| - 1 - i]
  {
    seq(|s|, i requires 0 <= i < |s| => s[|s| - 1 - i])
  }

  /** The decision once the whole chain, root first, is in hand. */
  function Decide(parse: Parser, chain: seq<Content>, d: Descriptor): Outcome {
    if !Permits(parse, Fold(parse, chain), d) then
      Deny("effective scope (after chain intersection) does not permit action", [])
    else
      var unmet := Labels(AllCaveats(chain), d, false);
      if unmet != [] then Deny("caveat(s) in chain not met", unmet)
      else Outcome(true, "", Labels(AllCaveats(chain), d, true), [])
  }

  function Check(env: Env, s: Store, id: Hash, d: Descriptor, now: Option<int>, quarantined: AgentId -> bool)
    : Result<Outcome, Error>
  {
    if id in s.byId && id !in s.revoked && quarantined(s.byId[id].content.subject) then
      Ok(Deny("subject_quarantined", []))
    else
      match WalkFrom(env, s, now, Some(id), 0)
      case Stopped(result) => result
      case Links(caps) => Ok(Decide(env.parse, Reversed(caps), d))
  }

  predicate IsPermit(r: Result<Outcome, Error>) {
    r.Ok? && r.value.permitted
  }

  // --------------------------------------------------------------------- runs

  datatype Op =
    | Issued(cap: Capability, quarantined: AgentId -> bool)
    | Attenuated(cap: Capability, quarantined: AgentId -> bool)
    | Revoked(id: Hash, reason: string)

  function Apply(env: Env, s: Store, op: Op): Store {
    match op
    case Issued(c, q) => Issue(env, s, c, q).0
    case Attenuated(c, q) => Attenuate(env, s, c, q).0
    case Revoked(id, reason) => Revoke(s, id, reason).0
  }

  function RunFrom(env: Env, s: Store, ops: seq<Op>): Store {
    if ops == [] then s else Apply(env, RunFrom(env, s, ops[..|ops| - 1]), ops[|ops| - 1])
  }
}
