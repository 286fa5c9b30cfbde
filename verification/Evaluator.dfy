/** The evaluator: an active and a shadow constitution, and one procedure index that only the active one may touch. */
module Evaluator {
  import opened Wrappers
  import opened Snapshots
  import opened Text
  import StableSort
  import P = Procedures

  type Hash = nat

  /** A validated constitution: its content hash, its procedures, and the rest as one value. */
  datatype Constitution = Constitution(hash: Hash, procedures: P.Config, text: string)

  datatype Body = Body(
    principal: string,
    action: string,
    resource: Uid,
    snapshot: seq<EntityRecord>,
    context: map<string, nat>,
    wallClock: string)

  /** A request is pinned to the constitution that its sender believes to be active. */
  datatype Request = Request(pin: Hash, body: Body)

  datatype Error = ConstitutionUnresolved | EntityStoreSize | RequestShapeInvalid | EntityUnresolved | LoadRejected

  datatype Contribution = Contribution(ruleId: string, score: string)

  /** Cedar, the loader and the digests, as functions of what they are given. */
  datatype Env = Env(
    maxEntities: nat,
    loads: Constitution -> bool,
    typeNameOk: string -> bool,
    entityIdOk: string -> bool,
    entitiesOk: (Constitution, seq<EntityRecord>) -> bool,
    contextOk: map<string, nat> -> bool,
    requestOk: (Constitution, Body) -> bool,
    allows: (Constitution, Body) -> bool,
    reasons: (Constitution, Body) -> seq<string>,
    scores: (Constitution, Body) -> (seq<Contribution>, Option<string>),
    matchedTriggers: (Constitution, Body) -> seq<string>,
    matchedTransitions: (Constitution, Body) -> seq<string>,
    swarm: Constitution -> string,
    hashInput: (string, string, Uid, map<string, nat>, seq<EntityRecord>, string) -> string,
    hashEvidence: (seq<string>, seq<Contribution>, seq<P.Effect>, string) -> Hash)

  datatype Outcome = Outcome(
    permit: bool,
    denyReason: Option<string>,
    matchedRules: seq<string>,
    scores: seq<Contribution>,
    total: Option<string>,
    effects: seq<P.Effect>,
    evidence: Hash)

  // ---- Building the request ----

  predicate ColonsAt(s: string, i: nat) {
    i + 2 <= |s| && s[i] == ':' && s[i + 1] == ':'
  }

  /** The last place at which two colons stand together. */
  function LastColons(s: string): (r: Option<nat>)
    ensures r.Some? ==> ColonsAt(s, r.value)
    ensures forall i: nat :: ColonsAt(s, i) ==> r.Some? && i <= r.value
  {
    if |s| < 2 then
      None
    else if ColonsAt(s, |s| - 2) then
      Some(|s| - 2)
    else
      var front := s[..|s| - 1];
      assert forall i: nat :: ColonsAt(s, i) ==> ColonsAt(front, i);
      LastColons(front)
  }

  /** A bare action name belongs to the default type. */
  function ActionUid(action: string): (uid: Uid)
    ensures LastColons(action).Some? ==> uid.entityType + "::" + uid.entityId == action
    ensures forall i: nat :: ColonsAt(action, i) ==> i <= |uid.entityType|
    ensures LastColons(action).None? ==> uid.entityType == "Yutha::Action" && uid.entityId == action
  {
    match LastColons(action)
    case None => Uid("Yutha::Action", action)
    case Some(i) =>
      assert action == action[..i] + "::" + action[i + 2..];
      Uid(action[..i], action[i + 2..])
  }

  function UidError(env: Env, uid: Uid): Option<Error> {
    if !env.typeNameOk(uid.entityType) then Some(RequestShapeInvalid)
    else if !env.entityIdOk(uid.entityId) then Some(EntityUnresolved)
    else None
  }

  /** Bounds and names fail whatever the constitution says; the rest depends on its schema. */
  datatype Prep = Fails(error: Error) | Rejected(error: Error) | Ready

  function Prepare(env: Env, c: Constitution, b: Body): Prep {
    var principal := UidError(env, Uid("Yutha::Agent", b.principal));
    var action := UidError(env, ActionUid(b.action));
    var resource := UidError(env, b.resource);
    if |b.snapshot| > env.maxEntities then Fails(EntityStoreSize)
    else if principal.Some? then Fails(principal.value)
    else if action.Some? then Fails(action.value)
    else if resource.Some? then Fails(resource.value)
    else if !env.entitiesOk(c, b.snapshot) then Rejected(EntityUnresolved)
    else if !env.contextOk(b.context) || !env.requestOk(c, b) then Rejected(RequestShapeInvalid)
    else Ready
  }

  function InputDigest(env: Env, b: Body): string {
    env.hashInput(b.action, b.principal, b.resource, b.context, Canonical(b.snapshot), b.wallClock)
  }

  /** What the procedure subsystem is given. */
  function ProcedureRequest(env: Env, c: Constitution, b: Body): P.Request {
    P.Request(env.matchedTriggers(c, b), env.matchedTransitions(c, b), b.action, InputDigest(env, b), env.swarm(c), b.wallClock)
  }

  function DenyReason(reasons: seq<string>): string {
    if reasons == [] then "no_permit_rule" else "forbid_rule_matched"
  }

  function Evidence(env: Env, b: Body, rules: seq<string>, scores: seq<Contribution>, effects: seq<P.Effect>): Hash {
    env.hashEvidence(StableSort.Sort(rules, TextLe), scores, effects, InputDigest(env, b))
  }

  // ---- What an evaluation may answer ----

  /**
   * The part of an outcome that the inputs determine. The instances that one transition moves come in no fixed
   * order, so moves are a multiset here; the evidence hash follows the order in which they were reported.
   */
  datatype Verdict = Verdict(
    permit: bool,
    denyReason: Option<string>,
    matchedRules: seq<string>,
    scores: seq<Contribution>,
    total: Option<string>,
    entered: seq<P.Effect>,
    moved: multiset<P.Effect>)

  ghost predicate Shows(o: Outcome, v: Verdict) {
    && o.permit == v.permit && o.denyReason == v.denyReason && o.matchedRules == v.matchedRules
    && o.scores == v.scores && o.total == v.total
    && v.entered <= o.effects && multiset(o.effects[|v.entered|..]) == v.moved
  }

  ghost predicate AnswersAs(env: Env, b: Body, r: Result<Outcome, Error>, v: Result<Verdict, Error>) {
    match v
    case Err(e) => r == Err(e)
    case Ok(w) =>
      && r.Ok? && Shows(r.value, w)
      && r.value.evidence == Evidence(env, b, r.value.matchedRules, r.value.scores, r.value.effects)
  }

  /** Layer A and scoring. */
  function Decided(env: Env, c: Constitution, b: Body, entered: seq<P.Effect>, moved: multiset<P.Effect>): Verdict {
    var reasons := env.reasons(c, b);
    if env.allows(c, b) then
      Verdict(true, None, reasons, env.scores(c, b).0, env.scores(c, b).1, entered, moved)
    else
      Verdict(false, Some(DenyReason(reasons)), reasons, [], None, [], multiset{})
  }

  function ActiveVerdict(env: Env, c: Constitution, index: P.Index, b: Body): Result<Verdict, Error> {
    match Prepare(env, c, b)
    case Fails(e) => Err(e)
    case Rejected(e) => Err(e)
    case Ready =>
      var req := ProcedureRequest(env, c, b);
      Ok(Decided(env, c, b,
                 P.EnterEffects(c.procedures, index, req, req.matchedTriggers),
                 P.MoveEffects(c.procedures, P.TriggerAll(c.procedures, index, req, req.matchedTriggers), req,
                               req.matchedTransitions)))
  }

  /** Only a permit reaches the procedures. */
  function ActiveIndex(env: Env, c: Constitution, index: P.Index, b: Body): P.Index {
    if Prepare(env, c, b).Ready? && env.allows(c, b) then
      P.Evaluate(c.procedures, index, ProcedureRequest(env, c, b))
    else
      index
  }

  /** What the schema rejects becomes a deny; procedures are skipped. */
  function ShadowVerdict(env: Env, c: Constitution, b: Body): Result<Verdict, Error> {
    match Prepare(env, c, b)
    case Fails(e) => Err(e)
    case Rejected(_) => Ok(Verdict(false, Some("shadow_schema_incompatible"), [], [], None, [], multiset{}))
    case Ready => Ok(Decided(env, c, b, [], multiset{}))
  }

  /** An evaluation of the active slot, pin included. */
  function Answer(env: Env, active: Option<Constitution>, index: P.Index, r: Request): Result<Verdict, Error> {
    if active.None? || r.pin != active.value.hash then
      Err(ConstitutionUnresolved)
    else
      ActiveVerdict(env, active.value, index, r.body)
  }

  function IndexAfter(env: Env, active: Option<Constitution>, index: P.Index, r: Request): P.Index {
    if active.None? || r.pin != active.value.hash then index else ActiveIndex(env, active.value, index, r.body)
  }

  // ---- Answers in the evaluator's own words ----

  /** What an outcome of this constitution must say: Cedar's decision, its reasons, and a digest over all of it. */
  ghost predicate Decides(env: Env, c: Constitution, b: Body, o: Outcome) {
    && (o.permit <==> env.allows(c, b))
    && o.matchedRules == env.reasons(c, b)
    && (o.permit ==> o.denyReason.None? && (o.scores, o.total) == env.scores(c, b))
    && (!o.permit ==> o.scores == [] && o.total.None? && o.effects == [])
    && (!o.permit ==> o.denyReason == Some(if |env.reasons(c, b)| == 0 then "no_permit_rule" else "forbid_rule_matched"))
    && o.evidence == env.hashEvidence(StableSort.Sort(o.matchedRules, TextLe), o.scores, o.effects, Digest(env, b))
  }

  function Digest(env: Env, b: Body): string {
    env.hashInput(b.action, b.principal, b.resource, b.context, Canonical(b.snapshot), b.wallClock)
  }

  predicate NameOk(env: Env, uid: Uid) {
    env.typeNameOk(uid.entityType) && env.entityIdOk(uid.entityId)
  }

  /** Nothing about the request fails before a schema is asked. */
  predicate WellNamed(env: Env, b: Body) {
    && |b.snapshot| <= env.maxEntities
    && NameOk(env, Uid("Yutha::Agent", b.principal)) && NameOk(env, ActionUid(b.action)) && NameOk(env, b.resource)
  }

  /** The error of the first part that is malformed: a type name makes the shape invalid, an id leaves the entity unresolved. */
  predicate NamingFault(env: Env, b: Body, e: Error) {
    var agent, action, resource := Uid("Yutha::Agent", b.principal), ActionUid(b.action), b.resource;
    || (|b.snapshot| > env.maxEntities && e == EntityStoreSize)
    || (|b.snapshot| <= env.maxEntities && FaultOf(env, agent, e))
    || (|b.snapshot| <= env.maxEntities && NameOk(env, agent) && FaultOf(env, action, e))
    || (|b.snapshot| <= env.maxEntities && NameOk(env, agent) && NameOk(env, action) && FaultOf(env, resource, e))
  }

  predicate FaultOf(env: Env, uid: Uid, e: Error) {
    || (!env.typeNameOk(uid.entityType) && e == RequestShapeInvalid)
    || (env.typeNameOk(uid.entityType) && !env.entityIdOk(uid.entityId) && e == EntityUnresolved)
  }

  /** The constitution's schema takes the entities, the context and the request. */
  predicate SchemaTakes(env: Env, c: Constitution, b: Body) {
    env.entitiesOk(c, b.snapshot) && env.contextOk(b.context) && env.requestOk(c, b)
  }

  /** What the active side must answer, and what must become of the procedure instances. */
  ghost predicate ActiveSays(env: Env, active: Option<Constitution>, r: Request, before: P.Index, o: Result<Outcome, Error>,
                             after: P.Index)
  {
    if active.Some? && active.value.hash == r.pin then
      Says(env, active.value, r.body, before, o, after)
    else
      o == Err(ConstitutionUnresolved) && after == before
  }

  /** The same of a request that is pinned to its constitution. */
  ghost predicate Says(env: Env, c: Constitution, b: Body, before: P.Index, o: Result<Outcome, Error>, after: P.Index) {
    && (!WellNamed(env, b) ==> o.Err? && NamingFault(env, b, o.error))
    && (WellNamed(env, b) && !SchemaTakes(env, c, b) ==>
          o == Err(if env.entitiesOk(c, b.snapshot) then RequestShapeInvalid else EntityUnresolved))
    && (WellNamed(env, b) && SchemaTakes(env, c, b) ==> o.Ok? && Decides(env, c, b, o.value))
    && (o.Err? || !o.value.permit ==> after == before)
    && (o.Ok? && o.value.permit ==>
          after == P.Evaluate(c.procedures, before, Asked(env, c, b)) && Reports(c, before, Asked(env, c, b), o.value.effects))
  }

  /** The entries of the matched triggers in their order, then the moves of the matched transitions in some order. */
  ghost predicate Reports(c: Constitution, before: P.Index, q: P.Request, effects: seq<P.Effect>) {
    var entered := P.EnterEffects(c.procedures, before, q, q.matchedTriggers);
    && entered <= effects
    && multiset(effects[|entered|..]) ==
         P.MoveEffects(c.procedures, P.TriggerAll(c.procedures, before, q, q.matchedTriggers), q, q.matchedTransitions)
  }

  /** What the procedures are asked: what Cedar matched, for this action, named by the digest of the whole input. */
  function Asked(env: Env, c: Constitution, b: Body): P.Request {
    P.Request(env.matchedTriggers(c, b), env.matchedTransitions(c, b), b.action, Digest(env, b), env.swarm(c), b.wallClock)
  }

  /** What the shadow side must answer to a well-named request. */
  ghost predicate ShadowSays(env: Env, shadow: Constitution, b: Body, o: Outcome) {
    && o.effects == []
    && (SchemaTakes(env, shadow, b) ==> Decides(env, shadow, b, o))
    && (!SchemaTakes(env, shadow, b) ==>
          o == Outcome(false, Some("shadow_schema_incompatible"), [], [], None, [],
                       env.hashEvidence([], [], [], Digest(env, b))))
  }

  ghost predicate EitherSays(env: Env, c: Constitution, b: Body, shadow: bool, before: P.Index, o: Result<Outcome, Error>,
                             after: P.Index)
  {
    if !shadow then Says(env, c, b, before, o, after)
    else if o.Ok? then ShadowSays(env, c, b, o.value)
    else !WellNamed(env, b) && NamingFault(env, b, o.error)
  }

  lemma PrepMeans(env: Env, c: Constitution, b: Body)
    ensures var p := Prepare(env, c, b);
      && (p.Fails? <==> !WellNamed(env, b))
      && (p.Fails? ==> NamingFault(env, b, p.error))
      && (p.Ready? <==> WellNamed(env, b) && SchemaTakes(env, c, b))
      && (p.Rejected? ==> p.error == if env.entitiesOk(c, b.snapshot) then RequestShapeInvalid else EntityUnresolved)
  {
    hide ActionUid;
  }

  lemma DecidedMeans(env: Env, c: Constitution, b: Body, entered: seq<P.Effect>, moved: multiset<P.Effect>, o: Outcome)
    requires AnswersAs(env, b, Ok(o), Ok(Decided(env, c, b, entered, moved)))
    ensures Decides(env, c, b, o)
    ensures entered == [] && moved == multiset{} ==> o.effects == []
  {
    hide StableSort.Sort, Canonical;
    NoMoves(o.effects);
  }

  lemma NoMoves(effects: seq<P.Effect>)
    ensures multiset(effects[0..]) == multiset{} ==> effects == []
  {
    assert effects[0..] == effects;
    assert |multiset(effects)| == |effects|;
  }

  lemma ActiveMeans(env: Env, c: Constitution, b: Body, before: P.Index, o: Result<Outcome, Error>, after: P.Index)
    requires AnswersAs(env, b, o, ActiveVerdict(env, c, before, b)) && after == ActiveIndex(env, c, before, b)
    ensures Says(env, c, b, before, o, after)
  {
    hide P.Evaluate, P.EnterEffects, P.MoveEffects, P.TriggerAll, StableSort.Sort, Canonical, Decided;
    PrepMeans(env, c, b);
    hide Prepare, WellNamed, NamingFault, SchemaTakes, Decides;
    if Prepare(env, c, b).Ready? {
      if env.allows(c, b) {
        PermitReports(env, c, b, before, o.value);
      }
      hide Reports;
      var req := ProcedureRequest(env, c, b);
      assert req == Asked(env, c, b);
      DecidedMeans(env, c, b, P.EnterEffects(c.procedures, before, req, req.matchedTriggers),
                   P.MoveEffects(c.procedures, P.TriggerAll(c.procedures, before, req, req.matchedTriggers), req,
                                 req.matchedTransitions), o.value);
      PermitIs(env, c, b, o.value);
    }
  }

  lemma PermitReports(env: Env, c: Constitution, b: Body, before: P.Index, o: Outcome)
    requires env.allows(c, b) && Prepare(env, c, b).Ready?
    requires AnswersAs(env, b, Ok(o), ActiveVerdict(env, c, before, b))
    ensures Reports(c, before, Asked(env, c, b), o.effects)
  {
    hide P.Evaluate, P.EnterEffects, P.MoveEffects, P.TriggerAll, StableSort.Sort, Canonical, Prepare;
    assert ProcedureRequest(env, c, b) == Asked(env, c, b);
  }

  lemma PermitIs(env: Env, c: Constitution, b: Body, o: Outcome)
    requires Decides(env, c, b, o)
    ensures o.permit <==> env.allows(c, b)
  {
  }

  lemma ShadowMeans(env: Env, shadow: Constitution, b: Body, o: Outcome)
    requires AnswersAs(env, b, Ok(o), ShadowVerdict(env, shadow, b))
    ensures WellNamed(env, b) && ShadowSays(env, shadow, b, o)
  {
    hide StableSort.Sort, Canonical, Decided;
    PrepMeans(env, shadow, b);
    hide Prepare, WellNamed, NamingFault, SchemaTakes;
    if Prepare(env, shadow, b).Ready? {
      DecidedMeans(env, shadow, b, [], multiset{}, o);
    } else {
      NoMoves(o.effects);
      NothingSorted();
    }
    hide Decides;
  }

  /** What one side answers, by the side it is. */
  lemma EitherMeans(env: Env, c: Constitution, b: Body, shadow: bool, before: P.Index, o: Result<Outcome, Error>,
                    after: P.Index)
    requires !shadow ==> AnswersAs(env, b, o, ActiveVerdict(env, c, before, b)) && after == ActiveIndex(env, c, before, b)
    requires shadow ==> AnswersAs(env, b, o, ShadowVerdict(env, c, b))
    ensures EitherSays(env, c, b, shadow, before, o, after)
  {
    hide AnswersAs, Says, ShadowSays, ActiveIndex;
    if !shadow {
      ActiveMeans(env, c, b, before, o, after);
    } else if o.Ok? {
      ShadowMeans(env, c, b, o.value);
    } else {
      ShadowErr(env, c, b, o);
    }
  }

  lemma ShadowErr(env: Env, c: Constitution, b: Body, o: Result<Outcome, Error>)
    requires AnswersAs(env, b, o, ShadowVerdict(env, c, b)) && o.Err?
    ensures !WellNamed(env, b) && NamingFault(env, b, o.error)
  {
    PrepMeans(env, c, b);
    hide Prepare, WellNamed, NamingFault, SchemaTakes;
  }

  lemma NothingSorted()
    ensures StableSort.Sort<string>([], TextLe) == []
  {
  }

  /** A shadow fails only in ways that no constitution could help, so the active side has failed there first. */
  lemma ShadowFailsTogether(env: Env, active: Constitution, shadow: Constitution, index: P.Index, b: Body)
    ensures ShadowVerdict(env, shadow, b).Err? ==>
      ActiveVerdict(env, active, index, b) == Err(ShadowVerdict(env, shadow, b).error)
  {
    FailsTogether(env, active, shadow, b);
    hide Prepare, Decided, P.EnterEffects, P.MoveEffects, P.TriggerAll, ProcedureRequest;
  }

  lemma FailsTogether(env: Env, c: Constitution, d: Constitution, b: Body)
    ensures Prepare(env, d, b).Fails? ==> Prepare(env, c, b) == Prepare(env, d, b)
  {
    hide UidError, ActionUid;
  }

  function Paired(active: Outcome, shadow: Result<Outcome, Error>): Result<(Outcome, Option<Outcome>), Error> {
    match shadow
    case Err(e) => Err(e)
    case Ok(s) => Ok((active, Some(s)))
  }

  // ---- Runs ----

  datatype State = State(current: Option<Constitution>, shadow: Option<Constitution>, index: P.Index)

  const FRESH := State(None, None, map[])

  datatype Event =
    | Activated(c: Constitution)
    | ShadowActivated(c: Constitution)
    | ShadowCleared
    | Promoted
    | Evaluated(r: Request)
    | PairEvaluated(r: Request)

  function Step(env: Env, s: State, e: Event): State {
    match e
    case Activated(c) => if env.loads(c) then s.(current := Some(c)) else s
    case ShadowActivated(c) => if env.loads(c) then s.(shadow := Some(c)) else s
    case ShadowCleared => s.(shadow := None)
    case Promoted => if s.shadow.Some? then s.(current := s.shadow, shadow := None) else s
    case Evaluated(r) => s.(index := IndexAfter(env, s.current, s.index, r))
    case PairEvaluated(r) => s.(index := IndexAfter(env, s.current, s.index, r))
  }

  function Run(env: Env, s: State, h: seq<Event>): State {
    if h == [] then s else Step(env, Run(env, s, h[..|h| - 1]), h[|h| - 1])
  }

  /** The active answers of a run, in order. */
  function Answers(env: Env, s: State, h: seq<Event>): seq<Result<Verdict, Error>> {
    if h == [] then
      []
    else
      Answers(env, s, h[..|h| - 1]) + Given(env, Run(env, s, h[..|h| - 1]), h[|h| - 1])
  }

  function Given(env: Env, before: State, e: Event): seq<Result<Verdict, Error>> {
    if e.Evaluated? || e.PairEvaluated? then [Answer(env, before.current, before.index, e.r)] else []
  }

  lemma OneMore(env: Env, s: State, h: seq<Event>, e: Event)
    ensures Run(env, s, h + [e]) == Step(env, Run(env, s, h), e)
    ensures Answers(env, s, h + [e]) == Answers(env, s, h) + Given(env, Run(env, s, h), e)
  {
    assert (h + [e])[..|h|] == h;
  }

  // ---- The object ----

  datatype Promotion = Promotion(fromHash: Option<Hash>, toHash: Hash)

  class CedarPlusEvaluator {
    const env: Env
    const procedures: P.ProcedureIndex
    var current: Option<Constitution>
    var currentShadow: Option<Constitution>

    /** Every call so far, and what the active side answered. */
    ghost var history: seq<Event>
    ghost var answers: seq<Result<Verdict, Error>>

    ghost function View(): State
      reads this, procedures
    {
      State(current, currentShadow, procedures.instances)
    }

    /** The evaluator is where its own history leads. */
    ghost predicate Valid()
      reads this, procedures
    {
      View() == Run(env, FRESH, history) && answers == Answers(env, FRESH, history)
    }

    constructor (env: Env)
      ensures Valid() && this.env == env && View() == FRESH && history == [] && answers == []
      ensures fresh(procedures)
    {
      this.env := env;
      procedures := new P.ProcedureIndex();
      current, currentShadow := None, None;
      history, answers := [], [];
    }

    method Activate(c: Constitution) returns (r: Result<Hash, Error>)
      requires Valid()
      modifies this
      ensures Valid() && history == old(history) + [Activated(c)]
      ensures View() == Step(env, old(View()), Activated(c))
      ensures answers == old(answers) + Given(env, old(View()), Activated(c))
      ensures currentShadow == old(currentShadow)
      ensures r == if env.loads(c) then Ok(c.hash) else Err(LoadRejected)
      ensures current == if env.loads(c) then Some(c) else old(current)
    {
      OneMore(env, FRESH, history, Activated(c));
      answers := answers + Given(env, View(), Activated(c));
      history := history + [Activated(c)];
      if !env.loads(c) {
        return Err(LoadRejected);
      }
      current := Some(c);
      r := Ok(c.hash);
    }

    method ActivateShadow(c: Constitution) returns (r: Result<Hash, Error>)
      requires Valid()
      modifies this
      ensures Valid() && history == old(history) + [ShadowActivated(c)]
      ensures View() == Step(env, old(View()), ShadowActivated(c))
      ensures answers == old(answers) + Given(env, old(View()), ShadowActivated(c))
      ensures current == old(current)
      ensures r == if env.loads(c) then Ok(c.hash) else Err(LoadRejected)
      ensures currentShadow == if env.loads(c) then Some(c) else old(currentShadow)
    {
      OneMore(env, FRESH, history, ShadowActivated(c));
      answers := answers + Given(env, View(), ShadowActivated(c));
      history := history + [ShadowActivated(c)];
      if !env.loads(c) {
        return Err(LoadRejected);
      }
      currentShadow := Some(c);
      r := Ok(c.hash);
    }

    method ClearShadow() returns (was: Option<Hash>)
      requires Valid()
      modifies this
      ensures Valid() && history == old(history) + [ShadowCleared]
      ensures View() == Step(env, old(View()), ShadowCleared)
      ensures answers == old(answers) + Given(env, old(View()), ShadowCleared)
      ensures current == old(current) && currentShadow.None?
      ensures was == if old(currentShadow).Some? then Some(old(currentShadow).value.hash) else None
    {
      OneMore(env, FRESH, history, ShadowCleared);
      answers := answers + Given(env, View(), ShadowCleared);
      history := history + [ShadowCleared];
      was := if currentShadow.Some? then Some(currentShadow.value.hash) else None;
      currentShadow := None;
    }

    method PromoteShadow() returns (p: Option<Promotion>)
      requires Valid()
      modifies this
      ensures Valid() && history == old(history) + [Promoted]
      ensures View() == Step(env, old(View()), Promoted)
      ensures answers == old(answers) + Given(env, old(View()), Promoted)
      ensures currentShadow.None?
      ensures old(currentShadow).None? ==> p.None? && current == old(current)
      ensures old(currentShadow).Some? ==> current == old(currentShadow)
      ensures old(currentShadow).Some? ==>
        p == Some(Promotion(if old(current).Some? then Some(old(current).value.hash) else None, current.value.hash))
    {
      OneMore(env, FRESH, history, Promoted);
      answers := answers + Given(env, View(), Promoted);
      history := history + [Promoted];
      if currentShadow.None? {
        return None;
      }
      var shadow := currentShadow.value;
      currentShadow := None;
      var previous := current;
      current := Some(shadow);
      p := Some(Promotion(if previous.Some? then Some(previous.value.hash) else None, shadow.hash));
    }

    method Evaluate(r: Request) returns (o: Result<Outcome, Error>)
      requires Valid()
      modifies `history, `answers, procedures
      ensures Valid() && history == old(history) + [Evaluated(r)]
      ensures View() == Step(env, old(View()), Evaluated(r))
      ensures answers == old(answers) + Given(env, old(View()), Evaluated(r))
      ensures AnswersAs(env, r.body, o, Answer(env, current, old(procedures.instances), r))
      ensures ActiveSays(env, current, r, old(procedures.instances), o, procedures.instances)
      ensures procedures.instances == IndexAfter(env, current, old(procedures.instances), r)
    {
      hide StableSort.Sort, P.Evaluate, P.EnterEffects, P.MoveEffects, Prepare, Answers, Run;
      OneMore(env, FRESH, history, Evaluated(r));
      answers := answers + Given(env, View(), Evaluated(r));
      history := history + [Evaluated(r)];
      if current.None? {
        return Err(ConstitutionUnresolved);
      }
      if r.pin != current.value.hash {
        return Err(ConstitutionUnresolved);
      }
      o := EvaluateAgainst(r.body, current.value, false);
    }

    /** The active evaluation, then the shadow's on the same body under the shadow's own pin. */
    method EvaluatePair(r: Request) returns (o: Result<(Outcome, Option<Outcome>), Error>)
      requires Valid()
      modifies `history, `answers, procedures
      ensures Valid() && history == old(history) + [PairEvaluated(r)]
      ensures View() == Step(env, old(View()), PairEvaluated(r))
      ensures answers == old(answers) + Given(env, old(View()), PairEvaluated(r))
      ensures o.Err? ==> Answer(env, current, old(procedures.instances), r) == Err(o.error)
      ensures o.Ok? ==> AnswersAs(env, r.body, Ok(o.value.0), Answer(env, current, old(procedures.instances), r))
      ensures procedures.instances == IndexAfter(env, current, old(procedures.instances), r)
      ensures ActiveSays(env, current, r, old(procedures.instances), if o.Ok? then Ok(o.value.0) else Err(o.error),
                         procedures.instances)
      ensures o.Ok? ==> (o.value.1.Some? <==> currentShadow.Some?)
      ensures o.Ok? && currentShadow.Some? ==> ShadowSays(env, currentShadow.value, r.body, o.value.1.value)
      ensures o.Ok? && currentShadow.Some? ==>
        && AnswersAs(env, r.body, Ok(o.value.1.value), ShadowVerdict(env, currentShadow.value, r.body))
        && o.value.1.value.effects == []
    {
      hide StableSort.Sort, P.Evaluate, P.EnterEffects, P.MoveEffects, Prepare, Answers, Run;
      OneMore(env, FRESH, history, PairEvaluated(r));
      answers := answers + Given(env, View(), PairEvaluated(r));
      history := history + [PairEvaluated(r)];
      if current.None? || r.pin != current.value.hash {
        return Err(ConstitutionUnresolved);
      }
      var active := EvaluateAgainst(r.body, current.value, false);
      if active.Err? {
        return Err(active.error);
      }
      if currentShadow.None? {
        return Ok((active.value, None));
      }
      ShadowFailsTogether(env, current.value, currentShadow.value, old(procedures.instances), r.body);
      var shadow := EvaluateAgainst(r.body, currentShadow.value, true);
      o := Paired(active.value, shadow);
    }

    method EvaluateAgainst(b: Body, c: Constitution, shadow: bool) returns (o: Result<Outcome, Error>)
      modifies procedures
      ensures !shadow ==> AnswersAs(env, b, o, ActiveVerdict(env, c, old(procedures.instances), b))
      ensures !shadow ==> procedures.instances == ActiveIndex(env, c, old(procedures.instances), b)
      ensures shadow ==> AnswersAs(env, b, o, ShadowVerdict(env, c, b)) && procedures.instances == old(procedures.instances)
      ensures shadow && o.Ok? ==> o.value.effects == []
      ensures EitherSays(env, c, b, shadow, old(procedures.instances), o, procedures.instances)
    {
      hide StableSort.Sort, P.Evaluate, P.EnterEffects, P.MoveEffects, EitherSays;
      match Prepare(env, c, b) {
        case Fails(e) =>
          EitherMeans(env, c, b, shadow, procedures.instances, Err(e), procedures.instances);
          return Err(e);
        case Rejected(e) =>
          if shadow {
            o := Ok(Outcome(false, Some("shadow_schema_incompatible"), [], [], None, [], Evidence(env, b, [], [], [])));
          } else {
            o := Err(e);
          }
          EitherMeans(env, c, b, shadow, procedures.instances, o, procedures.instances);
          return;
        case Ready =>
      }
      var allowed := env.allows(c, b);
      var scores, total, effects := [], None, [];
      if allowed {
        scores, total := env.scores(c, b).0, env.scores(c, b).1;
        if !shadow {
          effects := procedures.EvaluateProcedures(c.procedures, ProcedureRequest(env, c, b));
        }
      }
      var rules := env.reasons(c, b);
      var reason := if allowed then None else Some(DenyReason(rules));
      o := Ok(Outcome(allowed, reason, rules, scores, total, effects, Evidence(env, b, rules, scores, effects)));
      EitherMeans(env, c, b, shadow, old(procedures.instances), o, procedures.instances);
    }
  }
}
