/** Bounded procedures: instances that are entered, walk their declared transitions and close. */
module Procedures {
  import opened Wrappers
  import opened EscalationGraph
  import Validators

  datatype Instance = Instance(procedure: string, state: string, enteredAt: string, closed: bool)

  type Index = map<string, Instance>

  datatype Handle = Handle(procedure: string, source: string, target: string, action: string)

  datatype Effect = Entered(id: string) | Transitioned(id: string)

  /** One request: the matched policy ids, sorted, come from Cedar. */
  datatype Request = Request(
    matchedTriggers: seq<string>,
    matchedTransitions: seq<string>,
    action: string,
    digest: string,
    swarm: string,
    wallClock: string)

  /** An activated constitution, and the hash that names instances. */
  datatype Config = Config(
    procedures: seq<Procedure>,
    instanceId: (string, string, string, string) -> string)

  // --------------------------------------------------------------- policy ids

  function TriggerId(p: Procedure): string {
    "proc_trigger__" + p.name
  }

  function PolicyId(procedure: string, source: string, target: string): string {
    "proc_trans__" + procedure + "__" + source + "__" + target
  }

  function TransitionId(p: Procedure, t: Transition): string {
    PolicyId(p.name, t.source, t.target)
  }

  /** Later procedures overwrite earlier ones under the same id. */
  function TriggerNames(procs: seq<Procedure>): map<string, string> {
    if procs == [] then map[]
    else TriggerNames(procs[..|procs| - 1])[TriggerId(procs[|procs| - 1]) := procs[|procs| - 1].name]
  }

  function AddHandles(handles: map<string, Handle>, p: Procedure, ts: seq<Transition>): map<string, Handle> {
    if ts == [] then handles
    else
      var before, t := AddHandles(handles, p, ts[..|ts| - 1]), ts[|ts| - 1];
      if t.action.None? then before
      else before[TransitionId(p, t) := Handle(p.name, t.source, t.target, t.action.value)]
  }

  /** Timeout transitions get no policy. */
  function Handles(procs: seq<Procedure>): map<string, Handle> {
    if procs == [] then map[]
    else AddHandles(Handles(procs[..|procs| - 1]), procs[|procs| - 1], procs[|procs| - 1].transitions)
  }

  predicate Offers(p: Procedure, h: Handle) {
    p.name == h.procedure
    && exists t :: t in p.transitions && t.source == h.source && t.target == h.target && t.action == Some(h.action)
  }

  predicate DeclaredMove(procs: seq<Procedure>, h: Handle) {
    exists p :: p in procs && Offers(p, h)
  }

  lemma {:induction false} AddedHandlesDeclared(handles: map<string, Handle>, procs: seq<Procedure>, p: Procedure, ts: seq<Transition>)
    requires p in procs && forall t :: t in ts ==> t in p.transitions
    requires forall id :: id in handles ==> DeclaredMove(procs, handles[id])
    ensures forall id :: id in AddHandles(handles, p, ts) ==> DeclaredMove(procs, AddHandles(handles, p, ts)[id])
  {
    hide TransitionId;
    if ts != [] {
      var t := ts[|ts| - 1];
      AddedHandlesDeclared(handles, procs, p, ts[..|ts| - 1]);
      if t.action.Some? {
        var h := Handle(p.name, t.source, t.target, t.action.value);
        assert Offers(p, h);
        assert DeclaredMove(procs, h);
      }
    }
  }

  /** Every handle a policy can name is one of the configuration's action transitions. */
  lemma {:induction false} HandlesDeclared(procs: seq<Procedure>)
    ensures forall id :: id in Handles(procs) ==> DeclaredMove(procs, Handles(procs)[id])
  {
    hide Offers;
    if procs != [] {
      var init, last := procs[..|procs| - 1], procs[|procs| - 1];
      HandlesDeclared(init);
      assert forall id :: id in Handles(init) ==> DeclaredMove(procs, Handles(init)[id]);
      AddedHandlesDeclared(Handles(init), procs, last, last.transitions);
      assert Handles(procs) == AddHandles(Handles(init), last, last.transitions);
    }
  }

  // ------------------------------------------------------------ colliding ids

  function IdOf(h: Handle): string {
    PolicyId(h.procedure, h.source, h.target)
  }

  function ActionHandles(p: Procedure, ts: seq<Transition>): seq<Handle> {
    if ts == [] then []
    else
      var t := ts[|ts| - 1];
      ActionHandles(p, ts[..|ts| - 1]) + if t.action.None? then [] else [Handle(p.name, t.source, t.target, t.action.value)]
  }

  /** The action transitions of a configuration in the order in which they are declared. */
  function Declarations(procs: seq<Procedure>): seq<Handle> {
    if procs == [] then []
    else Declarations(procs[..|procs| - 1]) + ActionHandles(procs[|procs| - 1], procs[|procs| - 1].transitions)
  }

  /** The last of these with the given id. */
  function LastUnder(hs: seq<Handle>, id: string): Option<Handle> {
    if hs == [] then None
    else if IdOf(hs[|hs| - 1]) == id then Some(hs[|hs| - 1])
    else LastUnder(hs[..|hs| - 1], id)
  }

  predicate Maps(handles: map<string, Handle>, hs: seq<Handle>, id: string) {
    LastUnder(hs, id) == if id in handles then Some(handles[id]) else None
  }

  lemma LastUnderOneMore(hs: seq<Handle>, h: Handle, id: string)
    ensures LastUnder(hs + [h], id) == if IdOf(h) == id then Some(h) else LastUnder(hs, id)
  {
    assert (hs + [h])[..|hs|] == hs;
  }

  lemma {:induction false} AddedAreLast(handles: map<string, Handle>, hs: seq<Handle>, p: Procedure, ts: seq<Transition>, id: string)
    requires Maps(handles, hs, id)
    ensures Maps(AddHandles(handles, p, ts), hs + ActionHandles(p, ts), id)
  {
    hide LastUnder, IdOf, TransitionId;
    if ts == [] {
      assert hs + [] == hs;
    } else {
      var init, t := ts[..|ts| - 1], ts[|ts| - 1];
      AddedAreLast(handles, hs, p, init, id);
      var before := hs + ActionHandles(p, init);
      if t.action.Some? {
        var h := Handle(p.name, t.source, t.target, t.action.value);
        SameId(p, t, h);
        LastUnderOneMore(before, h, id);
        assert hs + ActionHandles(p, ts) == before + [h];
      } else {
        assert hs + ActionHandles(p, ts) == before;
      }
    }
  }

  lemma SameId(p: Procedure, t: Transition, h: Handle)
    requires h.procedure == p.name && h.source == t.source && h.target == t.target
    ensures IdOf(h) == TransitionId(p, t)
  {
  }

  /** Under each id the configuration keeps the last action transition declared with it. */
  lemma {:induction false} HandlesAreLast(procs: seq<Procedure>, id: string)
    ensures Maps(Handles(procs), Declarations(procs), id)
  {
    hide IdOf, AddHandles;
    if procs != [] {
      var init, last := procs[..|procs| - 1], procs[|procs| - 1];
      HandlesAreLast(init, id);
      AddedAreLast(Handles(init), Declarations(init), last, last.transitions, id);
    }
  }

  lemma {:induction false} LastUnderHasId(hs: seq<Handle>, id: string)
    ensures LastUnder(hs, id).Some? ==> IdOf(LastUnder(hs, id).value) == id && LastUnder(hs, id).value in hs
  {
    if hs != [] {
      LastUnderHasId(hs[..|hs| - 1], id);
      assert forall h :: h in hs[..|hs| - 1] ==> h in hs;
    }
  }

  lemma {:induction false} LastUnderIs(hs: seq<Handle>, h: Handle)
    ensures LastUnder(hs, IdOf(h)) == Some(h)
      <==> exists i :: 0 <= i < |hs| && hs[i] == h && forall j :: i < j < |hs| ==> IdOf(hs[j]) != IdOf(h)
  {
    hide IdOf;
    if hs != [] {
      var init := hs[..|hs| - 1];
      LastUnderIs(init, h);
      if LastUnder(init, IdOf(h)) == Some(h) && IdOf(hs[|hs| - 1]) != IdOf(h) {
        var i :| 0 <= i < |init| && init[i] == h && forall j :: i < j < |init| ==> IdOf(init[j]) != IdOf(h);
        assert hs[i] == h && forall j :: i < j < |hs| ==> IdOf(hs[j]) != IdOf(h);
      }
      if i :| 0 <= i < |hs| - 1 && hs[i] == h && forall j :: i < j < |hs| ==> IdOf(hs[j]) != IdOf(h) {
        assert init[i] == h && forall j :: i < j < |init| ==> IdOf(init[j]) != IdOf(h);
      }
    }
  }

  /**
   An action transition can fire at all exactly when it is declared and no later one has its id: transitions that
   share procedure, source and target share an id, whatever their actions, and the last of them silences the others.
   */
  lemma CanFireExactly(cfg: Config, h: Handle)
    ensures (exists req, policy :: Firing(cfg, req, policy) == Some(h))
      <==> (exists i :: 0 <= i < |Declarations(cfg.procedures)| && Declarations(cfg.procedures)[i] == h
              && forall j :: i < j < |Declarations(cfg.procedures)| ==> IdOf(Declarations(cfg.procedures)[j]) != IdOf(h))
  {
    hide IdOf, Declarations, Handles;
    var procs := cfg.procedures;
    HandlesAreLast(procs, IdOf(h));
    LastUnderIs(Declarations(procs), h);
    if req, policy :| Firing(cfg, req, policy) == Some(h) {
      HandlesAreLast(procs, policy);
      LastUnderHasId(Declarations(procs), policy);
    }
    if LastUnder(Declarations(procs), IdOf(h)) == Some(h) {
      var req := Request([], [], h.action, "", "", "");
      HandleHasProcedure(procs, IdOf(h));
      assert Firing(cfg, req, IdOf(h)) == Some(h);
    }
  }

  lemma HandleHasProcedure(procs: seq<Procedure>, id: string)
    requires id in Handles(procs)
    ensures FindProcedure(procs, Handles(procs)[id].procedure).Some?
  {
    HandlesDeclared(procs);
    hide Handles;
    var h := Handles(procs)[id];
    assert DeclaredMove(procs, h);
    var p :| p in procs && Offers(p, h);
    DeclaredIsFound(procs, p);
  }

  lemma {:induction false} DeclaredIsFound(procs: seq<Procedure>, p: Procedure)
    requires p in procs
    ensures FindProcedure(procs, p.name).Some?
  {
    if procs[0].name != p.name {
      DeclaredIsFound(procs[1..], p);
    }
  }

  // -------------------------------------------------------------------- steps

  function FindProcedure(procs: seq<Procedure>, name: string): (r: Option<Procedure>)
    ensures r.Some? ==> r.value in procs && r.value.name == name
  {
    if procs == [] then None
    else if procs[0].name == name then Some(procs[0])
    else FindProcedure(procs[1..], name)
  }

  predicate HasOpen(index: Index, id: string) {
    id in index && !index[id].closed
  }

  function IdFor(cfg: Config, req: Request, name: string): string {
    cfg.instanceId(name, req.digest, req.swarm, req.wallClock)
  }

  /** The procedure a matched trigger enters: none when unknown, or when that instance is already open. */
  function Entering(cfg: Config, index: Index, req: Request, policy: string): Option<Procedure> {
    var names := TriggerNames(cfg.procedures);
    if policy !in names || HasOpen(index, IdFor(cfg, req, names[policy])) then None
    else FindProcedure(cfg.procedures, names[policy])
  }

  function Trigger(cfg: Config, index: Index, req: Request, policy: string): Index {
    match Entering(cfg, index, req, policy)
    case None => index
    case Some(p) => index[IdFor(cfg, req, p.name) := Instance(p.name, p.initialState, req.wallClock, false)]
  }

  predicate Movable(index: Index, h: Handle, id: string) {
    HasOpen(index, id) && index[id].procedure == h.procedure && index[id].state == h.source
  }

  function Moved(inst: Instance, h: Handle, p: Procedure): Instance {
    inst.(state := h.target, closed := h.target in p.terminalStates)
  }

  /** The handle a matched transition fires: none when unknown or for another action. */
  function Firing(cfg: Config, req: Request, policy: string): Option<Handle> {
    var handles := Handles(cfg.procedures);
    if policy !in handles || handles[policy].action != req.action then None
    else if FindProcedure(cfg.procedures, handles[policy].procedure).None? then None
    else Some(handles[policy])
  }

  function Fire(cfg: Config, index: Index, h: Handle): Index
    requires FindProcedure(cfg.procedures, h.procedure).Some?
  {
    var p := FindProcedure(cfg.procedures, h.procedure).value;
    map id | id in index :: if Movable(index, h, id) then Moved(index[id], h, p) else index[id]
  }

  function Transit(cfg: Config, index: Index, req: Request, policy: string): Index {
    match Firing(cfg, req, policy)
    case None => index
    case Some(h) =>
      assert FindProcedure(cfg.procedures, h.procedure).Some?;
      Fire(cfg, index, h)
  }

  // --------------------------------------------------------------- the object

  class ProcedureIndex {
    var instances: Index

    constructor ()
      ensures instances == map[]
    {
      instances := map[];
    }

    method RecordEnter(id: string, inst: Instance)
      modifies this
      ensures instances == old(instances)[id := inst]
    {
      instances := instances[id := inst];
    }

    method RecordTransition(id: string, state: string, terminal: bool)
      modifies this
      ensures instances == if id in old(instances)
        then old(instances)[id := old(instances)[id].(state := state, closed := terminal)] else old(instances)
    {
      if id in instances {
        instances := instances[id := instances[id].(state := state, closed := terminal)];
      }
    }

    /** The open instances of a procedure in a state, in no particular order. */
    method OpenInstancesAt(h: Handle) returns (ids: seq<string>)
      ensures forall id :: id in ids <==> Movable(instances, h, id)
      ensures forall i, j :: 0 <= i < j < |ids| ==> ids[i] != ids[j]
    {
      ids := [];
      var todo := instances.Keys;
      while todo != {}
        invariant todo <= instances.Keys
        invariant forall id :: id in ids <==> Movable(instances, h, id) && id !in todo
        invariant forall i, j :: 0 <= i < j < |ids| ==> ids[i] != ids[j]
        decreases todo
      {
        var id :| id in todo;
        if Movable(instances, h, id) {
          ids := ids + [id];
        }
        todo := todo - {id};
      }
    }

    /** Enter every procedure whose trigger matched, unless that instance is open. */
    method Triggers(cfg: Config, req: Request) returns (effects: seq<Effect>)
      modifies this
      ensures instances == TriggerAll(cfg, old(instances), req, req.matchedTriggers)
      ensures effects == EnterEffects(cfg, old(instances), req, req.matchedTriggers)
    {
      effects := [];
      var names := TriggerNames(cfg.procedures);
      for i := 0 to |req.matchedTriggers|
        invariant instances == TriggerAll(cfg, old(instances), req, req.matchedTriggers[..i])
        invariant effects == EnterEffects(cfg, old(instances), req, req.matchedTriggers[..i])
      {
        assert req.matchedTriggers[..i + 1][..i] == req.matchedTriggers[..i];
        var policy := req.matchedTriggers[i];
        if policy in names {
          var id := IdFor(cfg, req, names[policy]);
          if !(id in instances && !instances[id].closed) {
            var p := FindProcedure(cfg.procedures, names[policy]);
            if p.Some? {
              RecordEnter(id, Instance(p.value.name, p.value.initialState, req.wallClock, false));
              effects := effects + [Entered(id)];
            }
          }
        }
      }
      assert req.matchedTriggers[..|req.matchedTriggers|] == req.matchedTriggers;
    }

    /** Move every open instance that sits at the handle's source. */
    method FireTransition(cfg: Config, h: Handle) returns (effects: seq<Effect>)
      modifies this
      ensures FindProcedure(cfg.procedures, h.procedure).None? ==> instances == old(instances) && effects == []
      ensures FindProcedure(cfg.procedures, h.procedure).Some? ==>
        instances == Fire(cfg, old(instances), h) && multiset(effects) == multiset(FireEffects(old(instances), h))
    {
      hide FireEffects, FindProcedure;
      effects := [];
      var open := OpenInstancesAt(h);
      var found := FindProcedure(cfg.procedures, h.procedure);
      if found.None? {
        return;
      }
      var terminal := h.target in found.value.terminalStates;
      for i := 0 to |open|
        invariant instances.Keys == old(instances).Keys
        invariant forall id :: id in instances ==>
          instances[id] == if id in open[..i] then Moved(old(instances)[id], h, found.value) else old(instances)[id]
        invariant |effects| == i && forall j :: 0 <= j < i ==> effects[j] == Transitioned(open[j])
      {
        RecordTransition(open[i], h.target, terminal);
        effects := effects + [Transitioned(open[i])];
      }
      assert open[..|open|] == open;
      assert instances == Fire(cfg, old(instances), h);
      MovesReported(old(instances), h, open, effects);
    }

    method Transitions(cfg: Config, req: Request) returns (effects: seq<Effect>)
      modifies this
      ensures instances == TransitAll(cfg, old(instances), req, req.matchedTransitions)
      ensures multiset(effects) == MoveEffects(cfg, old(instances), req, req.matchedTransitions)
    {
      effects := [];
      var handles := Handles(cfg.procedures);
      for i := 0 to |req.matchedTransitions|
        invariant instances == TransitAll(cfg, old(instances), req, req.matchedTransitions[..i])
        invariant multiset(effects) == MoveEffects(cfg, old(instances), req, req.matchedTransitions[..i])
      {
        assert req.matchedTransitions[..i + 1][..i] == req.matchedTransitions[..i];
        var policy := req.matchedTransitions[i];
        if policy in handles && handles[policy].action == req.action {
          var more := FireTransition(cfg, handles[policy]);
          effects := effects + more;
        }
      }
      assert req.matchedTransitions[..|req.matchedTransitions|] == req.matchedTransitions;
    }

    method EvaluateProcedures(cfg: Config, req: Request) returns (effects: seq<Effect>)
      modifies this
      ensures instances == Evaluate(cfg, old(instances), req)
      ensures var entered := EnterEffects(cfg, old(instances), req, req.matchedTriggers);
        && entered <= effects
        && multiset(effects[|entered|..])
           == MoveEffects(cfg, TriggerAll(cfg, old(instances), req, req.matchedTriggers), req, req.matchedTransitions)
    {
      var entered := Triggers(cfg, req);
      var moved := Transitions(cfg, req);
      effects := entered + moved;
      assert effects[|entered|..] == moved;
    }
  }

  function TriggerAll(cfg: Config, index: Index, req: Request, policies: seq<string>): Index {
    if policies == [] then index
    else Trigger(cfg, TriggerAll(cfg, index, req, policies[..|policies| - 1]), req, policies[|policies| - 1])
  }

  function EnterEffects(cfg: Config, index: Index, req: Request, policies: seq<string>): seq<Effect> {
    if policies == [] then []
    else
      var before := EnterEffects(cfg, index, req, policies[..|policies| - 1]);
      match Entering(cfg, TriggerAll(cfg, index, req, policies[..|policies| - 1]), req, policies[|policies| - 1])
      case None => before
      case Some(p) => before + [Entered(IdFor(cfg, req, p.name))]
  }

  function TransitAll(cfg: Config, index: Index, req: Request, policies: seq<string>): Index {
    if policies == [] then index
    else Transit(cfg, TransitAll(cfg, index, req, policies[..|policies| - 1]), req, policies[|policies| - 1])
  }

  function FireEffects(index: Index, h: Handle): set<Effect> {
    set id | id in index && Movable(index, h, id) :: Transitioned(id)
  }

  /** One effect for each instance that moves. */
  lemma MovesReported(index: Index, h: Handle, open: seq<string>, effects: seq<Effect>)
    requires forall id :: id in open <==> Movable(index, h, id)
    requires forall i, j :: 0 <= i < j < |open| ==> open[i] != open[j]
    requires |effects| == |open| && forall j :: 0 <= j < |open| ==> effects[j] == Transitioned(open[j])
    ensures multiset(effects) == multiset(FireEffects(index, h))
  {
    hide Movable;
    var fired := FireEffects(index, h);
    forall e | e in effects
      ensures e in fired
    {
      var j :| 0 <= j < |effects| && effects[j] == e;
      assert open[j] in open && Movable(index, h, open[j]);
      InIndex(index, h, open[j]);
    }
    forall e | e in fired
      ensures e in effects
    {
      var j :| 0 <= j < |open| && open[j] == e.id;
      assert effects[j] == e;
    }
    assert (set e | e in effects) == fired;
    WithoutRepeats(effects);
  }

  lemma InIndex(index: Index, h: Handle, id: string)
    requires Movable(index, h, id)
    ensures id in index
  {
  }

  function MoveEffects(cfg: Config, index: Index, req: Request, policies: seq<string>): multiset<Effect> {
    if policies == [] then multiset{}
    else
      var before := MoveEffects(cfg, index, req, policies[..|policies| - 1]);
      match Firing(cfg, req, policies[|policies| - 1])
      case None => before
      case Some(h) => before + multiset(FireEffects(TransitAll(cfg, index, req, policies[..|policies| - 1]), h))
  }

  lemma {:induction false} WithoutRepeats<T>(s: seq<T>)
    requires forall i, j :: 0 <= i < j < |s| ==> s[i] != s[j]
    ensures multiset(s) == multiset(set x | x in s)
  {
    if s != [] {
      var init, last := s[..|s| - 1], s[|s| - 1];
      WithoutRepeats(init);
      assert s == init + [last];
      assert (set x | x in s) == (set x | x in init) + {last};
    }
  }

  function Evaluate(cfg: Config, index: Index, req: Request): Index {
    TransitAll(cfg, TriggerAll(cfg, index, req, req.matchedTriggers), req, req.matchedTransitions)
  }
}
