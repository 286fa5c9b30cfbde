/** What each matched policy of a request does, in the words of procedures, states and instances. */
module ProcedureSteps {
  import opened Wrappers
  import opened EscalationGraph
  import opened Procedures

  /** The first procedure of its name; a loaded constitution has no other. */
  predicate FirstNamed(procs: seq<Procedure>, i: nat) {
    i < |procs| && forall j :: 0 <= j < i ==> procs[j].name != procs[i].name
  }

  lemma {:induction false} FirstIsFound(procs: seq<Procedure>, i: nat)
    requires FirstNamed(procs, i)
    ensures FindProcedure(procs, procs[i].name) == Some(procs[i])
  {
    if i > 0 {
      assert procs[0].name != procs[i].name;
      assert forall j :: 0 <= j < i - 1 ==> procs[1..][j] == procs[j + 1];
      FirstIsFound(procs[1..], i - 1);
    }
  }

  // ---- Triggers ----

  lemma {:induction false} TriggersNamed(procs: seq<Procedure>, policy: string)
    ensures policy in TriggerNames(procs) <==> exists p :: p in procs && policy == "proc_trigger__" + p.name
    ensures policy in TriggerNames(procs) ==> policy == "proc_trigger__" + TriggerNames(procs)[policy]
  {
    if procs != [] {
      var init, last := procs[..|procs| - 1], procs[|procs| - 1];
      TriggersNamed(init, policy);
      assert procs == init + [last];
    }
  }

  lemma SameTail(a: string, b: string)
    requires "proc_trigger__" + a == "proc_trigger__" + b
    ensures a == b
  {
    assert a == ("proc_trigger__" + a)[|"proc_trigger__"|..];
    assert b == ("proc_trigger__" + b)[|"proc_trigger__"|..];
  }

  /**
   A trigger enters its procedure in its first state, at the request's time and under the id made of its inputs,
   unless that instance is open; it touches no other instance, and reports exactly what it enters.
   */
  lemma EntersExactly(cfg: Config, index: Index, req: Request, earlier: seq<string>, i: nat)
    requires FirstNamed(cfg.procedures, i)
    ensures var p := cfg.procedures[i];
      var id := cfg.instanceId(p.name, req.digest, req.swarm, req.wallClock);
      var all := earlier + ["proc_trigger__" + p.name];
      var before, after := TriggerAll(cfg, index, req, earlier), TriggerAll(cfg, index, req, all);
      var open := id in before && !before[id].closed;
      && after == (if open then before else before[id := Instance(p.name, p.initialState, req.wallClock, false)])
      && EnterEffects(cfg, index, req, all) == EnterEffects(cfg, index, req, earlier) + if open then [] else [Entered(id)]
  {
    var p, policy := cfg.procedures[i], "proc_trigger__" + cfg.procedures[i].name;
    FirstIsFound(cfg.procedures, i);
    TriggersNamed(cfg.procedures, policy);
    assert p in cfg.procedures;
    SameTail(TriggerNames(cfg.procedures)[policy], p.name);
    assert (earlier + [policy])[..|earlier|] == earlier;
  }

  /** Any other policy enters nothing. */
  lemma OthersEnterNothing(cfg: Config, index: Index, req: Request, earlier: seq<string>, policy: string)
    requires forall p :: p in cfg.procedures ==> policy != "proc_trigger__" + p.name
    ensures TriggerAll(cfg, index, req, earlier + [policy]) == TriggerAll(cfg, index, req, earlier)
    ensures EnterEffects(cfg, index, req, earlier + [policy]) == EnterEffects(cfg, index, req, earlier)
  {
    TriggersNamed(cfg.procedures, policy);
    assert (earlier + [policy])[..|earlier|] == earlier;
  }

  // ---- Transitions ----

  lemma {:induction false} ActionsDeclared(p: Procedure, ts: seq<Transition>, h: Handle)
    ensures h in ActionHandles(p, ts)
      <==> p.name == h.procedure
           && exists t :: t in ts && t.source == h.source && t.target == h.target && t.action == Some(h.action)
  {
    if ts != [] {
      var init, t := ts[..|ts| - 1], ts[|ts| - 1];
      ActionsDeclared(p, init, h);
      assert ts == init + [t];
    }
  }

  /** The declarations are the action transitions of the procedures and nothing else. */
  lemma {:induction false} DeclarationsMean(procs: seq<Procedure>, h: Handle)
    ensures h in Declarations(procs) <==> DeclaredMove(procs, h)
  {
    hide Offers;
    if procs != [] {
      var init, last := procs[..|procs| - 1], procs[|procs| - 1];
      DeclarationsMean(init, h);
      OffersMeans(last, h);
      assert procs == init + [last];
    }
  }

  lemma OffersMeans(p: Procedure, h: Handle)
    ensures Offers(p, h) <==> h in ActionHandles(p, p.transitions)
  {
    ActionsDeclared(p, p.transitions, h);
  }

  /** The last action transition that is declared with its own policy id. */
  predicate LastOfItsId(procs: seq<Procedure>, h: Handle, policy: string) {
    && policy == "proc_trans__" + h.procedure + "__" + h.source + "__" + h.target
    && exists k :: 0 <= k < |Declarations(procs)| && Declarations(procs)[k] == h
        && forall j :: k < j < |Declarations(procs)| ==> !HasId(Declarations(procs)[j], policy)
  }

  predicate HasId(h: Handle, policy: string) {
    "proc_trans__" + h.procedure + "__" + h.source + "__" + h.target == policy
  }

  lemma IdsMean(h: Handle, policy: string)
    ensures HasId(h, policy) <==> IdOf(h) == policy
  {
  }

  lemma LastIsKept(cfg: Config, h: Handle, policy: string)
    requires LastOfItsId(cfg.procedures, h, policy)
    ensures policy in Handles(cfg.procedures) && Handles(cfg.procedures)[policy] == h
  {
    var hs := Declarations(cfg.procedures);
    HandlesAreLast(cfg.procedures, policy);
    LastUnderIs(hs, h);
    forall g
      ensures HasId(g, policy) <==> IdOf(g) == policy
    {
      IdsMean(g, policy);
    }
    assert HasId(h, policy);
    hide IdOf, HasId, Declarations, Handles, LastUnder;
    var k :| 0 <= k < |hs| && hs[k] == h && forall j :: k < j < |hs| ==> !HasId(hs[j], policy);
    assert forall j :: k < j < |hs| ==> IdOf(hs[j]) != IdOf(h);
  }

  /** An open instance of the procedure, at the state that the transition leaves. */
  predicate AtSource(index: Index, h: Handle, id: string) {
    id in index && !index[id].closed && index[id].procedure == h.procedure && index[id].state == h.source
  }

  /** Every open instance at the source is at the target now, and closed if that is terminal; no other is touched. */
  ghost predicate AllMoved(before: Index, after: Index, h: Handle, terminal: bool) {
    && after.Keys == before.Keys
    && forall id :: id in before ==>
         after[id] == if AtSource(before, h, id) then before[id].(state := h.target, closed := terminal) else before[id]
  }

  /** One more report of every instance at the source, and of nothing else. */
  ghost predicate AllReported(before: Index, h: Handle, earlier: multiset<Effect>, all: multiset<Effect>) {
    && (forall id :: all[Transitioned(id)] == earlier[Transitioned(id)] + if AtSource(before, h, id) then 1 else 0)
    && (forall id :: all[Entered(id)] == earlier[Entered(id)])
  }

  /**
   A transition whose action is the request's moves every open instance at its source, and reports each of them;
   one for another action moves nothing.
   */
  lemma MovesExactly(cfg: Config, index: Index, req: Request, earlier: seq<string>, h: Handle, policy: string, i: nat)
    requires LastOfItsId(cfg.procedures, h, policy)
    requires FirstNamed(cfg.procedures, i) && cfg.procedures[i].name == h.procedure
    ensures var all := earlier + [policy];
      var before, after := TransitAll(cfg, index, req, earlier), TransitAll(cfg, index, req, all);
      var reported, more := MoveEffects(cfg, index, req, earlier), MoveEffects(cfg, index, req, all);
      if h.action == req.action then
        && AllMoved(before, after, h, h.target in cfg.procedures[i].terminalStates)
        && AllReported(before, h, reported, more)
      else
        after == before && more == reported
  {
    LastIsKept(cfg, h, policy);
    FirstIsFound(cfg.procedures, i);
    assert (earlier + [policy])[..|earlier|] == earlier;
    hide Handles, LastOfItsId, FirstNamed, FindProcedure;
    var before := TransitAll(cfg, index, req, earlier);
    FireMeans(cfg, before, h, i, MoveEffects(cfg, index, req, earlier));
    hide Fire, FireEffects, AllMoved, AllReported;
  }

  lemma FireMeans(cfg: Config, before: Index, h: Handle, i: nat, reported: multiset<Effect>)
    requires i < |cfg.procedures| && FindProcedure(cfg.procedures, h.procedure) == Some(cfg.procedures[i])
    ensures AllMoved(before, Fire(cfg, before, h), h, h.target in cfg.procedures[i].terminalStates)
    ensures AllReported(before, h, reported, reported + multiset(FireEffects(before, h)))
  {
    hide FindProcedure;
    forall id
      ensures AtSource(before, h, id) <==> Movable(before, h, id)
      ensures Transitioned(id) in FireEffects(before, h) <==> AtSource(before, h, id)
      ensures Entered(id) !in FireEffects(before, h)
    {
    }
  }

  /** Any other policy moves nothing. */
  lemma OthersMoveNothing(cfg: Config, index: Index, req: Request, earlier: seq<string>, policy: string)
    requires forall h :: DeclaredMove(cfg.procedures, h) ==> !HasId(h, policy)
    ensures TransitAll(cfg, index, req, earlier + [policy]) == TransitAll(cfg, index, req, earlier)
    ensures MoveEffects(cfg, index, req, earlier + [policy]) == MoveEffects(cfg, index, req, earlier)
  {
    assert (earlier + [policy])[..|earlier|] == earlier;
    if policy in Handles(cfg.procedures) {
      HandlesAreLast(cfg.procedures, policy);
      LastUnderHasId(Declarations(cfg.procedures), policy);
      var h := Handles(cfg.procedures)[policy];
      HandlesDeclared(cfg.procedures);
      IdsMean(h, policy);
    }
  }
}
