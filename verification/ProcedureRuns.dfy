/** Every run of a validated procedure configuration, one matched policy at a time. */
module ProcedureRuns {
  import opened Wrappers
  import opened EscalationGraph
  import opened Procedures
  import Validators

  /** One matched policy of one request. */
  datatype Move = TriggerBy(req: Request, policy: string) | TransitBy(req: Request, policy: string)

  function Make(cfg: Config, index: Index, m: Move): Index {
    match m
    case TriggerBy(req, policy) => Trigger(cfg, index, req, policy)
    case TransitBy(req, policy) => Transit(cfg, index, req, policy)
  }

  function Play(cfg: Config, index: Index, moves: seq<Move>): Index {
    if moves == [] then index else Make(cfg, Play(cfg, index, moves[..|moves| - 1]), moves[|moves| - 1])
  }

  function MovesOf(req: Request): seq<Move> {
    seq(|req.matchedTriggers|, i requires 0 <= i < |req.matchedTriggers| => TriggerBy(req, req.matchedTriggers[i]))
    + seq(|req.matchedTransitions|, i requires 0 <= i < |req.matchedTransitions| => TransitBy(req, req.matchedTransitions[i]))
  }

  function AllMoves(reqs: seq<Request>): seq<Move> {
    if reqs == [] then [] else AllMoves(reqs[..|reqs| - 1]) + MovesOf(reqs[|reqs| - 1])
  }

  function Run(cfg: Config, reqs: seq<Request>): Index {
    if reqs == [] then map[] else Evaluate(cfg, Run(cfg, reqs[..|reqs| - 1]), reqs[|reqs| - 1])
  }

  lemma {:induction false} PlayTwice(cfg: Config, index: Index, a: seq<Move>, b: seq<Move>)
    ensures Play(cfg, index, a + b) == Play(cfg, Play(cfg, index, a), b)
  {
    if b == [] {
      assert a + b == a;
    } else {
      assert (a + b)[..|a + b| - 1] == a + b[..|b| - 1];
      PlayTwice(cfg, index, a, b[..|b| - 1]);
    }
  }

  lemma {:induction false} TriggersArePlayed(cfg: Config, index: Index, req: Request, n: nat)
    requires n <= |req.matchedTriggers|
    ensures TriggerAll(cfg, index, req, req.matchedTriggers[..n]) == Play(cfg, index, MovesOf(req)[..n])
  {
    if n > 0 {
      TriggersArePlayed(cfg, index, req, n - 1);
      assert req.matchedTriggers[..n][..n - 1] == req.matchedTriggers[..n - 1];
      assert MovesOf(req)[..n][..n - 1] == MovesOf(req)[..n - 1];
    }
  }

  lemma {:induction false} TransitionsArePlayed(cfg: Config, index: Index, req: Request, n: nat)
    requires n <= |req.matchedTransitions|
    ensures TransitAll(cfg, index, req, req.matchedTransitions[..n])
         == Play(cfg, index, MovesOf(req)[|req.matchedTriggers|..|req.matchedTriggers| + n])
  {
    hide Transit, Trigger;
    if n > 0 {
      TransitionsArePlayed(cfg, index, req, n - 1);
      var k := |req.matchedTriggers|;
      assert MovesOf(req)[k..k + n][n - 1] == TransitBy(req, req.matchedTransitions[n - 1]);
      assert req.matchedTransitions[..n][..n - 1] == req.matchedTransitions[..n - 1];
      assert MovesOf(req)[k..k + n][..n - 1] == MovesOf(req)[k..k + n - 1];
    }
  }

  /** Evaluating a request is playing its moves. */
  lemma EvaluateIsPlayed(cfg: Config, index: Index, req: Request)
    ensures Evaluate(cfg, index, req) == Play(cfg, index, MovesOf(req))
  {
    var k, n := |req.matchedTriggers|, |req.matchedTransitions|;
    TriggersArePlayed(cfg, index, req, k);
    var mid := TriggerAll(cfg, index, req, req.matchedTriggers);
    TransitionsArePlayed(cfg, mid, req, n);
    assert req.matchedTriggers[..k] == req.matchedTriggers && req.matchedTransitions[..n] == req.matchedTransitions;
    PlayTwice(cfg, index, MovesOf(req)[..k], MovesOf(req)[k..k + n]);
    assert MovesOf(req)[..k] + MovesOf(req)[k..k + n] == MovesOf(req);
  }

  lemma {:induction false} RunIsPlayed(cfg: Config, reqs: seq<Request>)
    ensures Run(cfg, reqs) == Play(cfg, map[], AllMoves(reqs))
  {
    if reqs != [] {
      RunIsPlayed(cfg, reqs[..|reqs| - 1]);
      EvaluateIsPlayed(cfg, Run(cfg, reqs[..|reqs| - 1]), reqs[|reqs| - 1]);
      PlayTwice(cfg, map[], AllMoves(reqs[..|reqs| - 1]), MovesOf(reqs[|reqs| - 1]));
    }
  }

  // ------------------------------------------------------------- what may happen

  /** What the loader accepts. */
  predicate Validated(cfg: Config) {
    UniqueProcedures(cfg.procedures) && forall p :: p in cfg.procedures ==> Validators.ProcedureOk(p)
  }

  predicate EntersAfresh(cfg: Config, before: Index, id: string, now: Instance) {
    && !HasOpen(before, id) && !now.closed
    && exists p :: p in cfg.procedures && p.name == now.procedure && p.initialState == now.state
  }

  predicate Follows(p: Procedure, old_: Instance, now: Instance) {
    && p.name == old_.procedure == now.procedure && now.enteredAt == old_.enteredAt
    && (exists t :: t in p.transitions && t.action.Some? && t.source == old_.state && t.target == now.state)
    && (now.closed <==> now.state in p.terminalStates)
  }

  predicate MovesAlong(cfg: Config, before: Index, id: string, now: Instance) {
    HasOpen(before, id) && exists p :: p in cfg.procedures && Follows(p, before[id], now)
  }

  /** Nothing disappears; each instance is untouched, entered afresh, or moved along one declared transition. */
  ghost predicate LegalStep(cfg: Config, before: Index, after: Index) {
    && before.Keys <= after.Keys
    && forall id :: id in after ==>
         || (id in before && after[id] == before[id])
         || EntersAfresh(cfg, before, id, after[id])
         || MovesAlong(cfg, before, id, after[id])
  }

  predicate SoundIn(p: Procedure, i: Instance) {
    && p.name == i.procedure && i.state in p.states
    && (i.closed ==> i.state in p.terminalStates)
    && (!i.closed && i.state in p.terminalStates ==> i.state == p.initialState)
  }

  /** In a declared state; closed only in a terminal one; open in a terminal one only where it began. */
  ghost predicate Sound(cfg: Config, index: Index) {
    forall id :: id in index ==> exists p :: p in cfg.procedures && SoundIn(p, index[id])
  }

  lemma SameName(procs: seq<Procedure>, a: Procedure, b: Procedure)
    requires UniqueProcedures(procs) && a in procs && b in procs && a.name == b.name
    ensures a == b
  {
  }

  lemma TriggerIsLegal(cfg: Config, index: Index, req: Request, policy: string)
    requires Validated(cfg) && Sound(cfg, index)
    ensures LegalStep(cfg, index, Trigger(cfg, index, req, policy)) && Sound(cfg, Trigger(cfg, index, req, policy))
  {
    hide TriggerNames, FindProcedure;
    var entering := Entering(cfg, index, req, policy);
    if entering.Some? {
      var p := entering.value;
      var after := Trigger(cfg, index, req, policy);
      var now := Instance(p.name, p.initialState, req.wallClock, false);
      assert Validators.ProcedureOk(p) && SoundIn(p, now);
      assert EntersAfresh(cfg, index, IdFor(cfg, req, p.name), now);
      hide Entering, SoundIn, EntersAfresh, MovesAlong;
    }
  }

  lemma MovedInstance(cfg: Config, index: Index, h: Handle, p: Procedure, id: string)
    requires Validated(cfg) && DeclaredMove(cfg.procedures, h)
    requires p in cfg.procedures && p.name == h.procedure && Movable(index, h, id)
    ensures MovesAlong(cfg, index, id, Moved(index[id], h, p)) && SoundIn(p, Moved(index[id], h, p))
  {
    var q :| q in cfg.procedures && Offers(q, h);
    SameName(cfg.procedures, p, q);
    var t :| t in p.transitions && t.source == h.source && t.target == h.target && t.action == Some(h.action);
    assert Validators.TransitionOk(p, t);
    assert Follows(p, index[id], Moved(index[id], h, p));
  }

  lemma TransitIsLegal(cfg: Config, index: Index, req: Request, policy: string)
    requires Validated(cfg) && Sound(cfg, index)
    ensures LegalStep(cfg, index, Transit(cfg, index, req, policy)) && Sound(cfg, Transit(cfg, index, req, policy))
  {
    HandlesDeclared(cfg.procedures);
    var firing := Firing(cfg, req, policy);
    if firing.Some? {
      var h := firing.value;
      var p := FindProcedure(cfg.procedures, h.procedure).value;
      var after := Fire(cfg, index, h);
      forall id | id in index && Movable(index, h, id)
        ensures MovesAlong(cfg, index, id, after[id]) && SoundIn(p, after[id])
      {
        MovedInstance(cfg, index, h, p, id);
      }
      hide Movable, Moved, MovesAlong, SoundIn;
    }
  }

  /**
   Under one validated constitution, whatever requests arrive: every instance is always in a declared
   state, closed only in a terminal one, and each step leaves it alone, enters it afresh where no
   instance was open, or moves it along a transition declared from its current state.
   */
  lemma {:induction false} RunsAreLegal(cfg: Config, moves: seq<Move>)
    requires Validated(cfg)
    ensures Sound(cfg, Play(cfg, map[], moves))
    ensures moves != [] ==> LegalStep(cfg, Play(cfg, map[], moves[..|moves| - 1]), Play(cfg, map[], moves))
  {
    hide LegalStep, Trigger, Transit;
    if moves == [] {
      NothingIsSound(cfg);
    } else {
      hide Sound;
      var init, m := moves[..|moves| - 1], moves[|moves| - 1];
      RunsAreLegal(cfg, init);
      match m
      case TriggerBy(req, policy) => TriggerIsLegal(cfg, Play(cfg, map[], init), req, policy);
      case TransitBy(req, policy) => TransitIsLegal(cfg, Play(cfg, map[], init), req, policy);
    }
  }

  lemma NothingIsSound(cfg: Config)
    ensures Sound(cfg, map[])
  {
  }

  function At(cfg: Config, moves: seq<Move>, k: nat): Index
    requires k <= |moves|
  {
    Play(cfg, map[], moves[..k])
  }

  /** Some move strictly after `a` and up to `b` entered this id afresh. */
  ghost predicate ReenteredBetween(cfg: Config, moves: seq<Move>, a: nat, b: nat, id: string)
    requires b <= |moves|
  {
    exists k: nat :: a < k <= b && id in At(cfg, moves, k) && EntersAfresh(cfg, At(cfg, moves, k - 1), id, At(cfg, moves, k)[id])
  }

  /** A closed instance stays exactly as it is unless its id is entered afresh. */
  lemma {:induction false} ClosedStays(cfg: Config, moves: seq<Move>, a: nat, b: nat, id: string)
    requires Validated(cfg) && a <= b <= |moves|
    requires id in At(cfg, moves, a) && At(cfg, moves, a)[id].closed
    ensures ReenteredBetween(cfg, moves, a, b, id)
         || (id in At(cfg, moves, b) && At(cfg, moves, b)[id] == At(cfg, moves, a)[id])
    decreases b
  {
    if a < b {
      ClosedStays(cfg, moves, a, b - 1, id);
      StepAt(cfg, moves, b);
      hide At, EntersAfresh, LegalStep, Validated;
      if ReenteredBetween(cfg, moves, a, b - 1, id) {
        LaterStill(cfg, moves, a, b, id);
      } else {
        ClosedStep(cfg, At(cfg, moves, b - 1), At(cfg, moves, b), id);
        ReentersLast(cfg, moves, a, b, id);
      }
    }
  }

  lemma StepAt(cfg: Config, moves: seq<Move>, k: nat)
    requires Validated(cfg) && 0 < k <= |moves|
    ensures LegalStep(cfg, At(cfg, moves, k - 1), At(cfg, moves, k))
  {
    assert moves[..k][..k - 1] == moves[..k - 1];
    RunsAreLegal(cfg, moves[..k]);
    hide LegalStep, Validated, Make;
  }

  lemma LaterStill(cfg: Config, moves: seq<Move>, a: nat, b: nat, id: string)
    requires 0 < b <= |moves| && ReenteredBetween(cfg, moves, a, b - 1, id)
    ensures ReenteredBetween(cfg, moves, a, b, id)
  {
    hide At, EntersAfresh;
  }

  lemma ReentersLast(cfg: Config, moves: seq<Move>, a: nat, b: nat, id: string)
    requires a < b <= |moves| && id in At(cfg, moves, b)
    ensures EntersAfresh(cfg, At(cfg, moves, b - 1), id, At(cfg, moves, b)[id]) ==> ReenteredBetween(cfg, moves, a, b, id)
  {
    hide At, EntersAfresh;
  }

  lemma ClosedStep(cfg: Config, before: Index, after: Index, id: string)
    requires LegalStep(cfg, before, after) && id in before && before[id].closed
    ensures id in after && (after[id] == before[id] || EntersAfresh(cfg, before, id, after[id]))
  {
    hide EntersAfresh, Follows;
  }

  /** No declared transition leaves a terminal state. */
  lemma MovesFromOpenState(cfg: Config, before: Index, id: string, now: Instance, p: Procedure)
    requires Validated(cfg) && p in cfg.procedures
    requires MovesAlong(cfg, before, id, now) && before[id].procedure == p.name
    ensures before[id].state !in p.terminalStates
  {
    var q :| q in cfg.procedures && Follows(q, before[id], now);
    SameName(cfg.procedures, p, q);
    var t :| t in p.transitions && t.action.Some? && t.source == before[id].state && t.target == now.state;
    assert Validators.ProcedureOk(p) && Validators.TransitionOk(p, t);
  }

  /** An instance whose procedure starts in a terminal state is never closed and never moves. */
  lemma {:induction false} TerminalStartNeverCloses(cfg: Config, moves: seq<Move>, a: nat, b: nat, id: string, p: Procedure)
    requires Validated(cfg) && a <= b <= |moves| && p in cfg.procedures
    requires id in At(cfg, moves, a) && !At(cfg, moves, a)[id].closed
    requires At(cfg, moves, a)[id].procedure == p.name && At(cfg, moves, a)[id].state in p.terminalStates
    ensures id in At(cfg, moves, b) && At(cfg, moves, b)[id] == At(cfg, moves, a)[id]
    decreases b
  {
    hide Play, Sound, Validated, Follows;
    if a < b {
      TerminalStartNeverCloses(cfg, moves, a, b - 1, id, p);
      assert moves[..b][..b - 1] == moves[..b - 1];
      RunsAreLegal(cfg, moves[..b]);
      var before, after := At(cfg, moves, b - 1), At(cfg, moves, b);
      if MovesAlong(cfg, before, id, after[id]) {
        MovesFromOpenState(cfg, before, id, after[id], p);
      }
    }
  }
  lemma OpenStep(cfg: Config, before: Index, after: Index, id: string, p: Procedure)
    requires Validated(cfg) && p in cfg.procedures && LegalStep(cfg, before, after)
    requires id in after && !after[id].closed && after[id].procedure == p.name
    requires HasOpen(before, id) && before[id].procedure == p.name ==>
      (before[id].state in p.terminalStates <==> p.initialState in p.terminalStates)
    ensures after[id].state in p.terminalStates <==> p.initialState in p.terminalStates
  {
    if EntersAfresh(cfg, before, id, after[id]) {
      var q :| q in cfg.procedures && q.name == after[id].procedure && q.initialState == after[id].state;
      SameName(cfg.procedures, p, q);
    } else if MovesAlong(cfg, before, id, after[id]) {
      var q :| q in cfg.procedures && Follows(q, before[id], after[id]);
      SameName(cfg.procedures, p, q);
      MovesFromOpenState(cfg, before, id, after[id], p);
    }
  }

  /** In every run an open instance sits in a terminal state exactly when its procedure starts in one. */
  lemma {:induction false} OpenInTerminalExactly(cfg: Config, moves: seq<Move>, id: string, p: Procedure)
    requires Validated(cfg) && p in cfg.procedures
    requires HasOpen(Play(cfg, map[], moves), id) && Play(cfg, map[], moves)[id].procedure == p.name
    ensures Play(cfg, map[], moves)[id].state in p.terminalStates <==> p.initialState in p.terminalStates
  {
    var front := moves[..|moves| - 1];
    var before, after := Play(cfg, map[], front), Play(cfg, map[], moves);
    RunsAreLegal(cfg, moves);
    hide Make, Validated, LegalStep;
    if HasOpen(before, id) && before[id].procedure == p.name {
      OpenInTerminalExactly(cfg, front, id, p);
    }
    OpenStep(cfg, before, after, id, p);
  }

  /**
   In every run an instance has a declared procedure and state, and it is closed, or at a terminal start, or in a
   state that some transition leaves, each with one action or one timeout, and no two on the same one.
   */
  lemma NeverStranded(cfg: Config, moves: seq<Move>, id: string)
    requires Validated(cfg) && id in Play(cfg, map[], moves)
    ensures var now := Play(cfg, map[], moves)[id];
      exists p :: p in cfg.procedures && p.name == now.procedure && now.state in p.states && Leaves(p, now)
  {
    RunsAreLegal(cfg, moves);
    hide Validators.SameTrigger;
    var now := Play(cfg, map[], moves)[id];
    var p :| p in cfg.procedures && SoundIn(p, now);
    assert Validators.ProcedureOk(p);
    ExitsOnce(p, now);
  }

  ghost predicate Leaves(p: Procedure, now: Instance) {
    && (forall state :: state in p.terminalStates ==> state in p.states)
    && (now.closed ==> now.state in p.terminalStates)
    && (now.state in p.terminalStates || exists t :: t in p.transitions && t.source == now.state)
    && (forall t :: t in p.transitions && t.source == now.state ==>
          now.state !in p.terminalStates && t.target in p.states && (t.action.Some? <==> t.onTimeout.None?))
    && (forall a, b, action :: ExitsOn(p, now.state, a, action) && ExitsOn(p, now.state, b, action) ==> a == b)
    && (forall a, b, delay :: ExitsAfter(p, now.state, a, delay) && ExitsAfter(p, now.state, b, delay) ==> a == b)
  }

  predicate ExitsOn(p: Procedure, state: string, t: Transition, action: string) {
    t in p.transitions && t.source == state && t.action == Some(action)
  }

  predicate ExitsAfter(p: Procedure, state: string, t: Transition, delay: string) {
    t in p.transitions && t.source == state && t.onTimeout == Some(delay)
  }

  lemma ExitsOnce(p: Procedure, now: Instance)
    requires Validators.ProcedureOk(p) && SoundIn(p, now)
    ensures Leaves(p, now)
  {
    assert forall t :: t in p.transitions ==> Validators.TransitionOk(p, t);
    hide SoundIn;
    forall a, b, action | ExitsOn(p, now.state, a, action) && ExitsOn(p, now.state, b, action)
      ensures a == b
    {
      OnlyOne(p, a, b);
    }
    forall a, b, delay | ExitsAfter(p, now.state, a, delay) && ExitsAfter(p, now.state, b, delay)
      ensures a == b
    {
      OnlyOne(p, a, b);
    }
  }

  lemma OnlyOne(p: Procedure, a: Transition, b: Transition)
    requires Validators.TransitionsOk(p) && a in p.transitions && b in p.transitions && a.source == b.source
    requires (a.action.Some? && a.action == b.action) || (a.onTimeout.Some? && a.onTimeout == b.onTimeout)
    ensures a == b
  {
    assert Validators.TransitionOk(p, a) && Validators.TransitionOk(p, b);
    assert Validators.SameTrigger(a, b) && Validators.SameTrigger(b, a);
    var i :| 0 <= i < |p.transitions| && p.transitions[i] == a;
    var j :| 0 <= j < |p.transitions| && p.transitions[j] == b;
  }

  /** One state that is both the first and the last: the loader accepts it, and its instance can never close. */
  lemma TerminalStartLoads(instanceId: (string, string, string, string) -> string, req: Request)
    ensures var p := Procedure("p", "s", ["s"], ["s"], [], map[]);
      var cfg := Config([p], instanceId);
      var id := IdFor(cfg, req, "p");
      && Validated(cfg)
      && Play(cfg, map[], [TriggerBy(req, TriggerId(p))]) == map[id := Instance("p", "s", req.wallClock, false)]
  {
    var p := Procedure("p", "s", ["s"], ["s"], [], map[]);
    var cfg := Config([p], instanceId);
    var moves := [TriggerBy(req, TriggerId(p))];
    assert moves[..0] == [] && [p][..0] == [];
    assert TriggerNames([p]) == map[TriggerId(p) := "p"];
    assert FindProcedure([p], "p") == Some(p);
    assert Play(cfg, map[], moves) == Trigger(cfg, map[], req, TriggerId(p));
  }

  /** Two actions between the same two states: the loader accepts them, and the first can never fire. */
  lemma TwinTransitionSilenced(instanceId: (string, string, string, string) -> string)
    ensures var first, second := Transition("s", "t", Some("a"), None), Transition("s", "t", Some("b"), None);
      var p := Procedure("p", "s", ["s", "t"], ["t"], [first, second], map[]);
      var cfg := Config([p], instanceId);
      && Validated(cfg) && DeclaredMove([p], Handle("p", "s", "t", "a"))
      && (forall req, policy :: Firing(cfg, req, policy) != Some(Handle("p", "s", "t", "a")))
  {
    var first, second := Transition("s", "t", Some("a"), None), Transition("s", "t", Some("b"), None);
    var p := Procedure("p", "s", ["s", "t"], ["t"], [first, second], map[]);
    var cfg := Config([p], instanceId);
    var a, b := Handle("p", "s", "t", "a"), Handle("p", "s", "t", "b");
    assert first in p.transitions && Offers(p, a);
    assert DeclaredMove([p], a);
    assert p.transitions[0].source == "s";
    assert Validators.HasExit(p, "s");
    assert Validators.ProcedureOk(p);
    TwinDeclarations(p, first, second);
    var declared := Declarations(cfg.procedures);
    hide Declarations, Firing, Validators.ProcedureOk, DeclaredMove;
    CanFireExactly(cfg, a);
    assert declared[0] == a && declared[1] == b && IdOf(declared[1]) == IdOf(a);
    assert "a"[0] != "b"[0];
  }

  lemma TwinDeclarations(p: Procedure, first: Transition, second: Transition)
    requires p.name == "p" && p.transitions == [first, second]
    requires first == Transition("s", "t", Some("a"), None) && second == Transition("s", "t", Some("b"), None)
    ensures Declarations([p]) == [Handle("p", "s", "t", "a"), Handle("p", "s", "t", "b")]
  {
    var a, b := Handle("p", "s", "t", "a"), Handle("p", "s", "t", "b");
    assert [first, second][..1] == [first] && [first][..0] == [] && [p][..0] == [];
    assert ActionHandles(p, [first]) == [a];
    assert ActionHandles(p, [first, second]) == [a, b];
  }
}
