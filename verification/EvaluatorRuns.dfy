/** Whole runs: what the shadow slot can and cannot change. */
module EvaluatorRuns {
  import opened Wrappers
  import opened Evaluator
  import P = Procedures

  /** How an event looks to an evaluator without a shadow slot: a promotion is an ordinary activation. */
  function Plain(shadow: Option<Constitution>, e: Event): (r: seq<Event>)
    ensures |r| <= 1
  {
    match e
    case Activated(c) => [e]
    case ShadowActivated(_) => []
    case ShadowCleared => []
    case Promoted => if shadow.Some? then [Activated(shadow.value)] else []
    case Evaluated(r) => [e]
    case PairEvaluated(r) => [Evaluated(r)]
  }

  function WithoutShadow(env: Env, s: State, h: seq<Event>): seq<Event> {
    if h == [] then
      []
    else
      var front := h[..|h| - 1];
      WithoutShadow(env, s, front) + Plain(Run(env, s, front).shadow, h[|h| - 1])
  }

  predicate Validated(env: Env, slot: Option<Constitution>) {
    slot.Some? ==> env.loads(slot.value)
  }

  /** Whatever sits in either slot has passed the loader. */
  lemma {:induction false} SlotsValidated(env: Env, s: State, h: seq<Event>)
    requires Validated(env, s.current) && Validated(env, s.shadow)
    ensures Validated(env, Run(env, s, h).current) && Validated(env, Run(env, s, h).shadow)
  {
    if h != [] {
      SlotsValidated(env, s, h[..|h| - 1]);
    }
  }

  lemma AtMostOneMore(env: Env, s: State, h: seq<Event>, more: seq<Event>)
    requires |more| <= 1
    ensures Run(env, s, h + more) == if more == [] then Run(env, s, h) else Step(env, Run(env, s, h), more[0])
    ensures Answers(env, s, h + more)
      == Answers(env, s, h) + if more == [] then [] else Given(env, Run(env, s, h), more[0])
  {
    if more == [] {
      assert h + more == h;
    } else {
      OneMore(env, s, h, more[0]);
      assert more == [more[0]];
    }
  }

  /**
   * The shadow slot interferes with nothing: every run gives the same active answers, the same active constitution
   * and the same procedure instances as the run without it.
   */
  lemma {:induction false} ShadowInterferesWithNothing(env: Env, s: State, h: seq<Event>)
    requires Validated(env, s.current) && Validated(env, s.shadow)
    ensures var (with, without) := (Run(env, s, h), Run(env, s.(shadow := None), WithoutShadow(env, s, h)));
      without == with.(shadow := None)
    ensures Answers(env, s.(shadow := None), WithoutShadow(env, s, h)) == Answers(env, s, h)
  {
    hide Answer, IndexAfter, Step, Plain, Given;
    if h != [] {
      var front, e := h[..|h| - 1], h[|h| - 1];
      ShadowInterferesWithNothing(env, s, front);
      SlotsValidated(env, s, front);
      var more := Plain(Run(env, s, front).shadow, e);
      AtMostOneMore(env, s.(shadow := None), WithoutShadow(env, s, front), more);
      PlainStep(env, Run(env, s, front), e);
    }
  }

  lemma PlainStep(env: Env, s: State, e: Event)
    requires Validated(env, s.current) && Validated(env, s.shadow)
    ensures var more := Plain(s.shadow, e);
      && (if more == [] then s.(shadow := None) else Step(env, s.(shadow := None), more[0])) == Step(env, s, e).(shadow := None)
      && (if more == [] then [] else Given(env, s.(shadow := None), more[0])) == Given(env, s, e)
  {
  }
  /** So it is for every evaluator object: its state and all it has answered are those of the run without the shadow. */
  lemma ObjectWithoutShadow(e: CedarPlusEvaluator)
    requires e.Valid()
    ensures var plain := WithoutShadow(e.env, FRESH, e.history);
      && e.current == Run(e.env, FRESH, plain).current
      && e.procedures.instances == Run(e.env, FRESH, plain).index
      && e.answers == Answers(e.env, FRESH, plain)
  {
    ShadowInterferesWithNothing(e.env, FRESH, e.history);
  }
}
