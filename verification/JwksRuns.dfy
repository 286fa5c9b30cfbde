/** Every interleaving of lookups, background refreshes and dropped calls. */
module JwksRuns {
  import opened Wrappers
  import opened JwksCache

  predicate TaskOk(isStatic: bool, s: State, task: Task) {
    match task.kid
    case None => task.pc.Finished? || (HoldsLock(task.pc) && !task.pc.Checking?)
    case Some(kid) =>
      && task.missStamps <= s.stamps
      && if task.pc.Finished? then
           AnswerOk(isStatic, s, task)
         else
           && !isStatic
           && task.missGen < |s.published|
           && kid !in s.published[task.missGen]
           // Nobody has stamped yet what was in place at the miss.
           && (task.pc.Waiting? && s.stamps == task.missStamps ==> task.pc.before == s.stamp)
           && (task.pc.Checking? && s.stamps == task.missStamps ==> task.pc.before == s.stamp)
           && (task.pc == Releasing(true) || task.pc.Retrying? ==> s.stamps > task.missStamps)
           && (!task.missPending && task.missGen == |s.published| - 1 ==> s.stamps == task.missStamps && !StampPending(s))
  }

  /** Answers come from one whole generation, and a network source says no only after a refresh that the miss preceded. */
  predicate AnswerOk(isStatic: bool, s: State, task: Task)
    requires task.kid.Some? && task.pc.Finished?
  {
    var Finished(answer, gen, stamps) := task.pc;
    match answer
    case Found(key) =>
      gen < |s.published| && task.kid.value in s.published[gen] && s.published[gen][task.kid.value] == key
    case NotFound =>
      && gen < |s.published| && task.kid.value !in s.published[gen]
      && (isStatic || (stamps > task.missStamps && (!task.missPending ==> gen > task.missGen)))
    case _ => true
  }

  /** At most one task is past the lock, and it is the holder. */
  predicate LockOk(s: State) {
    && (s.holder.Some? ==> s.holder.value in s.tasks)
    && (forall t :: t in s.tasks ==> (HoldsLock(s.tasks[t].pc) <==> s.holder == Some(t)))
  }

  predicate KeysOk(s: State) {
    && s.published != []
    && (forall i :: 0 <= i < |s.published| ==> |s.published[i]| > 0)
    && (forall t :: t in s.tasks && s.tasks[t].pc.Publishing? ==> |s.tasks[t].pc.fetched| > 0)
  }

  /** The keys are ahead of the timestamp by one pending refresh at most, and by those that were dropped half-way. */
  predicate GapOk(s: State) {
    |s.published| - 1 == s.stampGen + s.torn + (if StampPending(s) then 1 else 0)
  }

  predicate Safe(isStatic: bool, s: State) {
    LockOk(s) && KeysOk(s) && GapOk(s) && forall t :: t in s.tasks ==> TaskOk(isStatic, s, s.tasks[t])
  }

  /** What a step may do to the parts that tasks share. */
  predicate Later(s: State, s': State) {
    && s.published <= s'.published
    && s.stamps <= s'.stamps
    && (s'.stamps == s.stamps ==> s'.stamp == s.stamp)
    && (s'.published == s.published && !StampPending(s) ==> s'.stamps == s.stamps && !StampPending(s'))
  }

  lemma StaysOk(isStatic: bool, s: State, s': State, task: Task)
    requires TaskOk(isStatic, s, task) && Later(s, s')
    ensures TaskOk(isStatic, s', task)
  {
    assert forall i :: 0 <= i < |s.published| ==> s'.published[i] == s.published[i];
  }

  lemma StepIsLater(isStatic: bool, s: State, e: Event)
    requires Safe(isStatic, s) && Enabled(isStatic, s, e)
    ensures Later(s, Step(isStatic, s, e))
  {
    hide TaskOk;
  }

  lemma OthersStayOk(isStatic: bool, s: State, e: Event, u: TaskId)
    requires Safe(isStatic, s) && Enabled(isStatic, s, e) && u in s.tasks && u != e.t
    ensures TaskOk(isStatic, Step(isStatic, s, e), s.tasks[u])
  {
    StepIsLater(isStatic, s, e);
    StaysOk(isStatic, s, Step(isStatic, s, e), s.tasks[u]);
  }

  lemma AdvancerStaysOk(isStatic: bool, s: State, t: TaskId)
    requires Safe(isStatic, s) && Enabled(isStatic, s, Advance(t))
    ensures TaskOk(isStatic, Advanced(s, t), Advanced(s, t).tasks[t])
  {
    assert TaskOk(isStatic, s, s.tasks[t]);
    hide Safe, GapOk;
  }

  lemma ActorStaysOk(isStatic: bool, s: State, e: Event)
    requires Safe(isStatic, s) && Enabled(isStatic, s, e)
    ensures TaskOk(isStatic, Step(isStatic, s, e), Step(isStatic, s, e).tasks[e.t])
  {
    if e.Advance? {
      AdvancerStaysOk(isStatic, s, e.t);
    } else {
      if e.t in s.tasks {
        assert TaskOk(isStatic, s, s.tasks[e.t]);
      }
      hide Advanced, GapOk;
    }
  }

  lemma LockStaysOk(isStatic: bool, s: State, e: Event)
    requires LockOk(s) && Enabled(isStatic, s, e)
    ensures LockOk(Step(isStatic, s, e))
  {
  }

  lemma KeysStayOk(isStatic: bool, s: State, e: Event)
    requires KeysOk(s) && Enabled(isStatic, s, e)
    ensures KeysOk(Step(isStatic, s, e))
  {
  }

  lemma GapStaysOk(isStatic: bool, s: State, e: Event)
    requires LockOk(s) && GapOk(s) && Enabled(isStatic, s, e)
    ensures GapOk(Step(isStatic, s, e))
  {
  }

  lemma StepIsSafe(isStatic: bool, s: State, e: Event)
    requires Safe(isStatic, s) && Enabled(isStatic, s, e)
    ensures Safe(isStatic, Step(isStatic, s, e))
  {
    ActorStaysOk(isStatic, s, e);
    forall u | u in s.tasks && u != e.t
      ensures TaskOk(isStatic, Step(isStatic, s, e), s.tasks[u])
    {
      OthersStayOk(isStatic, s, e, u);
    }
    LockStaysOk(isStatic, s, e);
    KeysStayOk(isStatic, s, e);
    GapStaysOk(isStatic, s, e);
    OnlyActorMoves(isStatic, s, e);
    hide TaskOk, Step, Enabled, LockOk, KeysOk, GapOk;
  }

  lemma OnlyActorMoves(isStatic: bool, s: State, e: Event)
    requires Enabled(isStatic, s, e)
    ensures var s' := Step(isStatic, s, e);
      s'.tasks.Keys == s.tasks.Keys + {e.t} && forall u :: u in s.tasks && u != e.t ==> s'.tasks[u] == s.tasks[u]
  {
  }

  /** Whatever the order of the steps: the lock, the keys, the timestamp and every answer are as promised. */
  lemma {:induction false} AlwaysSafe(isStatic: bool, start: State, h: seq<Event>)
    requires Safe(isStatic, start) && Play(isStatic, start, h).Some?
    ensures Safe(isStatic, Play(isStatic, start, h).value)
  {
    if h != [] {
      hide Safe, Step, Enabled;
      AlwaysSafe(isStatic, start, h[..|h| - 1]);
      StepIsSafe(isStatic, Play(isStatic, start, h[..|h| - 1]).value, h[|h| - 1]);
    }
  }

  lemma WarmIsSafe(isStatic: bool, initial: KeyMap, now: Instant)
    ensures Warm(initial, now).None? <==> initial == map[]
    ensures Warm(initial, now).Some? ==> Safe(isStatic, Warm(initial, now).value)
  {
  }

  // ---- What follows for every run ----

  /** A run of the cache from its warm-up. */
  predicate Reached(isStatic: bool, initial: KeyMap, now: Instant, h: seq<Event>, s: State) {
    |initial| > 0 && Play(isStatic, Warm(initial, now).value, h) == Some(s)
  }

  /** At most one fetch is in flight, and the cache always serves one whole, non-empty fetch result. */
  lemma OneFetchAndWholeKeys(isStatic: bool, initial: KeyMap, now: Instant, h: seq<Event>, s: State)
    requires Reached(isStatic, initial, now, h, s)
    ensures forall t, u :: t in s.tasks && u in s.tasks && s.tasks[t].pc.Fetching? && s.tasks[u].pc.Fetching? ==> t == u
    ensures s.published != [] && |Keys(s)| > 0
    ensures s.published[0] == initial && forall i :: 1 <= i < |s.published| ==> FetchedIn(h, s.published[i])
    ensures |s.published| - 1 == s.stampGen + s.torn + if StampPending(s) then 1 else 0
    ensures !Drops(h) ==> |s.published| - 1 <= s.stampGen + 1
  {
    var start := Warm(initial, now).value;
    AlwaysSafe(isStatic, start, h);
    Origins(isStatic, start, h);
    hide TaskOk, Play;
  }

  predicate FetchedIn(h: seq<Event>, keys: KeyMap) {
    exists k :: 0 <= k < |h| && h[k].FetchAnswers? && h[k].result == Some(keys)
  }

  predicate Drops(h: seq<Event>) {
    exists k :: 0 <= k < |h| && h[k].Cancel?
  }

  /** Every generation but the first was some fetch's answer, and only a dropped call can tear a refresh. */
  lemma {:induction false} Origins(isStatic: bool, start: State, h: seq<Event>)
    requires |start.published| == 1 && start.tasks == map[] && start.torn == 0 && Play(isStatic, start, h).Some?
    ensures var s := Play(isStatic, start, h).value;
      && s.published != [] && s.published[0] == start.published[0]
      && (forall i :: 1 <= i < |s.published| ==> FetchedIn(h, s.published[i]))
      && (forall t :: t in s.tasks && s.tasks[t].pc.Publishing? ==> FetchedIn(h, s.tasks[t].pc.fetched))
      && (!Drops(h) ==> s.torn == 0)
  {
    if h != [] {
      var front := h[..|h| - 1];
      Origins(isStatic, start, front);
      forall keys | FetchedIn(front, keys)
        ensures FetchedIn(h, keys)
      {
        var k :| 0 <= k < |front| && front[k].FetchAnswers? && front[k].result == Some(keys);
        assert h[k] == front[k];
      }
      if Drops(front) {
        var k :| 0 <= k < |front| && front[k].Cancel?;
        assert h[k] == front[k];
      }
      hide FetchedIn, Drops;
      LastIsFetched(h);
      OriginsOnce(isStatic, Play(isStatic, start, front).value, h);
      hide Step, Enabled;
    }
  }

  /** The last event of a history adds no generation that the history did not fetch, and tears nothing but by a drop. */
  lemma OriginsOnce(isStatic: bool, s: State, h: seq<Event>)
    requires h != [] && Enabled(isStatic, s, h[|h| - 1]) && s.published != []
    ensures var e, s' := h[|h| - 1], Step(isStatic, s, h[|h| - 1]);
      && s'.published != [] && s.published <= s'.published && |s'.published| <= |s.published| + 1
      && (s'.published != s.published ==>
            e.t in s.tasks && s.tasks[e.t].pc.Publishing? && s'.published[|s.published|] == s.tasks[e.t].pc.fetched)
      && (forall t :: t in s'.tasks && s'.tasks[t].pc.Publishing? ==>
            FetchedIn(h, s'.tasks[t].pc.fetched) || (t in s.tasks && s'.tasks[t] == s.tasks[t]))
      && (!e.Cancel? ==> s'.torn == s.torn || s'.torn == 0)
  {
    hide FetchedIn;
    LastIsFetched(h);
    OnlyActorMoves(isStatic, s, h[|h| - 1]);
  }

  lemma LastIsFetched(h: seq<Event>)
    requires h != []
    ensures var e := h[|h| - 1];
      && (e.FetchAnswers? && e.result.Some? ==> FetchedIn(h, e.result.value))
      && (e.Cancel? ==> Drops(h))
  {
    var e := h[|h| - 1];
    assert h[|h| - 1] == e;
  }

  /**
   * A lookup that finds its key has it from one published generation. One that a network source turns down saw a
   * refresh stamped after its miss, and a newer generation too unless a refresh was between its two writes then.
   */
  lemma AnswersAreFresh(isStatic: bool, initial: KeyMap, now: Instant, h: seq<Event>, s: State, t: TaskId)
    requires Reached(isStatic, initial, now, h, s)
    requires t in s.tasks && s.tasks[t].kid.Some? && s.tasks[t].pc.Finished?
    ensures AnswerOk(isStatic, s, s.tasks[t])
  {
    AlwaysSafe(isStatic, Warm(initial, now).value, h);
    assert TaskOk(isStatic, s, s.tasks[t]);
  }

  // ---- The retry that reads what it missed ----

  /** The first read of a task never changes. */
  lemma {:induction false} MissKept(isStatic: bool, s: State, h: seq<Event>, t: TaskId)
    requires t in s.tasks && Play(isStatic, s, h).Some?
    ensures var s' := Play(isStatic, s, h).value;
      t in s'.tasks && s'.tasks[t].(pc := Missed) == s.tasks[t].(pc := Missed)
  {
    if h != [] {
      hide Step, Enabled;
      var front := h[..|h| - 1];
      MissKept(isStatic, s, front, t);
      MissKeptOnce(isStatic, Play(isStatic, s, front).value, h[|h| - 1], t);
    }
  }

  lemma MissKeptOnce(isStatic: bool, s: State, e: Event, t: TaskId)
    requires t in s.tasks && Enabled(isStatic, s, e)
    ensures t in Step(isStatic, s, e).tasks && Step(isStatic, s, e).tasks[t].(pc := Missed) == s.tasks[t].(pc := Missed)
  {
    if t != e.t {
      OnlyActorMoves(isStatic, s, e);
      hide Step, Enabled;
    }
  }

  predicate RereadsItsMiss(isStatic: bool, s: State, t: TaskId, h: seq<Event>) {
    var end := Play(isStatic, s, h);
    && end.Some? && t in end.value.tasks && end.value.tasks[t].pc.Finished?
    && end.value.tasks[t].pc.answer == NotFound && end.value.tasks[t].pc.gen == |s.published| - 1
  }

  /** A lookup that misses now can be turned down on the very keys that it missed in exactly if a stamp is pending. */
  lemma RereadExactly(s: State, t: TaskId, kid: Kid)
    requires Safe(false, s) && t !in s.tasks && kid !in Keys(s)
    ensures (exists h :: RereadsItsMiss(false, Step(false, s, Begin(t, kid)), t, h)) <==> StampPending(s)
  {
    var s1 := Step(false, s, Begin(t, kid));
    StepIsSafe(false, s, Begin(t, kid));
    if h :| RereadsItsMiss(false, s1, t, h) {
      AlwaysSafe(false, s1, h);
      MissKept(false, s1, h, t);
      assert TaskOk(false, Play(false, s1, h).value, Play(false, s1, h).value.tasks[t]);
    }
    if StampPending(s) {
      StaleRetry(s1, s.holder.value, t, kid);
    }
  }

  lemma StaleRetry(s: State, holder: TaskId, t: TaskId, kid: Kid)
    requires s.published != [] && s.holder == Some(holder) && holder in s.tasks && s.tasks[holder].pc.Stamping?
    requires t in s.tasks && t != holder && s.tasks[t].kid == Some(kid) && s.tasks[t].pc.Missed? && kid !in Keys(s)
    ensures exists h :: RereadsItsMiss(false, s, t, h)
  {
    var h0: seq<Event> := [];
    var h1 := h0 + [Advance(t)];
    var h2 := h1 + [Stamp(holder, s.stamp + 1)];
    var h3 := h2 + [Advance(holder)];
    assert Play(false, s, h0) == Some(s);
    hide Play;
    PlayOne(false, s, h0, Advance(t));
    PlayOne(false, s, h1, Stamp(holder, s.stamp + 1));
    PlayOne(false, s, h2, Advance(holder));
    RetryReads(s, h3, t, kid);
  }

  /** A waiting lookup that finds the timestamp changed reads the keys that are in place. */
  lemma RetryReads(start: State, h: seq<Event>, t: TaskId, kid: Kid)
    requires Play(false, start, h).Some?
    requires var s := Play(false, start, h).value;
      && s.published == start.published != [] && s.holder.None? && kid !in Keys(s)
      && t in s.tasks && s.tasks[t].kid == Some(kid) && s.tasks[t].pc.Waiting? && s.tasks[t].pc.before != s.stamp
    ensures exists h' :: RereadsItsMiss(false, start, t, h')
  {
    hide Play;
    var h1 := h + [Advance(t)];
    var h2 := h1 + [Advance(t)];
    var h3 := h2 + [Advance(t)];
    PlayOne(false, start, h, Advance(t));
    PlayOne(false, start, h1, Advance(t));
    PlayOne(false, start, h2, Advance(t));
    PlayOne(false, start, h3, Advance(t));
    assert RereadsItsMiss(false, start, t, h3 + [Advance(t)]);
  }

  // ---- No call waits for ever ----

  function Rank(pc: Pc): nat {
    match pc
    case Missed => 8
    case Waiting(_) => 7
    case Checking(_) => 6
    case Fetching => 5
    case Publishing(_) => 4
    case Stamping => 3
    case Releasing(_) => 2
    case Retrying => 1
    case Finished(_, _, _) => 0
  }

  function OwnSteps(h: seq<Event>, t: TaskId): nat {
    if h == [] then 0 else OwnSteps(h[..|h| - 1], t) + if h[|h| - 1].t == t then 1 else 0
  }

  lemma RankDrops(isStatic: bool, s: State, e: Event)
    requires Enabled(isStatic, s, e)
    ensures var now := Rank(Step(isStatic, s, e).tasks[e.t].pc);
      now <= 8 && (e.t in s.tasks ==> now < Rank(s.tasks[e.t].pc))
  {
  }

  /** No task takes more than nine steps, whatever the others do. */
  lemma {:induction false} StepsAreBounded(isStatic: bool, start: State, h: seq<Event>, t: TaskId)
    requires start.tasks == map[] && Play(isStatic, start, h).Some?
    ensures var s := Play(isStatic, start, h).value;
      OwnSteps(h, t) <= if t in s.tasks then 9 - Rank(s.tasks[t].pc) else 0
  {
    if h != [] {
      hide Step, Enabled, Rank;
      var front := h[..|h| - 1];
      StepsAreBounded(isStatic, start, front, t);
      RankDrops(isStatic, Play(isStatic, start, front).value, h[|h| - 1]);
      OnlyActorMoves(isStatic, Play(isStatic, start, front).value, h[|h| - 1]);
    }
  }

  /** While a task is unfinished some task can take a step that is not a drop. */
  lemma NeverStuck(isStatic: bool, s: State, t: TaskId)
    requires Safe(isStatic, s) && t in s.tasks && !s.tasks[t].pc.Finished?
    ensures CanGoOn(isStatic, s)
  {
    var u := if s.holder.Some? then s.holder.value else t;
    assert TaskOk(isStatic, s, s.tasks[u]);
    if s.tasks[u].pc.Fetching? {
      assert Enabled(isStatic, s, FetchAnswers(u, None));
    } else if s.tasks[u].pc.Stamping? {
      assert Enabled(isStatic, s, Stamp(u, s.stamp));
    } else {
      assert Enabled(isStatic, s, Advance(u));
    }
  }
  /** The steps that the calls with ids below n can still take. */
  function Work(s: State, n: nat): nat {
    if n == 0 then 0 else Work(s, n - 1) + if n - 1 in s.tasks then Rank(s.tasks[n - 1].pc) else 0
  }

  lemma {:induction false} WorkDrops(s: State, s': State, t: TaskId, n: nat)
    requires t in s.tasks && t in s'.tasks && s.tasks.Keys == s'.tasks.Keys
    requires forall u :: u in s.tasks && u != t ==> s'.tasks[u] == s.tasks[u]
    requires Rank(s'.tasks[t].pc) < Rank(s.tasks[t].pc)
    ensures Work(s', n) <= Work(s, n) && (t < n ==> Work(s', n) < Work(s, n))
  {
    hide Rank;
    if n > 0 {
      WorkDrops(s, s', t, n - 1);
    }
  }

  /** No call comes in. */
  predicate Closing(h: seq<Event>) {
    forall k :: 0 <= k < |h| ==> !h[k].Begin? && !h[k].Spawn?
  }

  lemma ClosingStep(isStatic: bool, s: State, e: Event, n: nat)
    requires Enabled(isStatic, s, e) && !e.Begin? && !e.Spawn? && forall t :: t in s.tasks ==> t < n
    ensures var s' := Step(isStatic, s, e); s'.tasks.Keys == s.tasks.Keys && Work(s', n) < Work(s, n)
  {
    OnlyActorMoves(isStatic, s, e);
    RankDrops(isStatic, s, e);
    assert e.t in s.tasks;
    hide Step;
    WorkDrops(s, Step(isStatic, s, e), e.t, n);
  }

  /** While no new call comes in there are only so many steps left to take, whoever takes them. */
  lemma {:induction false} RunsEnd(isStatic: bool, s: State, h: seq<Event>, n: nat)
    requires Play(isStatic, s, h).Some? && Closing(h) && forall t :: t in s.tasks ==> t < n
    ensures var end := Play(isStatic, s, h).value; end.tasks.Keys == s.tasks.Keys && |h| + Work(end, n) <= Work(s, n)
  {
    if h != [] {
      hide Step, Enabled, Work;
      var front := h[..|h| - 1];
      RunsEnd(isStatic, s, front, n);
      ClosingStep(isStatic, Play(isStatic, s, front).value, h[|h| - 1], n);
    }
  }

  predicate AllFinished(s: State) {
    forall t :: t in s.tasks ==> s.tasks[t].pc.Finished?
  }

  /** Some call can go on by itself. */
  ghost predicate CanGoOn(isStatic: bool, s: State) {
    exists e: Event :: e.t in s.tasks && !e.Begin? && !e.Spawn? && !e.Cancel? && Enabled(isStatic, s, e)
  }

  /**
   * Every call ends: from any safe state, a run without new calls takes no more steps than are left, and one that
   * stops where no call can go on has finished them all.
   */
  lemma EveryCallEnds(isStatic: bool, s: State, h: seq<Event>, n: nat)
    requires Safe(isStatic, s) && Play(isStatic, s, h).Some? && Closing(h) && forall t :: t in s.tasks ==> t < n
    ensures |h| <= Work(s, n)
    ensures CanGoOn(isStatic, Play(isStatic, s, h).value) <==> !AllFinished(Play(isStatic, s, h).value)
  {
    var end := Play(isStatic, s, h).value;
    RunsEnd(isStatic, s, h, n);
    AlwaysSafe(isStatic, s, h);
    hide Play, Work, Safe;
    if !AllFinished(end) {
      var t :| t in end.tasks && !end.tasks[t].pc.Finished?;
      NeverStuck(isStatic, end, t);
    }
    if CanGoOn(isStatic, end) {
      var e: Event :| e.t in end.tasks && !e.Begin? && !e.Spawn? && !e.Cancel? && Enabled(isStatic, end, e);
      assert !end.tasks[e.t].pc.Finished?;
    }
  }
}
