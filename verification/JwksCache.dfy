/** The key cache: its calls run one at a time, and the atomic steps into which concurrent calls interleave. */
module JwksCache {
  import opened Wrappers

  type Kid = nat
  type Jwk = nat
  type TaskId = nat
  type Instant = nat
  type KeyMap = map<Kid, Jwk>

  datatype Answer = Found(key: Jwk) | NotFound | Unavailable | Ended

  /**
   * Where a task stands. The tasks in Checking, Fetching, Publishing, Stamping and Releasing hold the refresh lock.
   * A finished task remembers the generation of keys it answered from and how many refreshes had been stamped.
   */
  datatype Pc =
    | Missed
    | Waiting(before: Instant)
    | Checking(before: Instant)
    | Fetching
    | Publishing(fetched: KeyMap)
    | Stamping
    | Releasing(ok: bool)
    | Retrying
    | Finished(answer: Answer, gen: nat, stamps: nat)

  /** A lookup names the key it wants; a background refresh names none. The other fields describe its first read. */
  datatype Task = Task(kid: Option<Kid>, pc: Pc, missGen: nat, missStamps: nat, missPending: bool)

  /**
   * `published` lists the key maps in the order in which they were put in place; the cache serves the last one.
   * `stampGen` is the generation that the timestamp speaks for, `stamps` counts its updates, and `torn` counts the
   * refreshes since the last update that were dropped between the two.
   */
  datatype State = State(
    published: seq<KeyMap>,
    stamp: Instant,
    stampGen: nat,
    stamps: nat,
    torn: nat,
    holder: Option<TaskId>,
    tasks: map<TaskId, Task>
  )

  datatype Event =
    | Begin(t: TaskId, kid: Kid)
    | Spawn(t: TaskId)
    | Advance(t: TaskId)
    | FetchAnswers(t: TaskId, result: Option<KeyMap>)
    | Stamp(t: TaskId, now: Instant)
    | Cancel(t: TaskId)

  predicate HoldsLock(pc: Pc) {
    pc.Checking? || pc.Fetching? || pc.Publishing? || pc.Stamping? || pc.Releasing?
  }

  /** Some refresh has put its keys in place and has yet to update the timestamp. */
  predicate StampPending(s: State) {
    s.holder.Some? && s.holder.value in s.tasks && s.tasks[s.holder.value].pc.Stamping?
  }

  function Keys(s: State): KeyMap
    requires s.published != []
  {
    s.published[|s.published| - 1]
  }

  function Read(s: State, kid: Kid): Pc
    requires s.published != []
  {
    Finished(if kid in Keys(s) then Found(Keys(s)[kid]) else NotFound, |s.published| - 1, s.stamps)
  }

  /** The cache after a successful warm-up; an empty key set is refused. */
  function Warm(initial: KeyMap, now: Instant): Option<State> {
    if |initial| == 0 then None else Some(State([initial], now, 0, 0, 0, None, map[]))
  }

  predicate Enabled(isStatic: bool, s: State, e: Event) {
    match e
    case Begin(t, kid) => t !in s.tasks && s.published != []
    case Spawn(t) => t !in s.tasks && !isStatic
    case Advance(t) =>
      && t in s.tasks && s.published != []
      && match s.tasks[t].pc {
           case Missed => true
           case Waiting(_) => s.holder.None?
           case Checking(_) => true
           case Publishing(_) => true
           case Releasing(_) => true
           case Retrying => s.tasks[t].kid.Some?
           case _ => false
         }
    case FetchAnswers(t, _) => t in s.tasks && s.tasks[t].pc.Fetching?
    case Stamp(t, now) => t in s.tasks && s.tasks[t].pc.Stamping? && now >= s.stamp && s.published != []
    // A caller may drop a lookup at any point at which it waits; a background task runs to its end.
    case Cancel(t) => t in s.tasks && s.tasks[t].kid.Some? && !s.tasks[t].pc.Finished?
  }

  function Put(s: State, t: TaskId, pc: Pc): State
    requires t in s.tasks
  {
    s.(tasks := s.tasks[t := s.tasks[t].(pc := pc)])
  }

  function Step(isStatic: bool, s: State, e: Event): State
    requires Enabled(isStatic, s, e)
  {
    match e
    case Begin(t, kid) =>
      var pc := if kid in Keys(s) || isStatic then Read(s, kid) else Missed;
      s.(tasks := s.tasks[t := Task(Some(kid), pc, |s.published| - 1, s.stamps, StampPending(s))])
    case Spawn(t) =>
      if s.holder.None? then
        s.(holder := Some(t), tasks := s.tasks[t := Task(None, Fetching, 0, 0, false)])
      else
        s.(tasks := s.tasks[t := Task(None, Finished(Ended, 0, s.stamps), 0, 0, false)])
    case Advance(t) => Advanced(s, t)
    case FetchAnswers(t, result) =>
      if result.Some? && |result.value| > 0 then Put(s, t, Publishing(result.value)) else Put(s, t, Releasing(false))
    case Stamp(t, now) =>
      Put(s, t, Releasing(true)).(stamp := now, stampGen := |s.published| - 1, stamps := s.stamps + 1, torn := 0)
    case Cancel(t) =>
      var dropped := Put(s, t, Finished(Ended, 0, s.stamps));
      if s.holder == Some(t) then
        dropped.(holder := None, torn := s.torn + if s.tasks[t].pc.Stamping? then 1 else 0)
      else
        dropped
  }

  function Advanced(s: State, t: TaskId): State
    requires t in s.tasks && s.published != []
    requires s.tasks[t].pc.Retrying? ==> s.tasks[t].kid.Some?
  {
    var task := s.tasks[t];
    match task.pc
    case Missed => Put(s, t, Waiting(s.stamp))
    case Waiting(before) => Put(s, t, Checking(before)).(holder := Some(t))
    case Checking(before) => Put(s, t, if s.stamp != before then Releasing(true) else Fetching)
    case Publishing(fetched) => Put(s, t, Stamping).(published := s.published + [fetched])
    case Releasing(ok) =>
      var next :=
        if task.kid.None? then Finished(Ended, 0, s.stamps)
        else if ok then Retrying
        else Finished(Unavailable, 0, s.stamps);
      Put(s, t, next).(holder := None)
    case Retrying => Put(s, t, Read(s, task.kid.value))
    case _ => s
  }

  /** Where a run leads, if each of its events is enabled where it happens. */
  function Play(isStatic: bool, start: State, h: seq<Event>): Option<State> {
    if h == [] then
      Some(start)
    else
      var before := Play(isStatic, start, h[..|h| - 1]);
      if before.Some? && Enabled(isStatic, before.value, h[|h| - 1]) then
        Some(Step(isStatic, before.value, h[|h| - 1]))
      else
        None
  }

  // ---- The calls, one at a time ----

  datatype Error = TrustRootUnavailable

  datatype CacheConfig = CacheConfig(cacheTtl: nat, maxStaleness: Option<nat>)

  class Cache {
    const isStatic: bool
    const config: CacheConfig
    var keys: KeyMap
    var lastRefreshAt: Instant

    constructor (isStatic: bool, config: CacheConfig, initial: KeyMap, now: Instant)
      requires |initial| > 0
      ensures this.isStatic == isStatic && this.config == config && keys == initial && lastRefreshAt == now
    {
      this.isStatic, this.config, keys, lastRefreshAt := isStatic, config, initial, now;
    }

    /** Refuses past the staleness cap, whatever the source; asks for a refresh past the TTL, if the source is not a file. */
    method AssertFresh(now: Instant) returns (r: Result<bool, Error>)
      requires now >= lastRefreshAt
      ensures r.Err? <==> config.maxStaleness.Some? && now - lastRefreshAt > config.maxStaleness.value
      ensures r.Ok? ==> (r.value <==> !isStatic && now - lastRefreshAt > config.cacheTtl)
    {
      var elapsed := now - lastRefreshAt;
      if isStatic {
        if config.maxStaleness.Some? && elapsed > config.maxStaleness.value {
          return Err(TrustRootUnavailable);
        }
        return Ok(false);
      }
      if config.maxStaleness.Some? && elapsed > config.maxStaleness.value {
        return Err(TrustRootUnavailable);
      }
      r := Ok(elapsed > config.cacheTtl);
    }

    /** An uninterrupted lookup ends where its own atomic steps end when nothing comes between them. */
    method Lookup(kid: Kid, fetched: Option<KeyMap>, now: Instant) returns (r: Result<Option<Jwk>, Error>)
      requires |keys| > 0 && now >= lastRefreshAt
      modifies this
      ensures |keys| > 0
      ensures var end := Play(isStatic, Alone(old(keys), old(lastRefreshAt)), LookupSteps(isStatic, old(keys), kid, fetched, now));
        && end.Some? && end.value.published != [] && 0 in end.value.tasks
        && Keys(end.value) == keys && end.value.stamp == lastRefreshAt
        && end.value.tasks[0].pc.Finished? && end.value.tasks[0].pc.answer == AnswerOf(r)
    {
      LookupAlone(isStatic, keys, lastRefreshAt, kid, fetched, now);
      if kid in keys {
        return Ok(Some(keys[kid]));
      }
      if isStatic {
        return Ok(None);
      }
      var refreshed := RefreshNow(fetched, now);
      if refreshed.Err? {
        return Err(refreshed.error);
      }
      r := Ok(if kid in keys then Some(keys[kid]) else None);
    }

    /** A failed or empty fetch leaves the cache alone. */
    method RefreshNow(fetched: Option<KeyMap>, now: Instant) returns (r: Result<(), Error>)
      requires now >= lastRefreshAt
      modifies this
      ensures r.Ok? <==> fetched.Some? && |fetched.value| > 0
      ensures r.Ok? ==> keys == fetched.value && lastRefreshAt == now
      ensures r.Err? ==> keys == old(keys) && lastRefreshAt == old(lastRefreshAt)
    {
      if fetched.None? || |fetched.value| == 0 {
        return Err(TrustRootUnavailable);
      }
      keys := fetched.value;
      lastRefreshAt := now;
      r := Ok(());
    }
  }

  function Alone(keys: KeyMap, stamp: Instant): State {
    State([keys], stamp, 0, 0, 0, None, map[])
  }

  function AnswerOf(r: Result<Option<Jwk>, Error>): Answer {
    match r
    case Err(_) => Unavailable
    case Ok(None) => NotFound
    case Ok(Some(key)) => Found(key)
  }

  function LookupSteps(isStatic: bool, keys: KeyMap, kid: Kid, fetched: Option<KeyMap>, now: Instant): seq<Event> {
    if kid in keys || isStatic then
      [Begin(0, kid)]
    else if fetched.None? || |fetched.value| == 0 then
      Fetched(kid, fetched) + [Advance(0)]
    else
      Fetched(kid, fetched) + [Advance(0)] + [Stamp(0, now)] + [Advance(0)] + [Advance(0)]
  }

  /** Miss, snapshot, lock, compare, fetch. */
  function Fetched(kid: Kid, fetched: Option<KeyMap>): seq<Event> {
    [Begin(0, kid)] + [Advance(0)] + [Advance(0)] + [Advance(0)] + [FetchAnswers(0, fetched)]
  }

  lemma PlayOne(isStatic: bool, start: State, h: seq<Event>, e: Event)
    ensures var before, after := Play(isStatic, start, h), Play(isStatic, start, h + [e]);
      after == if before.Some? && Enabled(isStatic, before.value, e) then Some(Step(isStatic, before.value, e)) else None
  {
    assert (h + [e])[..|h|] == h;
  }

  /** The only task is the lookup, and it missed the first generation. */
  function Only(published: seq<KeyMap>, stamp: Instant, stamped: nat, kid: Kid, holder: Option<TaskId>, pc: Pc): State {
    State(published, stamp, stamped, stamped, 0, holder, map[0 := Task(Some(kid), pc, 0, 0, false)])
  }

  lemma OnlyMoves(published: seq<KeyMap>, stamp: Instant, stamped: nat, kid: Kid, holder: Option<TaskId>, pc: Pc, next: Pc)
    ensures Put(Only(published, stamp, stamped, kid, holder, pc), 0, next)
      == Only(published, stamp, stamped, kid, holder, next)
  {
  }

  lemma FetchedAlone(isStatic: bool, keys: KeyMap, stamp: Instant, kid: Kid, fetched: Option<KeyMap>)
    requires kid !in keys && !isStatic
    ensures Play(isStatic, Alone(keys, stamp), Fetched(kid, fetched))
      == Some(Only([keys], stamp, 0, kid, Some(0),
                   if fetched.Some? && |fetched.value| > 0 then Publishing(fetched.value) else Releasing(false)))
  {
    var s := Alone(keys, stamp);
    var h1 := [Begin(0, kid)];
    var h2 := h1 + [Advance(0)];
    var h3 := h2 + [Advance(0)];
    var h4 := h3 + [Advance(0)];
    PlayOne(isStatic, s, [], Begin(0, kid));
    assert [] + h1 == h1;
    assert Play(isStatic, s, h1) == Some(Only([keys], stamp, 0, kid, None, Missed));
    hide Play;
    PlayOne(isStatic, s, h1, Advance(0));
    OnlyMoves([keys], stamp, 0, kid, None, Missed, Waiting(stamp));
    assert Play(isStatic, s, h2) == Some(Only([keys], stamp, 0, kid, None, Waiting(stamp)));
    PlayOne(isStatic, s, h2, Advance(0));
    OnlyMoves([keys], stamp, 0, kid, None, Waiting(stamp), Checking(stamp));
    assert Play(isStatic, s, h3) == Some(Only([keys], stamp, 0, kid, Some(0), Checking(stamp)));
    PlayOne(isStatic, s, h3, Advance(0));
    OnlyMoves([keys], stamp, 0, kid, Some(0), Checking(stamp), Fetching);
    assert Play(isStatic, s, h4) == Some(Only([keys], stamp, 0, kid, Some(0), Fetching));
    PlayOne(isStatic, s, h4, FetchAnswers(0, fetched));
    OnlyMoves([keys], stamp, 0, kid, Some(0), Fetching,
              if fetched.Some? && |fetched.value| > 0 then Publishing(fetched.value) else Releasing(false));
  }

  /** From a good fetch to the answer. */
  lemma ServedAlone(isStatic: bool, start: State, keys: KeyMap, stamp: Instant, kid: Kid, fetched: KeyMap, h: seq<Event>, now: Instant)
    requires Play(isStatic, start, h) == Some(Only([keys], stamp, 0, kid, Some(0), Publishing(fetched))) && now >= stamp
    ensures var end := Play(isStatic, start, h + [Advance(0)] + [Stamp(0, now)] + [Advance(0)] + [Advance(0)]);
      end == Some(Only([keys, fetched], now, 1, kid, None,
                       Finished(if kid in fetched then Found(fetched[kid]) else NotFound, 1, 1)))
  {
    hide Play;
    var both := [keys, fetched];
    var h1 := h + [Advance(0)];
    var h2 := h1 + [Stamp(0, now)];
    var h3 := h2 + [Advance(0)];
    PlayOne(isStatic, start, h, Advance(0));
    OnlyMoves([keys], stamp, 0, kid, Some(0), Publishing(fetched), Stamping);
    assert [keys] + [fetched] == both;
    assert Play(isStatic, start, h1) == Some(Only(both, stamp, 0, kid, Some(0), Stamping));
    PlayOne(isStatic, start, h1, Stamp(0, now));
    OnlyMoves(both, stamp, 0, kid, Some(0), Stamping, Releasing(true));
    assert Play(isStatic, start, h2) == Some(Only(both, now, 1, kid, Some(0), Releasing(true)));
    PlayOne(isStatic, start, h2, Advance(0));
    OnlyMoves(both, now, 1, kid, Some(0), Releasing(true), Retrying);
    assert Play(isStatic, start, h3) == Some(Only(both, now, 1, kid, None, Retrying));
    PlayOne(isStatic, start, h3, Advance(0));
    OnlyMoves(both, now, 1, kid, None, Retrying, Read(Only(both, now, 1, kid, None, Retrying), kid));
  }

  lemma LookupAlone(isStatic: bool, keys: KeyMap, stamp: Instant, kid: Kid, fetched: Option<KeyMap>, now: Instant)
    requires now >= stamp
    ensures var end := Play(isStatic, Alone(keys, stamp), LookupSteps(isStatic, keys, kid, fetched, now));
      && end.Some? && end.value.published != [] && 0 in end.value.tasks && end.value.tasks[0].pc.Finished?
      && var (last, answer) := (Keys(end.value), end.value.tasks[0].pc.answer);
         if kid in keys then
           last == keys && end.value.stamp == stamp && answer == Found(keys[kid])
         else if isStatic then
           last == keys && end.value.stamp == stamp && answer == NotFound
         else if fetched.None? || |fetched.value| == 0 then
           last == keys && end.value.stamp == stamp && answer == Unavailable
         else
           last == fetched.value && end.value.stamp == now
           && answer == if kid in last then Found(last[kid]) else NotFound
  {
    var s := Alone(keys, stamp);
    if kid in keys || isStatic {
      PlayOne(isStatic, s, [], Begin(0, kid));
      assert [] + [Begin(0, kid)] == [Begin(0, kid)];
    } else {
      hide Fetched, Play;
      FetchedAlone(isStatic, keys, stamp, kid, fetched);
      if fetched.Some? && |fetched.value| > 0 {
        ServedAlone(isStatic, s, keys, stamp, kid, fetched.value, Fetched(kid, fetched), now);
      } else {
        PlayOne(isStatic, s, Fetched(kid, fetched), Advance(0));
      }
    }
  }
}
