/** Whole runs of the sealing loop against a growing receipt table and unreliable services. */
module AnchorRuns {
  import opened StableSort
  import opened Anchoring

  datatype World = World(table: set<Receipt>, ledger: Ledger)

  datatype Event = Arrived(receipt: Receipt) | Ticked(tick: Tick)

  function Start(table: set<Receipt>, watermark: U64): World {
    World(table, Ledger(watermark, map[], []))
  }

  function Step(c: Config, w: World, e: Event): World {
    match e
    case Arrived(r) => w.(table := w.table + {r})
    case Ticked(t) => w.(ledger := TickStep(c, w.ledger, t))
  }

  function Run(c: Config, start: World, h: seq<Event>): World {
    if h == [] then start else Step(c, Run(c, start, h[..|h| - 1]), h[|h| - 1])
  }

  predicate NoRepeats(s: seq<Receipt>) {
    forall i, j :: 0 <= i < j < |s| ==> s[i] != s[j]
  }

  /** What a store query returns: rows of the window, in any order, and never a row above one it leaves out. */
  predicate PageOf(table: set<Receipt>, watermark: U64, rows: seq<Receipt>) {
    && NoRepeats(rows)
    && (forall r :: r in rows ==> r in table && r.ns >= FromNs(watermark))
    && (forall r, q :: r in table && r.ns >= FromNs(watermark) && r !in rows && q in rows ==> q.ns <= r.ns)
  }

  predicate Allowed(w: World, e: Event) {
    e.Ticked? && e.tick.fetch.Page? ==> PageOf(w.table, w.ledger.watermark, e.tick.fetch.rows)
  }

  predicate Genuine(c: Config, start: World, h: seq<Event>) {
    h != [] ==> Genuine(c, start, h[..|h| - 1]) && Allowed(Run(c, start, h[..|h| - 1]), h[|h| - 1])
  }

  function Batch(c: Config, w: World, t: Tick): seq<Receipt> {
    if t.fetch.FetchFails? then [] else Candidates(w.ledger.watermark, c.maxBatchSize, t.fetch.rows)
  }

  // ---- One pass ----

  lemma KeptOfPage(rows: seq<Receipt>, n: nat)
    requires NoRepeats(rows)
    ensures var b := Take(Sort(rows, NsLe), n);
      && NoRepeats(b) && (forall r :: r in b ==> r in rows)
      && (forall r, q :: r in rows && r !in b && q in b ==> q.ns <= r.ns)
  {
    var s := Sort(rows, NsLe);
    NsOrder();
    SortAscends(rows, NsLe);
    SameElements(s, rows);
    SortKeepsDistinct(rows);
    CutIsLowest(rows, s, n);
    TakenFrom(s, n);
    hide Sort, NsLe, Ascending, Take, NoRepeats;
    var b := Take(s, n);
    forall q | q in b
      ensures q.ns <= b[|b| - 1].ns
    {
      var j :| 0 <= j < |b| && b[j] == q;
    }
  }

  lemma TakenFrom(s: seq<Receipt>, n: nat)
    ensures NoRepeats(s) ==> NoRepeats(Take(s, n))
    ensures forall r :: r in Take(s, n) ==> r in s
  {
  }

  lemma BatchIsLowest(c: Config, w: World, t: Tick)
    requires Allowed(w, Ticked(t))
    ensures var b := Batch(c, w, t); NoRepeats(b) && forall r :: r in b ==> r in w.table && r.ns > w.ledger.watermark
    ensures var b := Batch(c, w, t);
      forall r, q :: r in w.table && r.ns > w.ledger.watermark && r !in b && q in b ==> q.ns <= r.ns
  {
    hide Sort, NoRepeats, Take;
    var b := Batch(c, w, t);
    if b == [] {
      NoRepeatsInNone();
    } else {
      KeptOfPage(t.fetch.rows, c.maxBatchSize);
    }
  }

  lemma NoRepeatsInNone()
    ensures NoRepeats([])
  {
  }

  /** A pass changes nothing, or acknowledges a batch that is already there, or takes in a new batch. */
  lemma TickCases(c: Config, w: World, t: Tick)
    ensures var b, l, after := Batch(c, w, t), w.ledger, TickStep(c, w.ledger, t);
      after != l ==>
        && b != [] && !Conflicts(l.seals, b)
        && after.watermark in {l.watermark, MaxNs(b)}
        && (after.watermark == MaxNs(b) || t.write.Unacknowledged?)
        && after.seals.Keys == l.seals.Keys + RootOf(b).leaves
        && (if RootOf(b).leaves <= l.seals.Keys then
              after.seals == l.seals && after.written == l.written
            else
              after.seals == SealAll(l.seals, b) && after.written == l.written + [b])
  {
  }

  lemma SortKeepsDistinct(rows: seq<Receipt>)
    requires NoRepeats(rows)
    ensures NoRepeats(Sort(rows, NsLe))
  {
    var s := Sort(rows, NsLe);
    if i, j :| 0 <= i < j < |s| && s[i] == s[j] {
      var r := s[i];
      assert s == s[..j] + s[j..];
      assert r in s[..j] && r in s[j..] by {
        assert s[..j][i] == r && s[j..][0] == r;
      }
      assert multiset(s)[r] >= 2;
      CountAtMostOne(rows, r);
    }
  }

  lemma {:induction false} CountAtMostOne(s: seq<Receipt>, r: Receipt)
    requires NoRepeats(s)
    ensures multiset(s)[r] <= 1
  {
    if s != [] {
      var front := s[..|s| - 1];
      assert s == front + [s[|s| - 1]];
      CountAtMostOne(front, r);
      if multiset(front)[r] > 0 {
        assert r in front;
      }
    }
  }

  // ---- At most once, whatever the services do ----

  predicate WellKept(w: World, floor: U64) {
    && floor <= w.ledger.watermark
    && (forall i :: 0 <= i < |w.ledger.written| ==> KeptBatch(w, floor, w.ledger.written[i]))
    && (forall r :: r in w.ledger.seals ==> exists i :: 0 <= i < |w.ledger.written| && r in w.ledger.written[i])
    && (forall i, j :: 0 <= i < j < |w.ledger.written| ==> Disjoint(w.ledger.written[i], w.ledger.written[j]))
  }

  predicate KeptBatch(w: World, floor: U64, b: seq<Receipt>) {
    && b != []
    && NoRepeats(b)
    && forall r :: r in b ==> r in w.table && r.ns > floor && r in w.ledger.seals && w.ledger.seals[r] == RootOf(b)
  }

  predicate Disjoint(a: seq<Receipt>, b: seq<Receipt>) {
    forall r :: r in a ==> r !in b
  }

  /** A batch that is neither empty nor in conflict is either already there or shares nothing with any other. */
  lemma KnownOrNew(w: World, floor: U64, b: seq<Receipt>)
    requires WellKept(w, floor) && !Conflicts(w.ledger.seals, b)
    ensures RootOf(b).leaves <= w.ledger.seals.Keys || forall r :: r in b ==> r !in w.ledger.seals
  {
    if r :| r in b && r in w.ledger.seals {
      var i :| 0 <= i < |w.ledger.written| && r in w.ledger.written[i];
      var known := w.ledger.written[i];
      assert KeptBatch(w, floor, known);
      assert RootOf(b) == RootOf(known);
      forall q | q in b
        ensures q in w.ledger.seals
      {
        assert q in RootOf(b).leaves && q in RootOf(known).leaves;
        assert q in known;
      }
    }
  }

  lemma Grows(w: World, floor: U64, b: seq<Receipt>)
    requires WellKept(w, floor) && b != [] && NoRepeats(b) && !Conflicts(w.ledger.seals, b)
    requires forall r :: r in b ==> r in w.table && r.ns > w.ledger.watermark
    requires !(RootOf(b).leaves <= w.ledger.seals.Keys)
    ensures WellKept(w.(ledger := w.ledger.(seals := SealAll(w.ledger.seals, b), written := w.ledger.written + [b])), floor)
  {
    var l := w.ledger;
    KnownOrNew(w, floor, b);
    hide Conflicts, NoRepeats;
    assert forall r :: r in RootOf(b).leaves <==> r in b;
    var after := w.(ledger := l.(seals := SealAll(l.seals, b), written := l.written + [b]));
    assert KeptBatch(after, floor, b);
    forall i | 0 <= i < |l.written|
      ensures KeptBatch(after, floor, l.written[i]) && Disjoint(l.written[i], b)
    {
      assert KeptBatch(w, floor, l.written[i]);
    }
    forall r | r in after.ledger.seals
      ensures exists i :: 0 <= i < |after.ledger.written| && r in after.ledger.written[i]
    {
      if r in l.seals {
        var i :| 0 <= i < |l.written| && r in l.written[i];
        assert r in after.ledger.written[i];
      } else {
        assert r in after.ledger.written[|l.written|];
      }
    }
  }

  lemma Raised(w: World, floor: U64, watermark: U64)
    requires WellKept(w, floor) && watermark >= floor
    ensures WellKept(w.(ledger := w.ledger.(watermark := watermark)), floor)
  {
    var after := w.(ledger := w.ledger.(watermark := watermark));
    forall i | 0 <= i < |w.ledger.written|
      ensures KeptBatch(after, floor, w.ledger.written[i])
    {
      assert KeptBatch(w, floor, w.ledger.written[i]);
    }
  }

  lemma TickKeeps(c: Config, w: World, t: Tick, floor: U64)
    requires WellKept(w, floor) && Allowed(w, Ticked(t))
    ensures WellKept(Step(c, w, Ticked(t)), floor)
  {
    TickCases(c, w, t);
    BatchIsLowest(c, w, t);
    hide TickStep, Conflicts, Allowed, NoRepeats, SealAll, RootOf, Batch;
    var b, l, after := Batch(c, w, t), w.ledger, Step(c, w, Ticked(t));
    if after.ledger != l {
      assert floor <= l.watermark;
      assert after.ledger.watermark >= floor by {
        assert b[0] in b;
      }
      if after.ledger.written != l.written {
        Grows(w, floor, b);
        var grown := w.(ledger := l.(seals := after.ledger.seals, written := after.ledger.written));
        Raised(grown, floor, after.ledger.watermark);
        assert after == grown.(ledger := grown.ledger.(watermark := after.ledger.watermark));
      } else {
        Raised(w, floor, after.ledger.watermark);
        assert after == w.(ledger := l.(watermark := after.ledger.watermark));
      }
    }
  }

  /** In every run each receipt is in at most one recorded batch, and the store has it under that batch's root. */
  lemma {:induction false} SealedAtMostOnce(c: Config, table: set<Receipt>, floor: U64, h: seq<Event>)
    requires Genuine(c, Start(table, floor), h)
    ensures WellKept(Run(c, Start(table, floor), h), floor)
  {
    if h != [] {
      hide TickStep;
      var w := Run(c, Start(table, floor), h[..|h| - 1]);
      SealedAtMostOnce(c, table, floor, h[..|h| - 1]);
      match h[|h| - 1]
      case Arrived(r) =>
        var after := Step(c, w, h[|h| - 1]);
        forall i | 0 <= i < |w.ledger.written|
          ensures KeptBatch(after, floor, w.ledger.written[i])
        {
          assert KeptBatch(w, floor, w.ledger.written[i]);
        }
      case Ticked(t) => TickKeeps(c, w, t, floor);
    }
  }

  // ---- What the watermark passes over ----

  /** The event lets the watermark stand at or above an unsealed receipt. */
  predicate PassedOver(c: Config, w: World, e: Event, r: Receipt) {
    match e
    case Arrived(q) =>
      // It comes too late.
      q == r && r !in w.table && r.ns <= w.ledger.watermark
    case Ticked(t) =>
      // The cut separates it from a receipt of the same nanosecond.
      var b := Batch(c, w, t);
      && Step(c, w, e).ledger.watermark != w.ledger.watermark
      && r in w.table && r !in b && r !in w.ledger.seals
      && b != [] && r.ns == MaxNs(b)
  }

  predicate EverPassedOver(c: Config, start: World, h: seq<Event>, r: Receipt) {
    && h != []
    && (EverPassedOver(c, start, h[..|h| - 1], r) || PassedOver(c, Run(c, start, h[..|h| - 1]), h[|h| - 1], r))
  }

  predicate Missed(w: World, r: Receipt) {
    r in w.table && r.ns <= w.ledger.watermark && r !in w.ledger.seals
  }

  /** One event adds to the missed receipts exactly those that it passes over, and gives none back. */
  lemma MissedStep(c: Config, w: World, e: Event, floor: U64, r: Receipt)
    requires Allowed(w, e) && WellKept(w, floor) && r.ns > floor
    ensures Missed(Step(c, w, e), r) <==> Missed(w, r) || PassedOver(c, w, e, r)
  {
    hide Candidates, PageOf;
    match e
    case Arrived(q) =>
      if r in w.ledger.seals {
        var i :| 0 <= i < |w.ledger.written| && r in w.ledger.written[i];
        assert KeptBatch(w, floor, w.ledger.written[i]);
      }
    case Ticked(t) =>
      BatchIsLowest(c, w, t);
      var b, after := Batch(c, w, t), Step(c, w, e);
      assert forall q :: q in RootOf(b).leaves <==> q in b;
      assert after.ledger.watermark != w.ledger.watermark ==> b != [] && after.ledger.watermark == MaxNs(b);
      assert after.ledger.watermark != w.ledger.watermark ==> after.ledger.seals.Keys == w.ledger.seals.Keys + RootOf(b).leaves;
  }

  /** A receipt below the watermark is unsealed exactly when it came too late or a cut split its nanosecond. */
  lemma {:induction false} MissedExactly(c: Config, table: set<Receipt>, floor: U64, h: seq<Event>, r: Receipt)
    requires Genuine(c, Start(table, floor), h) && r.ns > floor
    ensures Missed(Run(c, Start(table, floor), h), r) <==> EverPassedOver(c, Start(table, floor), h, r)
  {
    if h != [] {
      hide Missed, PassedOver, WellKept, Step;
      var front := h[..|h| - 1];
      MissedExactly(c, table, floor, front, r);
      SealedAtMostOnce(c, table, floor, front);
      MissedStep(c, Run(c, Start(table, floor), front), h[|h| - 1], floor, r);
    } else {
      assert !Missed(Start(table, floor), r);
    }
  }

  /** Two receipts of one nanosecond and batches of one: the second is never sealed. */
  lemma TieIsMissed(seal: nat -> SealOutcome)
    requires seal(0).Sealed?
    ensures var a, b := Receipt(1, 1), Receipt(2, 1);
      var c := Config(1, 1, 0, 0, 0);
      var h := [Ticked(Tick(Page([a, b]), true, seal, Acknowledged))];
      Genuine(c, Start({a, b}, 0), h) && Missed(Run(c, Start({a, b}, 0), h), b)
  {
    var a, b := Receipt(1, 1), Receipt(2, 1);
    var t := Tick(Page([a, b]), true, seal, Acknowledged);
    var h := [Ticked(t)];
    var c, start := Config(1, 1, 0, 0, 0), Start({a, b}, 0);
    assert h[..0] == [];
    assert h[..0] == [];
    FirstOfTwo(a, b);
    hide Sort;
    assert RootOf([a]).leaves == {a};
    assert TickStep(c, start.ledger, t) == Ledger(1, map[a := RootOf([a])], [[a]]) by {
      assert SealAll(map[], [a]) == map[a := RootOf([a])];
      assert MaxNs([a]) == 1;
    }
    assert Run(c, start, h) == Step(c, start, h[0]);
    assert Allowed(start, h[0]);
  }

  lemma FirstOfTwo(a: Receipt, b: Receipt)
    requires a.ns <= b.ns
    ensures Candidates(0, 1, [a, b]) == [a]
  {
    assert [a, b][..1] == [a] && [a][..0] == [];
    assert Sort([a], NsLe) == [a];
    assert Sort([a, b], NsLe) == [a, b];
  }

  // ---- Exactly once, in order ----

  predicate DistinctNs(table: set<Receipt>) {
    forall a, b :: a in table && b in table && a.ns == b.ns ==> a == b
  }

  /** Receipts arrive above the watermark, each at its own nanosecond. */
  predicate Spaced(w: World, e: Event) {
    e.Arrived? ==> e.receipt.ns > w.ledger.watermark && DistinctNs(w.table + {e.receipt})
  }

  predicate SpacedRun(c: Config, start: World, h: seq<Event>) {
    if h == [] then
      DistinctNs(start.table)
    else
      SpacedRun(c, start, h[..|h| - 1]) && Spaced(Run(c, start, h[..|h| - 1]), h[|h| - 1])
  }

  /** No acknowledgement is lost. */
  predicate Truthful(h: seq<Event>) {
    forall k :: 0 <= k < |h| && h[k].Ticked? ==> !h[k].tick.write.Unacknowledged?
  }

  /** Everything recorded lies at or below the watermark, and the batches' ranges ascend without touching. */
  predicate Ascends(l: Ledger) {
    && (forall i, r :: 0 <= i < |l.written| && r in l.written[i] ==> r.ns <= l.watermark)
    && (forall i, j, a, b :: 0 <= i < j < |l.written| && a in l.written[i] && b in l.written[j] ==> a.ns < b.ns)
  }

  predicate InOneBatch(l: Ledger, r: Receipt) {
    exists i :: 0 <= i < |l.written| && r in l.written[i] && forall j :: 0 <= j < |l.written| && j != i ==> r !in l.written[j]
  }

  /** A receipt that a cut leaves behind shares its nanosecond with another one. */
  lemma SplitHasTwin(c: Config, w: World, e: Event, r: Receipt)
    requires Allowed(w, e) && e.Ticked? && PassedOver(c, w, e, r)
    ensures exists q :: q in w.table && q != r && q.ns == r.ns
  {
    BatchIsLowest(c, w, e.tick);
    hide Candidates, PageOf, TickStep;
    var b := Batch(c, w, e.tick);
    var q :| q in b && q.ns == MaxNs(b);
  }

  lemma {:induction false} SpacedPassesNothing(c: Config, start: World, h: seq<Event>, r: Receipt)
    requires Genuine(c, start, h) && SpacedRun(c, start, h)
    ensures DistinctNs(Run(c, start, h).table) && !EverPassedOver(c, start, h, r)
  {
    if h != [] {
      hide Candidates, PageOf, TickStep;
      SpacedPassesNothing(c, start, h[..|h| - 1], r);
      var w, e := Run(c, start, h[..|h| - 1]), h[|h| - 1];
      if e.Ticked? && PassedOver(c, w, e, r) {
        SplitHasTwin(c, w, e, r);
      }
    }
  }

  /** While the store's word is reliable, a batch shares no receipt with an earlier one, so it never conflicts. */
  lemma BatchIsNew(c: Config, w: World, t: Tick, floor: U64)
    requires WellKept(w, floor) && Allowed(w, Ticked(t)) && Ascends(w.ledger)
    ensures forall r :: r in Batch(c, w, t) ==> r !in w.ledger.seals
    ensures !Conflicts(w.ledger.seals, Batch(c, w, t))
  {
    BatchIsLowest(c, w, t);
    SealedAreBelow(w, floor);
    hide Allowed, NoRepeats, Batch, WellKept, Ascends;
  }

  lemma SealedAreBelow(w: World, floor: U64)
    requires WellKept(w, floor) && Ascends(w.ledger)
    ensures forall r :: r in w.ledger.seals ==> r.ns <= w.ledger.watermark
  {
    var l := w.ledger;
    forall r | r in l.seals
      ensures r.ns <= l.watermark
    {
      var i :| 0 <= i < |l.written| && r in l.written[i];
    }
  }

  lemma AscendsWith(l: Ledger, b: seq<Receipt>)
    requires Ascends(l) && b != [] && forall r :: r in b ==> r.ns > l.watermark
    ensures Ascends(l.(written := l.written + [b], watermark := MaxNs(b)))
  {
    hide MaxNs;
    assert b[0] in b;
    var more := l.written + [b];
    forall i, j, p: Receipt, q: Receipt | 0 <= i < j < |more| && p in more[i] && q in more[j]
      ensures p.ns < q.ns
    {
      assert more[i] == l.written[i];
      assert j < |l.written| ==> more[j] == l.written[j];
    }
  }

  lemma AscendsStep(c: Config, w: World, e: Event, floor: U64)
    requires WellKept(w, floor) && Allowed(w, e) && Ascends(w.ledger) && (e.Ticked? ==> !e.tick.write.Unacknowledged?)
    ensures Ascends(Step(c, w, e).ledger)
  {
    if e.Ticked? {
      TickCases(c, w, e.tick);
      BatchIsLowest(c, w, e.tick);
      BatchIsNew(c, w, e.tick, floor);
      hide TickStep, Conflicts, Allowed, NoRepeats, SealAll, Batch, WellKept, Ascends;
      var b, l, after := Batch(c, w, e.tick), w.ledger, Step(c, w, e).ledger;
      if after != l {
        assert b[0] in b && b[0] in RootOf(b).leaves;
        AscendsWith(l, b);
        AscendsIgnoresSeals(l.(written := l.written + [b], watermark := MaxNs(b)), after);
      }
    }
  }

  lemma AscendsIgnoresSeals(l: Ledger, k: Ledger)
    requires Ascends(l) && k.written == l.written && k.watermark == l.watermark
    ensures Ascends(k)
  {
  }

  // ---- Sealed exactly once ----

  /** The store takes the batch, or has it already, and the driver is not told. */
  predicate WrittenUnseen(c: Config, w: World, e: Event, r: Receipt) {
    && e.Ticked?
    && var b := Batch(c, w, e.tick);
    && r in b && ShouldSeal(c, b, e.tick.elapsed) && e.tick.seal(Settled(e.tick.seal, 0, c.retryAttempts)).Sealed?
    && e.tick.write.Unacknowledged? && !Conflicts(w.ledger.seals, b)
  }

  predicate EverWrittenUnseen(c: Config, start: World, h: seq<Event>, r: Receipt) {
    && h != []
    && (EverWrittenUnseen(c, start, h[..|h| - 1], r) || WrittenUnseen(c, Run(c, start, h[..|h| - 1]), h[|h| - 1], r))
  }

  /** Above the watermark a pass seals exactly what it writes unseen. */
  lemma UnseenStep(c: Config, w: World, e: Event, r: Receipt)
    requires Allowed(w, e)
    ensures var after := Step(c, w, e).ledger;
      && after.watermark >= w.ledger.watermark
      && (r.ns > after.watermark ==> (r in after.seals <==> r in w.ledger.seals || WrittenUnseen(c, w, e, r)))
  {
    if e.Ticked? {
      BatchIsLowest(c, w, e.tick);
      hide Candidates, PageOf, NoRepeats, Conflicts, Settled;
      var b, after := Batch(c, w, e.tick), Step(c, w, e).ledger;
      assert forall q :: q in RootOf(b).leaves <==> q in b;
      if after.watermark != w.ledger.watermark {
        assert after.watermark == MaxNs(b) && b[0] in b;
      }
    }
  }

  lemma {:induction false} SealedAboveExactly(c: Config, start: World, h: seq<Event>, r: Receipt)
    requires Genuine(c, start, h) && start.ledger.seals == map[] && r.ns > Run(c, start, h).ledger.watermark
    ensures r in Run(c, start, h).ledger.seals <==> EverWrittenUnseen(c, start, h, r)
  {
    if h != [] {
      hide Step, WrittenUnseen, Allowed;
      UnseenStep(c, Run(c, start, h[..|h| - 1]), h[|h| - 1], r);
      SealedAboveExactly(c, start, h[..|h| - 1], r);
    }
  }

  lemma SealedIsInOneBatch(w: World, floor: U64, r: Receipt)
    requires WellKept(w, floor)
    ensures r in w.ledger.seals <==> InOneBatch(w.ledger, r)
    ensures r in w.ledger.seals ==> r in w.table && r.ns > floor
  {
    hide RootOf, NoRepeats;
    var l := w.ledger;
    if r in l.seals {
      var i :| 0 <= i < |l.written| && r in l.written[i];
      assert KeptBatch(w, floor, l.written[i]);
      forall j | 0 <= j < |l.written| && j != i
        ensures r !in l.written[j]
      {
        assert if i < j then Disjoint(l.written[i], l.written[j]) else Disjoint(l.written[j], l.written[i]);
      }
    }
    if InOneBatch(l, r) {
      var i :| 0 <= i < |l.written| && r in l.written[i];
      assert KeptBatch(w, floor, l.written[i]);
    }
  }

  /**
   * After any run in which receipts arrive above the watermark and each at its own nanosecond, whatever failed on the
   * way: a receipt is in exactly one recorded batch if it lies between the starting and the current watermark, or
   * above it in a batch that was written without the driver being told; any other is in none. The ranges of the
   * batches never overlap.
   */
  lemma SealedExactlyOnce(c: Config, table: set<Receipt>, floor: U64, h: seq<Event>, r: Receipt)
    requires Genuine(c, Start(table, floor), h) && SpacedRun(c, Start(table, floor), h)
    ensures var w := Run(c, Start(table, floor), h);
      var sealed := if r.ns <= w.ledger.watermark then r in w.table && floor < r.ns
                    else EverWrittenUnseen(c, Start(table, floor), h, r);
      && (InOneBatch(w.ledger, r) <==> sealed)
      && (r in w.ledger.seals <==> sealed)
      && RangesApart(w.ledger)
  {
    hide Genuine, SpacedRun, Run, EverPassedOver, EverWrittenUnseen, WellKept, InOneBatch, RangesApart;
    var w := Run(c, Start(table, floor), h);
    SealedAtMostOnce(c, table, floor, h);
    SealedIsInOneBatch(w, floor, r);
    RangesStayApart(c, table, floor, h);
    if r.ns > w.ledger.watermark {
      SealedAboveExactly(c, Start(table, floor), h, r);
    } else if r.ns > floor {
      MissedExactly(c, table, floor, h, r);
      SpacedPassesNothing(c, Start(table, floor), h, r);
    }
  }

  // ---- Ranges ----

  predicate Below(a: seq<Receipt>, b: seq<Receipt>) {
    forall p, q :: p in a && q in b ==> p.ns < q.ns
  }

  /** Of any two batches, one lies wholly below the other. */
  predicate RangesApart(l: Ledger) {
    forall i, j :: 0 <= i < j < |l.written| ==> Below(l.written[i], l.written[j]) || Below(l.written[j], l.written[i])
  }

  predicate AtOrBelow(b: seq<Receipt>, ns: U64) {
    forall r :: r in b ==> r.ns <= ns
  }

  predicate Above(b: seq<Receipt>, ns: U64) {
    forall r :: r in b ==> r.ns > ns
  }

  /** The watermark never stands inside a batch. */
  predicate Whole(l: Ledger) {
    forall i :: 0 <= i < |l.written| ==> AtOrBelow(l.written[i], l.watermark) || Above(l.written[i], l.watermark)
  }

  /** A recorded batch above the watermark is the next batch, or lies above it, unless the two conflict. */
  lemma NextIsLower(c: Config, w: World, t: Tick, floor: U64, k: seq<Receipt>)
    requires WellKept(w, floor) && Allowed(w, Ticked(t)) && DistinctNs(w.table)
    requires !Conflicts(w.ledger.seals, Batch(c, w, t)) && k in w.ledger.written && Above(k, w.ledger.watermark)
    ensures RootOf(k) == RootOf(Batch(c, w, t)) || Below(Batch(c, w, t), k)
  {
    var b := Batch(c, w, t);
    BatchIsLowest(c, w, t);
    ConflictsExactly(w, floor, b);
    hide Candidates, PageOf, NoRepeats, Conflicts, Batch, RootOf;
    var i :| 0 <= i < |w.ledger.written| && w.ledger.written[i] == k;
    assert KeptBatch(w, floor, k);
    if RootOf(k) != RootOf(b) {
      assert Disjoint(k, b);
      forall p, q | p in b && q in k
        ensures p.ns < q.ns
      {
        assert q in w.table && q !in b && p.ns <= q.ns && p != q;
      }
    }
  }

  lemma ApartStep(c: Config, w: World, t: Tick, floor: U64)
    requires WellKept(w, floor) && Allowed(w, Ticked(t)) && DistinctNs(w.table)
    requires Whole(w.ledger) && RangesApart(w.ledger)
    ensures var after := TickStep(c, w.ledger, t); Whole(after) && RangesApart(after)
  {
    TickCases(c, w, t);
    BatchIsLowest(c, w, t);
    var b, l, after := Batch(c, w, t), w.ledger, TickStep(c, w.ledger, t);
    hide TickStep, Conflicts, NoRepeats, SealAll, Batch, Allowed, WellKept, RootOf, DistinctNs;
    if after != l {
      forall i | 0 <= i < |l.written|
        ensures AtOrBelow(l.written[i], after.watermark) || Above(l.written[i], after.watermark)
        ensures after.written != l.written ==> Below(l.written[i], b) || Below(b, l.written[i])
      {
        OneApart(c, w, t, floor, l.written[i], after.watermark);
      }
      assert AtOrBelow(b, after.watermark) || Above(b, after.watermark);
      hide Below, AtOrBelow, Above, RangesApart;
      if after.written != l.written {
        ApartWith(l, b, after);
      } else {
        ApartSame(l, after);
      }
    }
  }

  lemma ApartWith(l: Ledger, b: seq<Receipt>, after: Ledger)
    requires RangesApart(l) && after.written == l.written + [b]
    requires forall i :: 0 <= i < |l.written| ==> Below(l.written[i], b) || Below(b, l.written[i])
    ensures RangesApart(after)
  {
    hide Below;
  }

  lemma ApartSame(l: Ledger, after: Ledger)
    requires RangesApart(l) && after.written == l.written
    ensures RangesApart(after)
  {
  }

  lemma OneApart(c: Config, w: World, t: Tick, floor: U64, k: seq<Receipt>, watermark: U64)
    requires WellKept(w, floor) && Allowed(w, Ticked(t)) && DistinctNs(w.table) && k in w.ledger.written
    requires Batch(c, w, t) != [] && !Conflicts(w.ledger.seals, Batch(c, w, t))
    requires watermark in {w.ledger.watermark, MaxNs(Batch(c, w, t))}
    requires AtOrBelow(k, w.ledger.watermark) || Above(k, w.ledger.watermark)
    ensures AtOrBelow(k, watermark) || Above(k, watermark)
    ensures var b := Batch(c, w, t);
      !(RootOf(b).leaves <= w.ledger.seals.Keys) ==> Below(k, b) || Below(b, k)
  {
    var b := Batch(c, w, t);
    BatchIsLowest(c, w, t);
    assert b[0] in b;
    if !AtOrBelow(k, w.ledger.watermark) {
      NextIsLower(c, w, t, floor, k);
      var i :| 0 <= i < |w.ledger.written| && w.ledger.written[i] == k;
      assert KeptBatch(w, floor, k);
      assert forall r :: r in RootOf(b).leaves <==> r in b;
      assert forall r :: r in RootOf(k).leaves <==> r in k;
    }
    hide Batch, WellKept, Allowed, Conflicts, DistinctNs, RootOf;
  }

  lemma {:induction false} RangesStayApart(c: Config, table: set<Receipt>, floor: U64, h: seq<Event>)
    requires Genuine(c, Start(table, floor), h) && SpacedRun(c, Start(table, floor), h)
    ensures var w := Run(c, Start(table, floor), h); DistinctNs(w.table) && Whole(w.ledger) && RangesApart(w.ledger)
  {
    if h != [] {
      hide TickStep, WellKept, Whole, RangesApart, DistinctNs;
      var front := h[..|h| - 1];
      RangesStayApart(c, table, floor, front);
      SealedAtMostOnce(c, table, floor, front);
      var w := Run(c, Start(table, floor), front);
      match h[|h| - 1]
      case Arrived(r) =>
      case Ticked(t) => ApartStep(c, w, t, floor);
    } else {
      assert Start(table, floor).ledger.written == [];
    }
  }

  // ---- Truthful answers ----

  /** As long as no acknowledgement is lost, nothing above the watermark is recorded and the ranges ascend. */
  lemma {:induction false} TruthfulAscends(c: Config, table: set<Receipt>, floor: U64, h: seq<Event>)
    requires Genuine(c, Start(table, floor), h) && Truthful(h)
    ensures Ascends(Run(c, Start(table, floor), h).ledger)
  {
    if h != [] {
      hide Step, TickStep, WellKept, Ascends;
      var front := h[..|h| - 1];
      TruthfulAscends(c, table, floor, front);
      SealedAtMostOnce(c, table, floor, front);
      AscendsStep(c, Run(c, Start(table, floor), front), h[|h| - 1], floor);
    }
  }

  /** Then no batch is ever refused for sitting under another root. */
  lemma TruthfulNeverConflicts(c: Config, table: set<Receipt>, floor: U64, h: seq<Event>, t: Tick)
    requires Genuine(c, Start(table, floor), h) && Truthful(h)
    requires Allowed(Run(c, Start(table, floor), h), Ticked(t))
    ensures var w := Run(c, Start(table, floor), h); !Conflicts(w.ledger.seals, Batch(c, w, t))
  {
    hide *;
    TruthfulAscends(c, table, floor, h);
    SealedAtMostOnce(c, table, floor, h);
    BatchIsNew(c, Run(c, Start(table, floor), h), t, floor);
  }

  // ---- Progress ----

  /** Some attempt that is allowed succeeds after failures that were all transient. */
  ghost predicate SealsInTime(c: Config, seal: nat -> SealOutcome) {
    exists n: nat :: n <= c.retryAttempts && seal(n).Sealed? && forall k: nat :: k < n ==> seal(k).Transient?
  }

  /** The batch is large enough, or the time is up. */
  predicate Due(c: Config, w: World, t: Tick) {
    Batch(c, w, t) != [] && (t.elapsed || c.countThreshold <= |Batch(c, w, t)|)
  }

  /** No receipt of the batch is sealed together with any others than these. */
  ghost predicate Unopposed(w: World, b: seq<Receipt>) {
    forall r :: r in b && r in w.ledger.seals ==> forall q :: q in w.ledger.seals[r].leaves <==> q in b
  }

  /** Exactly the batch has been sealed as one, and nothing else has changed but the watermark. */
  ghost predicate SealedTogether(w: World, b: seq<Receipt>, after: World) {
    && after.table == w.table
    && (forall r :: r in after.ledger.seals <==> r in w.ledger.seals || r in b)
    && (forall r, q :: r in b ==> (q in after.ledger.seals[r].leaves <==> q in b))
    && (forall r :: r in w.ledger.seals ==> after.ledger.seals[r] == w.ledger.seals[r])
    && after.ledger.written == w.ledger.written + if forall r :: r in b ==> r in w.ledger.seals then [] else [b]
  }

  /** The watermark is the largest nanosecond of the batch. */
  ghost predicate AtItsEnd(b: seq<Receipt>, watermark: U64) {
    (forall r :: r in b ==> r.ns <= watermark) && exists r :: r in b && r.ns == watermark
  }

  lemma SettledExactly(c: Config, seal: nat -> SealOutcome)
    ensures seal(Settled(seal, 0, c.retryAttempts)).Sealed? <==> SealsInTime(c, seal)
  {
    var last := seal(Settled(seal, 0, c.retryAttempts));
  }

  lemma UnopposedExactly(w: World, b: seq<Receipt>)
    ensures Unopposed(w, b) <==> !Conflicts(w.ledger.seals, b)
  {
    assert forall q :: q in RootOf(b).leaves <==> q in b;
    forall r | r in b && r in w.ledger.seals
      ensures w.ledger.seals[r] == RootOf(b) <==> forall q :: q in w.ledger.seals[r].leaves <==> q in b
    {
      if forall q :: q in w.ledger.seals[r].leaves <==> q in b {
        assert w.ledger.seals[r].leaves == RootOf(b).leaves;
      }
    }
  }

  /**
   * A pass seals a batch exactly when it is due, sealing succeeds in time, the store writes, and no receipt of it is
   * sealed with others; the watermark follows if the write was acknowledged. Otherwise nothing changes, whatever
   * the services answer.
   */
  lemma PassExactly(c: Config, w: World, t: Tick)
    ensures var b, after := Batch(c, w, t), Step(c, w, Ticked(t));
      if Due(c, w, t) && SealsInTime(c, t.seal) && !t.write.NotWritten? && Unopposed(w, b) then
        && SealedTogether(w, b, after)
        && (t.write.Acknowledged? ==> AtItsEnd(b, after.ledger.watermark))
        && (t.write.Unacknowledged? ==> after.ledger.watermark == w.ledger.watermark)
      else
        after == w
  {
    var b := Batch(c, w, t);
    SettledExactly(c, t.seal);
    UnopposedExactly(w, b);
    if b != [] && !Conflicts(w.ledger.seals, b) && !t.write.NotWritten? {
      RecordSeals(w, b, t.write);
    }
    hide SealsInTime, Settled, Unopposed, Candidates, MaxNs, Conflicts, SealedTogether, RootOf, SealAll;
  }

  lemma RecordSeals(w: World, b: seq<Receipt>, write: WriteOutcome)
    requires b != [] && Unopposed(w, b) && !Conflicts(w.ledger.seals, b) && !write.NotWritten?
    ensures forall watermark: U64 ::
      SealedTogether(w, b, w.(ledger := Record(w.ledger, b, write).0.(watermark := watermark)))
    ensures AtItsEnd(b, MaxNs(b))
    ensures SealedTogether(w, b, w.(ledger := Record(w.ledger, b, write).0))
  {
    hide Conflicts;
    assert forall q :: q in RootOf(b).leaves <==> q in b;
    if forall r :: r in b ==> r in w.ledger.seals {
      assert RootOf(b).leaves <= w.ledger.seals.Keys;
    }
  }

  /** Sealing and recording both work, and the batch is due. */
  ghost predicate Favourable(c: Config, w: World, t: Tick) {
    Due(c, w, t) && SealsInTime(c, t.seal) && t.write.Acknowledged?
  }

  function Pending(w: World): set<Receipt> {
    set r | r in w.table && r.ns > w.ledger.watermark
  }

  lemma ConflictsExactly(w: World, floor: U64, b: seq<Receipt>)
    requires WellKept(w, floor)
    ensures Conflicts(w.ledger.seals, b)
      <==> (exists k :: k in w.ledger.written && RootOf(k) != RootOf(b) && !Disjoint(k, b))
  {
    hide NoRepeats, RootOf, Disjoint;
    var l := w.ledger;
    if Conflicts(l.seals, b) {
      var r :| r in b && r in l.seals && l.seals[r] != RootOf(b);
      var i :| 0 <= i < |l.written| && r in l.written[i];
      var k := l.written[i];
      assert KeptBatch(w, floor, k) && k in l.written;
      Overlaps(k, b, r);
    }
    if k :| k in l.written && RootOf(k) != RootOf(b) && !Disjoint(k, b) {
      var i :| 0 <= i < |l.written| && l.written[i] == k;
      assert KeptBatch(w, floor, k);
      var r := Shared(k, b);
      assert l.seals[r] == RootOf(k);
    }
  }

  lemma Overlaps(k: seq<Receipt>, b: seq<Receipt>, r: Receipt)
    requires r in k && r in b
    ensures !Disjoint(k, b)
  {
  }

  lemma Shared(k: seq<Receipt>, b: seq<Receipt>) returns (r: Receipt)
    requires !Disjoint(k, b)
    ensures r in k && r in b
  {
    r :| r in k && r in b;
  }

  /**
   * A favourable pass moves the watermark exactly when every recorded batch either equals the new one or shares
   * nothing with it; then all of its receipts leave the backlog, and otherwise nothing changes.
   */
  lemma AdvancesExactly(c: Config, w: World, t: Tick, floor: U64)
    requires WellKept(w, floor) && Allowed(w, Ticked(t)) && Favourable(c, w, t)
    ensures var b, after := Batch(c, w, t), Step(c, w, Ticked(t));
      if exists k :: k in w.ledger.written && RootOf(k) != RootOf(b) && !Disjoint(k, b) then
        after == w
      else
        && after.ledger.watermark > w.ledger.watermark
        && Pending(after) <= Pending(w) - RootOf(b).leaves
        && RootOf(b).leaves <= Pending(w) * after.ledger.seals.Keys
  {
    var b := Batch(c, w, t);
    BatchIsLowest(c, w, t);
    PassExactly(c, w, t);
    UnopposedExactly(w, b);
    ConflictsExactly(w, floor, b);
    hide Allowed, NoRepeats, Batch, Conflicts, Disjoint, WellKept, TickStep, SealsInTime, Unopposed;
    assert b[0] in b;
    assert forall r :: r in RootOf(b).leaves <==> r in b;
  }

  /** A pass is shown everything that is pending, and cuts nothing off. */
  predicate SeesAll(c: Config, w: World, e: Event) {
    e.Ticked? && e.tick.fetch.Page? ==>
      && |e.tick.fetch.rows| <= c.maxBatchSize
      && forall r :: r in Pending(w) ==> r in e.tick.fetch.rows
  }

  predicate AlwaysSeesAll(c: Config, w: World, h: seq<Event>) {
    h != [] ==>
      var before, e := Run(c, w, h[..|h| - 1]), h[|h| - 1];
      AlwaysSeesAll(c, w, h[..|h| - 1]) && Allowed(before, e) && SeesAll(c, before, e)
  }

  lemma StallStep(c: Config, w: World, t: Tick, floor: U64, k: seq<Receipt>, r: Receipt)
    requires KeptBatch(w, floor, k) && Above(k, w.ledger.watermark) && r in Pending(w) && r !in k
    requires SeesAll(c, w, Ticked(t))
    ensures TickStep(c, w.ledger, t) == w.ledger
  {
    var b := Batch(c, w, t);
    if b != [] {
      var rows := t.fetch.rows;
      SameElements(Sort(rows, NsLe), rows);
      assert b == Sort(rows, NsLe);
      hide Sort, NoRepeats;
      var q := k[0];
      assert q in k && q in Pending(w) && q in b && r in b;
      assert r in RootOf(b).leaves && r !in RootOf(k).leaves;
      assert Conflicts(w.ledger.seals, b);
    }
  }

  /**
   * Once a batch has been recorded above the watermark and another receipt has joined it there, the driver is stuck:
   * as long as its passes see all that is pending, no run of passes and arrivals ever changes watermark or seals.
   */
  lemma {:induction false} StallsForGood(c: Config, w: World, floor: U64, k: seq<Receipt>, r: Receipt, h: seq<Event>)
    requires KeptBatch(w, floor, k) && Above(k, w.ledger.watermark) && r in Pending(w) && r !in k
    requires AlwaysSeesAll(c, w, h)
    ensures Run(c, w, h).ledger == w.ledger && w.table <= Run(c, w, h).table
  {
    if h != [] {
      hide TickStep, SeesAll, NoRepeats, RootOf;
      var front := h[..|h| - 1];
      StallsForGood(c, w, floor, k, r, front);
      var now := Run(c, w, front);
      assert KeptBatch(now, floor, k);
      match h[|h| - 1]
      case Arrived(_) =>
      case Ticked(t) => StallStep(c, now, t, floor, k, r);
    }
  }

  /**
   * A store that keeps a batch but fails to say so can stop the driver for good, under any configuration: one receipt
   * written that way, another one arriving, and nothing ever changes while the passes see both.
   */
  lemma LostAcknowledgementStalls(c: Config, a: Receipt, b: Receipt, seal: nat -> SealOutcome, more: seq<Event>)
    requires c.maxBatchSize >= 1 && a != b && a.ns > 0 && b.ns > 0 && seal(0).Sealed?
    ensures var start := Start({a}, 0);
      var h := [Ticked(Tick(Page([a]), true, seal, Unacknowledged)), Arrived(b)];
      && Genuine(c, start, h)
      && (AlwaysSeesAll(c, Run(c, start, h), more) ==>
            Run(c, Run(c, start, h), more).ledger == Ledger(0, map[a := RootOf([a])], [[a]]))
  {
    var first := Tick(Page([a]), true, seal, Unacknowledged);
    var h := [Ticked(first), Arrived(b)];
    var start := Start({a}, 0);
    assert h[..1] == [Ticked(first)] && h[..1][..0] == [];
    FirstWriteLands(c, a, seal);
    var w1 := World({a}, Ledger(0, map[a := RootOf([a])], [[a]]));
    hide TickStep, Allowed;
    assert Run(c, start, h[..1]) == w1;
    var w := w1.(table := {a, b});
    assert Run(c, start, h) == w;
    assert Genuine(c, start, h[..1]) && Allowed(w1, Arrived(b)) by {
      ArrivalsAllowed(w1, b);
    }
    if AlwaysSeesAll(c, w, more) {
      assert KeptBatch(w, 0, [a]) && b in Pending(w) && b !in [a];
      StallsForGood(c, w, 0, [a], b, more);
    }
  }

  lemma ArrivalsAllowed(w: World, r: Receipt)
    ensures Allowed(w, Arrived(r))
  {
  }

  lemma FirstWriteLands(c: Config, a: Receipt, seal: nat -> SealOutcome)
    requires c.maxBatchSize >= 1 && a.ns > 0 && seal(0).Sealed?
    ensures Allowed(Start({a}, 0), Ticked(Tick(Page([a]), true, seal, Unacknowledged)))
    ensures TickStep(c, Ledger(0, map[], []), Tick(Page([a]), true, seal, Unacknowledged))
      == Ledger(0, map[a := RootOf([a])], [[a]])
  {
    assert Sort([a], NsLe) == [a];
    assert RootOf([a]).leaves == {a};
    assert SealAll(map[], [a]) == map[a := RootOf([a])];
  }
}
