/** The candidate source, the seal store and the driver loop, updated in place. */
module AnchorDriver {
  import opened Wrappers
  import opened StableSort
  import opened Anchoring

  datatype DriverError = SealFailed(outcome: SealOutcome) | RecordFailed

  lemma PartOf(batch: seq<Receipt>, rest: seq<Receipt>, rows: seq<Receipt>)
    requires multiset(batch + rest) == multiset(rows)
    ensures multiset(batch) <= multiset(rows)
  {
    assert multiset(batch + rest) == multiset(batch) + multiset(rest);
  }

  /** Rows of the page in ascending order, none of them above a row that is left out. */
  predicate LowestOf(rows: seq<Receipt>, batch: seq<Receipt>) {
    && multiset(batch) <= multiset(rows)
    && (forall i, j :: 0 <= i < j < |batch| ==> batch[i].ns <= batch[j].ns)
    && (batch != [] ==> forall r :: r in rows && r !in batch ==> batch[|batch| - 1].ns <= r.ns)
  }

  lemma NoneIsLowest(rows: seq<Receipt>)
    ensures LowestOf(rows, [])
  {
  }

  /** Sorts before truncating; what was cut lies at or above everything that was kept. */
  method FetchCandidates(watermark: U64, maxBatchSize: nat, rows: seq<Receipt>) returns (batch: seq<Receipt>)
    ensures batch == Candidates(watermark, maxBatchSize, rows)
    ensures watermark < U64_MAX - 1 ==> |batch| == if |rows| < maxBatchSize then |rows| else maxBatchSize
    ensures watermark >= U64_MAX - 1 ==> batch == []
    ensures LowestOf(rows, batch)
  {
    hide Sort, Ascending, NsLe, LowestOf;
    var fromNs := if watermark == U64_MAX then U64_MAX else watermark + 1;
    if fromNs == U64_MAX {
      NoneIsLowest(rows);
      return [];
    }
    var sorted := Sort(rows, NsLe);
    NsOrder();
    SortAscends(rows, NsLe);
    KeptAreLowest(rows, sorted, maxBatchSize);
    if |sorted| > maxBatchSize {
      batch := sorted[..maxBatchSize];
    } else {
      batch := sorted;
    }
  }

  lemma KeptAreLowest(rows: seq<Receipt>, sorted: seq<Receipt>, n: nat)
    requires Ascending(sorted, NsLe) && multiset(sorted) == multiset(rows)
    ensures LowestOf(rows, Take(sorted, n))
  {
    CutIsLowest(rows, sorted, n);
    TakeAndRest(sorted, n);
    hide Ascending, NsLe, Take;
    var batch := Take(sorted, n);
    PartOf(batch, sorted[|batch|..], rows);
  }

  lemma TakeAndRest(s: seq<Receipt>, n: nat)
    ensures var front := Take(s, n); |front| <= |s| && front + s[|front|..] == s
  {
  }

  /** The pause after the failed attempt k: doubled each time, capped from the second pause on. */
  function Backoff(c: Config, k: nat): nat {
    if k == 0 then c.initialBackoff else Min(c.initialBackoff * Pow2(k), c.maxBackoff)
  }

  function Min(a: nat, b: nat): nat {
    if a <= b then a else b
  }

  function Pow2(k: nat): nat {
    if k == 0 then 1 else 2 * Pow2(k - 1)
  }

  class SealStore {
    var seals: map<Receipt, Root>
    ghost var written: seq<seq<Receipt>>

    constructor ()
      ensures seals == map[] && written == []
    {
      seals, written := map[], [];
    }

    /** Checks every leaf before it writes any. */
    method RecordSealedBatch(batch: seq<Receipt>, write: WriteOutcome) returns (ok: bool)
      modifies this
      ensures forall w: U64 :: Record(Ledger(w, old(seals), old(written)), batch, write) == (Ledger(w, seals, written), ok)
    {
      if batch == [] || write.NotWritten? {
        return false;
      }
      var i := 0;
      while i < |batch|
        invariant 0 <= i <= |batch|
        invariant forall k :: 0 <= k < i && batch[k] in seals ==> seals[batch[k]] == RootOf(batch)
      {
        if batch[i] in seals && seals[batch[i]] != RootOf(batch) {
          assert Conflicts(seals, batch);
          return false;
        }
        i := i + 1;
      }
      ghost var before := seals;
      i := 0;
      while i < |batch|
        invariant 0 <= i <= |batch|
        invariant seals.Keys == before.Keys + set r | r in batch[..i]
        invariant forall r :: r in before ==> seals[r] == before[r]
        invariant forall r :: r in seals && r !in before ==> seals[r] == RootOf(batch)
        invariant written == old(written)
      {
        if batch[i] !in seals {
          seals := seals[batch[i] := RootOf(batch)];
        }
        assert batch[..i + 1] == batch[..i] + [batch[i]];
        i := i + 1;
      }
      assert batch[..|batch|] == batch;
      if RootOf(batch).leaves <= before.Keys {
        assert seals == before;
      } else {
        assert seals == SealAll(before, batch);
        written := written + [batch];
      }
      ok := write.Acknowledged?;
    }
  }

  class AnchorDriver {
    const config: Config
    const store: SealStore
    var watermark: U64

    ghost function View(): Ledger
      reads this, store
    {
      Ledger(watermark, store.seals, store.written)
    }

    constructor (config: Config, store: SealStore, initialWatermark: U64)
      ensures this.config == config && this.store == store
      ensures View() == Ledger(initialWatermark, store.seals, store.written)
    {
      this.config, this.store, watermark := config, store, initialWatermark;
    }

    /** Retries transient failures only, at most `retryAttempts` times, and records a sealed batch once. */
    method TrySealWithBackoff(batch: seq<Receipt>, seal: nat -> SealOutcome, write: WriteOutcome)
      returns (r: Result<U64, DriverError>, slept: seq<nat>)
      requires batch != []
      modifies store
      ensures |slept| == Settled(seal, 0, config.retryAttempts)
      ensures forall k :: 0 <= k < |slept| ==> seal(k).Transient? && slept[k] == Backoff(config, k)
      ensures !seal(|slept|).Sealed? ==> r == Err(SealFailed(seal(|slept|))) && View() == old(View())
      ensures seal(|slept|).Sealed? ==> (View(), r.Ok?) == Record(old(View()), batch, write)
      ensures r.Ok? ==> r.value == MaxNs(batch)
    {
      var backoff := config.initialBackoff;
      var attempt := 0;
      slept := [];
      while true
        invariant attempt == |slept| <= config.retryAttempts
        invariant Settled(seal, 0, config.retryAttempts) == Settled(seal, attempt, config.retryAttempts)
        invariant forall k :: 0 <= k < attempt ==> seal(k).Transient? && slept[k] == Backoff(config, k)
        invariant backoff == Backoff(config, attempt)
        invariant View() == old(View())
        decreases config.retryAttempts - attempt
      {
        match seal(attempt) {
          case Sealed =>
            var ok := store.RecordSealedBatch(batch, write);
            r := if ok then Ok(MaxNs(batch)) else Err(RecordFailed);
            return;
          case Transient =>
            if attempt == config.retryAttempts {
              r := Err(SealFailed(Transient));
              return;
            }
            slept := slept + [backoff];
            backoff := Min(backoff * 2, config.maxBackoff);
            BackoffDoubles(config, attempt);
            attempt := attempt + 1;
          case Permanent =>
            r := Err(SealFailed(Permanent));
            return;
        }
      }
    }

    /** One pass of the endless loop. */
    method RunOnce(t: Tick) returns (sealed: bool)
      modifies this, store
      ensures View() == TickStep(config, old(View()), t)
      ensures watermark != old(watermark) ==> sealed
    {
      hide LowestOf, Candidates, Record, Settled, Backoff;
      sealed := false;
      if t.fetch.Page? {
        var batch := FetchCandidates(watermark, config.maxBatchSize, t.fetch.rows);
        var shouldSeal := batch != [] && (|batch| >= config.countThreshold || t.elapsed);
        if shouldSeal {
          var r, slept := TrySealWithBackoff(batch, t.seal, t.write);
          if r.Ok? {
            watermark := r.value;
            sealed := true;
          }
        }
      }
    }
  }

  lemma BackoffDoubles(c: Config, k: nat)
    ensures Backoff(c, k + 1) == Min(Backoff(c, k) * 2, c.maxBackoff)
  {
    var x := c.initialBackoff * Pow2(k);
    assert c.initialBackoff * Pow2(k + 1) == 2 * x;
    if k == 0 {
      assert x == c.initialBackoff;
    }
  }
}
