/** The sealing loop as a function: what one pass does to the watermark and to the seal store. */
module Anchoring {
  import opened StableSort

  const U64_MAX: nat := 0xFFFF_FFFF_FFFF_FFFF
  type U64 = n: nat | n <= U64_MAX

  /** A receipt, named by its content hash. */
  datatype Receipt = Receipt(id: nat, ns: U64)

  datatype Config = Config(
    countThreshold: nat,
    maxBatchSize: nat,
    retryAttempts: nat,
    initialBackoff: nat,
    maxBackoff: nat
  )

  /** The Merkle root commits to exactly the receipts below it. */
  datatype Root = Root(leaves: set<Receipt>)

  datatype SealOutcome = Sealed | Transient | Permanent

  /** The store's answer to a write that raises no conflict; the last one wrote but the caller sees an error. */
  datatype WriteOutcome = Acknowledged | NotWritten | Unacknowledged

  datatype FetchOutcome = FetchFails | Page(rows: seq<Receipt>)

  /** Everything one pass of the loop is told from outside. */
  datatype Tick = Tick(fetch: FetchOutcome, elapsed: bool, seal: nat -> SealOutcome, write: WriteOutcome)

  /** `written` lists the batches in the order in which the store took them. */
  datatype Ledger = Ledger(watermark: U64, seals: map<Receipt, Root>, written: seq<seq<Receipt>>)

  function NsLe(a: Receipt, b: Receipt): bool {
    a.ns <= b.ns
  }

  lemma NsOrder()
    ensures TotalPreorder(NsLe)
  {
  }

  function FromNs(watermark: U64): U64 {
    if watermark < U64_MAX then watermark + 1 else U64_MAX
  }

  function Take(s: seq<Receipt>, n: nat): seq<Receipt> {
    if |s| > n then s[..n] else s
  }

  /** What a sorted list is cut to lies nowhere above what is cut off. */
  lemma CutIsLowest(rows: seq<Receipt>, sorted: seq<Receipt>, n: nat)
    requires Ascending(sorted, NsLe) && multiset(sorted) == multiset(rows)
    ensures var batch := Take(sorted, n);
      && (forall i, j :: 0 <= i < j < |batch| ==> batch[i].ns <= batch[j].ns)
      && (batch != [] ==> forall r :: r in rows && r !in batch ==> batch[|batch| - 1].ns <= r.ns)
  {
    var batch := Take(sorted, n);
    SameElements(sorted, rows);
    assert forall i, j :: 0 <= i < j < |sorted| ==> NsLe(sorted[i], sorted[j]);
    assert forall i :: 0 <= i < |batch| ==> sorted[i] == batch[i] && batch[i] in batch;
    forall r | batch != [] && r in rows && r !in batch
      ensures batch[|batch| - 1].ns <= r.ns
    {
      assert r in sorted;
      var i :| 0 <= i < |sorted| && sorted[i] == r;
    }
  }

  /** A window that starts at the last representable nanosecond is taken to be empty. */
  function Candidates(watermark: U64, maxBatchSize: nat, rows: seq<Receipt>): seq<Receipt> {
    if FromNs(watermark) == U64_MAX then [] else Take(Sort(rows, NsLe), maxBatchSize)
  }

  function MaxNs(batch: seq<Receipt>): (m: U64)
    requires batch != []
    ensures forall r :: r in batch ==> r.ns <= m
    ensures exists r :: r in batch && r.ns == m
  {
    var last := batch[|batch| - 1];
    assert last in batch;
    if |batch| == 1 then
      last.ns
    else
      var rest := MaxNs(batch[..|batch| - 1]);
      assert forall r :: r in batch ==> r in batch[..|batch| - 1] || r == last;
      if rest <= last.ns then last.ns else rest
  }

  /** The attempt whose outcome the retry loop reports: the first that is not transient, or the last one allowed. */
  function Settled(seal: nat -> SealOutcome, attempt: nat, limit: nat): (n: nat)
    requires attempt <= limit
    ensures attempt <= n <= limit
    ensures forall k :: attempt <= k < n ==> seal(k).Transient?
    ensures seal(n).Transient? ==> n == limit
    decreases limit - attempt
  {
    if seal(attempt).Transient? && attempt < limit then Settled(seal, attempt + 1, limit) else attempt
  }

  function RootOf(batch: seq<Receipt>): Root {
    Root(set r | r in batch)
  }

  /** Some leaf already sits under another root. */
  predicate Conflicts(seals: map<Receipt, Root>, batch: seq<Receipt>) {
    exists r :: r in batch && r in seals && seals[r] != RootOf(batch)
  }

  function SealAll(seals: map<Receipt, Root>, batch: seq<Receipt>): map<Receipt, Root> {
    map r | r in seals.Keys + RootOf(batch).leaves :: if r in seals then seals[r] else RootOf(batch)
  }

  /** An empty batch and a conflict are refused; a batch that is already there is accepted and changes nothing. */
  function Record(l: Ledger, batch: seq<Receipt>, write: WriteOutcome): (Ledger, bool) {
    if batch == [] || write.NotWritten? || Conflicts(l.seals, batch) then
      (l, false)
    else if RootOf(batch).leaves <= l.seals.Keys then
      (l, write.Acknowledged?)
    else
      (l.(seals := SealAll(l.seals, batch), written := l.written + [batch]), write.Acknowledged?)
  }

  predicate ShouldSeal(c: Config, batch: seq<Receipt>, elapsed: bool) {
    batch != [] && (|batch| >= c.countThreshold || elapsed)
  }

  /** One pass: the watermark moves only when the batch is sealed and its record is acknowledged. */
  function TickStep(c: Config, l: Ledger, t: Tick): Ledger {
    if t.fetch.FetchFails? then
      l
    else
      var batch := Candidates(l.watermark, c.maxBatchSize, t.fetch.rows);
      if !ShouldSeal(c, batch, t.elapsed) || t.seal(Settled(t.seal, 0, c.retryAttempts)) != Sealed then
        l
      else
        var (after, ok) := Record(l, batch, t.write);
        if ok then after.(watermark := MaxNs(batch)) else after
  }
}
