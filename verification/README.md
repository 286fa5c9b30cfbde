# Verified model of the swarm control plane's decision core

This project models, in Dafny, the parts of the control plane that decide something over time, and proves what they
keep over whole runs.

- **Enforcement** (`Enforcement`, `EnforcementEngine`, `EscalationChain`, `EnforcementQueue`, `SlidingWindow`,
  `RuleFilters`, `AgentStanding`, `WallClock`): sliding-window counters, the queue of scheduled stages (detect, coach,
  quarantine, evict or reverse), which receipts a rule counts, quarantine flags and clamped reputations.
  `ReceiptPublisher` closes the loop from an effect to a receipt and back into the engine and the capability gate.
- **Constitutions** (`EscalationGraph`, `Validators`, `Procedures`, `ProcedureSteps`, `ProcedureRuns`, `Evaluator`,
  `EvaluatorRuns`, `Snapshots`, `Scores`, `Durations`): the load-time validators with the three-colour search, procedure
  instances, the active and the shadow slot, canonical entity snapshots, and the score and duration texts.
- **Capabilities** (`Scope`, `Capabilities`, `CapabilityStore`, `CapabilityLaws`, `CheckMeaning`, `Narrowing`,
  `ChainScopes`): attenuation, the bounded chain walk, what chains permit and why checks deny, revocation and the
  quarantine gate.
- **Anchoring and paging** (`Anchoring`, `AnchorDriver`, `AnchorRuns`, `Paging`, `PageScan`): the watermark loop that
  seals receipts in batches, and keyset paging over a table that grows.
- **JWKS cache** (`JwksCache`, `JwksRuns`): concurrent key refresh, as atomic steps that interleave freely.

Code that updates state in place is a class or a method with loops, proved equal to a function of the old state; the
run-level theorems are lemmas about those functions. What such a function means is stated apart from it, in the words of
rules, times, tags, states and services (`RuleFilters`, `CheckMeaning`, `Narrowing`, `ProcedureSteps`, and the lemmas
called `...Means` and `...Exactly`). `Text`, `StableSort` and `Wrappers` are shared helpers.

## Assumptions

- Wall-clock instants are integers in the engine's model. The engine compares RFC 3339 texts, which agrees with time
  order when both have the same zone and the same number of fraction digits (section 5.1 of RFC 3339). The engine's own
  texts drop trailing zeros, so the comparison goes wrong within one second and never beyond it
  (`WallClock.TextOrderExactly`, `WallClock.DueWithinASecond`). All texts are taken to be in UTC, in the years 0000 to
  9999.
- A content address determines the content (`CapabilityLaws.Injective`), and a Merkle root the receipts below it.
- Cedar, the constitution loader's Cedar checks, hashing, decimal parsing and UTF-8 are functions passed in; the
  policies that matched a request are inputs.
- Arithmetic follows a release build: `as` casts and plain `*`, `+` and `-` wrap. A debug build stops where they wrap.
- The sealer reports the smallest and largest nanosecond of its batch, as the client's argument type documents
  (backends/sui-anchor/src/client.rs:41-44).

## Where the code falls short of what it says

Each of these is a lemma with the exact condition, and with a concrete input where one helps.

- Delays from 2^63 ns up to 2^64 ns wrap in the cast to `i64`: a stage falls due before the event that schedules it.
  Delays of 2^64 ns and more load and are never scheduled (`EscalationChain.ScheduledExactly`,
  `EscalationChain.FiresEarlyExactly`, `EscalationChain.LongCooldownFiresAtOnce`).
- As text an instant inside a second comes before the whole second, so a stage can fire up to a second early
  (`WallClock.FoundEarly`).
- The loader accepts windows the engine cannot read; the engine then counts over 60 seconds
  (`Validators.AcceptedWindowUsed`, `Validators.LongWindowIgnored`).
- The loader accepts a rule that waits for an enforcement receipt, and such a rule never detects anything
  (`RuleFilters.EnforcementTriggersAreDead`).
- `Scope::intersect` is documented to be at most as permissive as either side. Two non-empty lists with nothing in
  common intersect to the empty list, which permits everything, and some unparsable bounds also widen
  (`Scope.IntersectIsBothExactly`, `Scope.IncompatibleWidens`). Its comment calls the bound comparison lexicographic;
  the code parses numbers. Attenuation is not affected (`CapabilityLaws.AttenuationNeverWidens`).
- `attenuate` says that it refuses a child scope that is not a subset of its parent's. It also refuses one that lists the
  same values in another order (`Narrowing.NarrowsExactly`, `Narrowing.ReorderIsRefused`).
- `issue` takes any parent and any scope. A check of an issued child can then permit what no link of its chain permits
  (`ChainScopes.IssuedChildWidens`). The folded scopes of a chain are what all its links permit exactly when each link
  is compatible with the fold before it (`ChainScopes.FoldsToAllExactly`), and so are the checks of its links
  (`ChainScopes.ChecksAskEveryLinkExactly`).
- A procedure that starts in a terminal state is entered open and can never close; an open instance sits in a terminal
  state in no other case (`ProcedureRuns.OpenInTerminalExactly`, `ProcedureRuns.TerminalStartNeverCloses`,
  `ProcedureRuns.TerminalStartLoads`).
- Two action transitions between the same states share a policy id whatever their actions, so the earlier one can never
  fire (`Procedures.CanFireExactly`, `ProcedureRuns.TwinTransitionSilenced`).
- Parsing a rendered score overflows on the way for the smallest `i64` and for no other value (`Scores.RoundTrip`).
- An effect's own evidence could override its reputation delta on the way back (`ReceiptPublisher.EmittedReadsBack`);
  what the engine emits today does not.
- The watermark passes over a receipt exactly when it arrives at or below it or shares its nanosecond with the last
  receipt of a cut batch (`AnchorRuns.MissedExactly`, `AnchorRuns.TieIsMissed`). With the watermark one below the largest `u64`, a receipt at the
  largest is never fetched (`AnchorDriver.FetchCandidates`).
- A seal record that is written but not acknowledged leaves a batch recorded above the watermark
  (`AnchorRuns.SealedExactlyOnce`), and once another receipt has joined it there the driver never moves again as long
  as it sees everything that is pending (`AnchorRuns.StallsForGood`, `AnchorRuns.LostAcknowledgementStalls`,
  `AnchorRuns.AdvancesExactly`).
- Stored timestamps saturate at the largest `i64`. A saturated receipt is found by every time window that reaches up to
  there, whatever its bounds were (`Paging.WindowExactly`).
- A JWKS lookup can be turned down after re-reading the very keys it missed in, exactly when it misses between a
  refresh's two writes (`JwksRuns.RereadExactly`).
- The canonical snapshot is documented to ignore the order of entities; it does exactly when records that share a UID
  agree (`Snapshots.OrderIgnoredExactly`).

## Model

| member | source | states |
|---|---|---|
| EnforcementEngine.Engine.constructor | crates/yutha-cedar-plus/src/enforcement.rs:364-371 | A new engine is at the start of its history: no rules, no agents, no counters, nothing queued |
| EnforcementEngine.Engine.Activate | crates/yutha-cedar-plus/src/enforcement.rs:373-382 | Replaces the rules and drops every counter; agents and the queue stay |
| EnforcementEngine.Engine.OnReceipt | crates/yutha-cedar-plus/src/enforcement.rs:387-431 | An enforcement receipt is absorbed and triggers nothing; any other is put to the active rules in order, and state and effects are those of one step of the run, of which RuleFilters and EscalationChain.ReceiptQueuesExactly say what it counts, says and queues |
| EnforcementEngine.Engine.Absorb | crates/yutha-cedar-plus/src/enforcement.rs:387-414 | Reputation delta and quarantine flag of the named principal only |
| EnforcementEngine.Engine.CheckDetect | crates/yutha-cedar-plus/src/enforcement.rs:575-679 | Filter, prune, push, compare, clear and schedule, for one rule and one receipt; RuleFilters says what passes the filter |
| Enforcement.AtOrAfter | crates/yutha-cedar-plus/src/enforcement.rs:294-303 | Each timestamp at or after the cutoff is kept as often as it was there, and no other |
| EnforcementEngine.Engine.Retain | crates/yutha-cedar-plus/src/enforcement.rs:294-303 | The in-place loop is that filter, in order |
| EnforcementEngine.Engine.PollScheduled | crates/yutha-cedar-plus/src/enforcement.rs:512-547 | Fires what is due, keeps the rest in order and appends the follow-ups, as one step of the run; EscalationChain.PollQueuesExactly says which |
| EnforcementEngine.Engine.IsAgentQuarantined | crates/yutha-cedar-plus/src/enforcement.rs:431-436 | Answers the flag of the agent, and no for an unknown one |
| EscalationChain.EveryEffectHasItsOwnCause | crates/yutha-cedar-plus/src/enforcement.rs:512-547 | In every run, amendments included, each coach, quarantine, evict and reverse points at an earlier effect of the stage before for the same agent and rule, and no two of one stage at the same one |
| EscalationChain.StagesOrdered | crates/yutha-cedar-plus/src/enforcement.rs:742-804 | For each agent and rule a later stage is never emitted more often than the stage before it |
| EscalationChain.WaitsForCause | crates/yutha-cedar-plus/src/enforcement.rs:742-820 | Under a fixed constitution an effect comes no earlier than its cause plus the delay configured for its stage |
| EscalationChain.EvictWaitsItsTurn | crates/yutha-cedar-plus/src/enforcement.rs:654-664 | Under a fixed constitution an evict or reverse fires no earlier than its detect receipt's time plus cooldown plus both escalation delays |
| EscalationChain.ScheduledExactly | crates/yutha-cedar-plus/src/enforcement.rs:806-820 | A configured stage is scheduled exactly when its delay is well formed and below 2^64 ns and the cast instant has a text, and then at that instant |
| EscalationChain.PlanExactly | crates/yutha-cedar-plus/src/enforcement.rs:806-820 | One configured stage is planned exactly when its delay is present, loads and stays below 2^64 ns and its instant has a text; never twice |
| EscalationChain.FollowUpsExactly | crates/yutha-cedar-plus/src/enforcement.rs:742-804 | A fired stage schedules, once each, exactly the stages that come next under the active rule that first bears its name: quarantine after coach, evict and reverse after quarantine |
| EscalationChain.PollQueuesExactly | crates/yutha-cedar-plus/src/enforcement.rs:512-547 | After a poll the queue holds, entry by entry, what was there and is not due, and one entry for each due one that leads to it |
| EscalationChain.ReceiptQueuesExactly | crates/yutha-cedar-plus/src/enforcement.rs:654-664 | A receipt adds exactly the coaches that its detects lead to, and takes nothing away |
| EscalationChain.NoStageIsLost | crates/yutha-cedar-plus/src/enforcement.rs:512-547 | In every run whatever an effect leads to has come out later, caused by it and no sooner than due, or is in the queue |
| EscalationChain.FiresEarlyExactly | crates/yutha-cedar-plus/src/enforcement.rs:806-820 | Of the delays that load, those below 2^63 ns are waited for, those below 2^64 ns fall due in the past, and longer ones are never scheduled |
| WallClock.TextOrderExactly | crates/yutha-cedar-plus/src/enforcement.rs:512-547 | The text comparison agrees with time order except within one second, where the digits of one fraction begin those of the other |
| WallClock.DueWithinASecond | crates/yutha-cedar-plus/src/enforcement.rs:512-547 | What the text comparison finds due is due within less than a second, and what is overdue by a second is found |
| WallClock.FoundEarly | crates/yutha-cedar-plus/src/enforcement.rs:512-547 | Every instant inside a second is found due at the whole second before it |
| EscalationChain.LongCooldownFiresAtOnce | crates/yutha-cedar-plus/src/enforcement.rs:806-820 | A cooldown of 106752 days loads and is due before its detect |
| EnforcementQueue.SweepSplits | crates/yutha-cedar-plus/src/enforcement.rs:512-547 | The queue splits into fired entries, one effect each in order, and kept ones in order; nothing is lost and no follow-up fires in the poll that adds it |
| EnforcementQueue.SweepWeight | crates/yutha-cedar-plus/src/enforcement.rs:742-804 | A poll lowers the weight of the queue by at least one for each effect |
| EnforcementQueue.EffectBudget | crates/yutha-cedar-plus/src/enforcement.rs:512-547 | A run with d detects emits at most 5d effects, less the weight still queued |
| EnforcementQueue.DrainsInThreePolls | crates/yutha-cedar-plus/src/enforcement.rs:742-804 | Three polls that are late enough empty any queue |
| SlidingWindow.BucketIsWindow | crates/yutha-cedar-plus/src/enforcement.rs:294-303 | Whatever the order of timestamps, a bucket is exactly the matches since the last detect that no later match has left behind its window |
| SlidingWindow.SurvivorsInOrder | crates/yutha-cedar-plus/src/enforcement.rs:294-303 | For timestamps in order those are the ones at or after the newest one's window begins |
| SlidingWindow.BucketStaysShort | crates/yutha-cedar-plus/src/enforcement.rs:602-634 | At rest a bucket is shorter than its threshold, so the cast to u32 loses nothing |
| SlidingWindow.OnlyItsOwnRule | crates/yutha-cedar-plus/src/enforcement.rs:602-634 | Among uniquely named rules a rule's bucket and detect depend on that rule alone |
| SlidingWindow.CounterFollowsHistory | crates/yutha-cedar-plus/src/enforcement.rs:373-431 | In every reachable engine each bucket is what the matches since the last activation make of it |
| SlidingWindow.DetectExactly | crates/yutha-cedar-plus/src/enforcement.rs:602-634 | Detect fires exactly when those matches, the new one included, reach the threshold, and then empties the bucket; no order of timestamps is asked for. Which receipts match is RuleFilters.MissedIsIgnored and RuleFilters.OthersAreCounted |
| RuleFilters.MissedIsIgnored | crates/yutha-cedar-plus/src/enforcement.rs:580-594 | A receipt of another kind, or with another deny reason or forbid rule than the rule names, gives no detect of the rule and changes none of its buckets |
| RuleFilters.OthersAreCounted | crates/yutha-cedar-plus/src/enforcement.rs:596-634 | Every other receipt is counted in the one bucket of its principal, or in that of nobody for "none" or a missing principal; it detects exactly when the window then reaches the threshold, which empties the bucket |
| RuleFilters.DetectsSay | crates/yutha-cedar-plus/src/enforcement.rs:616-676 | Each effect of a receipt is the detect of one active rule, with its group, its own or the default delta and the timestamps that made it up |
| RuleFilters.DetectsInOrder | crates/yutha-cedar-plus/src/enforcement.rs:418-428 | The detects of one receipt come in the order of their rules, at most one of each |
| RuleFilters.DetectsMark | crates/yutha-cedar-plus/src/enforcement.rs:644-652 | An agent is marked as detected exactly when a detect names it, the empty name aside |
| RuleFilters.StagesSay | crates/yutha-cedar-plus/src/enforcement.rs:681-703 | Each effect of a poll comes from a due entry, with its stage, target and rule and the fixed delta of its stage |
| RuleFilters.EnforcementTriggersAreDead | crates/yutha-cedar-plus/src/enforcement.rs:387-418 | A rule whose trigger is an enforcement receipt detects nothing, whatever arrives |
| AgentStanding.StandingFollowsReceipts | crates/yutha-cedar-plus/src/enforcement.rs:387-414 | In every reachable state an agent is quarantined exactly when the latest quarantine, reverse or evict receipt about it is a quarantine, and its reputation is the running sum of its deltas from 10000, kept between 0 and 10000 |
| AgentStanding.AbsorbOne | crates/yutha-cedar-plus/src/enforcement.rs:554-571 | One enforcement receipt moves its principal by exactly its delta and kind and leaves everyone else alone, saturation never showing |
| AgentStanding.RulesKeepStanding | crates/yutha-cedar-plus/src/enforcement.rs:575-679 | Matching rules change no reputation and no quarantine flag |
| ReceiptPublisher.BuildView | crates/yutha-control-plane/src/receipt_publisher.rs:141-180 | First readable subject, last readable delta, last reason and rule; the actor stands in for a missing subject |
| ReceiptPublisher.ViewMeans | crates/yutha-control-plane/src/receipt_publisher.rs:141-180 | The principal is the first subject or target that decodes, or the actor; the deny reason and forbid rule are the last ones, if they decode; the delta is the last that decodes |
| ReceiptPublisher.EmitEvidence | crates/yutha-control-plane/src/receipt_publisher.rs:205-248 | Target, rule, delta and constitution hash under their four keys, then the effect's own |
| ReceiptPublisher.EmittedReadsBack | crates/yutha-control-plane/src/receipt_publisher.rs:141-248 | Reading an emitted effect back restores kind and target always, and the delta exactly when the additional evidence carries no other readable one |
| ReceiptPublisher.EchoIsAbsorbed | crates/yutha-control-plane/src/receipt_publisher.rs:141-248 | An effect fed back yields no new effect, moves its target by its delta and sets the flag as its stage says |
| ReceiptPublisher.QuarantineReachesCapabilities | crates/yutha-capability/src/memory.rs:457-464 | After a quarantine is fed back, and until a reverse or evict, no check by that subject permits and issue and attenuate refuse |
| Durations.ReadExactlyWhenItFits | crates/yutha-cedar-plus/src/enforcement.rs:709-726 | The engine reads a duration exactly when the loader accepts it and it stays below 2^64 ns, and then reads its length |
| Durations.ReadsWritten | crates/yutha-cedar-plus/src/enforcement.rs:709-726 | A number with a known unit reads back as that number of units |
| Durations.UnitsMean | crates/yutha-cedar-plus/src/enforcement.rs:709-726 | A count of ms, s, m, h or d loads and is that many thousandths, ones, 60s, 3600s or 86400s of a second |
| Durations.PaddingIgnored | crates/yutha-cedar-plus/src/enforcement.rs:709-726 | Whitespace around a duration changes neither whether it loads nor its length |
| Scores.ReadFraction | crates/yutha-cedar-plus/src/layer_b.rs:275-307 | At most four fraction digits count, missing ones are zeros, and anything but a digit fails |
| Scores.ParseScoreScaled | crates/yutha-cedar-plus/src/layer_b.rs:275-307 | Reads exactly the readable texts, as the exact value wrapped to 64 bits |
| Scores.ReadsAs | crates/yutha-cedar-plus/src/layer_b.rs:275-307 | Text with one to four fraction digits reads as that many ten-thousandths, the sign counting for the whole |
| Scores.DeltasRead | crates/yutha-cedar-plus/src/enforcement.rs:681-703 | The five fixed deltas read as -500, 0, -2500, -10000 and 1500 |
| Scores.RenderScoreScaled | crates/yutha-cedar-plus/src/layer_b.rs:315-330 | Writes sign, whole part and the fraction without trailing zeros beyond the first digit |
| Scores.RoundTrip | crates/yutha-cedar-plus/src/layer_b.rs:275-330 | Parsing a rendered score gives the score back for every i64, without overflow on the way for all but the smallest |
| Scores.RenderIsCanonical | crates/yutha-cedar-plus/src/layer_b.rs:315-330 | Every rendered score has a canonical text: one to four fraction digits, no superfluous zero |
| Scores.CanonicalIsRendered | crates/yutha-cedar-plus/src/layer_b.rs:315-330 | Every canonical text is the rendering of what it parses to, so rendering after parsing is idempotent |
| Scores.RenderAfterParse | crates/yutha-cedar-plus/src/layer_b.rs:275-330 | What is parsed and rendered is canonical and parses to the same value |
| EscalationGraph.EscalationSearch.Dfs | crates/yutha-cedar-plus/src/validate.rs:282-310 | The three-colour search blackens everything reachable or explains a cycle or an undeclared target |
| EscalationGraph.EscalationSearch.Finish | crates/yutha-cedar-plus/src/validate.rs:282-310 | A node turns black only after all it leads to, which keeps the finishing order topological |
| EscalationGraph.CheckGraph | crates/yutha-cedar-plus/src/validate.rs:245-313 | Accepts exactly the graphs with declared targets and no cycle, whatever order it visits in, and errors name a real cause |
| EscalationGraph.CheckEscalationAcyclic | crates/yutha-cedar-plus/src/validate.rs:245-313 | With unique names, Ok exactly when every escalation target is declared and procedures do not escalate in a circle |
| EscalationGraph.GraphMeaning | crates/yutha-cedar-plus/src/validate.rs:245-275 | The map of edges stands for the procedures' own escalations |
| EscalationGraph.OrderedIsAcyclic | crates/yutha-cedar-plus/src/validate.rs:282-310 | A graph with a complete topological order has no cycle |
| EscalationGraph.BackEdge | crates/yutha-cedar-plus/src/validate.rs:282-310 | Meeting a gray node closes a cycle |
| Validators.FirstRepeat | crates/yutha-cedar-plus/src/validate.rs:31-73 | Finds the first name that occurred before, if any |
| Validators.CheckUniqueNames | crates/yutha-cedar-plus/src/validate.rs:31-73 | Ok exactly when each of the four name lists is free of repeats |
| Validators.CheckProcedureStates | crates/yutha-cedar-plus/src/validate.rs:127-147 | Ok exactly when the initial and all terminal states are declared |
| Validators.CheckProcedureTransitions | crates/yutha-cedar-plus/src/validate.rs:149-234 | Ok exactly when transitions join declared states, carry one trigger, are unambiguous, and every non-terminal state has an exit |
| Validators.CheckEachTransition | crates/yutha-cedar-plus/src/validate.rs:149-212 | The loop over transitions alone: declared ends, one trigger, no repeated source and trigger |
| Validators.CheckExits | crates/yutha-cedar-plus/src/validate.rs:213-234 | The loop over states alone: a way out of each that is not terminal |
| Validators.KeysTellTriggersApart | crates/yutha-cedar-plus/src/validate.rs:236-243 | The text key of a trigger is the same exactly for the same trigger |
| Validators.CheckProcedures | crates/yutha-cedar-plus/src/validate.rs:118-125 | For any list, Ok exactly when every procedure is well formed and the collected graph is declared and acyclic; with unique names, exactly when the procedures' own escalations are |
| Validators.CheckEnforcementRules | crates/yutha-cedar-plus/src/validate.rs:319-391 | Ok exactly when every rule is well formed; an error comes from the first bad rule |
| Validators.RuleMeans | crates/yutha-cedar-plus/src/validate.rs:319-391 | A rule is well formed exactly when its threshold is not zero, its receipt kind is known and every duration it gives, window or delay, loads |
| Validators.AcceptedWindowUsed | crates/yutha-cedar-plus/src/validate.rs:319-391 | An accepted window is the one used, unless it is 2^64 ns or longer, when 60 seconds are used |
| Validators.LongWindowIgnored | crates/yutha-cedar-plus/src/validate.rs:319-391 | A window of 213504 days loads, and 60 seconds are used |
| Procedures.ProcedureIndex.RecordEnter | crates/yutha-cedar-plus/src/procedure.rs:51-54 | Puts the instance under its id, replacing what was there |
| Procedures.ProcedureIndex.RecordTransition | crates/yutha-cedar-plus/src/procedure.rs:58-63 | Sets state and closed flag of a known id and nothing else |
| Procedures.ProcedureIndex.OpenInstancesAt | crates/yutha-cedar-plus/src/procedure.rs:73-80 | Each open instance of the procedure in that state, once |
| Procedures.ProcedureIndex.Triggers | crates/yutha-cedar-plus/src/procedure.rs:147-219 | Enters each procedure whose trigger matched unless that instance is open; one effect each, in order |
| Procedures.ProcedureIndex.FireTransition | crates/yutha-cedar-plus/src/procedure.rs:264-296 | Moves exactly the open instances at the source state, one effect each |
| Procedures.ProcedureIndex.Transitions | crates/yutha-cedar-plus/src/procedure.rs:221-262 | Fires the matched transitions of this action in order |
| Procedures.ProcedureIndex.EvaluateProcedures | crates/yutha-cedar-plus/src/procedure.rs:134-145 | Triggers before transitions, in effects as in the index |
| Procedures.HandlesDeclared | crates/yutha-cedar-plus/src/layer_b.rs:208-242 | Whatever policy id matches, its handle is a declared action transition |
| Procedures.HandlesAreLast | crates/yutha-cedar-plus/src/layer_b.rs:208-242 | Under each id the map keeps the last action transition declared with it |
| Procedures.CanFireExactly | crates/yutha-cedar-plus/src/procedure.rs:221-262 | Some request and policy id fire an action transition exactly when it is declared and no later one has its id |
| ProcedureSteps.EntersExactly | crates/yutha-cedar-plus/src/procedure.rs:147-219 | The k-th matched trigger puts its procedure in the initial state under the id made of the request, unless that instance is open, touches no other and reports exactly what it enters |
| ProcedureSteps.OthersEnterNothing | crates/yutha-cedar-plus/src/procedure.rs:175-185 | Any other policy enters and reports nothing |
| ProcedureSteps.MovesExactly | crates/yutha-cedar-plus/src/procedure.rs:221-296 | The k-th matched transition of the request's action moves every open instance at its source to its target, closes it exactly if that is terminal, touches no other and reports each once; for another action it does nothing |
| ProcedureSteps.OthersMoveNothing | crates/yutha-cedar-plus/src/procedure.rs:221-262 | A policy id that no declared action transition has moves and reports nothing |
| ProcedureSteps.DeclarationsMean | crates/yutha-cedar-plus/src/layer_b.rs:208-242 | The declarations in order are the action transitions of the procedures and nothing else |
| ProcedureRuns.RunsAreLegal | crates/yutha-cedar-plus/src/procedure.rs:175-296 | In every run of a validated constitution each instance is in a declared state, closed only in a terminal one, and every step leaves it alone, moves it along one declared transition or enters it afresh |
| ProcedureRuns.ClosedStays | crates/yutha-cedar-plus/src/procedure.rs:175-296 | A closed instance changes only by being entered afresh under the same id |
| ProcedureRuns.NeverStranded | crates/yutha-cedar-plus/src/validate.rs:127-234 | In every run of a validated constitution an instance is at a terminal state or can leave it by a declared transition, with one target for each action and for each timeout |
| ProcedureRuns.OpenInTerminalExactly | crates/yutha-cedar-plus/src/procedure.rs:175-296 | In every run an open instance sits in a terminal state exactly when its procedure starts in one |
| ProcedureRuns.TerminalStartNeverCloses | crates/yutha-cedar-plus/src/procedure.rs:175-219 | Such an instance stays open there for ever |
| ProcedureRuns.TerminalStartLoads | crates/yutha-cedar-plus/src/validate.rs:127-234 | A procedure of one state, first and last, is accepted and enters such an instance |
| ProcedureRuns.TwinTransitionSilenced | crates/yutha-cedar-plus/src/validate.rs:149-212 | Two actions between the same two states are accepted, and the first can never fire |
| ProcedureRuns.EvaluateIsPlayed | crates/yutha-cedar-plus/src/procedure.rs:134-145 | A request is the sequence of its matched policies |
| ProcedureRuns.RunIsPlayed | crates/yutha-cedar-plus/src/procedure.rs:134-145 | A run of requests is the sequence of all their moves, so the laws of moves hold of it |
| Evaluator.CedarPlusEvaluator.Activate | crates/yutha-cedar-plus/src/evaluator.rs:383-389 | A constitution the loader accepts becomes active; the shadow slot stays; one step of the run |
| Evaluator.CedarPlusEvaluator.ActivateShadow | crates/yutha-cedar-plus/src/evaluator.rs:240-246 | A constitution the loader accepts becomes the shadow; the active slot stays; one step of the run |
| Evaluator.CedarPlusEvaluator.ClearShadow | crates/yutha-cedar-plus/src/evaluator.rs:255-260 | Empties the shadow slot and reports what was there; one step of the run |
| Evaluator.CedarPlusEvaluator.PromoteShadow | crates/yutha-cedar-plus/src/evaluator.rs:272-288 | The shadow becomes active and leaves its slot; with none, nothing changes; one step of the run |
| Evaluator.CedarPlusEvaluator.Evaluate | crates/yutha-cedar-plus/src/evaluator.rs:356-381 | Permits exactly when the active constitution's policies allow, with the reason of a deny, named errors for an unpinned, oversized or malformed request, and an index that only a permit changes; nothing depends on the shadow; one step of the run, with its answer |
| Evaluator.CedarPlusEvaluator.EvaluatePair | crates/yutha-cedar-plus/src/evaluator.rs:310-351 | Succeeds exactly when Evaluate does, with the same active answer, the same error and the same index; the shadow's outcome is decided the same way by its own constitution and moves no procedure; one step of the run, with its answer |
| Evaluator.CedarPlusEvaluator.EvaluateAgainst | crates/yutha-cedar-plus/src/evaluator.rs:413-566 | The pipeline in both modes: which failures propagate, which become a shadow deny, that a permit is Cedar's, that a deny says why and reports nothing, and that only a permitted active request reaches the procedures |
| Evaluator.PrepMeans | crates/yutha-cedar-plus/src/evaluator.rs:413-497 | A request fails for its size or for the first of principal, action and resource that is malformed, whatever the constitution; it is rejected exactly when the schema does not take its entities, context or shape |
| Evaluator.ActiveMeans | crates/yutha-cedar-plus/src/evaluator.rs:499-566 | What the active side answers, said of Cedar's decision, its reasons, its scores and the procedures alone |
| Evaluator.ShadowMeans | crates/yutha-cedar-plus/src/evaluator.rs:446-566 | The shadow decides as its own constitution says, denies what its schema does not take, and reports no procedure effect |
| Evaluator.ActionUid | crates/yutha-cedar-plus/src/evaluator.rs:431-445 | Type and id of a qualified action join back to its name at the last double colon; a bare name is of type Yutha::Action |
| Evaluator.ShadowFailsTogether | crates/yutha-cedar-plus/src/evaluator.rs:413-500 | A shadow evaluation fails only where the active one has failed with the same error |
| EvaluatorRuns.ShadowInterferesWithNothing | crates/yutha-cedar-plus/src/evaluator.rs:310-381 | Every run gives the same active answers, active constitution and procedure instances as the run without the shadow, a promotion counting as an activation |
| EvaluatorRuns.ObjectWithoutShadow | crates/yutha-cedar-plus/src/evaluator.rs:310-381 | The same of every evaluator object: its slots, its index and all it has answered |
| EvaluatorRuns.SlotsValidated | crates/yutha-cedar-plus/src/evaluator.rs:240-288 | Whatever sits in either slot, promotions included, has passed the loader |
| Snapshots.Canonicalize | crates/yutha-cedar-plus/src/evaluator.rs:795-832 | Entities sorted by type and id with a stable sort, each with its parents sorted |
| Snapshots.SortKeepsGroups | crates/yutha-cedar-plus/src/evaluator.rs:795-802 | Entities with the same UID keep their order |
| Snapshots.ParentsExactly | crates/yutha-cedar-plus/src/evaluator.rs:806-812 | Sorted parent lists agree exactly when the parents do, each as often |
| Snapshots.CanonicalExactly | crates/yutha-cedar-plus/src/evaluator.rs:795-832 | Any two snapshots have equal canonical forms exactly when, UID by UID, they have the same records in the same order up to the order of parents |
| Snapshots.CanonicalWhenDistinct | crates/yutha-cedar-plus/src/evaluator.rs:776-832 | With distinct UIDs, equal canonical forms mean the same records up to reordering of entities and of parents, and conversely |
| Snapshots.CanonicalInOrder | crates/yutha-cedar-plus/src/evaluator.rs:795-812 | The canonical form is in the order of type name and then id, and so are the parents of each record |
| Snapshots.OrderIgnoredExactly | crates/yutha-cedar-plus/src/evaluator.rs:776-832 | The order of entities is ignored exactly when records that share a UID agree |
| Scope.IntersectBounds | crates/yutha-capability/src/scope.rs:149-178 | Every key of either side, the left bound where it is at most the right one, else the right one |
| Scope.CheckPermits | crates/yutha-capability/src/scope.rs:93-128 | The early-return loops permit exactly what the scope allows on every dimension |
| Scope.SubsetPermitsLess | crates/yutha-capability/src/scope.rs:75-184 | A scope that intersecting leaves unchanged permits nothing the other does not, unparsable bounds included |
| Scope.IntersectKeepsCommon | crates/yutha-capability/src/scope.rs:75-184 | The intersection permits whatever both permit |
| Scope.CompatibleIsBoth | crates/yutha-capability/src/scope.rs:75-184 | Without disjoint lists and with ordered bounds the intersection permits only what both permit |
| Scope.IncompatibleWidens | crates/yutha-capability/src/scope.rs:133-178 | For every other pair a descriptor that only the intersection permits |
| Scope.IntersectIsBothExactly | crates/yutha-capability/src/scope.rs:75-184 | The intersection is what both permit exactly for compatible pairs |
| CapabilityStore.MemoryCapabilityStore.constructor | crates/yutha-capability/src/memory.rs:67-81 | An empty store at the start of its history |
| CapabilityStore.MemoryCapabilityStore.Issue | crates/yutha-capability/src/memory.rs:281-309 | Refuses a quarantined subject, else stores under the content address |
| CapabilityStore.MemoryCapabilityStore.Attenuate | crates/yutha-capability/src/memory.rs:311-350 | Refuses a quarantined subject, a missing parent, an unknown parent and a scope that the intersection changes, in that order; else stores. A revoked parent is no obstacle |
| CapabilityStore.MemoryCapabilityStore.Revoke | crates/yutha-capability/src/memory.rs:352-375 | Marks a known capability revoked and touches nothing else |
| CapabilityStore.MemoryCapabilityStore.Lookup | crates/yutha-capability/src/memory.rs:377-383 | Finds present, unrevoked capabilities only |
| CapabilityStore.MemoryCapabilityStore.ListForSubject | crates/yutha-capability/src/memory.rs:385-399 | Exactly the subject's unrevoked capabilities, each once |
| CapabilityStore.MemoryCapabilityStore.Check | crates/yutha-capability/src/memory.rs:420-568 | Quarantine gate, walk, fold and caveats, with the denial of each; CheckMeaning says which answer when |
| CapabilityStore.MemoryCapabilityStore.WalkChain | crates/yutha-capability/src/memory.rs:466-516 | The bounded walk stops where the recursive one stops, for any parent links; CheckMeaning.FirstUnfitAnswers says where |
| CapabilityStore.MemoryCapabilityStore.FoldScopes | crates/yutha-capability/src/memory.rs:518-528 | Intersects from the root to the leaf |
| CapabilityStore.MemoryCapabilityStore.SortCaveats | crates/yutha-capability/src/memory.rs:541-562 | Splits all caveats of the chain into met and unmet labels, in order |
| CapabilityLaws.PermitExactly | crates/yutha-capability/src/memory.rs:420-568 | A check permits exactly when the subject is not quarantined and a whole chain within the depth is unrevoked and inside its windows, folds to a permitting scope and meets every caveat; CheckMeaning.PermitMeans says it of times and tags |
| CheckMeaning.PermitMeans | crates/yutha-capability/src/memory.rs:420-568 | A permit means exactly: no quarantine, and a whole chain within the depth, unrevoked, each link with both bounds around the present, every demanded tag there and no forbidden one, and a folded scope that permits |
| CheckMeaning.FirstUnfitAnswers | crates/yutha-capability/src/memory.rs:466-516 | The first link that is too deep, revoked, missing or without both bounds around the present gives exactly its own error or denial |
| CheckMeaning.QuarantineAnswers | crates/yutha-capability/src/memory.rs:447-464 | A quarantined subject of a stored, unrevoked capability is denied before anything else |
| CheckMeaning.WholeChainAnswers | crates/yutha-capability/src/memory.rs:516-568 | A whole chain in force is denied for its scope first, then for unmet caveats with exactly their names, and else permitted with the names of all it carries |
| CheckMeaning.RefusalMeans | crates/yutha-capability/src/scope.rs:93-184 | A scope refuses exactly for an unlisted action, tag, recipient or memory scope, or a number that is not at most its bound |
| CheckMeaning.IssueMeans | crates/yutha-capability/src/memory.rs:281-309 | An issue refuses a quarantined subject; any other capability is stored, found and listed, and no other id changes |
| CheckMeaning.AttenuateMeans | crates/yutha-capability/src/memory.rs:311-350 | Accepted exactly for an unquarantined subject, a stored parent and a scope that narrows it; each refusal under its own condition, and then nothing changes |
| CheckMeaning.RevokeMeans | crates/yutha-capability/src/memory.rs:352-375 | Accepted exactly for a stored id, which is then no longer found; no other id changes |
| CheckMeaning.ListedMeans | crates/yutha-capability/src/memory.rs:385-399 | A subject's listing is what can be looked up of it |
| Narrowing.NarrowsExactly | crates/yutha-capability/src/scope.rs:75-184 | A child scope is taken exactly when each of its lists is its parent's with some values deleted, in the parent's order, and it keeps each bound of the parent's as the same text or a number at most as large |
| Narrowing.ReorderIsRefused | crates/yutha-capability/src/memory.rs:331-336 | A child that lists its parent's two actions the other way round permits the same and is refused for broadening |
| CapabilityLaws.ChainsStayLinked | crates/yutha-capability/src/memory.rs:331-336 | In every store built by parentless issues and attenuations each capability leaves its parent's intersection with it unchanged |
| CapabilityLaws.IssueKeepsChains | crates/yutha-capability/src/memory.rs:281-309 | What an issue does to the narrowing of the store as a whole hangs on the issued capability alone |
| ChainScopes.FoldsToAllExactly | crates/yutha-capability/src/memory.rs:518-528 | For any chain, issued or attenuated, the fold of every part from the root permits exactly what its links all permit if and only if each link is compatible with the fold before it |
| ChainScopes.CompatibleCheck | crates/yutha-capability/src/memory.rs:420-568 | On a compatible chain a check permits exactly what every link and every caveat permits |
| ChainScopes.ChecksAskEveryLinkExactly | crates/yutha-capability/src/memory.rs:420-568 | Without caveats and quarantines the checks of all links permit exactly what they and all their ancestors permit if and only if the chain is compatible |
| ChainScopes.IssuedChildWidens | crates/yutha-capability/src/memory.rs:281-309 | After two issues a check permits an action that neither link permits |
| CapabilityLaws.AttenuationNeverWidens | crates/yutha-capability/src/memory.rs:518-528 | Along any chain the leaf permits nothing an ancestor does not, and the folded scope is the leaf's own, unparsable bounds included |
| CapabilityLaws.RevokedForever | crates/yutha-capability/src/memory.rs:481-495 | After a revocation no later state looks the capability up, lists it, or permits a check on it or on anything that descends from it |
| CapabilityLaws.QuarantineBlocks | crates/yutha-capability/src/memory.rs:287-293 | While the subject is quarantined issue and attenuate refuse and no check permits |
| AnchorDriver.FetchCandidates | backends/sui-anchor/src/candidate_source.rs:73-123 | The lowest receipts of the page, sorted, at most the batch size, nothing kept above anything cut; nothing once the window starts at the last nanosecond |
| AnchorDriver.SealStore.RecordSealedBatch | crates/yutha-receipt/src/memory.rs:181-248 | Refuses an empty batch and one with a leaf under another root before writing anything; repeating a batch changes nothing |
| AnchorDriver.AnchorDriver.TrySealWithBackoff | backends/sui-anchor/src/driver.rs:223-252 | Only transient failures are retried, at most the configured number of times, with pauses that double up to the cap; the last outcome decides and a record is tried once |
| AnchorDriver.AnchorDriver.RunOnce | backends/sui-anchor/src/driver.rs:171-220 | The watermark moves only when a large enough or overdue batch is sealed and its record acknowledged; AnchorRuns.PassExactly says what a pass does to the store |
| AnchorRuns.BatchIsLowest | backends/sui-anchor/src/candidate_source.rs:91-123 | A batch holds distinct receipts above the watermark, none of them above a pending one it leaves out |
| AnchorRuns.PassExactly | backends/sui-anchor/src/driver.rs:171-252 | A pass seals its batch as one, and moves the watermark to its largest nanosecond if told so, exactly when it is not empty, has countThreshold receipts or the time is up, some allowed attempt seals after transient failures only, the store writes, and no receipt of it is sealed with others; otherwise nothing changes, whatever the services answer |
| AnchorRuns.SealedAtMostOnce | backends/postgres-receipt/src/lib.rs:371-451 | In every run, whatever fails, each receipt is in at most one recorded batch and the store has it under that batch's root |
| AnchorRuns.MissedExactly | backends/sui-anchor/src/driver.rs:160-221 | In every run a receipt at or below the watermark is unsealed exactly when it came too late or a cut split its nanosecond |
| AnchorRuns.TieIsMissed | backends/sui-anchor/src/candidate_source.rs:117-121 | Two receipts of one nanosecond and batches of one leave the second unsealed |
| AnchorRuns.SealedExactlyOnce | backends/sui-anchor/src/driver.rs:160-252 | With distinct nanoseconds and arrivals above the watermark, whatever fails, a receipt is in exactly one recorded batch if it lies between the starting and the current watermark, or above it in a batch written without the driver being told, and in none otherwise; batch ranges never overlap |
| AnchorRuns.SealedAboveExactly | backends/postgres-receipt/src/lib.rs:446-451 | Above the watermark exactly the receipts of unacknowledged writes are sealed, in any run |
| AnchorRuns.RangesStayApart | backends/sui-anchor/src/driver.rs:160-252 | The watermark never stands inside a recorded batch, and of any two batches one lies wholly below the other |
| AnchorRuns.TruthfulAscends | backends/sui-anchor/src/driver.rs:160-252 | As long as no acknowledgement is lost, nothing above the watermark is recorded and batch ranges ascend |
| AnchorRuns.TruthfulNeverConflicts | backends/postgres-receipt/src/lib.rs:405-431 | And no record is refused for a conflict |
| AnchorRuns.AdvancesExactly | backends/sui-anchor/src/driver.rs:223-252 | When all services work, a pass advances and its receipts leave the backlog exactly when every recorded batch equals the new one or is disjoint from it; otherwise it changes nothing |
| AnchorRuns.StallsForGood | backends/sui-anchor/src/driver.rs:160-252 | From any state with a batch recorded above the watermark and another receipt pending, no run of arrivals and of passes that see everything pending ever moves the watermark or seals anything |
| AnchorRuns.LostAcknowledgementStalls | backends/sui-anchor/src/driver.rs:223-252 | Under any configuration one unacknowledged write and one arrival stop the driver so |
| Paging.StoredExactly | backends/postgres-receipt/src/lib.rs:933-942 | A timestamp survives storage exactly when it fits an i64, saturation reorders nothing, and a negative stored one reads as 0 |
| Paging.WindowExactly | backends/postgres-receipt/src/lib.rs:282-300 | A time window finds what was asked for, and besides, if it reaches up to the largest stored timestamp, every saturated receipt |
| Paging.CursorRoundTrip | backends/postgres-receipt/src/lib.rs:986-1014 | A token gives back every i64, and the digest cut to 32 bytes or filled up with zeros, so exactly when it has 32 |
| Paging.TokenRoundTrip | backends/postgres-receipt/src/lib.rs:986-1014 | Exactly the tokens of 40 bytes decode, and each is the token of what it decodes to |
| Paging.PostgresStore.constructor | backends/postgres-receipt/src/lib.rs:76-79 | The page limit is at least one |
| Paging.PostgresStore.Query | backends/postgres-receipt/src/lib.rs:319-351 | Drops the peeked row and, exactly when there was one, names the last kept row in the next token; a malformed token is an error |
| PageScan.PageExactly | backends/postgres-receipt/src/lib.rs:180-186 | A page has exactly the matching rows between its start and the next position |
| PageScan.ReturnedAscends | backends/postgres-receipt/src/lib.rs:180-186 | What a scan returns matches, ascends strictly and so repeats nothing, appends or not |
| PageScan.TimeNeverGoesBack | backends/postgres-receipt/src/lib.rs:180-186 | Across pages time never goes back, and within one nanosecond the hashes rise by their first different byte |
| PageScan.ReturnedExactly | backends/postgres-receipt/src/lib.rs:170-352 | A finished scan returns a row exactly when the row was there before the scan had passed its place |
| PageScan.NothingIsSkipped | backends/postgres-receipt/src/lib.rs:170-352 | A finished scan returns every matching row that was there from the start exactly once, even with appends |
| PageScan.StillScan | backends/postgres-receipt/src/lib.rs:170-352 | With no appends the pages make up the whole sorted result and the scan ends after the pages that it fills |
| JwksCache.Cache.AssertFresh | crates/yutha-attestor-oidc/src/jwks_cache.rs:164-203 | Refuses exactly past the staleness cap; asks for a refresh exactly past the TTL on a network source |
| JwksCache.Cache.Lookup | crates/yutha-attestor-oidc/src/jwks_cache.rs:219-238 | An uninterrupted lookup ends where its own atomic steps end |
| JwksCache.Cache.RefreshNow | crates/yutha-attestor-oidc/src/jwks_cache.rs:297-318 | A good fetch replaces keys and timestamp; a failed or empty one changes nothing |
| JwksRuns.WarmIsSafe | crates/yutha-attestor-oidc/src/jwks_cache.rs:122-150 | A cache starts in a safe state exactly when its first fetch has keys |
| JwksRuns.AlwaysSafe | crates/yutha-attestor-oidc/src/jwks_cache.rs:219-318 | Every interleaving keeps the lock, the keys, the timestamp's generation and every task as promised |
| JwksRuns.OneFetchAndWholeKeys | crates/yutha-attestor-oidc/src/jwks_cache.rs:244-318 | At most one fetch is in flight; the keys are always one whole, non-empty fetch result; their generation is the timestamp's or one ahead, plus one for each call dropped between the two writes |
| JwksRuns.AnswersAreFresh | crates/yutha-attestor-oidc/src/jwks_cache.rs:219-318 | A found key comes from one published generation; a network lookup says no only after a refresh stamped after its miss, and from newer keys unless a refresh was between its writes at the miss |
| JwksRuns.RereadExactly | crates/yutha-attestor-oidc/src/jwks_cache.rs:297-318 | A lookup that misses now can be turned down on the same keys exactly when a refresh has its keys in place and its timestamp pending |
| JwksRuns.StepsAreBounded | crates/yutha-attestor-oidc/src/jwks_cache.rs:219-318 | No call takes more than nine steps, whatever the others do |
| JwksRuns.NeverStuck | crates/yutha-attestor-oidc/src/jwks_cache.rs:244-318 | While a call is unfinished some call can go on |
| JwksRuns.EveryCallEnds | crates/yutha-attestor-oidc/src/jwks_cache.rs:219-318 | Without new calls a run takes no more steps than are left, and where no call can go on all are finished |

## Left out

- Cedar parsing, validation and authorization, scoring arithmetic over matched policies and policy-id assignment by
  Cedar: functions and inputs here.
- Hashing, signatures, protobuf and BCS encoding, Merkle trees, JSON text and the resulting digests.
- SQL text, transactions beyond all-or-nothing, row rehydration, and the replay store, which pages the same way.
- Sui RPC, the on-chain commit and its own refusal of repeated ranges, HTTP fetching, JWT and SPIFFE handling.
- Receipt emission inside the capability store, logging, sleeping, and the wording of errors beyond their kind.
- Races between the separate lock acquisitions of one evaluator or capability-store call: calls run one at a time in
  those models, on the snapshots the code takes. Only the JWKS cache is modelled step by step.
- Time-of-day, rate-limit, constitution-version and supervisor caveats, which always pass at this layer.
- The receipt-kind table, named-predicate substitution, load-time counts and the scoring-rule checks of the loader.
- The order in which one transition moves several instances is left open, as the hash map leaves it open; the evidence
  hash depends on that order.
- Scope.IncompatibleWidens: needs the decimal parser to read "-inf", as Rust's does; ChainScopes.FoldsToAllExactly needs
  it too.
- ChainScopes.ChecksAskEveryLinkExactly: leaves out caveats and quarantined subjects, which can hide a wide fold;
  ChainScopes.CompatibleCheck has them.
- AnchorRuns.StallsForGood: asks that passes see everything pending and cut nothing off; AnchorRuns.AdvancesExactly decides
  every other pass.
- JwksCache.Cache.Lookup: runs one call by itself; JwksRuns has the interleavings.
- JwksRuns.EveryCallEnds: takes it that a fetch returns, with or without keys, and that calls which can go on do.
