# replicare: a verified model

replicare copies tables from a source to targets, then keeps the targets current: triggers
record the key of every changed row, and drain passes re-read those keys and apply the
current rows. Active-active clusters add hybrid logical clocks and per-key version
registers. This project models the protocols and algorithms that this correctness rests on
and proves what the repository's comments promise about them. `dafny verify dfyconfig.toml`
checks everything; nothing here runs the original program.

## What is proved

- **Drain** (`Drain`, `DrainEnds`): source transactions, passes of every shape, rejections,
  crashes and gated purges interleave freely; no change is lost, an empty queue means
  equality, and from every state undisturbed passes of every kind empty the queue.
- **Foreign keys** (`FkPass`, `PassEffect`, `Verdicts`, `Stalls`, `Replica`): against
  immediately checked foreign keys, what a covering pass leaves, exactly when one covering
  pass and exactly when repeated ones reach the source, what any pass keeps, exactly when a
  pass halts and when it is transient, and that bounded passes drain an acyclic backlog to
  nothing. The drain loops are proved against these.
- **Mesh** (`Hlc`, `MeshApply`, `Mesh`, `MeshEnds`): the three engines compute one clock and
  one merge; over every run versions are never lost, registers never go back, drained meshes
  agree on the latest write to each key, and every mesh can drain.
- **Bring-up and recovery** (`Chunks`, `Copy`, `Reseed`, `PartialFlags`, `Recovery`):
  planners agree, saved watermarks are sound for every completion order and crash, a finished
  copy hands over to streaming, recovery of a flagged target is safe at every stop, and for a
  partly flagged one exactly which stops lose a change.
- **Graphs** (`Graph`, `UnionFind`, `Kahn`, `FkGraph`, `CyclicFk`, `SyncCycles`,
  `ComponentPlan`): components, orders and cycle detection are exact, and their output meets
  the drain's hypotheses.
- **Purge** (`Purge`) and **codecs** (`KeySignature`, `Framing`, `LoadData`, `Crc16`,
  `SlotRange`, `MetaKey`).

## Assumptions

- Delta ids are never reused; they may become visible in any order.
- Replication keys are non-NULL, and a foreign key references its parent's replication key.
- Every foreign key belongs to its child table; table names within a selection differ.
- Foreign keys are checked by each statement. A transaction is atomic. The mesh apply and
  its clock update are one step; the Postgres engine does not ensure that (see below).
- Clock counters are unbounded integers; the wall clock reads anything at any time. Node
  ids are modelled by their rank in the total order of their names.
- A key's place in its table's key order is a real number.
- A load that has not reported back before a crash either has landed by then or never does.

## Where the code does not do what is promised

- `keySignature` calls itself collision-free; `KeySignature.CollidesExactlyWhen` says for
  which keys it is not.
- `Source.Purge` asks for the full target set (internal/engine/engine.go:112-119) but the
  streaming pass gives it only its own (internal/pipeline/stream.go:99-100);
  a purge can lose a target's change exactly when the target is not in the set
  (`Drain.PurgeCanLoseExactlyWhen`).
- `nullFillColsByTable` is said to list columns that are actually nullable; with a composite
  key it need not (`CyclicFk.CompositeKeyNullsRequiredColumn`,
  `CyclicFk.FilledAreNullableExactlyWhen`).
- The cyclic fill is not version-guarded in cluster mode
  (`MeshApply.FillIsHarmlessExactlyWhen`); the mesh theorems are for the two-phase and the
  single-transaction drains.
- Run is called safe to re-invoke after a crash (internal/reseed/reseed.go:122-124). For a
  target with its last table flagged it is (`Reseed.RecoveryIsSafe`). But a pass runs on every
  component while any table is flagged (internal/pipeline/stream.go:173-187): where nothing at
  or after the current component is flagged, a stop between clearing a table and resetting its
  progress loses it (`PartialFlags.StopStrandsExactlyWhen`,
  `PartialFlags.PassCanStrandExactlyWhen`). Such flags come from a flagging loop that stops
  half-way (internal/reseed/reseed.go:91-101) or from flagging all tables while a pass is
  about to clear its last flag (`PartialFlags.MidPassIsAtRisk`).
- A transient violation is expected to resolve on a later pass (internal/apply/retry.go:10-19).
  Covering NULL-fill passes with deletes repeated on a
  quiet source reach it exactly when no tables wait for each other in a circle
  (`Stalls.RepeatedPassesArriveExactlyWhen`); two deleted rows that reference each other never
  go away (`Stalls.DeletedPairStalls`).
- `DrainToConvergence` is said to return the total deltas consumed
  (internal/reseed/reseed.go:185-189); on a halt it leaves out those of the halted call
  (`Replicator.Replica.DrainToConvergence`).
- `hlc_observe` reads the clock and updates it in two statements
  (internal/engine/postgres/mesh.go:92-101). A local tick committed in between can put the
  clock back and a stamp be drawn twice (`Hlc.SplitObserveAdvancesExactlyWhen`,
  `Hlc.SplitObserveCanRepeatStamp`). The mesh theorems assume no tick in between.

## Model

| member | source | states |
|---|---|---|
| Drain.CaptureIsComplete | internal/engine/postgres/capture_ddl.go:102-139 | no transaction, key-changing updates included, changes a row without enqueueing its key |
| Drain.ChangeOutcome | internal/engine/postgres/capture_ddl.go:102-139 | a change leaves the row it carries at its key, removes a key it moved away from or deleted, and touches exactly the keys the trigger enqueues, each once |
| Drain.PhaseOutcome | internal/engine/postgres/apply_tx.go:57-156 | what a committed phase leaves of each key: rows outside the batch untouched; the last phase leaves exactly the re-read rows; the delete phase already leaves the same keys present |
| Drain.TxnKeepsAgreement | internal/engine/postgres/capture_ddl.go:102-139 | a source transaction never turns a row that agreed, or was queued, into a difference without a fresh delta, even for values a pass already holds |
| Drain.CommitPhaseKeepsSide | internal/apply/component.go:605-658 | committing one phase of one table keeps the whole invariant, other tables' passes included |
| Drain.CommitAtomicKeepsSide | internal/apply/component.go:133-154 | committing the single transaction over many tables keeps the invariant |
| Drain.ConfirmKeepsSide | internal/engine/postgres/consume.go:87-114 | recording a pass's ids as consumed keeps every remaining difference queued |
| Drain.StepKeepsInv | internal/apply/component.go:82-164 | every step of every party keeps the invariant: source transactions, reads, re-reads, phase commits, rejections, confirms, crashes, gated purges |
| Drain.NoChangeIsLost | internal/apply/component.go:139-163 | over every interleaving, for every gated target, each row on which source and target differ has an unconsumed delta; an empty queue means target equals source; acyclic, NULL-fill and atomic drains, any number of tables in flight |
| DrainEnds.PassRecordsWhatItRead | internal/engine/postgres/consume.go:87-114 | in every run, a pass that is not given up before its confirm adds exactly the ids it had read to the track |
| DrainEnds.OnlyConfirmsRecord | internal/engine/postgres/consume.go:87-114 | no other step of any party changes a target's track |
| DrainEnds.PerTableDrainEnds | internal/apply/component.go:355-422 | from every state of the protocol, undisturbed per-table passes, with or without columns filled last, consume every delta and make the target equal to the source |
| DrainEnds.AtomicDrainEnds | internal/apply/component.go:123-163 | the same for the drain in one transaction |
| DrainEnds.CrashedTargetDrains | internal/apply/component.go:62-68 | a crash at any point costs a target only its passes; it drains from there |
| DrainEnds.RejectedTableRestarts | internal/apply/component.go:218-226 | a rejected phase gives up that table's pass alone, and the table's whole queue can be read again |
| Drain.PurgeOutsideGateLoses | internal/pipeline/stream.go:94-101 | for every gate and every target outside it, a purge gated on the gate that removes the only delta the target still needs |
| Drain.PurgeCanLoseExactlyWhen | internal/engine/engine.go:112-119 | from states in which nobody has lost a change, some purge can lose one of the target's if and only if the target is not in the set the purge is given |
| KeySignature.SignatureIsInjective | internal/apply/apply.go:95-105 | for keys of one arity without NUL bytes, equal signatures mean equal keys and conversely |
| KeySignature.CollidesExactlyWhen | internal/apply/apply.go:95-105 | another key of the same arity has the same signature if and only if the key is composite and a part holds a NUL byte |
| FkPass.PassResult | internal/apply/component.go:355-422 | a covering pass in full: refused deletes are the only violations; tables whose deletes commit equal the source and are confirmed, the others are merged and unconfirmed; transient exactly when some delete was refused |
| FkPass.PassSucceedsExactlyWhen | internal/apply/component.go:355-422 | one covering pass over a legal component confirms every table, hits no violation and ends with target equal to source if and only if no target row reaches, through a nulled foreign key, a row gone from the source in the wrong delete order; the acyclic drain is the case without nulled keys |
| FkPass.AcyclicPassSucceeds | internal/apply/component.go:212-251 | an acyclic component in parents-first order: any mix of inserts, updates and deletes lands in one covering pass, no immediate foreign key is violated, every table is confirmed, target equals source |
| FkPass.CyclicPassSucceeds | internal/apply/component.go:355-422 | NULL-then-fill: with no dirty key gone from the source, upsert, delete and fill phases hit no violation and end with target equal to source |
| PassEffect.PassFrame | internal/apply/component.go:212-251 | a pass of any batch, halted or not, changes no row outside its batch |
| PassEffect.ConfirmedAgrees | internal/apply/component.go:238-249 | a table is confirmed only when its whole batch agrees with the source, even though other tables of the pass were refused |
| PassEffect.PassKeepsSound | internal/apply/component.go:166-194 | a pass never leaves a dangling reference or a forbidden NULL, not even when tables were refused or the pass halted |
| PassEffect.EveryPassProgresses | internal/apply/component.go:173-194 | acyclic component, every dirty key still present, any batch: the first table with a queue is confirmed |
| Verdicts.AttemptVerdict | internal/engine/postgres/apply_tx.go:195-206 | on the rows: a transaction halts if and only if a staged row carries or loads NULL in a NOT NULL column, or its references are in order and the fill sets such a column NULL; it is transient if and only if a reference dangles and it does not halt |
| Verdicts.PassHaltsExactlyWhen | internal/apply/component.go:212-251 | an acyclic pass, and a NULL-fill pass over nullable columns, halts if and only if some row of its batch would put NULL into a NOT NULL column; then nothing is confirmed and no row of the first such table or a later one has changed |
| Verdicts.FillHaltsExactlyWhen | internal/apply/component.go:388-406 | over any columns: past the first two phases a pass halts if and only if a table it fills has, at its turn, a row that is NULL there at the source |
| Verdicts.TransientExactlyWhen | internal/apply/component.go:191-194 | a pass that did not halt is transient if and only if it left a table of its batch unconfirmed |
| Stalls.RepeatedPassesArriveExactlyWhen | internal/apply/retry.go:57-86 | covering passes repeated at least as often as tables are late make the target equal to the source if and only if no tables wait for each other in a circle |
| Stalls.StuckNeverArrives | internal/apply/retry.go:10-19 | the tables of a circle are confirmed by none of the passes, however many |
| Stalls.WaitsAfter | internal/apply/component.go:355-422 | a pass ends exactly the waits for tables whose deletes it committed |
| Stalls.NextPassExists | internal/apply/retry.go:34-38 | after every covering pass another can follow |
| Stalls.DeletedPairStalls | internal/apply/component.go:355-422 | two deleted rows that reference each other: a legal covering pass that confirms nothing and changes nothing |
| Replicator.Coalesce | internal/apply/component.go:680-692 | for every key: one entry per signature, each observed key represented, every id kept in order; without NUL bytes exactly one entry per distinct key |
| Replicator.Replica.ReadDirtyKeys | internal/engine/postgres/consume.go:24-82 | the smallest unconsumed ids of the table in order, all of them or exactly the limit, everything left out being larger |
| Replicator.Replica.GatherTable | internal/apply/component.go:41-60 | the ids with fewer than the batch's number of queued ids before them, the whole queue if the batch is not positive, and their keys |
| Replicator.Replica.GatherWork | internal/apply/component.go:41-60 | per table in apply order exactly the smallest ids up to the batch and the keys behind them, exactly the tables with a queue, and the exact delta count |
| Replicator.Replica.PerTableApply | internal/apply/component.go:605-658 | one phase of one table: the committed effect, or a full rollback; halted exactly when a row puts NULL into a NOT NULL column, transient exactly when a reference dangles instead |
| Replicator.Replica.DrainAcyclicSeq | internal/apply/component.go:212-251 | the loops with their flags compute the specified pass: rows, confirmed ids, returned total, transient and halt flags; halted exactly when the batch has a row with a forbidden NULL, and then nothing is confirmed; transient exactly when a table is left |
| Replicator.Replica.DrainCyclicNullFillSeq | internal/apply/component.go:355-422 | the three phases and the final confirm compute the specified pass; a halt confirms nothing although earlier phases committed; halted and transient exactly when as for the acyclic drain |
| Replicator.StillPending | internal/apply/component.go:212-251 | after any pass each remaining difference is still queued |
| Replicator.Replica.DrainComponent | internal/apply/component.go:195-208 | one bounded pass over any backlog: each table's batch consumed whole or not at all and nothing else, every difference still queued, no halt, transient if and only if a batch is left over; everything consumed if the batch covers the queues, something if every queued row still exists |
| Replicator.Replica.DrainRetrying | internal/apply/retry.go:57-87 | the number of passes and the track after each: failure is reported if and only if five passes were made and each left a batch over; exact count, every difference queued; a batch that covers the queues succeeds in one pass with nothing left |
| Replicator.Replica.DrainToConvergence | internal/reseed/reseed.go:190-203 | terminates; success means target equal to source, every delta consumed and the total exact; a reported halt's total leaves out exactly what the halted call consumed, at least five deltas if every queued row still exists; never a halt if the batch covers the queues |
| Replicator.Replica.DrainToEmpty | internal/pipeline/stream.go:37-57 | streaming ticks on a quiet source, reported halts notwithstanding, terminate for every batch of at least one, consume each queued delta exactly once and leave the target equal to the source |
| Hlc.ClockAdvances | internal/engine/redis/mesh.go:158-198 | a tick is strictly after the clock, an observation strictly after clock and message, both at or past the wall clock, wherever the wall clock jumps |
| Hlc.ClockIsLeast | internal/engine/redis/mesh.go:158-198 | each step picks the least clock strictly after its inputs that has reached the wall clock |
| Hlc.RedisTick | internal/engine/redis/mesh.go:163-168 | the send step of the reference algorithm |
| Hlc.RedisObserve | internal/engine/redis/mesh.go:174-198 | the receive step of the reference algorithm |
| Hlc.HlcState.PostgresTick | internal/engine/postgres/mesh.go:69-80 | the simultaneous update is the send step |
| Hlc.HlcState.PostgresObserve | internal/engine/postgres/mesh.go:87-103 | the two statements with nothing in between are the receive step |
| Hlc.SplitObserveAdvancesExactlyWhen | internal/engine/postgres/mesh.go:92-101 | with local ticks between the statements the observation passes the message always, and advances the clock, as a receipt, if and only if the clock's physical time is not past what was read |
| Hlc.SplitObserveCanRepeatStamp | internal/engine/postgres/mesh.go:92-101 | a run of tick, observe and tick with a steady wall clock that draws one stamp twice |
| Hlc.HlcState.MySqlTick | internal/engine/mysql/mesh.go:65-75 | the left-to-right update is the send step |
| Hlc.HlcState.MySqlObserve | internal/engine/mysql/mesh.go:77-89 | the left-to-right update is the receive step |
| Hlc.SwappedTickIsRightExactlyWhen | internal/engine/mysql/mesh.go:65-75 | the other assignment order is right if and only if the wall clock is not ahead |
| Hlc.VersionOrder | internal/engine/redis/mesh.go:145-156 | beats and the row-wise comparison are one strict total order that extends the clock order, equal readings going to the larger node |
| MeshApply.MarkedOnceIsMerge | internal/engine/mysql/apply_mesh.go:152-219 | winners marked once: the per-key last-writer-wins merge of tables and registers |
| MeshApply.ReevaluatedIsMerge | internal/engine/postgres/apply_mesh.go:158-245 | winners evaluated afresh by each of the four statements: the same merge |
| MeshApply.MergeIsUnique | internal/engine/postgres/apply_mesh.go:158-245 | the merge determines tables and registers, so both engines agree |
| MeshApply.Member.PostgresApply | internal/engine/postgres/apply_mesh.go:35-117 | the two phases over one staging merge it and advance the clock past every staged version |
| MeshApply.Member.MySqlApply | internal/engine/mysql/apply_mesh.go:33-122 | the same merge and the same clock |
| MeshApply.Member.ObserveFromStaging | internal/engine/mysql/apply_mesh.go:106-122 | observes the largest staged clock reading; nothing when the staging is empty |
| MeshApply.ApplyIsIdempotent | internal/engine/postgres/apply_mesh.go:158-245 | applying a staging twice is applying it once |
| MeshApply.ApplyIsCommutative | internal/engine/postgres/apply_mesh.go:158-245 | two stagings may be applied in either order when equal versions carry equal content |
| MeshApply.ApplyIsAssociative | internal/engine/postgres/apply_mesh.go:158-245 | applying one after the other is applying their merge |
| MeshApply.FillIsHarmlessExactlyWhen | internal/engine/postgres/apply_tx.go:145-156 | the fill statement leaves a guarded apply intact if and only if every staged row that lost already agrees on the filled columns |
| MeshApply.FillCanOverwriteNewer | internal/engine/postgres/apply_tx.go:182-193 | an older staged row can overwrite a newer local value through the fill |
| Mesh.ClusterEdges | internal/daemon/cluster.go:35-48 | exactly the ordered pairs of distinct members, each once |
| Mesh.LocalStampWins | internal/engine/postgres/mesh.go:183-202 | a fresh local stamp beats whatever register the node holds, so stamping needs no guard |
| Mesh.TickIsNew | internal/engine/postgres/mesh.go:135-181 | a local write issues a version nobody has issued for that key |
| Mesh.RegistersGrow | internal/engine/postgres/apply_mesh.go:158-162 | no step of any node takes a register back |
| Mesh.EqualVersionsEqualContent | internal/engine/redis/mesh.go:140-156 | equal versions of a key on two nodes mean equal values and equal tombstone flags |
| Mesh.StepKeepsInv | internal/engine/postgres/apply_mesh.go:35-117 | every step keeps the mesh invariant: clocks dominate registers, registers describe what is stored, every issued version has arrived or is queued |
| Mesh.NoVersionIsLost | internal/engine/postgres/reread.go:62-91 | over every run, every version ever issued has reached each peer or its key is queued on the edge from its issuer |
| Mesh.MeshConverges | internal/daemon/cluster.go:35-48 | over every run, once all queues of the full mesh are empty all nodes hold equal tables and equal registers |
| MeshEnds.LatestWriteWins | internal/engine/postgres/mesh.go:183-202 | over every run, a node of a drained mesh holds, for a key some write of the run touched, exactly what the write with the largest version left there: its row, or nothing |
| MeshEnds.UntouchedStays | internal/engine/postgres/apply_mesh.go:158-162 | a key no write touched is as it was at the start |
| MeshEnds.MeshCanDrain | internal/daemon/cluster.go:35-48 | from every state, even after losing every pass, undisturbed passes of either kind empty all queues and the nodes agree |
| Chunks.PostgresBoundaries | internal/engine/postgres/chunk.go:140-176 | the every-Nth-row form |
| Chunks.MySqlBoundaries | internal/engine/mysql/chunk.go:52-89 | the OFFSET walk finds the same boundaries, or fails exactly when there are more than the limit |
| Chunks.PostgresRanges | internal/engine/postgres/chunk.go:189-198 | contiguous half-open chunks, open above |
| Chunks.MySqlRanges | internal/engine/mysql/chunk.go:95-106 | the same chunks by index |
| Chunks.PostgresPlan | internal/engine/postgres/chunk.go:62-78 | the plan that the chunk theorems are about |
| Chunks.MySqlPlan | internal/engine/mysql/chunk.go:26-48 | the same plan; an error exactly when it has more than a million boundaries |
| Chunks.ExactlyOneChunk | internal/engine/postgres/chunk.go:178-198 | every place at or above the lower bound lies in exactly one chunk, nothing below it in any |
| Chunks.PlanSizes | internal/engine/postgres/chunk.go:132-139 | every chunk but the last holds exactly N planned rows, the last at most N, N being 100000 when no positive size is asked for |
| Copy.StepKeepsInv | internal/copy/copy.go:104-206 | every step of parallel workers, retries, crashes, restarts and live source transactions keeps the copy invariant |
| Copy.WatermarkIsSound | internal/copy/copy.go:164-190 | a saved watermark means every row below it was loaded, short of changes still queued; done means all rows |
| Copy.WatermarkNeverRegresses | internal/copy/copy.go:164-190 | no step moves saved progress back |
| Copy.DirectNeverCollides | internal/copy/copy.go:114-134 | a direct load never meets an existing key: only first attempts are direct and chunks are disjoint |
| Copy.BringupHandsOver | internal/pipeline/syncer.go:101-124 | when every table is done the streaming invariant holds on the live source |
| Copy.Tracker.MarkDone | internal/copy/copy.go:164-190 | the code under the mutex advances the prefix to the first unfinished chunk and saves its bound exactly when it moved and is not the end |
| Copy.CopyChunkResilient | internal/copy/copy.go:258-289 | at most six attempts, every one before the last a dropped connection, the last one dropped only if it is the sixth, every retry a merge, success exactly when the last one loaded |
| Reseed.RecoveryIsSafe | internal/pipeline/stream.go:173-187 | over all components of a target, at every point of every history with sacrifices, stops, restarts and bring-ups: the last table's flag is set, or every component is copied, nothing is lost and nothing is flagged |
| Reseed.StepKeepsInv | internal/reseed/reseed.go:129-183 | every move of the recovery keeps its invariant |
| Reseed.FreshStart | internal/reseed/reseed.go:139-154 | clearing and resetting a component's tables gives the state its bring-up starts from, whatever target and progress held |
| PartialFlags.StopStrandsExactlyWhen | internal/pipeline/stream.go:173-187 | for every pass and every stop of it: nothing is flagged and the bring-up invariant is broken if and only if no component at or after the current one was flagged and a cleared, not yet reset table held a row with nothing queued |
| PartialFlags.PassCanStrandExactlyWhen | internal/pipeline/stream.go:173-187 | decided when the pass begins: some stop of some pass strands the target if and only if a row with nothing queued lies in a component from which on nothing is flagged |
| PartialFlags.FlaggingMidPass | cmd/replicare/reseed.go:77-83 | all tables flagged just before the last flag is cleared: the pass ends with every flag set but that one |
| PartialFlags.MidPassIsAtRisk | cmd/replicare/reseed.go:77-83 | from there the next pass can strand a last component of one table |
| Recovery.Recovery.RecoverTarget | internal/pipeline/stream.go:173-187 | the code refines the protocol move by move, with the source writing and any effect or load failing; it always stops safe, and a pass without failures ends with no flag set, every component copied and nothing lost |
| Recovery.Recovery.NeedsReseed | internal/pipeline/stream.go:291-304 | true exactly when some table of the target is flagged |
| Recovery.Recovery.Run | internal/reseed/reseed.go:129-183 | one component, from whatever its tables and progress hold |
| Recovery.Recovery.CopyChunk | internal/copy/copy.go:258-289 | the number of attempts and the result follow from the fates: at most six, only dropped ones retried, success exactly when the last loaded and could be marked; other tables untouched |
| Recovery.Recovery.ClearTargets | internal/reseed/reseed.go:141-145 | children are cleared before parents, each clear a protocol move |
| UnionFind.HalvingKeepsClasses | internal/fkgraph/fkgraph.go:216-222 | a halving step moves no node to another class |
| UnionFind.UnionFind.Find | internal/fkgraph/fkgraph.go:216-222 | terminates by the rank measure, returns the root, leaves the partition as it was |
| UnionFind.UnionFind.Union | internal/fkgraph/fkgraph.go:224-238 | joins exactly the classes of its arguments and keeps ranks rising |
| FkGraph.OneMoreConn | internal/fkgraph/fkgraph.go:40-46 | how one more foreign key changes connectivity, both directions |
| FkGraph.Components | internal/fkgraph/fkgraph.go:30-62 | every table in a group; two tables in one group exactly when selected foreign keys connect them |
| FkGraph.NoKeyCrosses | internal/fkgraph/fkgraph.go:26-29 | no selected foreign key crosses a component boundary |
| Kahn.Sort | internal/fkgraph/fkgraph.go:109-135 | parents precede children; what is left out is blocked or waits for a parent that is left out |
| FkGraph.LeftoverIsTainted | internal/fkgraph/fkgraph.go:137-143 | a table is left out exactly when it, or an ancestor, lies on a cycle or references itself |
| FkGraph.TopoOrder | internal/fkgraph/fkgraph.go:80-144 | a permutation of the members: an acyclic prefix with all parents first, then exactly the tainted tables |
| CyclicFk.Reachable | internal/engine/postgres/cyclicfk.go:174-190 | the stack search answers reachability exactly and terminates |
| CyclicFk.ClassifyCyclicKeys | internal/engine/postgres/cyclicfk.go:51-101 | exactly the foreign keys on a cycle; by the owning table's definition: deferred if and only if deferrable, NULL-then-fill if and only if not deferrable with a nullable column, blocked if and only if neither, and the nullable flag right |
| ComponentPlan.BlockedExactlyWhen | internal/engine/postgres/cyclicfk.go:9-25 | a key is blocked if and only if it cannot be deferred and every legal row of its table has the reference checked; filled last if and only if some legal row leaves it unchecked |
| CyclicFk.CyclicColsByTable | internal/engine/postgres/cyclicfk.go:127-142 | exactly the columns of the given keys, each once per table |
| CyclicFk.NullFillColsByTable | internal/engine/postgres/cyclicfk.go:151-159 | exactly the columns of the NULL-then-fill keys |
| CyclicFk.FilledAreNullableExactlyWhen | internal/engine/postgres/cyclicfk.go:144-159 | every column loaded NULL is nullable if and only if no on-cycle, non-deferrable key of the selection mixes nullable and NOT NULL columns |
| CyclicFk.CompositeKeyNullsRequiredColumn | internal/engine/postgres/cyclicfk.go:103-123 | with a composite key a NOT NULL column can be in the list: a concrete schema |
| CyclicFk.KeptIsAcyclic | internal/engine/postgres/cyclic.go:150-172 | without the on-cycle keys no cycle is left |
| CyclicFk.NothingLeftOver | internal/engine/postgres/cyclic.go:194-209 | Kahn emits every member, so the leftover branch is dead |
| CyclicFk.NonCyclicTopoOrder | internal/engine/postgres/cyclic.go:154-211 | an order of all members, parents first along the kept keys |
| CyclicFk.TopoOrder | internal/engine/postgres/fkcomponents.go:108-123 | parents first along every key on no cycle, and exactly the members on a cycle |
| CyclicFk.AnalysesAgreeOnCycles | internal/engine/postgres/fkcomponents.go:99-123 | both analyses call the same components cyclic |
| ComponentPlan.AcyclicComponentDrains | internal/apply/component.go:212-251 | a component ordered by the graph analysis meets the drain's hypotheses, so one covering pass makes the target equal to the source |
| ComponentPlan.CyclicComponentDrains | internal/apply/component.go:355-422 | with fillable on-cycle keys, ordered and classified by the analysis, one covering pass succeeds exactly when the deletes are ordered |
| SyncCycles.DetectSyncCycles | internal/config/config.go:448-505 | an error exactly when the one-way syncs form a directed cycle or self-loop; the reported list is a closed path of syncs |
| SyncCycles.Search.Dfs | internal/config/config.go:472-497 | found means a closed path; otherwise the node and all it reaches are finished and the stack is as before |
| Purge.CountMeansAll | internal/engine/postgres/purge.go:152-173 | count equals size if and only if the list has no duplicates and every target consumed the delta |
| Purge.FormsAgree | internal/engine/mysql/purge.go:147-164 | the grouped and the correlated query select the same deltas |
| Purge.Queue.PurgeConsumedBy | internal/engine/postgres/purge.go:145-190 | the batched loop terminates and removes all and only the purgeable deltas, with the exact total |
| Purge.Queue.OverCapTargets | internal/engine/postgres/purge.go:75-130 | exactly the given targets with an unconsumed delta older than a positive age cap, and over a positive size cap the first of those with the oldest unconsumed delta |
| Purge.PurgeTable | internal/engine/postgres/purge.go:25-69 | sacrificed are exactly those targets, on the deltas and their capture times; they lose their whole track and nobody else any; every other target keeps its whole backlog; what goes is what all of those consumed |
| Purge.PurgeIsGated | internal/engine/mysql/purge.go:34-77 | the purge is a step of the drain protocol gated on the targets it was given |
| Framing.RecordRoundTrip | internal/engine/redis/framing.go:63-142 | decoding an encoded record with lengths in range returns what it carries and the rest of the stream |
| Framing.RecordLayout | internal/engine/redis/framing.go:63-83 | where every field of a record lies |
| Framing.VersionLayout | internal/engine/redis/framing.go:69-75 | where every field of the version block lies |
| Framing.BeByte | internal/engine/redis/framing.go:63-83 | integers are written most significant byte first |
| Framing.CutIsNeverClean | internal/engine/redis/framing.go:85-142 | a stream cut inside a record is reported as truncated, never as a clean end |
| Framing.FramingIsLawful | internal/engine/redis/framing.go:63-142 | the framing obeys the laws of the stream theorem |
| Framing.StreamRoundTrip | internal/engine/redis/framing.go:63-142 | for any lawful framing, a concatenation reads back and ends cleanly, and a cut yields the records before it and an error |
| Framing.FramingRoundTrip | internal/engine/redis/framing.go:63-142 | this framing: any concatenation of records in range reads back and ends cleanly; cut inside a record it yields the records before it and an error |
| Framing.Reader.ReadStream | internal/engine/redis/copy.go:260-274 | the consumer's loop returns exactly those records and whether the end was clean |
| Framing.SyncWriter.Write | internal/engine/redis/framing.go:63-83 | appends exactly the record's encoding |
| Framing.Reader.ReadRecord | internal/engine/redis/framing.go:87-133 | reads exactly what the decoder says, clean end only before the first byte |
| LoadData.RowWriter.EscapeInto | internal/engine/mysql/loaddata.go:30-58 | appends the escaped bytes |
| LoadData.RowWriter.WriteRow | internal/engine/mysql/loaddata.go:62-74 | appends the row's line |
| LoadData.NullIsDistinct | internal/engine/mysql/loaddata.go:17-22 | no value's text is the NULL sentinel, the value backslash-N included |
| LoadData.FileRoundTrip | internal/engine/mysql/loaddata.go:30-77 | rows of one arity of at least one load back byte for byte with NULLs as NULLs, by a reader written from the MySQL manual |
| Crc16.TableStep | internal/engine/redis/mesh.go:114-120 | one table lookup is eight message bits |
| Crc16.BuildTable | internal/engine/redis/mesh.go:96-111 | every entry is its byte's eight steps |
| Crc16.Crc16 | internal/engine/redis/mesh.go:114-120 | the table-driven checksum is the bit-by-bit definition, for every string |
| MetaKey.SlotTagIsHashTag | internal/engine/redis/mesh.go:35-45 | the tag is the part the cluster specification hashes |
| SlotRange.CrcIsSum | internal/engine/redis/mesh.go:113-120 | the checksum is the exclusive-or, over the message's one bits, of the powers of x modulo the polynomial |
| SlotRange.EverySlotIsHit | internal/engine/redis/mesh.go:77-91 | any fourteen slot bits are those of the checksum of a seven-digit decimal number |
| MetaKey.FillTags | internal/engine/redis/mesh.go:78-91 | the loop ends with every slot filled, each by the first decimal number that hashes to it |
| MetaKey.FullIsGood | internal/engine/redis/mesh.go:78-91 | a full table maps every slot to a brace-free string of that slot |
| MetaKey.MetaKeyInverts | internal/engine/redis/mesh_source.go:400-413 | the data key is recovered from the metadata key, for every byte string |
| MetaKey.DataKeyExactlyWhen | internal/engine/redis/mesh_source.go:400-413 | a data key is read from a byte string if and only if that is the prefix, a tag without a closing brace in braces, and the key |
| MetaKey.MetaKeyCoLocates | internal/engine/redis/mesh.go:55-67 | a metadata key hashes to its data key's slot, for every byte string |
| MetaKey.MetaKeysAreDistinct | internal/engine/redis/mesh.go:47-57 | distinct data keys have distinct metadata keys |

## Left out

- Recovery.Recovery.Run: copies each table's chunks one after the other; chunks copied in parallel by many workers are covered by the protocols of modules Copy and Reseed, not by this method.
- Kahn.Sort: takes ready tables in any order instead of sorted by name, so the deterministic output order is not stated; everything stated holds for every order.
- FkGraph.Components: groups are not sorted by name.
- CyclicFk.NonCyclicTopoOrder: identifies a foreign key by its child, parent and name instead of the joined text, and has no leftover branch, which is proved dead.
- Replicator.Replica.DrainComponent: progress for batches that do not cover the queue is stated only while every queued row still exists at the source; with deletes, a parent's delete waits for a child queued later.
- Replicator.Replica.DrainCyclicNullFillSeq: pooled drains are not modelled as loops; their tables interleave freely in module Drain.
- Copy.CopyChunkResilient: health checks and reconnects are folded into the outcome of each attempt.
- Tombstone garbage collection, and mesh runs with purges.
- The initial copy of a cluster, which is neither version-guarded nor registered; mesh runs start with equal tables and registers.
- Crash points inside the purge of a sacrificed target; a purge with its sacrifices is one call. Half-done flagging is covered by module PartialFlags.
- The Redis stamping re-read, SCAN reconciliation and delete sweeps, which are several server reads without a transaction.
- The returned count of the single-transaction drain when a confirm fails.
- Copying cyclic components (deferred or NULL-then-fill initial load with parent retries).
- ctid chunking, TRUNCATE, ON DELETE CASCADE, TTL semantics and 32- or 64-bit wrap-around of clock counters.
- Type compatibility tables, SQL text, DDL, connections, retries in time, telemetry, configuration parsing and the command line.
