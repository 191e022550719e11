/** The initial copy of a component against a live source, capture installed first.

    Each table is copied in key-range chunks by any number of workers: a chunk is read,
    loaded, and marked done; done chunks advance a contiguous prefix whose upper bound is
    saved as the watermark. The source commits transactions between any two steps, a load
    may fail, land without its acknowledgement, or be retried, and a crash may end a
    table's run anywhere; the next run is planned afresh from the saved watermark.

    `Place` gives each row's place in its table's key order. */
module Copy {
  import opened Rows
  import opened Chunks
  import Drain

  type Place = RowId -> real

  datatype Progress = Progress(done: bool, watermark: Option<real>)

  /** Direct is a plain load into an empty table, Merge an upsert. */
  datatype LoadMode = Direct | Merge

  datatype Stage = Idle | Holding(snap: Database) | Landed

  /** One run of one table: its plan, each chunk's state, and the completed prefix. */
  datatype Run = Run(lo: Option<real>, bounds: seq<real>, mode: LoadMode,
                     stages: seq<Stage>, tried: seq<bool>, done: seq<bool>, prefix: nat)

  datatype TableCopy = TableCopy(progress: Progress, run: Option<Run>)

  /** The source side of the world, the target's rows and consumed ids, and the copies. */
  datatype State = State(world: Drain.World, rows: Database, track: set<DeltaId>, tables: map<Table, TableCopy>)

  datatype Step =
    | Txn(changes: seq<Drain.Change>, ids: seq<DeltaId>)
    | Start(table: Table, bounds: seq<real>, mode: LoadMode)
    | ReadChunk(table: Table, i: nat)
    | LoadChunk(table: Table, i: nat, acked: bool)
    | FailChunk(table: Table, i: nat)
    | MarkDone(table: Table, i: nat)
    | Finish(table: Table)
    | Crash(table: Table)

  function ChunksOf(r: Run): seq<Chunk> {
    Ranges(r.lo, r.bounds)
  }

  predicate InRange(pos: Place, t: Table, c: Chunk, id: RowId) {
    id.table == t && InChunk(c, pos(id))
  }

  /** The source rows a chunk read returns. */
  function RowsIn(db: Database, pos: Place, t: Table, c: Chunk): Database {
    map id | id in db && InRange(pos, t, c, id) :: db[id]
  }

  /** The first index at or after `prefix` that is not done. */
  function Advance(done: seq<bool>, prefix: nat): (p: nat)
    requires prefix <= |done|
    ensures prefix <= p <= |done| && (forall j | prefix <= j < p :: done[j]) && (p < |done| ==> !done[p])
    decreases |done| - prefix
  {
    if prefix < |done| && done[prefix] then Advance(done, prefix + 1) else prefix
  }

  /** What is saved after chunk i: the upper bound of the prefix, if it moved and is not
      the end. */
  function Saved(p: Progress, bounds: seq<real>, before: nat, after: nat): Progress {
    if before < after <= |bounds| then Progress(false, Some(bounds[after - 1])) else p
  }

  function SetRun(s: State, t: Table, r: Run): State
    requires t in s.tables
  {
    s.(tables := s.tables[t := s.tables[t].(run := Some(r))])
  }

  ghost predicate Running(s: State, t: Table, i: nat) {
    && t in s.tables && s.tables[t].run.Some?
    && var r := s.tables[t].run.value;
       i < |r.stages| && i < |r.tried| && i < |r.done| && i < |ChunksOf(r)|
  }

  /** Retries always merge, whatever the first attempt's mode. */
  function ModeOf(r: Run, i: nat): LoadMode
    requires i < |r.tried|
  {
    if r.tried[i] then Merge else r.mode
  }

  /** A direct load of a row the target already has would fail on the key. */
  ghost predicate Collides(s: State, t: Table, i: nat)
    requires Running(s, t, i)
  {
    var r := s.tables[t].run.value;
    r.stages[i].Holding? && ModeOf(r, i) == Direct && exists id :: id in r.stages[i].snap && id in s.rows
  }

  ghost predicate Next(pos: Place, s: State, step: Step, s': State) {
    match step
    case Txn(changes, ids) =>
      && Drain.Next({}, s.world, Drain.SourceTxn(changes, ids), s'.world)
      && s' == s.(world := s'.world)
    case Start(t, bounds, mode) =>
      && t in s.tables && s.tables[t].run.None? && !s.tables[t].progress.done
      && var lo := s.tables[t].progress.watermark;
      && BoundsOk(lo, bounds)
      && (mode == Direct ==> forall id | id in s.rows :: id.table != t)
      && var n := |bounds| + 1;
         s' == SetRun(s, t, Run(lo, bounds, mode, seq(n, _ => Idle), seq(n, _ => false), seq(n, _ => false), 0))
    case ReadChunk(t, i) =>
      && Running(s, t, i)
      && var r := s.tables[t].run.value;
      && r.stages[i] == Idle
      && s' == SetRun(s, t, r.(stages := r.stages[i := Holding(RowsIn(s.world.source, pos, t, ChunksOf(r)[i]))]))
    case LoadChunk(t, i, acked) =>
      && Running(s, t, i) && !Collides(s, t, i)
      && var r := s.tables[t].run.value;
      && r.stages[i].Holding?
      && s' == SetRun(s, t, r.(stages := r.stages[i := if acked then Landed else Idle],
                               tried := r.tried[i := true])).(rows := s.rows + r.stages[i].snap)
    case FailChunk(t, i) =>
      && Running(s, t, i)
      && var r := s.tables[t].run.value;
      && r.stages[i].Holding?
      && s' == SetRun(s, t, r.(stages := r.stages[i := Idle], tried := r.tried[i := true]))
    case MarkDone(t, i) =>
      && Running(s, t, i)
      && var tc := s.tables[t];
      && var r := tc.run.value;
      && r.stages[i] == Landed && r.prefix <= |r.done|
      && var done := r.done[i := true];
      && var p := Advance(done, r.prefix);
      && s' == s.(tables := s.tables[t := TableCopy(Saved(tc.progress, r.bounds, r.prefix, p),
                                                    Some(r.(done := done, prefix := p)))])
    case Finish(t) =>
      && t in s.tables && s.tables[t].run.Some?
      && (forall i | 0 <= i < |s.tables[t].run.value.done| :: s.tables[t].run.value.done[i])
      && s' == s.(tables := s.tables[t := TableCopy(Progress(true, None), None)])
    case Crash(t) =>
      && t in s.tables
      && s' == s.(tables := s.tables[t := s.tables[t].(run := None)])
  }

  // ---------- the invariant ----------

  /** The row is the same on both sides, or a change to it is still queued. */
  ghost predicate RowOk(s: State, id: RowId) {
    Drain.Agree(s.world, s.rows, s.track, id)
  }

  ghost predicate BelowOk(s: State, pos: Place, t: Table, w: Option<real>) {
    forall id: RowId | id.table == t && w.Some? && pos(id) < w.value :: RowOk(s, id)
  }

  ghost predicate RangeOk(s: State, pos: Place, t: Table, c: Chunk) {
    forall id: RowId | InRange(pos, t, c, id) :: RowOk(s, id)
  }

  /** A chunk read holds what the source had, short of changes queued since. */
  ghost predicate SnapOk(s: State, pos: Place, t: Table, c: Chunk, snap: Database) {
    && (forall id | id in snap :: InRange(pos, t, c, id))
    && (forall id: RowId | InRange(pos, t, c, id) :: Drain.Agree(s.world, snap, s.track, id))
  }

  ghost predicate Untouched(s: State, pos: Place, t: Table, c: Chunk) {
    forall id | id in s.rows :: !InRange(pos, t, c, id)
  }

  ghost predicate ChunkOk(s: State, pos: Place, t: Table, r: Run, i: nat)
    requires i < |ChunksOf(r)| && i < |r.stages| && i < |r.tried| && i < |r.done|
  {
    var c := ChunksOf(r)[i];
    && (r.done[i] || r.stages[i].Landed? ==> RangeOk(s, pos, t, c))
    && (r.stages[i].Holding? ==> SnapOk(s, pos, t, c, r.stages[i].snap))
    && (r.mode == Direct && !r.tried[i] ==> !r.stages[i].Landed? && !r.done[i] && Untouched(s, pos, t, c))
  }

  /** The watermark a prefix stands for. */
  function BoundAt(r: Run, prefix: nat): Option<real>
    requires prefix <= |r.bounds|
  {
    if prefix == 0 then r.lo else Some(r.bounds[prefix - 1])
  }

  ghost predicate RunShape(r: Run) {
    && BoundsOk(r.lo, r.bounds)
    && |r.done| == |r.stages| == |r.tried| == |ChunksOf(r)| == |r.bounds| + 1
    && r.prefix <= |r.done| && forall j | 0 <= j < r.prefix :: r.done[j]
  }

  ghost predicate RunOk(s: State, pos: Place, t: Table, p: Progress, r: Run) {
    && RunShape(r) && !p.done
    && BelowOk(s, pos, t, r.lo)
    && (r.prefix <= |r.bounds| ==> p.watermark == BoundAt(r, r.prefix))
    && (forall i: nat | i < |r.done| :: ChunkOk(s, pos, t, r, i))
  }

  ghost predicate TableOk(s: State, pos: Place, t: Table)
    requires t in s.tables
  {
    var tc := s.tables[t];
    && (forall id | id in s.rows && id.table == t :: RowOk(s, id))
    && (if tc.progress.done then forall id: RowId | id.table == t :: RowOk(s, id)
        else BelowOk(s, pos, t, tc.progress.watermark))
    && (tc.run.Some? ==> RunOk(s, pos, t, tc.progress, tc.run.value))
  }

  ghost predicate Inv(s: State, pos: Place) {
    && s.world.delta.Keys <= s.world.issued && s.track <= s.world.issued
    && forall t | t in s.tables :: TableOk(s, pos, t)
  }

  // ---------- what every step keeps ----------

  /** No row that agreed, or was queued, stops doing so; the same for held reads. */
  ghost predicate Keeps(s: State, s': State) {
    && (forall id: RowId | RowOk(s, id) :: RowOk(s', id))
    && (forall snap: Database, id: RowId | Drain.Agree(s.world, snap, s.track, id) ::
          Drain.Agree(s'.world, snap, s'.track, id))
    && s'.track == s.track && s'.world.delta.Keys <= s'.world.issued && s'.track <= s'.world.issued
  }

  lemma TxnKeeps(pos: Place, s: State, step: Step, s': State)
    requires Inv(s, pos) && step.Txn? && Next(pos, s, step, s')
    ensures Keeps(s, s')
  {
    var txn := Drain.SourceTxn(step.changes, step.ids);
    Drain.NewDeltasCover(step.ids, Drain.CapturedAll(step.changes));
    forall snap: Database, id: RowId | Drain.Agree(s.world, snap, s.track, id)
      ensures Drain.Agree(s'.world, snap, s'.track, id)
    {
      Drain.TxnKeepsAgreement({}, s.world, txn, s'.world, snap, s.track, id);
    }
    forall id: RowId | RowOk(s, id) ensures RowOk(s', id) {
      Drain.TxnKeepsAgreement({}, s.world, txn, s'.world, s.rows, s.track, id);
    }
  }

  /** A load of a good read leaves every row of the chunk good. */
  lemma LoadedOk(pos: Place, s: State, t: Table, c: Chunk, snap: Database, id: RowId)
    requires SnapOk(s, pos, t, c, snap) && (id in s.rows && id.table == t ==> RowOk(s, id))
    requires InRange(pos, t, c, id)
    ensures RowOk(s.(rows := s.rows + snap), id)
  {
    assert Drain.Agree(s.world, snap, s.track, id);
  }

  lemma LoadKeeps(pos: Place, s: State, step: Step, s': State)
    requires Inv(s, pos) && step.LoadChunk? && Next(pos, s, step, s')
    ensures Keeps(s, s')
  {
    var t, r := step.table, s.tables[step.table].run.value;
    assert TableOk(s, pos, t) && ChunkOk(s, pos, t, r, step.i);
    var c, snap := ChunksOf(r)[step.i], r.stages[step.i].snap;
    forall id: RowId | RowOk(s, id) ensures RowOk(s', id) {
      if id in snap { LoadedOk(pos, s, t, c, snap, id); }
    }
  }

  lemma StepKeeps(pos: Place, s: State, step: Step, s': State)
    requires Inv(s, pos) && Next(pos, s, step, s')
    ensures Keeps(s, s')
  {
    if step.Txn? { TxnKeeps(pos, s, step, s'); } else if step.LoadChunk? { LoadKeeps(pos, s, step, s'); }
  }

  lemma ChunkKeeps(pos: Place, s: State, s': State, t: Table, r: Run, i: nat)
    requires i < |ChunksOf(r)| && i < |r.stages| && i < |r.tried| && i < |r.done|
    requires ChunkOk(s, pos, t, r, i) && Keeps(s, s')
    requires Untouched(s, pos, t, ChunksOf(r)[i]) ==> r.tried[i] || Untouched(s', pos, t, ChunksOf(r)[i])
    ensures ChunkOk(s', pos, t, r, i)
  {
    if r.stages[i].Holding? {
      forall id: RowId | InRange(pos, t, ChunksOf(r)[i], id)
        ensures Drain.Agree(s'.world, r.stages[i].snap, s'.track, id)
      {
        assert Drain.Agree(s.world, r.stages[i].snap, s.track, id);
      }
    }
  }

  /** A table the step does not touch. */
  lemma OtherTableKeeps(pos: Place, s: State, s': State, t: Table)
    requires t in s.tables && t in s'.tables && s'.tables[t] == s.tables[t]
    requires TableOk(s, pos, t) && Keeps(s, s')
    requires forall id | id in s'.rows && id.table == t :: id in s.rows
    ensures TableOk(s', pos, t)
  {
    var tc := s.tables[t];
    if tc.run.Some? {
      var r := tc.run.value;
      forall i: nat | i < |r.done| ensures ChunkOk(s', pos, t, r, i) {
        assert ChunkOk(s, pos, t, r, i);
        ChunkKeeps(pos, s, s', t, r, i);
      }
    }
  }

  // ---------- steps of one table ----------

  lemma StartOk(pos: Place, s: State, step: Step, s': State)
    requires Inv(s, pos) && step.Start? && Next(pos, s, step, s')
    ensures TableOk(s', pos, step.table)
  {
    var t := step.table;
    var r := s'.tables[t].run.value;
    assert TableOk(s, pos, t);
    RangesCount(r.lo, r.bounds);
    StepKeeps(pos, s, step, s');
    forall i: nat | i < |r.done| ensures ChunkOk(s', pos, t, r, i) {}
  }

  lemma ReadOk(pos: Place, s: State, step: Step, s': State)
    requires Inv(s, pos) && step.ReadChunk? && Next(pos, s, step, s')
    ensures TableOk(s', pos, step.table)
  {
    var t, r, r' := step.table, s.tables[step.table].run.value, s'.tables[step.table].run.value;
    assert TableOk(s, pos, t);
    StepKeeps(pos, s, step, s');
    forall i: nat | i < |r'.done| ensures ChunkOk(s', pos, t, r', i) {
      assert ChunkOk(s, pos, t, r, i);
      ChunkKeeps(pos, s, s', t, r, i);
      if i == step.i { ReadIsOk(s', pos, t, ChunksOf(r)[i]); }
    }
  }

  lemma ReadIsOk(s: State, pos: Place, t: Table, c: Chunk)
    ensures SnapOk(s, pos, t, c, RowsIn(s.world.source, pos, t, c))
  {}

  /** Rows loaded into one chunk lie in no other. */
  lemma OtherChunkUntouched(pos: Place, s: State, t: Table, r: Run, i: nat, j: nat, snap: Database)
    requires RunShape(r) && i < |ChunksOf(r)| && j < |ChunksOf(r)| && i != j
    requires forall id | id in snap :: InRange(pos, t, ChunksOf(r)[i], id)
    requires Untouched(s, pos, t, ChunksOf(r)[j])
    ensures Untouched(s.(rows := s.rows + snap), pos, t, ChunksOf(r)[j])
  {
    forall id | id in snap ensures !InRange(pos, t, ChunksOf(r)[j], id) {
      if InRange(pos, t, ChunksOf(r)[j], id) { OnlyChunk(r.lo, r.bounds, i, j, pos(id)); }
    }
  }

  lemma LoadChunkOk(pos: Place, s: State, step: Step, s': State, j: nat)
    requires Inv(s, pos) && step.LoadChunk? && Next(pos, s, step, s') && Keeps(s, s')
    requires j < |s.tables[step.table].run.value.done|
    ensures ChunkOk(s', pos, step.table, s'.tables[step.table].run.value, j)
  {
    var t, i, r, r' := step.table, step.i, s.tables[step.table].run.value, s'.tables[step.table].run.value;
    assert TableOk(s, pos, t) && ChunkOk(s, pos, t, r, i) && ChunkOk(s, pos, t, r, j);
    var c, snap := ChunksOf(r)[i], r.stages[i].snap;
    if j == i {
      forall id: RowId | InRange(pos, t, c, id) ensures RowOk(s', id) { LoadedOk(pos, s, t, c, snap, id); }
    } else {
      if Untouched(s, pos, t, ChunksOf(r)[j]) { OtherChunkUntouched(pos, s, t, r, i, j, snap); }
      ChunkKeeps(pos, s, s', t, r, j);
    }
  }

  lemma LoadOk(pos: Place, s: State, step: Step, s': State)
    requires Inv(s, pos) && step.LoadChunk? && Next(pos, s, step, s')
    ensures TableOk(s', pos, step.table)
  {
    var t, r := step.table, s.tables[step.table].run.value;
    assert TableOk(s, pos, t) && ChunkOk(s, pos, t, r, step.i);
    StepKeeps(pos, s, step, s');
    var c, snap := ChunksOf(r)[step.i], r.stages[step.i].snap;
    forall j: nat | j < |r.done| ensures ChunkOk(s', pos, t, s'.tables[t].run.value, j) {
      LoadChunkOk(pos, s, step, s', j);
    }
    forall id | id in s'.rows && id.table == t ensures RowOk(s', id) {
      if id in snap { LoadedOk(pos, s, t, c, snap, id); }
    }
  }

  lemma FailOk(pos: Place, s: State, step: Step, s': State)
    requires Inv(s, pos) && step.FailChunk? && Next(pos, s, step, s')
    ensures TableOk(s', pos, step.table)
  {
    var t, r, r' := step.table, s.tables[step.table].run.value, s'.tables[step.table].run.value;
    assert TableOk(s, pos, t);
    StepKeeps(pos, s, step, s');
    forall i: nat | i < |r'.done| ensures ChunkOk(s', pos, t, r', i) {
      assert ChunkOk(s, pos, t, r, i);
      ChunkKeeps(pos, s, s', t, r, i);
    }
  }

  /** Below a boundary lie the lower bound's keys and the chunks before it. */
  lemma {:induction false} BelowIsCovered(lo: Option<real>, bounds: seq<real>, k: nat, x: real) returns (i: int)
    requires BoundsOk(lo, bounds) && k < |bounds| && x < bounds[k]
    ensures if i < 0 then !AtLeast(lo, x) else Holds(Ranges(lo, bounds), i, x) && i <= k
    decreases |bounds|
  {
    if !AtLeast(lo, x) {
      i := -1;
    } else if x < bounds[0] {
      i := 0;
    } else {
      i := BelowIsCovered(Some(bounds[0]), bounds[1..], k - 1, x);
      i := i + 1;
    }
  }

  lemma PrefixCovers(pos: Place, s: State, t: Table, r: Run, prefix: nat)
    requires RunShape(r) && BelowOk(s, pos, t, r.lo) && prefix <= |r.bounds|
    requires forall j: nat | j < prefix :: RangeOk(s, pos, t, ChunksOf(r)[j])
    ensures BelowOk(s, pos, t, BoundAt(r, prefix))
  {
    if prefix > 0 {
      forall id: RowId | id.table == t && pos(id) < r.bounds[prefix - 1] ensures RowOk(s, id) {
        var i := BelowIsCovered(r.lo, r.bounds, prefix - 1, pos(id));
        if i >= 0 { assert RangeOk(s, pos, t, ChunksOf(r)[i]); }
      }
    }
  }

  lemma MarkOk(pos: Place, s: State, step: Step, s': State)
    requires Inv(s, pos) && step.MarkDone? && Next(pos, s, step, s')
    ensures TableOk(s', pos, step.table)
  {
    var t, r, r' := step.table, s.tables[step.table].run.value, s'.tables[step.table].run.value;
    assert TableOk(s, pos, t);
    StepKeeps(pos, s, step, s');
    forall i: nat | i < |r'.done| ensures ChunkOk(s', pos, t, r', i) {
      assert ChunkOk(s, pos, t, r, i);
      ChunkKeeps(pos, s, s', t, r, i);
    }
    forall j: nat | j < r'.prefix ensures RangeOk(s', pos, t, ChunksOf(r')[j]) {
      assert r'.done[j] && ChunkOk(s', pos, t, r', j);
    }
    if r'.prefix <= |r'.bounds| { PrefixCovers(pos, s', t, r', r'.prefix); }
  }

  lemma FinishOk(pos: Place, s: State, step: Step, s': State)
    requires Inv(s, pos) && step.Finish? && Next(pos, s, step, s')
    ensures TableOk(s', pos, step.table)
  {
    var t, r := step.table, s.tables[step.table].run.value;
    assert TableOk(s, pos, t);
    StepKeeps(pos, s, step, s');
    forall id: RowId | id.table == t ensures RowOk(s', id) {
      if AtLeast(r.lo, pos(id)) {
        var i := SomeChunk(r.lo, r.bounds, pos(id));
        assert ChunkOk(s, pos, t, r, i) && r.done[i];
        assert InRange(pos, t, ChunksOf(r)[i], id);
      }
      assert RowOk(s, id);
    }
  }

  lemma TableStepOk(pos: Place, s: State, step: Step, s': State)
    requires Inv(s, pos) && !step.Txn? && Next(pos, s, step, s')
    ensures TableOk(s', pos, step.table)
  {
    match step
    case Start(_, _, _) => StartOk(pos, s, step, s');
    case ReadChunk(_, _) => ReadOk(pos, s, step, s');
    case LoadChunk(_, _, _) => LoadOk(pos, s, step, s');
    case FailChunk(_, _) => FailOk(pos, s, step, s');
    case MarkDone(_, _) => MarkOk(pos, s, step, s');
    case Finish(_) => FinishOk(pos, s, step, s');
    case Crash(t) => assert TableOk(s, pos, t);
  }

  lemma LoadStaysInTable(pos: Place, s: State, step: Step, s': State, t: Table)
    requires Inv(s, pos) && Next(pos, s, step, s') && (step.Txn? || step.table != t)
    ensures forall id | id in s'.rows && id.table == t :: id in s.rows
  {
    if step.LoadChunk? {
      var r := s.tables[step.table].run.value;
      assert TableOk(s, pos, step.table) && ChunkOk(s, pos, step.table, r, step.i);
    }
  }

  lemma StepKeepsInv(pos: Place, s: State, step: Step, s': State)
    requires Inv(s, pos) && Next(pos, s, step, s')
    ensures Inv(s', pos)
  {
    StepKeeps(pos, s, step, s');
    forall t | t in s'.tables ensures TableOk(s', pos, t) {
      assert TableOk(s, pos, t);
      if !step.Txn? && step.table == t {
        TableStepOk(pos, s, step, s');
      } else {
        LoadStaysInTable(pos, s, step, s', t);
        OtherTableKeeps(pos, s, s', t);
      }
    }
  }

  // ---------- whole bring-ups ----------

  /** Capture is installed, the target holds no row of the tables, nothing is copied. */
  ghost predicate Init(s: State) {
    && s.world.delta.Keys <= s.world.issued && s.track <= s.world.issued
    && (forall t | t in s.tables :: s.tables[t] == TableCopy(Progress(false, None), None))
    && (forall id | id in s.rows :: id.table !in s.tables)
  }

  ghost predicate IsRun(pos: Place, trace: seq<State>, steps: seq<Step>) {
    && |trace| == |steps| + 1 && Init(trace[0])
    && forall j | 0 <= j < |steps| :: Next(pos, trace[j], steps[j], trace[j + 1])
  }

  lemma {:induction false} RunKeepsInv(pos: Place, trace: seq<State>, steps: seq<Step>)
    requires IsRun(pos, trace, steps)
    ensures Inv(trace[|steps|], pos)
  {
    if steps != [] {
      var n := |steps| - 1;
      assert IsRun(pos, trace[..n + 1], steps[..n]);
      RunKeepsInv(pos, trace[..n + 1], steps[..n]);
      StepKeepsInv(pos, trace[n], steps[n], trace[n + 1]);
    } else {
      forall t | t in trace[0].tables ensures TableOk(trace[0], pos, t) {}
    }
  }

  /** A saved watermark means every row below it was loaded, short of queued changes. */
  lemma WatermarkIsSound(pos: Place, trace: seq<State>, steps: seq<Step>, t: Table, id: RowId)
    requires IsRun(pos, trace, steps) && t in trace[|steps|].tables && id.table == t
    requires var p := trace[|steps|].tables[t].progress;
             p.done || (p.watermark.Some? && pos(id) < p.watermark.value)
    ensures Drain.Agree(trace[|steps|].world, trace[|steps|].rows, trace[|steps|].track, id)
  {
    RunKeepsInv(pos, trace, steps);
    assert TableOk(trace[|steps|], pos, t);
    assert RowOk(trace[|steps|], id);
  }

  /** q is at or past p. */
  predicate NotBefore(q: Progress, p: Progress) {
    q.done || (!p.done && (p.watermark.None? || (q.watermark.Some? && p.watermark.value <= q.watermark.value)))
  }

  lemma WatermarkNeverRegresses(pos: Place, s: State, step: Step, s': State, t: Table)
    requires Inv(s, pos) && Next(pos, s, step, s') && t in s.tables
    ensures t in s'.tables && NotBefore(s'.tables[t].progress, s.tables[t].progress)
  {
    if step.MarkDone? && step.table == t {
      assert TableOk(s, pos, t);
      var r, r' := s.tables[t].run.value, s'.tables[t].run.value;
      if r.prefix < r'.prefix <= |r.bounds| {
        assert r.bounds[r'.prefix - 1] in r.bounds;
      }
    }
  }

  lemma NoCollision(pos: Place, s: State, t: Table, i: nat)
    requires Inv(s, pos) && Running(s, t, i)
    ensures !Collides(s, t, i)
  {
    assert TableOk(s, pos, t);
    assert ChunkOk(s, pos, t, s.tables[t].run.value, i);
  }

  /** A direct load never meets a row it would collide with: only a first attempt is
      direct, and chunks are disjoint. */
  lemma DirectNeverCollides(pos: Place, trace: seq<State>, steps: seq<Step>, t: Table, i: nat)
    requires IsRun(pos, trace, steps) && Running(trace[|steps|], t, i)
    ensures !Collides(trace[|steps|], t, i)
  {
    RunKeepsInv(pos, trace, steps);
    NoCollision(pos, trace[|steps|], t, i);
  }

  /** Once every table is done the target has lost no change, so streaming may start: its
      invariant holds with no pass under way. */
  lemma BringupHandsOver(pos: Place, trace: seq<State>, steps: seq<Step>)
    requires IsRun(pos, trace, steps)
    requires var s := trace[|steps|];
             && (forall t | t in s.tables :: s.tables[t].progress.done)
             && (forall id | id in s.world.source || id in s.rows :: id.table in s.tables)
    ensures var s := trace[|steps|]; Drain.SideInv(s.world, Drain.Side(s.rows, s.track, map[]))
  {
    RunKeepsInv(pos, trace, steps);
    var s := trace[|steps|];
    forall id: RowId ensures Drain.Agree(s.world, s.rows, s.track, id) {
      if id.table in s.tables {
        assert TableOk(s, pos, id.table);
        assert RowOk(s, id);
      }
    }
  }

  // ---------- the code under the mutex ----------

  class Tracker {
    const bounds: seq<real>
    var done: array<bool>
    var prefix: nat
    var progress: Progress

    constructor (bounds: seq<real>, progress: Progress)
      ensures this.bounds == bounds && this.progress == progress && prefix == 0 && fresh(done)
      ensures done[..] == seq(|bounds| + 1, _ => false)
    {
      this.bounds, this.progress, prefix := bounds, progress, 0;
      done := new bool[|bounds| + 1](_ => false);
    }

    /** What a worker does after its chunk landed: the step MarkDone of the protocol. */
    method MarkDone(i: nat)
      requires i < done.Length == |bounds| + 1 && prefix <= done.Length
      modifies this`prefix, this`progress, done
      ensures done == old(done) && done[..] == old(done[..])[i := true]
      ensures prefix == Advance(done[..], old(prefix))
      ensures old(prefix) <= prefix <= done.Length && (forall k | old(prefix) <= k < prefix :: done[k])
              && (prefix < done.Length ==> !done[prefix])
      ensures progress == Saved(old(progress), bounds, old(prefix), prefix)
    {
      done[i] := true;
      ghost var all := done[..];
      var moved := false;
      while prefix < done.Length && done[prefix]
        invariant done[..] == all && old(prefix) <= prefix <= done.Length
        invariant Advance(all, prefix) == Advance(all, old(prefix))
        invariant forall k | old(prefix) <= k < prefix :: all[k]
        invariant moved == (prefix > old(prefix)) && progress == old(progress)
      {
        prefix := prefix + 1;
        moved := true;
      }
      if moved && prefix < done.Length {
        progress := Progress(false, Some(bounds[prefix - 1]));
      }
    }
  }

  // ---------- retries ----------

  const MAX_ATTEMPTS: nat := 6

  /** How one attempt ends: loaded, failed on healthy connections, or dropped. */
  datatype Attempt = Loaded | DataError | Dropped

  /** Only dropped connections are retried, five times at most, and retries always merge. */
  method CopyChunkResilient(outcome: nat -> Attempt, mode: LoadMode) returns (ok: bool, modes: seq<LoadMode>)
    ensures 1 <= |modes| <= 6 && forall k | 0 <= k < |modes| - 1 :: outcome(k) == Dropped
    ensures outcome(|modes| - 1) == Dropped ==> |modes| == 6
    ensures ok <==> outcome(|modes| - 1) == Loaded
    ensures forall k | 0 <= k < |modes| :: modes[k] == if k == 0 then mode else Merge
  {
    modes := [];
    for attempt := 0 to MAX_ATTEMPTS
      invariant |modes| == attempt && forall k | 0 <= k < attempt :: outcome(k) == Dropped
      invariant forall k | 0 <= k < |modes| :: modes[k] == if k == 0 then mode else Merge
    {
      var m := mode;
      if attempt > 0 { m := Merge; }
      modes := modes + [m];
      var r := outcome(attempt);
      if r == Loaded { return true, modes; }
      if r == DataError { return false, modes; }
    }
    return false, modes;
  }
}
