/** The dirty-key drain as an interleaved protocol.

    One source, any number of targets. The source commits transactions whose triggers
    append fresh delta ids; ids are drawn before commit, so they become visible in any
    order. Each target runs a drain pass: read `delta MINUS track` per table, re-read
    current values, apply them in committed phases, and only then record the observed
    ids as consumed. Passes of different tables interleave freely (this covers the
    sequential and the pooled drains), the source writes between any two steps, a phase
    may be rejected, and a crash may end a pass anywhere.

    The result: for every target the purge is gated on, each row on which source and
    target differ has a delta that target has not consumed. */
module Drain {
  import opened Rows

  // ---------- capture ----------

  datatype Change =
    | Insert(id: RowId, row: Row)
    | Update(from: RowId, id: RowId, row: Row)
    | Delete(id: RowId)

  function ApplyChange(db: Database, c: Change): Database {
    match c
    case Insert(id, row) => db[id := row]
    case Update(from, id, row) => (db - {from})[id := row]
    case Delete(id) => db - {id}
  }

  /** The row ids the capture trigger enqueues; a key-changing update enqueues both. */
  function Captured(c: Change): seq<RowId> {
    match c
    case Insert(id, _) => [id]
    case Update(from, id, _) => if from != id then [from, id] else [id]
    case Delete(id) => [id]
  }

  /** What a change makes of one key: nothing, an absent row, or the row it carries. */
  datatype Touch = Untouched | Gone | Becomes(row: Row)

  function TouchOf(c: Change, k: RowId): Touch {
    match c
    case Insert(id, row) => if k == id then Becomes(row) else Untouched
    case Update(from, id, row) => if k == id then Becomes(row) else if k == from then Gone else Untouched
    case Delete(id) => if k == id then Gone else Untouched
  }

  function AfterTouch(touch: Touch, prior: Option<Row>): Option<Row> {
    match touch
    case Untouched => prior
    case Gone => None
    case Becomes(row) => Some(row)
  }

  /** A change leaves behind the row it carries, removes the key it moved away from or
      deleted, and touches exactly the keys the trigger enqueues, each once. */
  lemma ChangeOutcome(db: Database, c: Change, k: RowId)
    ensures Lookup(ApplyChange(db, c), k) == AfterTouch(TouchOf(c, k), Lookup(db, k))
    ensures k in Captured(c) <==> TouchOf(c, k) != Untouched
    ensures forall i, j | 0 <= i < j < |Captured(c)| :: Captured(c)[i] != Captured(c)[j]
  {}

  function ApplyAll(db: Database, cs: seq<Change>): Database
    decreases |cs|
  {
    if cs == [] then db else ApplyAll(ApplyChange(db, cs[0]), cs[1..])
  }

  function CapturedAll(cs: seq<Change>): seq<RowId> {
    if cs == [] then [] else Captured(cs[0]) + CapturedAll(cs[1..])
  }

  /** No transaction changes a row without enqueueing its key. */
  lemma {:induction false} CaptureIsComplete(db: Database, cs: seq<Change>, id: RowId)
    requires Lookup(ApplyAll(db, cs), id) != Lookup(db, id)
    ensures id in CapturedAll(cs)
    decreases |cs|
  {
    if cs != [] {
      var mid := ApplyChange(db, cs[0]);
      if Lookup(mid, id) != Lookup(db, id) {
        assert id in Captured(cs[0]);
      } else {
        CaptureIsComplete(mid, cs[1..], id);
      }
    }
  }

  // ---------- state ----------

  datatype Phase = UpsertPhase | DeletePhase | FillPhase | ConfirmPhase

  /** `PerTable(cols)` is a table drained by its own committed transactions, `cols` being
      the nullable cyclic columns loaded NULL and filled last (none for an acyclic
      table); `Atomic` is a table drained inside one component-wide transaction. */
  datatype Mode = PerTable(nullFill: set<Column>) | Atomic

  datatype Stage = Ready(phase: Phase) | Staged(phase: Phase, snapshot: Database)

  datatype Work = Work(keys: set<RowId>, ids: set<DeltaId>, mode: Mode, stage: Stage)

  datatype Side = Side(rows: Database, track: set<DeltaId>, pass: map<Table, Work>)

  datatype World = World(source: Database, delta: map<DeltaId, RowId>, issued: set<DeltaId>,
                         sides: map<TargetId, Side>)

  datatype Step =
    | SourceTxn(changes: seq<Change>, ids: seq<DeltaId>)
    | ReadDirty(target: TargetId, table: Table, observed: set<DeltaId>, mode: Mode)
    | Reread(target: TargetId, table: Table)
    | CommitPhase(target: TargetId, table: Table)
    | CommitAtomic(target: TargetId, tables: set<Table>)
    | RejectPhase(target: TargetId, table: Table)
    | Confirm(target: TargetId, table: Table)
    | Crash(target: TargetId)
    | Purge(purged: set<DeltaId>)

  // ---------- steps ----------

  function NewDeltas(ids: seq<DeltaId>, captured: seq<RowId>): map<DeltaId, RowId>
    requires |ids| == |captured|
  {
    if ids == [] then map[] else NewDeltas(ids[1..], captured[1..])[ids[0] := captured[0]]
  }

  ghost predicate Unconsumed(w: World, side: Side, table: Table, ids: set<DeltaId>) {
    forall d <- ids :: d in w.delta && d !in side.track && w.delta[d].table == table
  }

  function AfterPhase(mode: Mode, phase: Phase): Phase {
    match phase
    case UpsertPhase => if mode.Atomic? then ConfirmPhase else DeletePhase
    case DeletePhase => if mode.PerTable? && mode.nullFill != {} then FillPhase else ConfirmPhase
    case FillPhase => ConfirmPhase
    case ConfirmPhase => ConfirmPhase
  }

  /** What the committed transaction of one phase does to the target. Every phase stages
      and upserts; the delete phase removes absent keys; the fill phase sets the columns
      the upsert left out. The atomic transaction upserts and deletes at once. */
  function PhaseEffect(rows: Database, keys: set<RowId>, mode: Mode, phase: Phase, snap: Database): Database {
    match mode
    case Atomic => DeleteAbsent(UpsertAll(rows, snap, {}), keys, snap)
    case PerTable(cols) =>
      var merged := UpsertAll(rows, snap, cols);
      match phase
      case UpsertPhase => merged
      case DeletePhase => DeleteAbsent(merged, keys, snap)
      case FillPhase => FillColumns(merged, snap, cols)
      case ConfirmPhase => rows
  }

  function SetWork(side: Side, table: Table, w: Work): Side {
    side.(pass := side.pass[table := w])
  }

  /** Commits the tables of one atomic transaction one after the other (they touch
      disjoint rows); nothing is visible in between. */
  ghost predicate AtomicEffect(before: Side, after: Side, tables: set<Table>) {
    && tables <= before.pass.Keys
    && after.track == before.track
    && after.pass.Keys == before.pass.Keys
    && (forall t <- before.pass ::
          if t in tables then
            && before.pass[t].mode.Atomic? && before.pass[t].stage.Staged?
            && after.pass[t] == before.pass[t].(stage := Ready(ConfirmPhase))
          else after.pass[t] == before.pass[t])
    && (forall id: RowId ::
          Lookup(after.rows, id) ==
            if id.table in tables then
              var w := before.pass[id.table];
              Lookup(PhaseEffect(before.rows, w.keys, w.mode, UpsertPhase, w.stage.snapshot), id)
            else Lookup(before.rows, id))
  }

  /** The target-side effect of a step, the source standing still. */
  ghost predicate SideStep(w: World, before: Side, s: Step, after: Side) {
    match s
    case ReadDirty(_, table, observed, mode) =>
      && table !in before.pass
      && Unconsumed(w, before, table, observed)
      && after == SetWork(before, table,
                          Work(set d <- observed :: w.delta[d], observed, mode, Ready(UpsertPhase)))
    case Reread(_, table) =>
      && table in before.pass
      && var b := before.pass[table];
      && b.stage.Ready? && b.stage.phase != ConfirmPhase
      && after == SetWork(before, table, b.(stage := Staged(b.stage.phase, Restrict(w.source, b.keys))))
    case CommitPhase(_, table) =>
      && table in before.pass
      && var b := before.pass[table];
      && b.mode.PerTable? && b.stage.Staged?
      && after == SetWork(before, table, b.(stage := Ready(AfterPhase(b.mode, b.stage.phase))))
                  .(rows := PhaseEffect(before.rows, b.keys, b.mode, b.stage.phase, b.stage.snapshot))
    case CommitAtomic(_, tables) => AtomicEffect(before, after, tables)
    case RejectPhase(_, table) => after == before.(pass := before.pass - {table})
    case Confirm(_, table) =>
      && table in before.pass
      && before.pass[table].stage == Ready(ConfirmPhase)
      && after == before.(track := before.track + before.pass[table].ids, pass := before.pass - {table})
    case Crash(_) => after == before.(pass := map[])
    case _ => false
  }

  /** `gate` is the target set the purge is given. */
  ghost predicate Next(gate: set<TargetId>, w: World, s: Step, w': World) {
    match s
    case SourceTxn(changes, ids) =>
      var captured := CapturedAll(changes);
      && |ids| == |captured|
      && (forall i, j | 0 <= i < j < |ids| :: ids[i] != ids[j])
      && (forall d <- ids :: d !in w.issued)
      && w' == w.(source := ApplyAll(w.source, changes),
                  delta := w.delta + NewDeltas(ids, captured),
                  issued := w.issued + (set d <- ids))
    case Purge(purged) =>
      && (forall d <- purged, t <- gate :: t in w.sides ==> d in w.sides[t].track)
      && w' == w.(delta := w.delta - purged)
    case _ =>
      && s.target in w.sides
      && s.target in w'.sides
      && SideStep(w, w.sides[s.target], s, w'.sides[s.target])
      && w' == w.(sides := w.sides[s.target := w'.sides[s.target]])
  }

  // ---------- the invariant ----------

  /** Some delta for `id` lies outside `consumed`. */
  ghost predicate Pending(delta: map<DeltaId, RowId>, consumed: set<DeltaId>, id: RowId) {
    exists d :: d in delta && d !in consumed && delta[d] == id
  }

  ghost predicate Agree(w: World, rows: Database, consumed: set<DeltaId>, id: RowId) {
    Lookup(w.source, id) == Lookup(rows, id) || Pending(w.delta, consumed, id)
  }

  ghost predicate SamePresence(w: World, rows: Database, consumed: set<DeltaId>, id: RowId) {
    (id in w.source <==> id in rows) || Pending(w.delta, consumed, id)
  }

  /** The headline: every row on which source and target differ is still queued. */
  ghost predicate NoLostChange(w: World, side: Side) {
    forall id: RowId :: Agree(w, side.rows, side.track, id)
  }

  /** What a pass has earned at each stage, up to changes that arrived after its read. */
  ghost predicate StageInv(w: World, side: Side, b: Work) {
    var seen := side.track + b.ids;
    match b.stage
    case Ready(phase) =>
      && (b.mode.Atomic? ==> phase in {UpsertPhase, ConfirmPhase})
      && (phase == FillPhase ==> forall id <- b.keys :: SamePresence(w, side.rows, seen, id))
      && (phase == ConfirmPhase ==> forall id <- b.keys :: Agree(w, side.rows, seen, id))
    case Staged(phase, snap) =>
      && phase != ConfirmPhase
      && (b.mode.Atomic? ==> phase == UpsertPhase)
      && snap.Keys <= b.keys
      && (phase == FillPhase ==> forall id <- b.keys :: SamePresence(w, side.rows, seen, id))
      && (forall id <- b.keys :: Agree(w, snap, seen, id))
  }

  /** The ids a pass holds are unconsumed and account for exactly its keys. */
  ghost predicate Holds(w: World, side: Side, table: Table, b: Work) {
    && b.ids <= w.issued
    && (forall id <- b.keys :: id.table == table)
    && (forall d <- b.ids :: d in w.delta && d !in side.track && w.delta[d] in b.keys)
    && (forall id <- b.keys :: exists d :: d in b.ids && d in w.delta && w.delta[d] == id)
  }

  ghost predicate SideInv(w: World, side: Side) {
    && NoLostChange(w, side)
    && side.track <= w.issued
    && (forall t <- side.pass :: Holds(w, side, t, side.pass[t]) && StageInv(w, side, side.pass[t]))
  }

  ghost predicate Inv(gate: set<TargetId>, w: World) {
    && w.delta.Keys <= w.issued
    && gate <= w.sides.Keys
    && (forall t <- gate :: SideInv(w, w.sides[t]))
  }

  // ---------- preservation: the source ----------

  lemma {:induction false} NewDeltasCover(ids: seq<DeltaId>, captured: seq<RowId>)
    requires |ids| == |captured|
    requires forall i, j | 0 <= i < j < |ids| :: ids[i] != ids[j]
    ensures NewDeltas(ids, captured).Keys == (set d <- ids)
    ensures forall i | 0 <= i < |ids| :: NewDeltas(ids, captured)[ids[i]] == captured[i]
  {
    if ids != [] {
      NewDeltasCover(ids[1..], captured[1..]);
      assert ids == [ids[0]] + ids[1..];
      forall i | 0 < i < |ids| ensures NewDeltas(ids, captured)[ids[i]] == captured[i] {
        assert ids[1..][i - 1] == ids[i] && captured[1..][i - 1] == captured[i];
      }
    }
  }

  /** A source transaction cannot leave a changed row without a fresh delta. */
  lemma TxnKeepsAgreement(gate: set<TargetId>, w: World, s: Step, w': World, rows: Database,
                          consumed: set<DeltaId>, id: RowId)
    requires s.SourceTxn? && Next(gate, w, s, w')
    requires w.delta.Keys <= w.issued && consumed <= w.issued
    ensures Agree(w, rows, consumed, id) ==> Agree(w', rows, consumed, id)
    ensures SamePresence(w, rows, consumed, id) ==> SamePresence(w', rows, consumed, id)
  {
    var captured := CapturedAll(s.changes);
    NewDeltasCover(s.ids, captured);
    var added := NewDeltas(s.ids, captured);
    if Lookup(w'.source, id) != Lookup(w.source, id) {
      CaptureIsComplete(w.source, s.changes, id);
      var i :| 0 <= i < |captured| && captured[i] == id;
      assert s.ids[i] in w'.delta && w'.delta[s.ids[i]] == id && s.ids[i] !in consumed;
    } else if Pending(w.delta, consumed, id) {
      var d :| d in w.delta && d !in consumed && w.delta[d] == id;
      assert d !in added && w'.delta[d] == id;
    }
  }

  lemma TxnKeepsSide(gate: set<TargetId>, w: World, s: Step, w': World, side: Side)
    requires s.SourceTxn? && Next(gate, w, s, w')
    requires w.delta.Keys <= w.issued && SideInv(w, side)
    ensures w'.delta.Keys <= w'.issued && SideInv(w', side)
  {
    NewDeltasCover(s.ids, CapturedAll(s.changes));
    forall id: RowId ensures Agree(w', side.rows, side.track, id) {
      TxnKeepsAgreement(gate, w, s, w', side.rows, side.track, id);
    }
    forall t <- side.pass ensures Holds(w', side, t, side.pass[t]) && StageInv(w', side, side.pass[t]) {
      var b := side.pass[t];
      assert Holds(w, side, t, b) && StageInv(w, side, b);
      forall id <- b.keys ensures
        && (Agree(w, side.rows, side.track + b.ids, id) ==> Agree(w', side.rows, side.track + b.ids, id))
        && (SamePresence(w, side.rows, side.track + b.ids, id) ==> SamePresence(w', side.rows, side.track + b.ids, id))
        && (b.stage.Staged? && Agree(w, b.stage.snapshot, side.track + b.ids, id) ==>
              Agree(w', b.stage.snapshot, side.track + b.ids, id))
      {
        TxnKeepsAgreement(gate, w, s, w', side.rows, side.track + b.ids, id);
        if b.stage.Staged? {
          TxnKeepsAgreement(gate, w, s, w', b.stage.snapshot, side.track + b.ids, id);
        }
      }
    }
  }

  /** A purge removes only deltas this target consumed, which witness nothing. */
  lemma PurgeKeepsPending(delta: map<DeltaId, RowId>, purged: set<DeltaId>, consumed: set<DeltaId>, id: RowId)
    requires purged <= consumed
    ensures Pending(delta, consumed, id) <==> Pending(delta - purged, consumed, id)
  {
    if Pending(delta, consumed, id) {
      var d :| d in delta && d !in consumed && delta[d] == id;
      assert d in delta - purged;
    }
  }

  lemma PurgeKeepsSide(w: World, purged: set<DeltaId>, w': World, side: Side)
    requires w' == w.(delta := w.delta - purged) && purged <= side.track
    requires SideInv(w, side)
    ensures SideInv(w', side)
  {
    forall id: RowId ensures Agree(w', side.rows, side.track, id) {
      assert Agree(w, side.rows, side.track, id);
      PurgeKeepsPending(w.delta, purged, side.track, id);
    }
    forall t <- side.pass ensures Holds(w', side, t, side.pass[t]) && StageInv(w', side, side.pass[t]) {
      PurgeKeepsPass(w, purged, w', side, t, side.pass[t]);
    }
  }

  lemma PurgeKeepsPass(w: World, purged: set<DeltaId>, w': World, side: Side, t: Table, b: Work)
    requires w' == w.(delta := w.delta - purged) && purged <= side.track
    requires Holds(w, side, t, b) && StageInv(w, side, b)
    ensures Holds(w', side, t, b) && StageInv(w', side, b)
  {
    forall id <- b.keys ensures
      Pending(w.delta, side.track + b.ids, id) <==> Pending(w'.delta, side.track + b.ids, id)
    {
      PurgeKeepsPending(w.delta, purged, side.track + b.ids, id);
    }
  }

  // ---------- preservation: the target ----------

  /** The last committed phase of a table leaves its keys as the re-read saw them; the
      delete phase already leaves the same keys present. */
  lemma PhaseOutcome(rows: Database, keys: set<RowId>, mode: Mode, phase: Phase, snap: Database, id: RowId)
    requires snap.Keys <= keys && phase != ConfirmPhase
    ensures id !in keys ==> Lookup(PhaseEffect(rows, keys, mode, phase, snap), id) == Lookup(rows, id)
    ensures id in keys && (mode.Atomic? || (phase == DeletePhase && mode.nullFill == {})) ==>
              Lookup(PhaseEffect(rows, keys, mode, phase, snap), id) == Lookup(snap, id)
    ensures id in keys && phase == DeletePhase ==>
              (id in PhaseEffect(rows, keys, mode, phase, snap) <==> id in snap)
    ensures id in keys && id in snap && phase == FillPhase ==>
              Lookup(PhaseEffect(rows, keys, mode, phase, snap), id) == Lookup(snap, id)
    ensures id !in snap && mode.PerTable? && phase == FillPhase ==>
              Lookup(PhaseEffect(rows, keys, mode, phase, snap), id) == Lookup(rows, id)
  {
    if id in snap {
      var cols := if mode.PerTable? then mode.nullFill else {};
      var merged := UpsertAll(rows, snap, cols);
      assert cols == {} ==> merged[id] == snap[id];
      if phase == FillPhase && mode.PerTable? {
        assert FillColumns(merged, snap, cols)[id] == snap[id];
      }
    }
  }

  /** A table's rows change only while its pass holds an unconsumed delta for each. */
  lemma HeldKeysStayQueued(w: World, side: Side, table: Table, b: Work, rows': Database)
    requires NoLostChange(w, side) && Holds(w, side, table, b)
    requires forall id: RowId | id !in b.keys :: Lookup(rows', id) == Lookup(side.rows, id)
    ensures NoLostChange(w, side.(rows := rows'))
  {
    forall id: RowId ensures Agree(w, rows', side.track, id) {
      assert Agree(w, side.rows, side.track, id);
    }
  }

  /** The other tables' passes do not notice a change outside their keys. */
  lemma OtherPassUntouched(w: World, side: Side, after: Side, t: Table, b: Work)
    requires Holds(w, side, t, b) && StageInv(w, side, b)
    requires side.track <= after.track <= w.issued
    requires forall d <- after.track - side.track :: d in w.delta ==> w.delta[d].table != t
    requires forall id <- b.keys :: Lookup(after.rows, id) == Lookup(side.rows, id)
    ensures Holds(w, after, t, b) && StageInv(w, after, b)
  {
    forall id <- b.keys | Pending(w.delta, side.track + b.ids, id)
      ensures Pending(w.delta, after.track + b.ids, id)
    {
      var d :| d in w.delta && d !in side.track + b.ids && w.delta[d] == id;
      assert d !in after.track + b.ids;
    }
  }

  lemma CommitPhaseKeepsSide(w: World, before: Side, s: Step, after: Side)
    requires s.CommitPhase? && SideInv(w, before) && SideStep(w, before, s, after)
    ensures SideInv(w, after)
  {
    var b := before.pass[s.table];
    assert Holds(w, before, s.table, b) && StageInv(w, before, b);
    var snap := b.stage.snapshot;
    forall id: RowId ensures id !in b.keys ==> Lookup(after.rows, id) == Lookup(before.rows, id) {
      PhaseOutcome(before.rows, b.keys, b.mode, b.stage.phase, snap, id);
    }
    HeldKeysStayQueued(w, before, s.table, b, after.rows);
    forall t <- after.pass ensures Holds(w, after, t, after.pass[t]) && StageInv(w, after, after.pass[t]) {
      if t == s.table {
        forall id <- b.keys ensures
          var seen := before.track + b.ids;
          && (b.stage.phase == DeletePhase ==> SamePresence(w, after.rows, seen, id))
          && (AfterPhase(b.mode, b.stage.phase) == ConfirmPhase ==> Agree(w, after.rows, seen, id))
        {
          PhaseOutcome(before.rows, b.keys, b.mode, b.stage.phase, snap, id);
          assert Agree(w, snap, before.track + b.ids, id);
        }
      } else {
        OtherPassUntouched(w, before, after, t, before.pass[t]);
      }
    }
  }

  lemma CommitAtomicKeepsSide(w: World, before: Side, s: Step, after: Side)
    requires s.CommitAtomic? && SideInv(w, before) && SideStep(w, before, s, after)
    ensures SideInv(w, after)
  {
    forall t <- before.pass ensures Holds(w, before, t, before.pass[t]) && StageInv(w, before, before.pass[t]) {}
    forall id: RowId ensures
      && Agree(w, after.rows, after.track, id)
      && (id.table in s.tables && id in before.pass[id.table].keys ==>
              Agree(w, after.rows, after.track + before.pass[id.table].ids, id))
    {
      assert Agree(w, before.rows, before.track, id);
      if id.table in s.tables {
        var b := before.pass[id.table];
        PhaseOutcome(before.rows, b.keys, b.mode, UpsertPhase, b.stage.snapshot, id);
        assert id in b.keys ==> Agree(w, b.stage.snapshot, before.track + b.ids, id);
      }
    }
    forall t <- after.pass ensures Holds(w, after, t, after.pass[t]) && StageInv(w, after, after.pass[t]) {
      if t !in s.tables {
        OtherPassUntouched(w, before, after, t, before.pass[t]);
      }
    }
  }

  /** Only now are the observed ids recorded: what the pass earned makes it safe. */
  lemma ConfirmKeepsSide(w: World, before: Side, s: Step, after: Side)
    requires s.Confirm? && SideInv(w, before) && SideStep(w, before, s, after)
    ensures SideInv(w, after)
  {
    var b := before.pass[s.table];
    assert Holds(w, before, s.table, b) && StageInv(w, before, b);
    forall id: RowId ensures Agree(w, after.rows, after.track, id) {
      assert Agree(w, before.rows, before.track, id);
      if id !in b.keys && Pending(w.delta, before.track, id) {
        var d :| d in w.delta && d !in before.track && w.delta[d] == id;
        assert d !in b.ids;
      }
    }
    forall t <- after.pass ensures Holds(w, after, t, after.pass[t]) && StageInv(w, after, after.pass[t]) {
      OtherPassUntouched(w, before, after, t, before.pass[t]);
    }
  }

  lemma SideStepKeepsSide(w: World, before: Side, s: Step, after: Side)
    requires w.delta.Keys <= w.issued
    requires SideInv(w, before) && SideStep(w, before, s, after)
    ensures SideInv(w, after)
  {
    if s.CommitPhase? {
      CommitPhaseKeepsSide(w, before, s, after);
    } else if s.CommitAtomic? {
      CommitAtomicKeepsSide(w, before, s, after);
    } else if s.Confirm? {
      ConfirmKeepsSide(w, before, s, after);
    } else {
      QuietStepKeepsSide(w, before, s, after);
    }
  }

  /** Steps that touch only the pass's own bookkeeping. */
  lemma QuietStepKeepsSide(w: World, before: Side, s: Step, after: Side)
    requires w.delta.Keys <= w.issued && !s.CommitPhase? && !s.CommitAtomic? && !s.Confirm?
    requires SideInv(w, before) && SideStep(w, before, s, after)
    ensures SideInv(w, after)
  {
    assert after.rows == before.rows && after.track == before.track;
    forall t <- after.pass ensures Holds(w, after, t, after.pass[t]) && StageInv(w, after, after.pass[t]) {
      if t in before.pass {
        assert Holds(w, before, t, before.pass[t]) && StageInv(w, before, before.pass[t]);
      }
    }
  }

  // ---------- the theorem over runs ----------

  lemma StepKeepsInv(gate: set<TargetId>, w: World, s: Step, w': World)
    requires Inv(gate, w) && Next(gate, w, s, w')
    ensures Inv(gate, w')
  {
    forall t <- gate ensures SideInv(w', w'.sides[t]) {
      assert SideInv(w, w.sides[t]);
      if s.SourceTxn? {
        TxnKeepsSide(gate, w, s, w', w.sides[t]);
      } else if s.Purge? {
        PurgeKeepsSide(w, s.purged, w', w.sides[t]);
      } else {
        if s.target == t {
          SideStepKeepsSide(w, w.sides[t], s, w'.sides[t]);
        }
        SameSourceSameInv(w, w', w'.sides[t]);
      }
    }
    if s.SourceTxn? { NewDeltasCover(s.ids, CapturedAll(s.changes)); }
  }

  lemma SameSourceSameInv(w: World, w': World, side: Side)
    requires w'.source == w.source && w'.delta == w.delta && w'.issued == w.issued
    requires SideInv(w, side)
    ensures SideInv(w', side)
  {
    forall id: RowId ensures Agree(w', side.rows, side.track, id) {
      assert Agree(w, side.rows, side.track, id);
    }
    forall t <- side.pass ensures Holds(w', side, t, side.pass[t]) && StageInv(w', side, side.pass[t]) {
      assert Holds(w, side, t, side.pass[t]) && StageInv(w, side, side.pass[t]);
    }
  }

  ghost predicate Run(gate: set<TargetId>, ws: seq<World>, steps: seq<Step>) {
    && |ws| == |steps| + 1
    && forall i | 0 <= i < |steps| :: Next(gate, ws[i], steps[i], ws[i + 1])
  }

  /** No interleaving of source writes, pass steps, rejections, crashes and gated purges
      loses a change for a target in the gate; a target whose queue is empty holds
      exactly the source. */
  lemma {:induction false} NoChangeIsLost(gate: set<TargetId>, ws: seq<World>, steps: seq<Step>, target: TargetId)
    requires Run(gate, ws, steps) && Inv(gate, ws[0]) && target in gate
    ensures var w := ws[|ws| - 1];
            && Inv(gate, w)
            && NoLostChange(w, w.sides[target])
            && (w.delta.Keys <= w.sides[target].track ==> w.sides[target].rows == w.source)
    decreases |steps|
  {
    if |steps| > 0 {
      StepKeepsInv(gate, ws[0], steps[0], ws[1]);
      NoChangeIsLost(gate, ws[1..], steps[1..], target);
    } else {
      var w := ws[0];
      var side := w.sides[target];
      assert SideInv(w, side);
      if w.delta.Keys <= side.track {
        forall id: RowId ensures Lookup(side.rows, id) == Lookup(w.source, id) {
          assert Agree(w, side.rows, side.track, id);
        }
        assert forall id: RowId :: id in side.rows <==> Lookup(side.rows, id).Some?;
        assert forall id: RowId :: id in w.source <==> Lookup(w.source, id).Some?;
        assert side.rows.Keys == w.source.Keys;
      }
    }
  }

  // ---------- purges outside the gate ----------

  /** A purge gated on `gate` takes the world from a state in which no target of the gate
      and not t has lost a change to one in which t has. */
  ghost predicate Loses(gate: set<TargetId>, t: TargetId, w: World, s: Step, w': World) {
    && Inv(gate + {t}, w) && s.Purge? && Next(gate, w, s, w')
    && t in w'.sides && !NoLostChange(w', w'.sides[t])
  }

  /** One row, one delta for it: consumed by all of the gate, still needed by t. */
  lemma PurgeOutsideGateLoses(gate: set<TargetId>, t: TargetId) returns (w: World, s: Step, w': World)
    requires t !in gate
    ensures Loses(gate, t, w, s, w')
  {
    var id := RowId("t", ["1"]);
    var row: Row := map["c" := Text("x")];
    var ahead := Side(map[id := row], {0}, map[]);
    var behind := Side(map[], {}, map[]);
    w := World(map[id := row], map[0 := id], {0}, (map g | g in gate :: ahead)[t := behind]);
    assert w.delta[0] == id;
    assert SideInv(w, ahead) && SideInv(w, behind);
    s, w' := Purge({0}), w.(delta := w.delta - {0});
    assert !Agree(w', behind.rows, behind.track, id);
  }

  /** Whether a purge can lose a target's change depends on one thing a caller knows: the
      target's membership in the set the purge is given. */
  lemma PurgeCanLoseExactlyWhen(gate: set<TargetId>, t: TargetId)
    ensures (exists w, s, w' :: Loses(gate, t, w, s, w')) <==> t !in gate
  {
    if t in gate {
      forall w, s, w' ensures !Loses(gate, t, w, s, w') {
        if Loses(gate, t, w, s, w') {
          assert gate + {t} == gate;
          StepKeepsInv(gate, w, s, w');
        }
      }
    } else {
      var w, s, w' := PurgeOutsideGateLoses(gate, t);
    }
  }
}
