/** Recovery of a target that lost deltas: clear its tables, copy them again, resume
    streaming. A persistent per-table flag says that recovery is due. While any table of
    the target is flagged, a recovery pass runs over every component in turn; each
    component's flags are cleared last, in table order.

    `Reseeding` is the recovery as a protocol: it may stop at any point and be started
    again from whatever it left, with the source writing throughout, tables copied by the
    protocol of module Copy, and a restarted process finishing unfinished copies first.
    `Recovery.RecoverTarget` is the code; every effect it has is a move of the protocol. */
module Reseed {
  import opened Rows
  import opened Chunks
  import opened Copy
  import Drain
  import Graph

  /** The target's components, each in its apply order. */
  type Components = seq<seq<Table>>

  /** In component c. Clearing(c, n): n tables still to clear, children first. The others:
      the next table. */
  datatype Phase =
    | Stopped
    | Clearing(c: nat, n: nat)
    | Resetting(c: nat, i: nat)
    | Copying(c: nat, i: nat)
    | CuttingOver(c: nat, i: nat)

  datatype Reseeding = Reseeding(copy: State, flags: map<Table, bool>, phase: Phase)

  datatype Move =
    | Begin
    | ClearTable
    | ResetProgress
    | CopyStep(step: Step)
    | NextTable
    | ClearFlag
    | SourceTxn(changes: seq<Drain.Change>, ids: seq<DeltaId>)
    | Stop
    | BringUp(step: Step)
    | FlagAll
    | Sacrifice(purged: set<DeltaId>, track: set<DeltaId>)

  // ---------- components and flags ----------

  predicate InComp(comps: Components, j: int, t: Table) {
    0 <= j < |comps| && t in comps[j]
  }

  ghost predicate InSome(comps: Components, t: Table) {
    exists j :: InComp(comps, j, t)
  }

  ghost predicate Shape(comps: Components) {
    && |comps| > 0
    && (forall j | 0 <= j < |comps| :: comps[j] != [] && Graph.Distinct(comps[j]))
    && (forall i, j, t | InComp(comps, i, t) && InComp(comps, j, t) :: i == j)
  }

  predicate Up(flags: map<Table, bool>, t: Table) {
    t in flags && flags[t]
  }

  ghost predicate HasFlag(order: seq<Table>, flags: map<Table, bool>) {
    exists t :: t in order && Up(flags, t)
  }

  ghost predicate AnyFlag(comps: Components, flags: map<Table, bool>) {
    exists j :: 0 <= j < |comps| && HasFlag(comps[j], flags)
  }

  /** The last table of the last component. */
  function Final(comps: Components): Table
    requires |comps| > 0 && comps[|comps| - 1] != []
  {
    var last := comps[|comps| - 1];
    last[|last| - 1]
  }

  ghost predicate FinalUp(comps: Components, flags: map<Table, bool>) {
    |comps| > 0 && comps[|comps| - 1] != [] && Up(flags, Final(comps))
  }

  function AllUp(comps: Components, flags: map<Table, bool>): map<Table, bool> {
    flags + (map j, t | 0 <= j < |comps| && t in comps[j] :: t := true)
  }

  // ---------- moves ----------

  function WithoutTable(rows: Database, t: Table): Database {
    map id | id in rows && id.table != t :: rows[id]
  }

  function FreshCopy(): TableCopy {
    TableCopy(Progress(false, None), None)
  }

  function AfterClear(c: nat, n: nat): Phase
    requires n > 0
  {
    if n == 1 then Resetting(c, 0) else Clearing(c, n - 1)
  }

  function AfterReset(comps: Components, c: nat, i: nat): Phase
    requires c < |comps|
  {
    if i + 1 == |comps[c]| then Copying(c, 0) else Resetting(c, i + 1)
  }

  function AfterTable(comps: Components, c: nat, i: nat): Phase
    requires c < |comps|
  {
    if i + 1 == |comps[c]| then CuttingOver(c, 0) else Copying(c, i + 1)
  }

  function AfterFlag(comps: Components, c: nat, i: nat): Phase
    requires c < |comps|
  {
    if i + 1 < |comps[c]| then CuttingOver(c, i + 1)
    else if c + 1 < |comps| then Clearing(c + 1, |comps[c + 1]|)
    else Stopped
  }

  /** A crash loses every table's run; what is persisted stays. */
  function Lost(s: State): State {
    s.(tables := map t | t in s.tables :: s.tables[t].(run := None))
  }

  ghost predicate Next(comps: Components, pos: Place, r: Reseeding, m: Move, r': Reseeding) {
    match m
    case Begin =>
      && r.phase == Stopped && |comps| > 0 && AnyFlag(comps, r.flags)
      && r' == r.(phase := Clearing(0, |comps[0]|))
    case ClearTable =>
      && r.phase.Clearing? && r.phase.c < |comps| && 0 < r.phase.n <= |comps[r.phase.c]|
      && r' == r.(copy := r.copy.(rows := WithoutTable(r.copy.rows, comps[r.phase.c][r.phase.n - 1])),
                  phase := AfterClear(r.phase.c, r.phase.n))
    case ResetProgress =>
      && r.phase.Resetting? && r.phase.c < |comps| && r.phase.i < |comps[r.phase.c]|
      && r' == r.(copy := r.copy.(tables := r.copy.tables[comps[r.phase.c][r.phase.i] := FreshCopy()]),
                  phase := AfterReset(comps, r.phase.c, r.phase.i))
    case CopyStep(step) =>
      && r.phase.Copying? && r.phase.c < |comps| && r.phase.i < |comps[r.phase.c]|
      && !step.Txn? && step.table == comps[r.phase.c][r.phase.i]
      && Copy.Next(pos, r.copy, step, r'.copy)
      && r' == r.(copy := r'.copy)
    case NextTable =>
      && r.phase.Copying? && r.phase.c < |comps| && r.phase.i < |comps[r.phase.c]|
      && comps[r.phase.c][r.phase.i] in r.copy.tables
      && r.copy.tables[comps[r.phase.c][r.phase.i]].progress.done
      && r' == r.(phase := AfterTable(comps, r.phase.c, r.phase.i))
    case ClearFlag =>
      && r.phase.CuttingOver? && r.phase.c < |comps| && r.phase.i < |comps[r.phase.c]|
      && r' == r.(flags := r.flags[comps[r.phase.c][r.phase.i] := false],
                  phase := AfterFlag(comps, r.phase.c, r.phase.i))
    case SourceTxn(changes, ids) =>
      && Copy.Next(pos, r.copy, Txn(changes, ids), r'.copy)
      && r' == r.(copy := r'.copy)
    case Stop => r' == r.(copy := Lost(r.copy), phase := Stopped)
    case BringUp(step) =>
      && r.phase == Stopped && !step.Txn?
      && Copy.Next(pos, r.copy, step, r'.copy)
      && r' == r.(copy := r'.copy)
    case FlagAll => r' == r.(flags := AllUp(comps, r.flags))
    case Sacrifice(purged, track) =>
      && r.phase == Stopped && track <= r.copy.track
      && r' == r.(copy := r.copy.(world := r.copy.world.(delta := r.copy.world.delta - purged), track := track),
                  flags := AllUp(comps, r.flags))
  }

  // ---------- what each phase has earned ----------

  ghost predicate Empty(s: State, t: Table) {
    forall id | id in s.rows :: id.table != t
  }

  ghost predicate IsFresh(s: State, t: Table) {
    t in s.tables && s.tables[t] == FreshCopy()
  }

  ghost predicate Counters(s: State) {
    s.world.delta.Keys <= s.world.issued && s.track <= s.world.issued
  }

  /** The table is copied and every row of it agrees with the source or is queued. */
  ghost predicate TableDone(s: State, t: Table) {
    && t in s.tables && s.tables[t].progress.done && s.tables[t].run.None?
    && forall id: RowId | id.table == t :: RowOk(s, id)
  }

  ghost predicate Good(s: State, order: seq<Table>) {
    forall t <- order :: TableDone(s, t)
  }

  ghost predicate GoodBefore(comps: Components, s: State, c: nat)
    requires c <= |comps|
  {
    forall j: nat | j < c :: Good(s, comps[j])
  }

  ghost predicate TablesOk(s: State, pos: Place, order: seq<Table>) {
    forall t <- order :: t in s.tables && TableOk(s, pos, t)
  }

  /** The first n tables are copied. */
  ghost predicate Finished(order: seq<Table>, s: State, n: nat)
    requires n <= |order|
  {
    forall j | 0 <= j < n :: order[j] in s.tables && s.tables[order[j]].progress.done
  }

  ghost predicate Base(comps: Components, s: State) {
    Shape(comps) && Counters(s) && forall t :: t in s.tables <==> InSome(comps, t)
  }

  /** Earlier components are copied; the current one has come as far as its phase says. */
  ghost predicate Going(comps: Components, pos: Place, r: Reseeding) {
    && Base(comps, r.copy)
    && match r.phase
       case Stopped => true
       case Clearing(c, n) =>
         && c < |comps| && 0 < n <= |comps[c]| && GoodBefore(comps, r.copy, c)
         && forall j | n <= j < |comps[c]| :: Empty(r.copy, comps[c][j])
       case Resetting(c, i) =>
         && c < |comps| && i < |comps[c]| && GoodBefore(comps, r.copy, c)
         && (forall j | 0 <= j < |comps[c]| :: Empty(r.copy, comps[c][j]))
         && (forall j | 0 <= j < i :: IsFresh(r.copy, comps[c][j]))
       case Copying(c, i) =>
         && c < |comps| && i < |comps[c]| && GoodBefore(comps, r.copy, c)
         && TablesOk(r.copy, pos, comps[c]) && Finished(comps[c], r.copy, i)
       case CuttingOver(c, i) =>
         && c < |comps| && i < |comps[c]| && GoodBefore(comps, r.copy, c) && Good(r.copy, comps[c])
  }

  /** The pass has cleared this table's flag. */
  ghost predicate Passed(comps: Components, phase: Phase, j: nat, k: nat) {
    match phase
    case Stopped => false
    case CuttingOver(c, i) => j < c || (j == c && k < i)
    case _ => j < phase.c
  }

  ghost predicate FlagsDown(comps: Components, r: Reseeding) {
    forall j: nat, k: nat | j < |comps| && k < |comps[j]| && Passed(comps, r.phase, j, k) :: !Up(r.flags, comps[j][k])
  }

  // ---------- steps leave the other components alone ----------

  lemma GoodElsewhere(s: State, s': State, order: seq<Table>)
    requires s'.world == s.world && s'.track == s.track && Good(s, order)
    requires forall t <- order :: t in s'.tables && t in s.tables && s'.tables[t] == s.tables[t]
    requires forall id: RowId | id.table in order :: Lookup(s'.rows, id) == Lookup(s.rows, id)
    ensures Good(s', order)
  {
    forall t <- order ensures TableDone(s', t) {
      assert TableDone(s, t);
      forall id: RowId | id.table == t ensures RowOk(s', id) { assert RowOk(s, id); }
    }
  }

  /** Source transactions keep agreement, whatever else the state holds. */
  lemma TxnKeepsOk(pos: Place, s: State, step: Step, s': State, id: RowId)
    requires Counters(s) && step.Txn? && Copy.Next(pos, s, step, s')
    ensures Counters(s') && (RowOk(s, id) ==> RowOk(s', id))
  {
    Drain.NewDeltasCover(step.ids, Drain.CapturedAll(step.changes));
    Drain.TxnKeepsAgreement({}, s.world, Drain.SourceTxn(step.changes, step.ids), s'.world, s.rows, s.track, id);
  }

  lemma TxnKeepsGood(pos: Place, s: State, step: Step, s': State, order: seq<Table>)
    requires Counters(s) && step.Txn? && Copy.Next(pos, s, step, s') && Good(s, order)
    ensures Good(s', order)
  {
    forall t <- order ensures TableDone(s', t) {
      assert TableDone(s, t);
      forall id: RowId | id.table == t ensures RowOk(s', id) {
        assert RowOk(s, id);
        TxnKeepsOk(pos, s, step, s', id);
      }
    }
  }

  /** The state as the copy of some tables sees it. */
  function Only(s: State, tabs: seq<Table>): State {
    s.(tables := map t | t in s.tables && t in tabs :: s.tables[t])
  }

  lemma OnlyInv(s: State, pos: Place, tabs: seq<Table>)
    requires Counters(s) && (forall t <- tabs :: t in s.tables)
    ensures Copy.Inv(Only(s, tabs), pos) <==> TablesOk(s, pos, tabs)
  {
    forall t <- tabs ensures TableOk(Only(s, tabs), pos, t) <==> TableOk(s, pos, t) {
      SameTable(s, Only(s, tabs), pos, t);
    }
  }

  lemma SameTable(s: State, s': State, pos: Place, t: Table)
    requires s'.world == s.world && s'.rows == s.rows && s'.track == s.track
    requires t in s.tables && t in s'.tables && s'.tables[t] == s.tables[t]
    ensures TableOk(s, pos, t) <==> TableOk(s', pos, t)
  {
    var o := s.(tables := map[t := s.tables[t]]);
    assert o == s'.(tables := map[t := s'.tables[t]]);
    OneTable(s, pos, t);
    OneTable(s', pos, t);
  }

  lemma OneTable(s: State, pos: Place, t: Table)
    requires t in s.tables
    ensures TableOk(s, pos, t) <==> TableOk(s.(tables := map[t := s.tables[t]]), pos, t)
  {
    var o := s.(tables := map[t := s.tables[t]]);
    assert forall id :: RowOk(s, id) <==> RowOk(o, id);
    if s.tables[t].run.Some? {
      var r := s.tables[t].run.value;
      assert RunShape(r) ==> forall i: nat | i < |r.done| :: ChunkOk(s, pos, t, r, i) <==> ChunkOk(o, pos, t, r, i);
    }
  }

  /** A step changes its own table's copy and rows, nothing else. */
  lemma StepShape(pos: Place, s: State, step: Step, s': State)
    requires !step.Txn? && Copy.Next(pos, s, step, s')
    ensures step.table in s.tables && step.table in s'.tables
    ensures s' == s.(tables := s.tables[step.table := s'.tables[step.table]], rows := s'.rows)
  {}

  /** A step looks at nothing but its own table's copy. */
  lemma SameStep(pos: Place, s: State, step: Step, s': State, o: State, o': State)
    requires !step.Txn? && Copy.Next(pos, s, step, s') && step.table in s.tables && step.table in s'.tables
    requires step.table in o.tables && o.tables[step.table] == s.tables[step.table]
    requires o.world == s.world && o.rows == s.rows && o.track == s.track
    requires o' == o.(tables := o.tables[step.table := s'.tables[step.table]], rows := s'.rows)
    ensures Copy.Next(pos, o, step, o')
  {}

  lemma OnlyNext(pos: Place, s: State, step: Step, s': State, tabs: seq<Table>)
    requires Copy.Next(pos, s, step, s') && (step.Txn? || step.table in tabs)
    ensures Copy.Next(pos, Only(s, tabs), step, Only(s', tabs))
  {
    if step.Txn? {
      assert Only(s', tabs) == Only(s, tabs).(world := s'.world);
    } else {
      StepShape(pos, s, step, s');
      OnlySet(s, tabs, step.table, s'.tables[step.table], s'.rows);
      SameStep(pos, s, step, s', Only(s, tabs), Only(s', tabs));
    }
  }

  lemma OnlySet(s: State, tabs: seq<Table>, t: Table, tc: TableCopy, rows: Database)
    requires t in tabs
    ensures Only(s.(tables := s.tables[t := tc], rows := rows), tabs) ==
            Only(s, tabs).(tables := Only(s, tabs).tables[t := tc], rows := rows)
  {
    assert Only(s.(tables := s.tables[t := tc], rows := rows), tabs).tables == Only(s, tabs).tables[t := tc];
  }

  lemma CopyKeepsFinished(pos: Place, s: State, step: Step, s': State, tabs: seq<Table>, n: nat)
    requires Copy.Inv(s, pos) && Copy.Next(pos, s, step, s') && n <= |tabs| && Finished(tabs, s, n)
    ensures Finished(tabs, s', n)
  {
    forall j | 0 <= j < n ensures tabs[j] in s'.tables && s'.tables[tabs[j]].progress.done {
      WatermarkNeverRegresses(pos, s, step, s', tabs[j]);
    }
  }

  /** A copy step of one of the tables keeps them all. */
  lemma CopyKeepsTables(pos: Place, s: State, step: Step, s': State, tabs: seq<Table>, n: nat)
    requires Counters(s) && TablesOk(s, pos, tabs) && n <= |tabs| && Finished(tabs, s, n)
    requires Copy.Next(pos, s, step, s') && (step.Txn? || step.table in tabs)
    ensures Counters(s') && TablesOk(s', pos, tabs) && Finished(tabs, s', n)
    ensures forall id: RowId | id.table !in tabs :: Lookup(s'.rows, id) == Lookup(s.rows, id)
  {
    var o, o' := Only(s, tabs), Only(s', tabs);
    OnlyInv(s, pos, tabs);
    OnlyNext(pos, s, step, s', tabs);
    Copy.StepKeepsInv(pos, o, step, o');
    assert s'.tables.Keys == s.tables.Keys by { if !step.Txn? { StepShape(pos, s, step, s'); } }
    OnlyInv(s', pos, tabs);
    CopyKeepsFinished(pos, o, step, o', tabs, n);
    LoadStays(pos, o, step, o', tabs);
  }

  lemma LoadStays(pos: Place, s: State, step: Step, s': State, tabs: seq<Table>)
    requires Copy.Inv(s, pos) && Copy.Next(pos, s, step, s') && (step.Txn? || step.table in tabs)
    ensures forall id: RowId | id.table !in tabs :: Lookup(s'.rows, id) == Lookup(s.rows, id)
  {
    if step.LoadChunk? {
      var r := s.tables[step.table].run.value;
      assert TableOk(s, pos, step.table) && ChunkOk(s, pos, step.table, r, step.i);
    }
  }

  // ---------- steps of a pass ----------

  /** A change to the current component's tables only. */
  lemma EarlierGood(comps: Components, s: State, s': State, c: nat)
    requires Shape(comps) && c < |comps| && GoodBefore(comps, s, c)
    requires s'.world == s.world && s'.track == s.track
    requires forall t | t in s.tables && t !in comps[c] :: t in s'.tables && s'.tables[t] == s.tables[t]
    requires forall id: RowId | id.table !in comps[c] :: Lookup(s'.rows, id) == Lookup(s.rows, id)
    ensures GoodBefore(comps, s', c)
  {
    forall j: nat | j < c ensures Good(s', comps[j]) {
      assert Good(s, comps[j]);
      forall t <- comps[j] ensures t !in comps[c] && t in s.tables {
        assert InComp(comps, j, t) && TableDone(s, t);
        assert t in comps[c] ==> InComp(comps, c, t);
      }
      GoodElsewhere(s, s', comps[j]);
    }
  }

  lemma ClearGoes(comps: Components, pos: Place, r: Reseeding, r': Reseeding)
    requires Going(comps, pos, r) && Next(comps, pos, r, ClearTable, r')
    ensures Going(comps, pos, r')
  {
    var c, n := r.phase.c, r.phase.n;
    EarlierGood(comps, r.copy, r'.copy, c);
    forall j | n - 1 <= j < |comps[c]| ensures Empty(r'.copy, comps[c][j]) {
      if j >= n { assert Empty(r.copy, comps[c][j]); }
    }
  }

  /** Clearing and resetting every table leaves the state a bring-up starts from. */
  lemma FreshStart(pos: Place, s: State, order: seq<Table>)
    requires forall t <- order :: Empty(s, t) && IsFresh(s, t)
    ensures TablesOk(s, pos, order)
  {
    forall t <- order ensures t in s.tables && TableOk(s, pos, t) { assert Empty(s, t) && IsFresh(s, t); }
  }

  lemma ResetKeys(comps: Components, s: State, t: Table)
    requires Base(comps, s) && InSome(comps, t)
    ensures Base(comps, s.(tables := s.tables[t := FreshCopy()]))
  {}

  lemma ResetGoes(comps: Components, pos: Place, r: Reseeding, r': Reseeding)
    requires Going(comps, pos, r) && Next(comps, pos, r, ResetProgress, r')
    ensures Going(comps, pos, r')
  {
    var c, i := r.phase.c, r.phase.i;
    assert InComp(comps, c, comps[c][i]);
    ResetKeys(comps, r.copy, comps[c][i]);
    EarlierGood(comps, r.copy, r'.copy, c);
    forall j | 0 <= j < |comps[c]| ensures Empty(r'.copy, comps[c][j]) { assert Empty(r.copy, comps[c][j]); }
    forall j | 0 <= j < i + 1 ensures IsFresh(r'.copy, comps[c][j]) {
      if j < i { assert IsFresh(r.copy, comps[c][j]); }
    }
    if i + 1 == |comps[c]| {
      forall t <- comps[c] ensures Empty(r'.copy, t) && IsFresh(r'.copy, t) {
        var j :| 0 <= j < |comps[c]| && comps[c][j] == t;
      }
      FreshStart(pos, r'.copy, comps[c]);
    }
  }

  lemma CopyGoes(comps: Components, pos: Place, r: Reseeding, m: Move, r': Reseeding)
    requires Going(comps, pos, r) && m.CopyStep? && Next(comps, pos, r, m, r')
    ensures Going(comps, pos, r')
  {
    var c, i := r.phase.c, r.phase.i;
    CopyKeepsTables(pos, r.copy, m.step, r'.copy, comps[c], i);
    StepShape(pos, r.copy, m.step, r'.copy);
    EarlierGood(comps, r.copy, r'.copy, c);
  }

  /** A component whose tables are all copied is good. */
  lemma FinishedIsGood(pos: Place, s: State, order: seq<Table>)
    requires TablesOk(s, pos, order) && Finished(order, s, |order|)
    ensures Good(s, order)
  {
    forall t <- order ensures TableDone(s, t) {
      var j :| 0 <= j < |order| && order[j] == t;
      assert TableOk(s, pos, t);
    }
  }

  lemma NextTableGoes(comps: Components, pos: Place, r: Reseeding, r': Reseeding)
    requires Going(comps, pos, r) && Next(comps, pos, r, NextTable, r')
    ensures Going(comps, pos, r')
  {
    var c, i := r.phase.c, r.phase.i;
    assert Finished(comps[c], r.copy, i + 1);
    if i + 1 == |comps[c]| { FinishedIsGood(pos, r.copy, comps[c]); }
  }

  lemma FlagGoes(comps: Components, pos: Place, r: Reseeding, r': Reseeding)
    requires Going(comps, pos, r) && Next(comps, pos, r, ClearFlag, r')
    ensures Going(comps, pos, r')
    ensures r'.phase == Stopped ==> GoodBefore(comps, r'.copy, |comps|)
  {
    var c := r.phase.c;
    assert GoodBefore(comps, r.copy, c + 1);
  }

  lemma TxnGoes(comps: Components, pos: Place, r: Reseeding, m: Move, r': Reseeding)
    requires Going(comps, pos, r) && m.SourceTxn? && Next(comps, pos, r, m, r')
    ensures Going(comps, pos, r')
    ensures GoodBefore(comps, r.copy, |comps|) ==> GoodBefore(comps, r'.copy, |comps|)
  {
    var step := Txn(m.changes, m.ids);
    TxnKeepsAllGood(comps, pos, r.copy, step, r'.copy);
    if r.phase.Copying? { CopyKeepsTables(pos, r.copy, step, r'.copy, comps[r.phase.c], r.phase.i); }
    TxnSame(comps, pos, r, step, r');
  }

  lemma TxnKeepsAllGood(comps: Components, pos: Place, s: State, step: Step, s': State)
    requires Counters(s) && step.Txn? && Copy.Next(pos, s, step, s')
    ensures Counters(s') && forall j: nat | j < |comps| && Good(s, comps[j]) :: Good(s', comps[j])
  {
    TxnKeepsOk(pos, s, step, s', RowId("", []));
    forall j: nat | j < |comps| && Good(s, comps[j]) ensures Good(s', comps[j]) {
      TxnKeepsGood(pos, s, step, s', comps[j]);
    }
  }

  lemma TxnSame(comps: Components, pos: Place, r: Reseeding, step: Step, r': Reseeding)
    requires step.Txn? && Copy.Next(pos, r.copy, step, r'.copy) && r' == r.(copy := r'.copy)
    ensures r'.copy.rows == r.copy.rows && r'.copy.tables == r.copy.tables && r'.copy.track == r.copy.track
    ensures forall t :: Empty(r.copy, t) <==> Empty(r'.copy, t)
  {}

  /** A move of a pass under way. */
  predicate OfPass(m: Move) {
    m.ClearTable? || m.ResetProgress? || m.CopyStep? || m.NextTable? || m.ClearFlag? || m.SourceTxn?
  }

  lemma PassGoes(comps: Components, pos: Place, r: Reseeding, m: Move, r': Reseeding)
    requires Going(comps, pos, r) && (OfPass(m) || m.Begin?) && Next(comps, pos, r, m, r')
    ensures Going(comps, pos, r')
  {
    match m
    case ClearTable => ClearGoes(comps, pos, r, r');
    case ResetProgress => ResetGoes(comps, pos, r, r');
    case CopyStep(_) => CopyGoes(comps, pos, r, m, r');
    case NextTable => NextTableGoes(comps, pos, r, r');
    case ClearFlag => FlagGoes(comps, pos, r, r');
    case SourceTxn(_, _) => TxnGoes(comps, pos, r, m, r');
    case Begin =>
  }

  lemma PassFlags(comps: Components, pos: Place, r: Reseeding, m: Move, r': Reseeding)
    requires Going(comps, pos, r) && FlagsDown(comps, r) && (OfPass(m) || m.Begin?) && Next(comps, pos, r, m, r')
    ensures FlagsDown(comps, r')
    ensures m.ClearFlag? && r'.phase == Stopped ==> !AnyFlag(comps, r'.flags)
  {
    if m.ClearFlag? {
      var c, i := r.phase.c, r.phase.i;
      forall j: nat, k: nat | j < |comps| && k < |comps[j]| && (Passed(comps, r.phase, j, k) || (j == c && k == i))
        ensures !Up(r'.flags, comps[j][k])
      {}
      assert r'.phase == Stopped ==> forall j: nat, k: nat | j < |comps| && k < |comps[j]| ::
        Passed(comps, r.phase, j, k) || (j == c && k == i);
    }
  }

  // ---------- fully flagged targets ----------

  /** The promise: recovery is still due, or every component is copied and nothing lost. */
  ghost predicate Safe(comps: Components, r: Reseeding) {
    FinalUp(comps, r.flags) || (GoodBefore(comps, r.copy, |comps|) && !AnyFlag(comps, r.flags))
  }

  ghost predicate Inv(comps: Components, pos: Place, r: Reseeding) {
    && Going(comps, pos, r) && FlagsDown(comps, r)
    && if r.phase == Stopped then Safe(comps, r) else FinalUp(comps, r.flags)
  }

  lemma AllUpFlags(comps: Components, flags: map<Table, bool>)
    requires Shape(comps)
    ensures FinalUp(comps, AllUp(comps, flags))
  {
    var j := |comps| - 1;
    assert comps[j] != [];
    assert Final(comps) in comps[j];
  }

  /** Clearing any flag but the last leaves the last set. */
  lemma FinalStays(comps: Components, pos: Place, r: Reseeding, r': Reseeding)
    requires Going(comps, pos, r) && FinalUp(comps, r.flags) && Next(comps, pos, r, ClearFlag, r')
    ensures FinalUp(comps, r'.flags) || r'.phase == Stopped
  {
    var c, i, last := r.phase.c, r.phase.i, |comps| - 1;
    assert InComp(comps, c, comps[c][i]) && InComp(comps, last, Final(comps));
    assert Graph.Distinct(comps[c]);
  }

  /** Bringing up a target that is not flagged finds nothing to do. */
  lemma BringUpKeeps(comps: Components, pos: Place, r: Reseeding, m: Move, r': Reseeding)
    requires Inv(comps, pos, r) && m.BringUp? && Next(comps, pos, r, m, r')
    ensures Inv(comps, pos, r')
  {
    StepShape(pos, r.copy, m.step, r'.copy);
    if !FinalUp(comps, r.flags) {
      var j :| InComp(comps, j, m.step.table);
      assert Good(r.copy, comps[j]);
      assert TableDone(r.copy, m.step.table);
      assert r'.copy == r.copy;
    }
  }

  lemma LostKeepsGood(s: State, order: seq<Table>)
    requires Good(s, order)
    ensures Good(Lost(s), order)
  {
    forall t <- order ensures TableDone(Lost(s), t) {
      assert TableDone(s, t);
      forall id: RowId | id.table == t ensures RowOk(Lost(s), id) { assert RowOk(s, id); }
    }
  }

  lemma StopKeeps(comps: Components, pos: Place, r: Reseeding, r': Reseeding)
    requires Inv(comps, pos, r) && Next(comps, pos, r, Stop, r')
    ensures Inv(comps, pos, r')
  {
    forall j: nat | j < |comps| && Good(r.copy, comps[j]) ensures Good(r'.copy, comps[j]) {
      LostKeepsGood(r.copy, comps[j]);
    }
  }

  /** Flags are set all at once, and only while no recovery pass is under way. */
  ghost predicate Calm(r: Reseeding, m: Move) {
    m.FlagAll? ==> r.phase == Stopped
  }

  lemma StepKeepsInv(comps: Components, pos: Place, r: Reseeding, m: Move, r': Reseeding)
    requires Inv(comps, pos, r) && Calm(r, m) && Next(comps, pos, r, m, r')
    ensures Inv(comps, pos, r')
  {
    if OfPass(m) || m.Begin? {
      PassGoes(comps, pos, r, m, r');
      PassFlags(comps, pos, r, m, r');
      if m.ClearFlag? {
        FlagGoes(comps, pos, r, r');
        FinalStays(comps, pos, r, r');
      } else if m.SourceTxn? {
        TxnGoes(comps, pos, r, m, r');
      }
    } else {
      match m
      case Stop => StopKeeps(comps, pos, r, r');
      case BringUp(_) => BringUpKeeps(comps, pos, r, m, r');
      case FlagAll => AllUpFlags(comps, r.flags);
      case Sacrifice(_, _) => AllUpFlags(comps, r.flags);
    }
  }

  /** Recovery is due, whatever the target and the copy progress hold; or all is well. */
  ghost predicate Init(comps: Components, r: Reseeding) {
    Base(comps, r.copy) && r.phase == Stopped && Safe(comps, r)
  }

  ghost predicate IsHistory(comps: Components, pos: Place, trace: seq<Reseeding>, moves: seq<Move>) {
    && |trace| == |moves| + 1 && Init(comps, trace[0])
    && forall j | 0 <= j < |moves| :: Calm(trace[j], moves[j]) && Next(comps, pos, trace[j], moves[j], trace[j + 1])
  }

  /** At every point of every history, sacrifices, stops, restarts and bring-ups included,
      the last table's flag is still set, or every component is copied and no change of any
      of them is lost. */
  lemma {:induction false} RecoveryIsSafe(comps: Components, pos: Place, trace: seq<Reseeding>, moves: seq<Move>)
    requires IsHistory(comps, pos, trace, moves)
    ensures Inv(comps, pos, trace[|moves|]) && Safe(comps, trace[|moves|])
  {
    if moves != [] {
      var n := |moves| - 1;
      assert IsHistory(comps, pos, trace[..n + 1], moves[..n]);
      RecoveryIsSafe(comps, pos, trace[..n + 1], moves[..n]);
      StepKeepsInv(comps, pos, trace[n], moves[n], trace[n + 1]);
    }
  }
}
