/** One sequential drain pass against a target that checks foreign keys immediately.

    The source is quiet. `RunForward` and `RunBackward` are the loop of one phase over the
    pass's tables: each table is a committed transaction of its own, an FK violation is
    transient and leaves the table out of the later phases, any other violation halts the
    pass. The acyclic drain runs the upsert and delete phases, the cyclic drain adds the
    fill phase and loads the nullable cyclic columns NULL.

    `PassSucceedsExactlyWhen` says when one covering pass confirms every table and makes
    the target equal to the source. */
module FkPass {
  import opened Rows
  import opened Drain

  // ---------- foreign keys ----------

  /** `child(cols)` references the replication key of `parent`. */
  datatype Fk = Fk(child: Table, cols: seq<Column>, parent: Table)

  datatype Schema = Schema(columns: map<Table, set<Column>>, notNull: set<(Table, Column)>, fks: set<Fk>)

  predicate AllPresent(cols: seq<Column>, row: Row) {
    forall c <- cols :: c in row && row[c].Text?
  }

  /** MATCH SIMPLE: one NULL referencing column leaves the reference unchecked. */
  function Ref(fk: Fk, row: Row): Option<RowId> {
    if AllPresent(fk.cols, row) then
      Some(RowId(fk.parent, seq(|fk.cols|, i requires 0 <= i < |fk.cols| => row[fk.cols[i]].text)))
    else None
  }

  predicate RefOk(fk: Fk, db: Database, id: RowId)
    requires id in db
  {
    Ref(fk, db[id]).Some? ==> Ref(fk, db[id]).value in db
  }

  predicate FkOk(sch: Schema, db: Database) {
    forall fk, id {:trigger RefOk(fk, db, id)} |
      fk in sch.fks && id in db && id.table == fk.child :: RefOk(fk, db, id)
  }

  predicate NotNullOk(sch: Schema, db: Database) {
    forall id, c | id in db && c in db[id] && (id.table, c) in sch.notNull :: db[id][c].Text?
  }

  predicate WellFormed(sch: Schema, db: Database) {
    forall id | id in db :: id.table in sch.columns && db[id].Keys == sch.columns[id.table]
  }

  // ---------- the pass ----------

  datatype Item = Item(table: Table, keys: set<RowId>, ids: set<DeltaId>)

  /** A pass about to run: the quiet source, the target as it finds it, the columns to
      load NULL and fill last, and the tables in apply order with their batches. */
  datatype Ctx = Ctx(sch: Schema, source: Database, target: Database,
                     nullFill: map<Table, set<Column>>, work: seq<Item>)

  datatype Outcome = Committed(rows: Database) | Transient | Halted

  datatype Progress = Progress(rows: Database, done: set<nat>, transient: bool, halted: bool)

  function Omitted(nullFill: map<Table, set<Column>>, t: Table): set<Column> {
    if t in nullFill then nullFill[t] else {}
  }

  /** One per-table transaction: stage and upsert, then the phase's own statement, each
      checked as soon as it ran; a violation rolls the transaction back. */
  function Attempt(c: Ctx, item: Item, phase: Phase, rows: Database): Outcome {
    var snap := Restrict(c.source, item.keys);
    var cols := Omitted(c.nullFill, item.table);
    var merged := UpsertAll(rows, snap, cols);
    var final := PhaseEffect(rows, item.keys, PerTable(cols), phase, snap);
    if !NotNullOk(c.sch, merged) then Halted
    else if !FkOk(c.sch, merged) then Transient
    else if !NotNullOk(c.sch, final) then Halted
    else if !FkOk(c.sch, final) then Transient
    else Committed(final)
  }

  /** One table's turn in a phase. */
  function Visit(c: Ctx, phase: Phase, i: nat, eligible: set<nat>, p: Progress): Progress
    requires i < |c.work|
  {
    if i !in eligible then p
    else
      match Attempt(c, c.work[i], phase, p.rows)
      case Committed(rows) => p.(rows := rows, done := p.done + {i})
      case Transient => p.(transient := true)
      case Halted => p.(halted := true)
  }

  /** A phase that visits the tables parents to children, from the i-th on. */
  function RunForward(c: Ctx, phase: Phase, i: nat, eligible: set<nat>, p: Progress): Progress
    requires i <= |c.work|
    decreases |c.work| - i
  {
    if i == |c.work| || p.halted then p
    else RunForward(c, phase, i + 1, eligible, Visit(c, phase, i, eligible, p))
  }

  /** A phase that visits the first n tables children to parents. */
  function RunBackward(c: Ctx, phase: Phase, n: nat, eligible: set<nat>, p: Progress): Progress
    requires n <= |c.work|
  {
    if n == 0 || p.halted then p
    else RunBackward(c, phase, n - 1, eligible, Visit(c, phase, n - 1, eligible, p))
  }

  type LoopInv = (nat, Progress) -> bool

  /** The i-th turn of a forward phase hands a loop invariant on, and does not halt. */
  ghost predicate HandsOn(c: Ctx, phase: Phase, eligible: set<nat>, inv: LoopInv, i: nat)
    requires i < |c.work|
  {
    forall p: Progress | inv(i, p) :: !p.halted && inv(i + 1, Visit(c, phase, i, eligible, p))
  }

  /** The same for a backward phase, which visits table i when i + 1 are left. */
  ghost predicate HandsBack(c: Ctx, phase: Phase, eligible: set<nat>, inv: LoopInv, i: nat)
    requires i < |c.work|
  {
    forall p: Progress | inv(i + 1, p) :: !p.halted && inv(i, Visit(c, phase, i, eligible, p))
  }

  lemma {:induction false} Forward(c: Ctx, phase: Phase, eligible: set<nat>, inv: LoopInv, i: nat, p: Progress)
    requires i <= |c.work| && inv(i, p)
    requires forall k: nat | k < |c.work| :: HandsOn(c, phase, eligible, inv, k)
    ensures inv(|c.work|, RunForward(c, phase, i, eligible, p))
    decreases |c.work| - i
  {
    if i < |c.work| {
      assert HandsOn(c, phase, eligible, inv, i);
      Forward(c, phase, eligible, inv, i + 1, Visit(c, phase, i, eligible, p));
    }
  }

  lemma {:induction false} Backward(c: Ctx, phase: Phase, eligible: set<nat>, inv: LoopInv, n: nat, p: Progress)
    requires n <= |c.work| && inv(n, p)
    requires forall k: nat | k < |c.work| :: HandsBack(c, phase, eligible, inv, k)
    ensures inv(0, RunBackward(c, phase, n, eligible, p))
  {
    if n > 0 {
      assert HandsBack(c, phase, eligible, inv, n - 1);
      Backward(c, phase, eligible, inv, n - 1, Visit(c, phase, n - 1, eligible, p));
    }
  }

  function UpTo(n: nat): (r: set<nat>)
    ensures forall i: nat :: i in r <==> i < n
  {
    if n == 0 then {} else UpTo(n - 1) + {n - 1}
  }

  function Upserts(c: Ctx): Progress {
    RunForward(c, UpsertPhase, 0, UpTo(|c.work|), Progress(c.target, {}, false, false))
  }

  function Deletes(c: Ctx): Progress {
    var p := Upserts(c);
    RunBackward(c, DeletePhase, |c.work|, p.done, p.(done := {}))
  }

  /** Tables with columns to fill whose earlier phases committed. */
  function ToFill(c: Ctx, deleted: set<nat>): set<nat> {
    set i | i in deleted && i < |c.work| && Omitted(c.nullFill, c.work[i].table) != {}
  }

  function Fills(c: Ctx): Progress {
    var p := Deletes(c);
    RunForward(c, FillPhase, 0, ToFill(c, p.done), p.(done := {}))
  }

  /** The pass as a whole: the rows it leaves and the tables it may confirm, namely those
      whose every applicable phase committed. */
  function Pass(c: Ctx): Progress {
    var deleted := Deletes(c).done;
    var p := Fills(c);
    p.(done := p.done + (deleted - ToFill(c, deleted)))
  }

  // ---------- hypotheses ----------

  ghost predicate Differ(s: Database, t: Database, id: RowId) {
    Lookup(s, id) != Lookup(t, id)
  }

  predicate At(c: Ctx, i: int, t: Table) {
    0 <= i < |c.work| && c.work[i].table == t
  }

  /** Each table of the pass appears once and its keys belong to it. */
  ghost predicate WorkOk(c: Ctx) {
    && (forall i, j, t | At(c, i, t) && At(c, j, t) :: i == j)
    && (forall i, id {:trigger id in c.work[i].keys} |
          0 <= i < |c.work| && id in c.work[i].keys :: id.table == c.work[i].table)
  }

  /** The batch covers the queues: every row on which the two sides differ is in it. */
  ghost predicate Covers(c: Ctx) {
    forall id | Differ(c.source, c.target, id) ::
      exists i :: At(c, i, id.table) && id in c.work[i].keys
  }

  /** A foreign key whose columns are all loaded NULL and filled last. */
  predicate Nulled(c: Ctx, fk: Fk) {
    fk.cols != [] && forall col <- fk.cols :: col in Omitted(c.nullFill, fk.child)
  }

  /** No foreign key mixes nulled and kept columns, and nulled columns are nullable. */
  ghost predicate NullFillOk(c: Ctx) {
    && (forall fk <- c.sch.fks :: Nulled(c, fk) || forall col <- fk.cols :: col !in Omitted(c.nullFill, fk.child))
    && (forall t, col | col in Omitted(c.nullFill, t) :: (t, col) !in c.sch.notNull)
  }

  /** The tables come parents first along the foreign keys that are not nulled. */
  ghost predicate ParentsFirst(c: Ctx) {
    forall fk, i, j | fk in c.sch.fks && !Nulled(c, fk) && At(c, i, fk.parent) && At(c, j, fk.child) :: i < j
  }

  ghost predicate Sound(sch: Schema, db: Database) {
    FkOk(sch, db) && NotNullOk(sch, db) && WellFormed(sch, db)
  }

  ghost predicate Legal(c: Ctx) {
    && WorkOk(c) && NullFillOk(c) && ParentsFirst(c)
    && Sound(c.sch, c.source) && Sound(c.sch, c.target)
  }

  /** A legal pass whose batch covers every difference. */
  type Covering = c: Ctx | Legal(c) && Covers(c)
    witness Ctx(Schema(map[], {}, {}), map[], map[], map[], [])

  // ---------- the states a covering pass goes through ----------

  /** The first n tables of the pass. */
  function Tables(c: Ctx, n: nat): set<Table>
    requires n <= |c.work|
  {
    if n == 0 then {} else Tables(c, n - 1) + {c.work[n - 1].table}
  }

  lemma {:induction false} InTables(c: Ctx, n: nat, t: Table) returns (i: nat)
    requires n <= |c.work| && t in Tables(c, n)
    ensures i < n && At(c, i, t)
  {
    if c.work[n - 1].table == t {
      i := n - 1;
    } else {
      i := InTables(c, n - 1, t);
    }
  }

  lemma {:induction false} TablesHave(c: Ctx, n: nat, i: nat)
    requires i < n <= |c.work|
    ensures c.work[i].table in Tables(c, n)
  {
    if i < n - 1 { TablesHave(c, n - 1, i); }
  }

  /** The target after the upserts of `tabs`: source rows merged in, stale rows kept. */
  function Merged(c: Ctx, tabs: set<Table>): Database {
    c.target + (map id | id in c.source && id.table in tabs ::
                  UpsertRow(Lookup(c.target, id), c.source[id], Omitted(c.nullFill, id.table)))
  }

  lemma UpsertRowFacts(prior: Option<Row>, row: Row, omit: set<Column>)
    ensures UpsertRow(Some(UpsertRow(prior, row, omit)), row, omit) == UpsertRow(prior, row, omit)
    ensures UpsertRow(Some(row), row, omit) == row
    ensures omit == {} ==> UpsertRow(prior, row, omit) == row
  {}

  lemma SameLookup(a: Database, b: Database)
    requires forall id: RowId :: Lookup(a, id) == Lookup(b, id)
    ensures a == b
  {
    forall id: RowId ensures (id in a <==> id in b) && (id in a ==> a[id] == b[id]) {
      assert Lookup(a, id) == Lookup(b, id);
    }
    assert a.Keys == b.Keys;
  }

  /** A row its table's batch leaves out is the same on both sides. */
  lemma OutsideBatch(c: Covering, id: RowId)
    requires forall i | At(c, i, id.table) :: id !in c.work[i].keys
    ensures Lookup(c.source, id) == Lookup(c.target, id)
  {
    assert !Differ(c.source, c.target, id);
  }

  lemma MergedAt(c: Ctx, tabs: set<Table>, id: RowId)
    ensures Lookup(Merged(c, tabs), id) ==
            if id in c.source && id.table in tabs then
              Some(UpsertRow(Lookup(c.target, id), c.source[id], Omitted(c.nullFill, id.table)))
            else Lookup(c.target, id)
  {}

  /** Upserting one more table moves along `Merged`. */
  lemma UpsertStepAt(c: Ctx, tabs: set<Table>, t: Table, keys: set<RowId>, id: RowId)
    requires id in keys ==> id.table == t
    requires id.table == t && id !in keys ==> Lookup(c.source, id) == Lookup(c.target, id)
    ensures Lookup(UpsertAll(Merged(c, tabs), Restrict(c.source, keys), Omitted(c.nullFill, t)), id) ==
            Lookup(Merged(c, tabs + {t}), id)
  {
    UpsertAllAt(Merged(c, tabs), Restrict(c.source, keys), Omitted(c.nullFill, t), id);
    MergedAt(c, tabs, id);
    MergedAt(c, tabs + {t}, id);
    if id in c.source {
      UpsertRowFacts(Lookup(c.target, id), c.source[id], Omitted(c.nullFill, t));
    }
  }

  lemma UpsertStep(c: Covering, tabs: set<Table>, i: nat)
    requires i < |c.work|
    ensures UpsertAll(Merged(c, tabs), Restrict(c.source, c.work[i].keys),
                      Omitted(c.nullFill, c.work[i].table)) ==
            Merged(c, tabs + {c.work[i].table})
  {
    var l := UpsertAll(Merged(c, tabs), Restrict(c.source, c.work[i].keys), Omitted(c.nullFill, c.work[i].table));
    var r := Merged(c, tabs + {c.work[i].table});
    forall id: RowId ensures Lookup(l, id) == Lookup(r, id) {
      assert At(c, i, c.work[i].table);
      if id.table == c.work[i].table && id !in c.work[i].keys { OutsideBatch(c, id); }
      UpsertStepAt(c, tabs, c.work[i].table, c.work[i].keys, id);
    }
    SameLookup(l, r);
  }

  // ---------- upserts ----------

  lemma SameRef(fk: Fk, a: Row, b: Row)
    requires forall col <- fk.cols :: Lookup(a, col) == Lookup(b, col)
    ensures Ref(fk, a) == Ref(fk, b)
  {
    assert forall col <- fk.cols :: (col in a <==> Lookup(a, col).Some?) && (col in b <==> Lookup(b, col).Some?);
    assert AllPresent(fk.cols, a) <==> AllPresent(fk.cols, b);
    if AllPresent(fk.cols, a) {
      assert forall i | 0 <= i < |fk.cols| :: fk.cols[i] in fk.cols && a[fk.cols[i]] == b[fk.cols[i]];
      assert Ref(fk, a).value.key == Ref(fk, b).value.key;
    }
  }

  /** Where a merged row points: a kept reference to a source row, a nulled one to a row
      the target already had. */
  lemma MergedRef(c: Covering, tabs: set<Table>, fk: Fk, id: RowId)
    requires fk in c.sch.fks && id in Merged(c, tabs) && id.table == fk.child
    requires Ref(fk, Merged(c, tabs)[id]).Some?
    ensures var r := Ref(fk, Merged(c, tabs)[id]).value;
            && r.table == fk.parent
            && if id in c.source && id.table in tabs && !Nulled(c, fk) then
                 Ref(fk, c.source[id]) == Some(r) && r in c.source
               else
                 id in c.target && Ref(fk, c.target[id]) == Some(r) && r in c.target
  {
    var m := Merged(c, tabs);
    if id in c.source && id.table in tabs {
      assert m[id] == UpsertRow(Lookup(c.target, id), c.source[id], Omitted(c.nullFill, id.table));
      if Nulled(c, fk) {
        assert fk.cols[0] in fk.cols;
        SameRef(fk, c.target[id], m[id]);
        assert RefOk(fk, c.target, id);
      } else {
        SameRef(fk, c.source[id], m[id]);
        assert RefOk(fk, c.source, id);
      }
    } else {
      assert RefOk(fk, c.target, id);
    }
  }

  lemma {:induction false} MergedOk(c: Covering, n: nat)
    requires n <= |c.work|
    ensures FkOk(c.sch, Merged(c, Tables(c, n))) && NotNullOk(c.sch, Merged(c, Tables(c, n)))
  {
    var tabs := Tables(c, n);
    var m := Merged(c, tabs);
    forall fk, id | fk in c.sch.fks && id in m && id.table == fk.child && Ref(fk, m[id]).Some?
      ensures RefOk(fk, m, id)
    {
      MergedRef(c, tabs, fk, id);
      var r := Ref(fk, m[id]).value;
      if r !in c.target {
        var j := InTables(c, n, fk.child);
        if i: nat :| At(c, i, fk.parent) {
          TablesHave(c, n, i);
        } else {
          OutsideBatch(c, r);
        }
      }
    }
    forall id, col | id in m && col in m[id] && (id.table, col) in c.sch.notNull ensures m[id][col].Text? {
      if id in c.source && id.table in tabs {
        assert col !in Omitted(c.nullFill, id.table);
      }
    }
  }

  /** An attempt whose statements leave `mid` and then `end`. */
  lemma AttemptIs(c: Ctx, item: Item, phase: Phase, rows: Database, mid: Database, end: Database)
    requires mid == UpsertAll(rows, Restrict(c.source, item.keys), Omitted(c.nullFill, item.table))
    requires end == PhaseEffect(rows, item.keys, PerTable(Omitted(c.nullFill, item.table)), phase,
                                Restrict(c.source, item.keys))
    requires NotNullOk(c.sch, mid) && FkOk(c.sch, mid) && NotNullOk(c.sch, end)
    ensures Attempt(c, item, phase, rows) == if FkOk(c.sch, end) then Committed(end) else Transient
  {}

  lemma UpsertAccepted(c: Covering, i: nat)
    requires i < |c.work|
    ensures Attempt(c, c.work[i], UpsertPhase, Merged(c, Tables(c, i))) == Committed(Merged(c, Tables(c, i + 1)))
  {
    var next := Merged(c, Tables(c, i + 1));
    MergedOk(c, i + 1);
    UpsertStep(c, Tables(c, i), i);
    AttemptIs(c, c.work[i], UpsertPhase, Merged(c, Tables(c, i)), next, next);
  }

  function Upserted(c: Ctx, i: nat): Progress
    requires i <= |c.work|
  {
    Progress(Merged(c, Tables(c, i)), UpTo(i), false, false)
  }

  lemma UpsertTurn(c: Covering, i: nat)
    requires i < |c.work|
    ensures Visit(c, UpsertPhase, i, UpTo(|c.work|), Upserted(c, i)) == Upserted(c, i + 1)
  {
    UpsertAccepted(c, i);
  }

  lemma UpsertHands(c: Covering, inv: LoopInv, i: nat)
    requires i < |c.work| && forall k: nat, p: Progress :: inv(k, p) <==> k <= |c.work| && p == Upserted(c, k)
    ensures HandsOn(c, UpsertPhase, UpTo(|c.work|), inv, i)
  {
    UpsertTurn(c, i);
  }

  lemma {:induction false} AllUpsertsAccepted(c: Covering)
    ensures RunForward(c, UpsertPhase, 0, UpTo(|c.work|), Upserted(c, 0)) == Upserted(c, |c.work|)
  {
    var inv: LoopInv := (i: nat, p: Progress) => i <= |c.work| && p == Upserted(c, i);
    forall i: nat | i < |c.work| ensures HandsOn(c, UpsertPhase, UpTo(|c.work|), inv, i) { UpsertHands(c, inv, i); }
    Forward(c, UpsertPhase, UpTo(|c.work|), inv, 0, Upserted(c, 0));
  }

  // ---------- deletes ----------

  function All(c: Ctx): set<Table> {
    Tables(c, |c.work|)
  }

  /** After the upserts and the deletes of `tabs`. */
  function Cut(c: Ctx, tabs: set<Table>): Database {
    var m := Merged(c, All(c));
    map id | id in m && (id in c.source || id.table !in tabs) :: m[id]
  }

  lemma CutAt(c: Ctx, tabs: set<Table>, id: RowId)
    ensures Lookup(Cut(c, tabs), id) ==
            if id in c.source || id.table !in tabs then Lookup(Merged(c, All(c)), id) else None
  {}

  /** The tables deleted from after one more attempt, which commits exactly when it leaves
      no dangling reference. */
  function Turn(c: Ctx, tabs: set<Table>, t: Table): set<Table> {
    if FkOk(c.sch, Cut(c, tabs + {t})) then tabs + {t} else tabs
  }

  /** The tables deleted from once the first n are visited children to parents. */
  function Removed(c: Ctx, n: nat, tabs: set<Table>): set<Table>
    requires n <= |c.work|
  {
    if n == 0 then tabs else Removed(c, n - 1, Turn(c, tabs, c.work[n - 1].table))
  }

  type TurnInv = (nat, set<Table>) -> bool

  ghost predicate Takes(c: Ctx, inv: TurnInv, i: nat)
    requires i < |c.work|
  {
    forall tabs: set<Table> | inv(i + 1, tabs) :: inv(i, Turn(c, tabs, c.work[i].table))
  }

  /** An invariant of the turns holds when all are taken. */
  lemma {:induction false} Turns(c: Ctx, inv: TurnInv, n: nat, tabs: set<Table>)
    requires n <= |c.work| && inv(n, tabs)
    requires forall k: nat | k < |c.work| :: Takes(c, inv, k)
    ensures inv(0, Removed(c, n, tabs))
  {
    if n > 0 {
      assert Takes(c, inv, n - 1);
      Turns(c, inv, n - 1, Turn(c, tabs, c.work[n - 1].table));
    }
  }

  /** The tables whose deletes commit in the pass. */
  function Gone(c: Ctx): set<Table> {
    Removed(c, |c.work|, {})
  }

  /** The first n tables of the pass that are among `tabs`, by index. */
  function Indices(c: Ctx, tabs: set<Table>, n: nat): set<nat>
    requires n <= |c.work|
  {
    set i: nat | i < n && c.work[i].table in tabs
  }

  /** A row only one side has belongs to a table of the pass. */
  lemma StaleTable(c: Covering, id: RowId) returns (i: nat)
    requires Differ(c.source, c.target, id)
    ensures At(c, i, id.table) && id in c.work[i].keys && id.table in All(c)
  {
    i :| At(c, i, id.table) && id in c.work[i].keys;
    TablesHave(c, |c.work|, i);
  }

  lemma OutsidePass(c: Covering, id: RowId)
    requires id.table !in All(c)
    ensures Lookup(c.source, id) == Lookup(c.target, id)
  {
    if Differ(c.source, c.target, id) { var i := StaleTable(c, id); }
  }

  lemma {:induction false} NotInEarlier(c: Ctx, n: nat, t: Table)
    requires WorkOk(c) && n < |c.work| && t == c.work[n].table
    ensures t !in Tables(c, n)
  {
    if t in Tables(c, n) {
      var j := InTables(c, n, t);
      assert At(c, n, t);
    }
  }

  /** Re-staging a table that was upserted changes nothing. */
  lemma RestageAt(c: Ctx, rows: Database, t: Table, keys: set<RowId>, id: RowId)
    requires id in c.source && id in keys ==>
               Lookup(rows, id) == Some(UpsertRow(Lookup(c.target, id), c.source[id], Omitted(c.nullFill, t)))
    ensures Lookup(UpsertAll(rows, Restrict(c.source, keys), Omitted(c.nullFill, t)), id) == Lookup(rows, id)
  {
    UpsertAllAt(rows, Restrict(c.source, keys), Omitted(c.nullFill, t), id);
    if id in c.source {
      UpsertRowFacts(Lookup(c.target, id), c.source[id], Omitted(c.nullFill, t));
    }
  }

  lemma DeleteStepAt(c: Ctx, n: nat, tabs: set<Table>, id: RowId)
    requires n < |c.work| && c.work[n].table !in tabs
    requires id in c.work[n].keys ==> id.table == c.work[n].table
    requires id.table == c.work[n].table && id in c.target && id !in c.source ==> id in c.work[n].keys
    ensures var snap := Restrict(c.source, c.work[n].keys);
            var cols := Omitted(c.nullFill, c.work[n].table);
            && Lookup(UpsertAll(Cut(c, tabs), snap, cols), id) == Lookup(Cut(c, tabs), id)
            && Lookup(DeleteAbsent(Cut(c, tabs), c.work[n].keys, snap), id) == Lookup(Cut(c, tabs + {c.work[n].table}), id)
  {
    CutAt(c, tabs, id);
    CutAt(c, tabs + {c.work[n].table}, id);
    MergedAt(c, All(c), id);
    TablesHave(c, |c.work|, n);
    RestageAt(c, Cut(c, tabs), c.work[n].table, c.work[n].keys, id);
  }

  lemma DeleteStep(c: Covering, n: nat, tabs: set<Table>)
    requires n < |c.work| && c.work[n].table !in tabs
    ensures var snap := Restrict(c.source, c.work[n].keys);
            var cols := Omitted(c.nullFill, c.work[n].table);
            && UpsertAll(Cut(c, tabs), snap, cols) == Cut(c, tabs)
            && DeleteAbsent(Cut(c, tabs), c.work[n].keys, snap) == Cut(c, tabs + {c.work[n].table})
  {
    var snap := Restrict(c.source, c.work[n].keys);
    var merged := UpsertAll(Cut(c, tabs), snap, Omitted(c.nullFill, c.work[n].table));
    var deleted := DeleteAbsent(Cut(c, tabs), c.work[n].keys, snap);
    assert At(c, n, c.work[n].table);
    forall id: RowId ensures Lookup(merged, id) == Lookup(Cut(c, tabs), id)
                          && Lookup(deleted, id) == Lookup(Cut(c, tabs + {c.work[n].table}), id)
    {
      if id.table == c.work[n].table && id in c.target && id !in c.source {
        var i := StaleTable(c, id);
      }
      DeleteStepAt(c, n, tabs, id);
    }
    SameLookup(merged, Cut(c, tabs));
    SameLookup(deleted, Cut(c, tabs + {c.work[n].table}));
  }

  lemma CutNotNull(c: Covering, tabs: set<Table>)
    ensures NotNullOk(c.sch, Cut(c, tabs))
  {
    MergedOk(c, |c.work|);
  }

  lemma NothingCut(c: Covering)
    ensures Cut(c, {}) == Merged(c, All(c)) && FkOk(c.sch, Cut(c, {}))
  {
    MergedOk(c, |c.work|);
  }

  /** A delete commits exactly when what it leaves is referentially intact. */
  lemma DeleteAttempt(c: Covering, n: nat, tabs: set<Table>)
    requires n < |c.work| && c.work[n].table !in tabs && FkOk(c.sch, Cut(c, tabs))
    ensures var more := tabs + {c.work[n].table};
            Attempt(c, c.work[n], DeletePhase, Cut(c, tabs)) ==
            if FkOk(c.sch, Cut(c, more)) then Committed(Cut(c, more)) else Transient
  {
    DeleteStep(c, n, tabs);
    CutNotNull(c, tabs);
    CutNotNull(c, tabs + {c.work[n].table});
    AttemptIs(c, c.work[n], DeletePhase, Cut(c, tabs), Cut(c, tabs), Cut(c, tabs + {c.work[n].table}));
  }

  /** One table's turn in the delete phase. */
  lemma DeleteVisit(c: Covering, n: nat, tabs: set<Table>, p: Progress)
    requires n < |c.work| && c.work[n].table !in tabs && FkOk(c.sch, Cut(c, tabs)) && p.rows == Cut(c, tabs)
    ensures var more := tabs + {c.work[n].table};
            Visit(c, DeletePhase, n, UpTo(|c.work|), p) ==
            if FkOk(c.sch, Cut(c, more)) then p.(rows := Cut(c, more), done := p.done + {n}) else p.(transient := true)
  {
    DeleteAttempt(c, n, tabs);
  }

  /** Nothing dangles after any turn, and only the tables visited are deleted from. */
  lemma {:induction false} RemovedFacts(c: Ctx, n: nat, tabs: set<Table>)
    requires n <= |c.work| && FkOk(c.sch, Cut(c, tabs))
    ensures var r := Removed(c, n, tabs);
            FkOk(c.sch, Cut(c, r)) && tabs <= r <= tabs + Tables(c, n)
  {
    if n > 0 { RemovedFacts(c, n - 1, Turn(c, tabs, c.work[n - 1].table)); }
  }

  lemma IndicesGrow(c: Ctx, tabs: set<Table>, n: nat)
    requires 0 < n <= |c.work|
    ensures Indices(c, tabs, n) == Indices(c, tabs, n - 1) + if c.work[n - 1].table in tabs then {n - 1} else {}
  {}

  /** The tables from the n-th on, by index, that are among `tabs`. */
  function LaterIndices(c: Ctx, tabs: set<Table>, n: nat): set<nat> {
    set i: nat | n <= i < |c.work| && c.work[i].table in tabs
  }

  /** The state of the delete phase when n tables are left and `tabs` are deleted from. */
  ghost predicate Deleting(c: Ctx, n: nat, tabs: set<Table>, p: Progress)
    requires n <= |c.work|
  {
    && tabs <= All(c) - Tables(c, n) && FkOk(c.sch, Cut(c, tabs)) && p.rows == Cut(c, tabs) && !p.halted
    && p.done == LaterIndices(c, tabs, n)
    && (p.transient <==> !(All(c) - Tables(c, n) <= tabs))
  }

  /** It ends as the turns say. */
  ghost predicate Deletion(c: Ctx, n: nat, p: Progress)
    requires n <= |c.work|
  {
    exists tabs :: Deleting(c, n, tabs, p) && LeadsToGone(c, n, tabs)
  }

  ghost predicate LeadsToGone(c: Ctx, n: nat, tabs: set<Table>)
    requires n <= |c.work|
  {
    Removed(c, n, tabs) == Gone(c)
  }

  lemma StillLeads(c: Ctx, n: nat, tabs: set<Table>)
    requires 0 < n <= |c.work| && LeadsToGone(c, n, tabs)
    ensures LeadsToGone(c, n - 1, Turn(c, tabs, c.work[n - 1].table))
  {}

  lemma OneLess(c: Covering, n: nat)
    requires 0 < n <= |c.work|
    ensures All(c) - Tables(c, n) + {c.work[n - 1].table} == All(c) - Tables(c, n - 1)
    ensures c.work[n - 1].table !in All(c) - Tables(c, n)
  {
    NotInEarlier(c, n - 1, c.work[n - 1].table);
    TablesHave(c, |c.work|, n - 1);
  }

  lemma LaterGrow(c: Covering, tabs: set<Table>, n: nat)
    requires 0 < n <= |c.work| && tabs <= All(c) - Tables(c, n)
    ensures LaterIndices(c, tabs + {c.work[n - 1].table}, n - 1) == LaterIndices(c, tabs, n) + {n - 1}
    ensures LaterIndices(c, tabs, n - 1) == LaterIndices(c, tabs, n)
  {
    var t := c.work[n - 1].table;
    OneLess(c, n);
    forall i: nat | n <= i < |c.work| ensures c.work[i].table != t {
      assert At(c, i, c.work[i].table) && At(c, n - 1, t);
    }
  }

  lemma DeleteTurn(c: Covering, n: nat, tabs: set<Table>, p: Progress)
    requires 0 < n <= |c.work| && Deleting(c, n, tabs, p)
    ensures Deleting(c, n - 1, Turn(c, tabs, c.work[n - 1].table), Visit(c, DeletePhase, n - 1, UpTo(|c.work|), p))
  {
    OneLess(c, n);
    LaterGrow(c, tabs, n);
    DeleteVisit(c, n - 1, tabs, p);
  }

  lemma DeletionTurn(c: Covering, i: nat, p: Progress)
    requires i < |c.work| && Deletion(c, i + 1, p)
    ensures !p.halted && Deletion(c, i, Visit(c, DeletePhase, i, UpTo(|c.work|), p))
  {
    var tabs :| Deleting(c, i + 1, tabs, p) && LeadsToGone(c, i + 1, tabs);
    DeleteTurn(c, i + 1, tabs, p);
    StillLeads(c, i + 1, tabs);
  }

  lemma DeletionStarts(c: Covering)
    ensures Deletion(c, |c.work|, Progress(Cut(c, {}), {}, false, false))
  {
    NothingCut(c);
    assert LaterIndices(c, {}, |c.work|) == {} && All(c) - Tables(c, |c.work|) == {};
    assert Deleting(c, |c.work|, {}, Progress(Cut(c, {}), {}, false, false));
  }

  lemma DeletionHands(c: Covering, inv: LoopInv, i: nat)
    requires i < |c.work| && forall k: nat, p: Progress :: inv(k, p) <==> k <= |c.work| && Deletion(c, k, p)
    ensures HandsBack(c, DeletePhase, UpTo(|c.work|), inv, i)
  {
    forall p: Progress | inv(i + 1, p) ensures !p.halted && inv(i, Visit(c, DeletePhase, i, UpTo(|c.work|), p)) {
      DeletionTurn(c, i, p);
    }
  }

  lemma {:induction false} DeletesLoop(c: Covering)
    ensures Deletion(c, 0, RunBackward(c, DeletePhase, |c.work|, UpTo(|c.work|), Progress(Cut(c, {}), {}, false, false)))
  {
    var inv: LoopInv := (i: nat, p: Progress) => i <= |c.work| && Deletion(c, i, p);
    forall i: nat | i < |c.work| ensures HandsBack(c, DeletePhase, UpTo(|c.work|), inv, i) { DeletionHands(c, inv, i); }
    DeletionStarts(c);
    Backward(c, DeletePhase, UpTo(|c.work|), inv, |c.work|, Progress(Cut(c, {}), {}, false, false));
  }

  // ---------- fills ----------

  /** After the deletes of `tabs` and the fills of those among the first n. */
  function Mended(c: Ctx, tabs: set<Table>, n: nat): Database
    requires n <= |c.work|
  {
    var b := Cut(c, tabs);
    map id | id in b :: if id in c.source && id.table in tabs && id.table in Tables(c, n) then c.source[id] else b[id]
  }

  lemma {:induction false} MendedAt(c: Ctx, tabs: set<Table>, n: nat, id: RowId)
    requires n <= |c.work| && tabs <= All(c)
    ensures Lookup(Mended(c, tabs, n), id) ==
            if id.table !in tabs then Lookup(Merged(c, All(c)), id)
            else if id !in c.source then None
            else if id.table in Tables(c, n) then Some(c.source[id])
            else Lookup(Merged(c, All(c)), id)
  {
    CutAt(c, tabs, id);
    MergedAt(c, All(c), id);
  }

  lemma FillColumnsAt(rows: Database, staged: Database, cols: set<Column>, id: RowId)
    requires id in staged ==> id in rows && rows[id].Keys == staged[id].Keys
    requires id in staged ==> forall col | col in rows[id] && col !in cols :: rows[id][col] == staged[id][col]
    ensures Lookup(FillColumns(rows, staged, cols), id) == if id in staged then Some(staged[id]) else Lookup(rows, id)
  {
    if id in staged {
      assert FillColumns(rows, staged, cols)[id] == staged[id];
    }
  }

  lemma OwnRowFill(prior: Option<Row>, row: Row, rows: Database, staged: Database, cols: set<Column>, id: RowId)
    requires Lookup(rows, id) == Some(UpsertRow(prior, row, cols))
    requires if id in staged then staged[id] == row else prior == Some(row)
    ensures Lookup(FillColumns(rows, staged, cols), id) == Some(row)
    ensures cols == {} ==> Lookup(rows, id) == Some(row)
  {
    UpsertRowFacts(prior, row, cols);
    FillColumnsAt(rows, staged, cols, id);
  }

  /** What a table holds before its fill. */
  lemma {:induction false} UnmendedAt(c: Ctx, tabs: set<Table>, n: nat, id: RowId)
    requires n < |c.work| && c.work[n].table !in Tables(c, n) && tabs <= All(c)
    requires id in c.source && id.table == c.work[n].table
    ensures Lookup(Mended(c, tabs, n), id) ==
            Some(UpsertRow(Lookup(c.target, id), c.source[id], Omitted(c.nullFill, c.work[n].table)))
  {
    MendedAt(c, tabs, n, id);
    MergedAt(c, All(c), id);
    TablesHave(c, |c.work|, n);
  }

  /** The fill of table n, seen at one of its rows and elsewhere. */
  lemma FillStepAt(c: Ctx, tabs: set<Table>, n: nat, id: RowId)
    requires n < |c.work| && c.work[n].table !in Tables(c, n) && tabs <= All(c) && c.work[n].table in tabs
    requires id in c.work[n].keys ==> id.table == c.work[n].table
    requires id.table == c.work[n].table && id !in c.work[n].keys ==> Lookup(c.source, id) == Lookup(c.target, id)
    ensures var snap := Restrict(c.source, c.work[n].keys);
            var cols := Omitted(c.nullFill, c.work[n].table);
            && Lookup(UpsertAll(Mended(c, tabs, n), snap, cols), id) == Lookup(Mended(c, tabs, n), id)
            && Lookup(FillColumns(Mended(c, tabs, n), snap, cols), id) == Lookup(Mended(c, tabs, n + 1), id)
            && (cols == {} ==> Lookup(Mended(c, tabs, n), id) == Lookup(Mended(c, tabs, n + 1), id))
  {
    if id in c.source && id.table == c.work[n].table {
      FillOwnAt(c, tabs, n, id);
    } else {
      FillOtherAt(c, tabs, n, id);
    }
  }

  lemma FillOwnAt(c: Ctx, tabs: set<Table>, n: nat, id: RowId)
    requires n < |c.work| && c.work[n].table !in Tables(c, n) && tabs <= All(c) && c.work[n].table in tabs
    requires id in c.source && id.table == c.work[n].table
    requires id !in c.work[n].keys ==> Lookup(c.source, id) == Lookup(c.target, id)
    ensures var snap := Restrict(c.source, c.work[n].keys);
            var cols := Omitted(c.nullFill, c.work[n].table);
            && Lookup(UpsertAll(Mended(c, tabs, n), snap, cols), id) == Lookup(Mended(c, tabs, n), id)
            && Lookup(FillColumns(Mended(c, tabs, n), snap, cols), id) == Lookup(Mended(c, tabs, n + 1), id)
            && (cols == {} ==> Lookup(Mended(c, tabs, n), id) == Lookup(Mended(c, tabs, n + 1), id))
  {
    var cols := Omitted(c.nullFill, c.work[n].table);
    MendedAt(c, tabs, n + 1, id);
    UnmendedAt(c, tabs, n, id);
    OwnRowFill(Lookup(c.target, id), c.source[id], Mended(c, tabs, n), Restrict(c.source, c.work[n].keys), cols, id);
    RestageAt(c, Mended(c, tabs, n), c.work[n].table, c.work[n].keys, id);
  }

  lemma FillOtherAt(c: Ctx, tabs: set<Table>, n: nat, id: RowId)
    requires n < |c.work| && tabs <= All(c)
    requires id !in c.source || (id.table != c.work[n].table && id !in c.work[n].keys)
    ensures var snap := Restrict(c.source, c.work[n].keys);
            var cols := Omitted(c.nullFill, c.work[n].table);
            && Lookup(UpsertAll(Mended(c, tabs, n), snap, cols), id) == Lookup(Mended(c, tabs, n), id)
            && Lookup(FillColumns(Mended(c, tabs, n), snap, cols), id) == Lookup(Mended(c, tabs, n + 1), id)
            && Lookup(Mended(c, tabs, n), id) == Lookup(Mended(c, tabs, n + 1), id)
  {
    var snap := Restrict(c.source, c.work[n].keys);
    MendedAt(c, tabs, n, id);
    MendedAt(c, tabs, n + 1, id);
    assert id !in snap;
    UpsertAllAt(Mended(c, tabs, n), snap, Omitted(c.nullFill, c.work[n].table), id);
  }

  lemma FillStep(c: Covering, tabs: set<Table>, n: nat)
    requires n < |c.work| && tabs <= All(c) && c.work[n].table in tabs
    ensures var snap := Restrict(c.source, c.work[n].keys);
            var cols := Omitted(c.nullFill, c.work[n].table);
            && UpsertAll(Mended(c, tabs, n), snap, cols) == Mended(c, tabs, n)
            && FillColumns(Mended(c, tabs, n), snap, cols) == Mended(c, tabs, n + 1)
            && (cols == {} ==> Mended(c, tabs, n) == Mended(c, tabs, n + 1))
  {
    var snap := Restrict(c.source, c.work[n].keys);
    var cols := Omitted(c.nullFill, c.work[n].table);
    assert At(c, n, c.work[n].table);
    NotInEarlier(c, n, c.work[n].table);
    forall id: RowId ensures
      && Lookup(UpsertAll(Mended(c, tabs, n), snap, cols), id) == Lookup(Mended(c, tabs, n), id)
      && Lookup(FillColumns(Mended(c, tabs, n), snap, cols), id) == Lookup(Mended(c, tabs, n + 1), id)
      && (cols == {} ==> Lookup(Mended(c, tabs, n), id) == Lookup(Mended(c, tabs, n + 1), id))
    {
      if id.table == c.work[n].table && id !in c.work[n].keys { OutsideBatch(c, id); }
      FillStepAt(c, tabs, n, id);
    }
    SameLookup(UpsertAll(Mended(c, tabs, n), snap, cols), Mended(c, tabs, n));
    SameLookup(FillColumns(Mended(c, tabs, n), snap, cols), Mended(c, tabs, n + 1));
    if cols == {} { SameLookup(Mended(c, tabs, n), Mended(c, tabs, n + 1)); }
  }

  /** Every row the source has is there once the upserts are in. */
  lemma SourceIsMerged(c: Covering, id: RowId)
    requires id in c.source
    ensures id in Merged(c, All(c))
  {
    MergedAt(c, All(c), id);
    if id.table !in All(c) { OutsidePass(c, id); }
  }

  lemma MendedOk(c: Covering, tabs: set<Table>, n: nat)
    requires n <= |c.work| && tabs <= All(c) && FkOk(c.sch, Cut(c, tabs))
    ensures FkOk(c.sch, Mended(c, tabs, n)) && NotNullOk(c.sch, Mended(c, tabs, n))
  {
    var f, b := Mended(c, tabs, n), Cut(c, tabs);
    CutNotNull(c, tabs);
    forall fk, id | fk in c.sch.fks && id in f && id.table == fk.child ensures RefOk(fk, f, id) {
      if id in c.source && id.table in tabs && id.table in Tables(c, n) {
        assert RefOk(fk, c.source, id);
        if Ref(fk, f[id]).Some? { SourceIsMerged(c, Ref(fk, f[id]).value); }
      } else {
        assert RefOk(fk, b, id);
      }
    }
  }

  /** A table that takes no part in the fills is as it should be already. */
  lemma NothingToMend(c: Covering, tabs: set<Table>, n: nat)
    requires n < |c.work| && tabs <= All(c)
    requires c.work[n].table !in tabs || Omitted(c.nullFill, c.work[n].table) == {}
    ensures Mended(c, tabs, n + 1) == Mended(c, tabs, n)
  {
    if c.work[n].table in tabs {
      FillStep(c, tabs, n);
    } else {
      forall id: RowId ensures Lookup(Mended(c, tabs, n + 1), id) == Lookup(Mended(c, tabs, n), id) {
        MendedAt(c, tabs, n + 1, id);
        MendedAt(c, tabs, n, id);
      }
      SameLookup(Mended(c, tabs, n + 1), Mended(c, tabs, n));
    }
  }

  lemma FillAttemptIs(c: Ctx, item: Item, rows: Database, end: Database)
    requires UpsertAll(rows, Restrict(c.source, item.keys), Omitted(c.nullFill, item.table)) == rows
    requires FillColumns(rows, Restrict(c.source, item.keys), Omitted(c.nullFill, item.table)) == end
    requires NotNullOk(c.sch, rows) && FkOk(c.sch, rows) && NotNullOk(c.sch, end) && FkOk(c.sch, end)
    ensures Attempt(c, item, FillPhase, rows) == Committed(end)
  {
    AttemptIs(c, item, FillPhase, rows, rows, end);
  }

  lemma FillAttempt(c: Covering, tabs: set<Table>, n: nat)
    requires n < |c.work| && tabs <= All(c) && FkOk(c.sch, Cut(c, tabs)) && c.work[n].table in tabs
    ensures Attempt(c, c.work[n], FillPhase, Mended(c, tabs, n)) == Committed(Mended(c, tabs, n + 1))
  {
    FillStep(c, tabs, n);
    MendedOk(c, tabs, n);
    MendedOk(c, tabs, n + 1);
    FillAttemptIs(c, c.work[n], Mended(c, tabs, n), Mended(c, tabs, n + 1));
  }

  predicate HasFill(c: Ctx, tabs: set<Table>, n: nat)
    requires n < |c.work|
  {
    c.work[n].table in tabs && Omitted(c.nullFill, c.work[n].table) != {}
  }

  lemma ToFillGrows(c: Ctx, tabs: set<Table>, n: nat)
    requires n < |c.work|
    ensures ToFill(c, Indices(c, tabs, n + 1)) == ToFill(c, Indices(c, tabs, n)) + if HasFill(c, tabs, n) then {n} else {}
    ensures n in ToFill(c, Indices(c, tabs, |c.work|)) <==> HasFill(c, tabs, n)
  {
    IndicesGrow(c, tabs, n + 1);
  }

  /** One table's turn in the fill phase. */
  lemma FillVisit(c: Covering, tabs: set<Table>, n: nat, p: Progress)
    requires n < |c.work| && tabs <= All(c) && FkOk(c.sch, Cut(c, tabs)) && p.rows == Mended(c, tabs, n)
    requires p.done == ToFill(c, Indices(c, tabs, n))
    ensures Visit(c, FillPhase, n, ToFill(c, Indices(c, tabs, |c.work|)), p) ==
            p.(rows := Mended(c, tabs, n + 1), done := ToFill(c, Indices(c, tabs, n + 1)))
  {
    ToFillGrows(c, tabs, n);
    if HasFill(c, tabs, n) { FillAttempt(c, tabs, n); } else { NothingToMend(c, tabs, n); }
  }

  /** The state of the fill phase after the first n tables. */
  ghost predicate Filling(c: Ctx, tabs: set<Table>, n: nat, p: Progress)
    requires n <= |c.work|
  {
    p.rows == Mended(c, tabs, n) && p.done == ToFill(c, Indices(c, tabs, n)) && !p.halted
  }

  lemma FillTurn(c: Covering, tabs: set<Table>, n: nat, eligible: set<nat>, p: Progress)
    requires n < |c.work| && tabs <= All(c) && FkOk(c.sch, Cut(c, tabs)) && Filling(c, tabs, n, p)
    requires eligible == ToFill(c, Indices(c, tabs, |c.work|))
    ensures var q := Visit(c, FillPhase, n, eligible, p); Filling(c, tabs, n + 1, q) && q.transient == p.transient
  {
    FillVisit(c, tabs, n, p);
  }

  lemma FillHands(c: Covering, tabs: set<Table>, eligible: set<nat>, blocked: bool, inv: LoopInv, i: nat)
    requires i < |c.work| && tabs <= All(c) && FkOk(c.sch, Cut(c, tabs))
    requires eligible == ToFill(c, Indices(c, tabs, |c.work|))
    requires forall k: nat, q: Progress :: inv(k, q) <==> k <= |c.work| && Filling(c, tabs, k, q) && q.transient == blocked
    ensures HandsOn(c, FillPhase, eligible, inv, i)
  {
    forall q: Progress | inv(i, q) ensures !q.halted && inv(i + 1, Visit(c, FillPhase, i, eligible, q)) {
      FillTurn(c, tabs, i, eligible, q);
    }
  }

  lemma {:induction false} FillsLoop(c: Covering, tabs: set<Table>, eligible: set<nat>, p: Progress)
    requires tabs <= All(c) && FkOk(c.sch, Cut(c, tabs)) && Filling(c, tabs, 0, p)
    requires eligible == ToFill(c, Indices(c, tabs, |c.work|))
    ensures var q := RunForward(c, FillPhase, 0, eligible, p); Filling(c, tabs, |c.work|, q) && q.transient == p.transient
  {
    var inv: LoopInv := (i: nat, q: Progress) => i <= |c.work| && Filling(c, tabs, i, q) && q.transient == p.transient;
    forall i: nat | i < |c.work| ensures HandsOn(c, FillPhase, eligible, inv, i) {
      FillHands(c, tabs, eligible, p.transient, inv, i);
    }
    Forward(c, FillPhase, eligible, inv, 0, p);
  }

  // ---------- what a covering pass leaves ----------

  /** The target once exactly the deletes of `tabs` committed. */
  function After(c: Ctx, tabs: set<Table>): Database {
    Mended(c, tabs, |c.work|)
  }

  lemma AfterAt(c: Ctx, tabs: set<Table>, id: RowId)
    requires tabs <= All(c)
    ensures Lookup(After(c, tabs), id) ==
            if id.table in tabs then Lookup(c.source, id) else Lookup(Merged(c, All(c)), id)
  {
    MendedAt(c, tabs, |c.work|, id);
  }

  lemma UpsertsResult(c: Covering)
    ensures Upserts(c) == Progress(Cut(c, {}), UpTo(|c.work|), false, false)
  {
    assert Merged(c, Tables(c, 0)) == c.target;
    AllUpsertsAccepted(c);
    NothingCut(c);
  }

  lemma GoneFacts(c: Covering)
    ensures Gone(c) <= All(c) && FkOk(c.sch, Cut(c, Gone(c)))
  {
    NothingCut(c);
    RemovedFacts(c, |c.work|, {});
  }

  lemma DeletesResult(c: Covering)
    ensures Deletes(c) == Progress(Cut(c, Gone(c)), Indices(c, Gone(c), |c.work|), !(All(c) <= Gone(c)), false)
  {
    UpsertsResult(c);
    DeletesLoop(c);
    assert Deletes(c) == RunBackward(c, DeletePhase, |c.work|, UpTo(|c.work|), Progress(Cut(c, {}), {}, false, false));
    assert LaterIndices(c, Gone(c), 0) == Indices(c, Gone(c), |c.work|) && All(c) - Tables(c, 0) == All(c);
  }

  lemma NothingMendedYet(c: Covering, tabs: set<Table>)
    ensures Mended(c, tabs, 0) == Cut(c, tabs) && ToFill(c, Indices(c, tabs, 0)) == {}
  {}

  lemma FillsResult(c: Covering, tabs: set<Table>)
    requires tabs == Gone(c)
    ensures Fills(c) == Progress(After(c, tabs), ToFill(c, Indices(c, tabs, |c.work|)), !(All(c) <= tabs), false)
  {
    DeletesResult(c);
    GoneFacts(c);
    NothingMendedYet(c, tabs);
    FillsLoop(c, tabs, ToFill(c, Deletes(c).done), Deletes(c).(done := {}));
  }

  /** A covering pass in full: no violation but refused deletes, the tables whose deletes
      committed equal to the source and confirmed, the others merged and left alone. */
  lemma PassResult(c: Covering)
    ensures Pass(c) == Progress(After(c, Gone(c)), Indices(c, Gone(c), |c.work|), !(All(c) <= Gone(c)), false)
  {
    DeletesResult(c);
    FillsResult(c, Gone(c));
    var done := Indices(c, Gone(c), |c.work|);
    assert ToFill(c, done) + (done - ToFill(c, done)) == done;
  }

  // ---------- when every delete commits ----------

  /** The condition, decidable before the pass: no target row reaches, through a nulled
      foreign key, a row gone from the source -- unless it is gone too and its table is
      not deleted from after the table it points to. */
  ghost predicate DeletesOrdered(c: Ctx) {
    forall fk, id, i, j |
      && fk in c.sch.fks && Nulled(c, fk) && id in c.target && id.table == fk.child
      && Ref(fk, c.target[id]).Some? && Ref(fk, c.target[id]).value !in c.source
      && At(c, i, fk.parent) && At(c, j, fk.child) ::
      id !in c.source && i <= j
  }

  /** All deletes but those of the first n tables. */
  function Trimmed(c: Ctx, n: nat): Database
    requires n <= |c.work|
  {
    Cut(c, All(c) - Tables(c, n))
  }

  lemma {:induction false} TrimmedAt(c: Ctx, n: nat, id: RowId)
    requires n <= |c.work|
    ensures Lookup(Trimmed(c, n), id) ==
            if id in c.source || id.table !in All(c) || id.table in Tables(c, n) then Lookup(Merged(c, All(c)), id)
            else None
  {
    CutAt(c, All(c) - Tables(c, n), id);
  }

  /** A row the source still has points, once merged, to a row the source still has. */
  lemma KeptRef(c: Covering, fk: Fk, id: RowId)
    requires DeletesOrdered(c)
    requires fk in c.sch.fks && id in c.source && id in Merged(c, All(c)) && id.table == fk.child
    requires Ref(fk, Merged(c, All(c))[id]).Some?
    ensures Ref(fk, Merged(c, All(c))[id]).value in c.source
  {
    MergedRef(c, All(c), fk, id);
    var r := Ref(fk, Merged(c, All(c))[id]).value;
    if id.table !in All(c) {
      OutsidePass(c, id);
      assert RefOk(fk, c.source, id);
    } else if Nulled(c, fk) {
      var j := InTables(c, |c.work|, id.table);
      if r !in c.source {
        var i := StaleTable(c, r);
      }
    }
  }

  /** A row the source lost points to a row whose table is deleted from later. */
  lemma {:induction false} StaleRef(c: Covering, n: nat, fk: Fk, id: RowId)
    requires n <= |c.work| && DeletesOrdered(c)
    requires fk in c.sch.fks && id !in c.source && id in Trimmed(c, n) && id.table == fk.child
    requires Ref(fk, Trimmed(c, n)[id]).Some?
    ensures var r := Ref(fk, Trimmed(c, n)[id]).value; r in c.source || r.table in Tables(c, n)
  {
    MergedRef(c, All(c), fk, id);
    var r := Ref(fk, Merged(c, All(c))[id]).value;
    var k := StaleTable(c, id);
    var j := InTables(c, n, id.table);
    if r !in c.source {
      var i := StaleTable(c, r);
      TablesHave(c, n, i);
    }
  }

  lemma TrimmedRef(c: Covering, n: nat, fk: Fk, id: RowId)
    requires n <= |c.work| && DeletesOrdered(c)
    requires fk in c.sch.fks && id in Trimmed(c, n) && id.table == fk.child
    ensures RefOk(fk, Trimmed(c, n), id)
  {
    if Ref(fk, Trimmed(c, n)[id]).Some? {
      MergedOk(c, |c.work|);
      assert RefOk(fk, Merged(c, All(c)), id);
      if id in c.source { KeptRef(c, fk, id); } else { StaleRef(c, n, fk, id); }
    }
  }

  lemma TrimmedOk(c: Covering, n: nat)
    requires n <= |c.work| && DeletesOrdered(c)
    ensures FkOk(c.sch, Trimmed(c, n))
  {
    forall fk, id | fk in c.sch.fks && id in Trimmed(c, n) && id.table == fk.child ensures RefOk(fk, Trimmed(c, n), id) {
      TrimmedRef(c, n, fk, id);
    }
  }

  /** A property that n hands down to n - 1 holds below n. */
  ghost predicate Falls(p: nat -> bool, j: nat) {
    p(j + 1) ==> p(j)
  }

  lemma {:induction false} Downwards(p: nat -> bool, n: nat, i: nat)
    requires i <= n && p(n) && forall j: nat | j < n :: Falls(p, j)
    ensures p(i)
  {
    if i < n {
      assert Falls(p, n - 1);
      Downwards(p, n - 1, i);
    }
  }

  lemma OrderedTurn(c: Covering, n: nat)
    requires 0 < n <= |c.work| && FkOk(c.sch, Trimmed(c, n - 1))
    ensures Turn(c, All(c) - Tables(c, n), c.work[n - 1].table) == All(c) - Tables(c, n - 1)
  {
    OneLess(c, n);
    TurnTaken(c, All(c) - Tables(c, n), c.work[n - 1].table, All(c) - Tables(c, n - 1));
  }

  lemma TurnTaken(c: Ctx, tabs: set<Table>, t: Table, next: set<Table>)
    requires next == tabs + {t} && FkOk(c.sch, Cut(c, next))
    ensures Turn(c, tabs, t) == next
  {}

  lemma {:induction false} OrderedTakes(c: Covering, inv: TurnInv, i: nat)
    requires i < |c.work| && DeletesOrdered(c)
    requires forall k: nat, tabs: set<Table> :: inv(k, tabs) <==> k <= |c.work| && tabs == All(c) - Tables(c, k)
    ensures Takes(c, inv, i)
  {
    TrimmedOk(c, i);
    OrderedTurn(c, i + 1);
  }

  lemma OrderedRemovesAll(c: Covering)
    requires DeletesOrdered(c)
    ensures Gone(c) == All(c)
  {
    var inv: TurnInv := (i: nat, tabs: set<Table>) => i <= |c.work| && tabs == All(c) - Tables(c, i);
    forall i: nat | i < |c.work| ensures Takes(c, inv, i) { OrderedTakes(c, inv, i); }
    assert All(c) - Tables(c, |c.work|) == {} && All(c) - Tables(c, 0) == All(c);
    Turns(c, inv, |c.work|, {});
  }

  /** The deletes left to do, if all before them committed, end with all tables deleted from. */
  ghost predicate AllToCome(c: Ctx, n: nat) {
    n <= |c.work| && FkOk(c.sch, Trimmed(c, n)) && Removed(c, n, All(c) - Tables(c, n)) == All(c)
  }

  /** A table is deleted from exactly when its own turn leaves no dangling reference. */
  lemma {:induction false} RemovedHas(c: Covering, n: nat, tabs: set<Table>)
    requires 0 < n <= |c.work| && c.work[n - 1].table !in tabs && FkOk(c.sch, Cut(c, tabs))
    ensures c.work[n - 1].table in Removed(c, n, tabs) <==> FkOk(c.sch, Cut(c, tabs + {c.work[n - 1].table}))
  {
    var t := c.work[n - 1].table;
    NotInEarlier(c, n - 1, t);
    RemovedFacts(c, n - 1, Turn(c, tabs, t));
  }

  lemma AllToComeStep(c: Covering, n: nat)
    requires 0 < n && AllToCome(c, n)
    ensures AllToCome(c, n - 1)
  {
    OneLess(c, n);
    TablesHave(c, |c.work|, n - 1);
    RemovedHas(c, n, All(c) - Tables(c, n));
  }

  /** If every delete commits, what is left is intact every time. */
  lemma AllRemovedMeansIntact(c: Covering, i: nat)
    requires i <= |c.work| && Gone(c) == All(c)
    ensures FkOk(c.sch, Trimmed(c, i))
  {
    NothingCut(c);
    assert All(c) - Tables(c, |c.work|) == {};
    var p: nat -> bool := (k: nat) => AllToCome(c, k);
    forall j: nat | j < |c.work| ensures Falls(p, j) {
      if AllToCome(c, j + 1) { AllToComeStep(c, j + 1); }
    }
    Downwards(p, |c.work|, i);
  }

  /** Otherwise some delete is refused: the row left behind points to a deleted row. */
  lemma UnorderedBreaks(c: Covering, fk: Fk, id: RowId, i: nat, j: nat)
    requires fk in c.sch.fks && Nulled(c, fk) && id in c.target && id.table == fk.child
    requires Ref(fk, c.target[id]).Some? && Ref(fk, c.target[id]).value !in c.source
    requires At(c, i, fk.parent) && At(c, j, fk.child)
    requires id in c.source || j < i
    ensures !FkOk(c.sch, Trimmed(c, i))
  {
    var m := Merged(c, All(c));
    TablesHave(c, |c.work|, j);
    TablesHave(c, |c.work|, i);
    if j < i { TablesHave(c, i, j); }
    MergedAt(c, All(c), id);
    if id in c.source {
      assert m[id] == UpsertRow(Some(c.target[id]), c.source[id], Omitted(c.nullFill, id.table));
      SameRef(fk, c.target[id], m[id]);
    }
    TrimmedAt(c, i, id);
    NotInEarlier(c, i, fk.parent);
    assert !RefOk(fk, Trimmed(c, i), id);
  }

  lemma IntactMeansOrdered(c: Covering)
    requires forall i: nat | i < |c.work| :: FkOk(c.sch, Trimmed(c, i))
    ensures DeletesOrdered(c)
  {
    forall fk, id, i: nat, j: nat |
      && fk in c.sch.fks && Nulled(c, fk) && id in c.target && id.table == fk.child
      && Ref(fk, c.target[id]).Some? && Ref(fk, c.target[id]).value !in c.source
      && At(c, i, fk.parent) && At(c, j, fk.child)
      ensures id !in c.source && i <= j
    {
      if id in c.source || j < i { UnorderedBreaks(c, fk, id, i, j); }
    }
  }

  lemma AllGoneExactlyWhen(c: Covering)
    ensures Gone(c) == All(c) <==> DeletesOrdered(c)
  {
    if DeletesOrdered(c) {
      OrderedRemovesAll(c);
    } else if Gone(c) == All(c) {
      forall i: nat | i < |c.work| ensures FkOk(c.sch, Trimmed(c, i)) { AllRemovedMeansIntact(c, i); }
      IntactMeansOrdered(c);
    }
  }

  // ---------- the theorem ----------

  ghost predicate Succeeds(c: Ctx) {
    Pass(c) == Progress(c.source, UpTo(|c.work|), false, false)
  }

  lemma AllGoneIsSource(c: Covering)
    ensures After(c, All(c)) == c.source
  {
    forall id: RowId ensures Lookup(After(c, All(c)), id) == Lookup(c.source, id) {
      AfterAt(c, All(c), id);
      MergedAt(c, All(c), id);
      if id.table !in All(c) { OutsidePass(c, id); }
    }
    SameLookup(After(c, All(c)), c.source);
  }

  lemma {:induction false} AllIndices(c: Ctx, tabs: set<Table>)
    requires tabs <= All(c)
    ensures Indices(c, tabs, |c.work|) == UpTo(|c.work|) <==> tabs == All(c)
    ensures UpTo(|c.work|) <= Indices(c, tabs, |c.work|) ==> tabs == All(c)
  {
    forall i: nat | i < |c.work| ensures c.work[i].table in All(c) { TablesHave(c, |c.work|, i); }
    if UpTo(|c.work|) <= Indices(c, tabs, |c.work|) {
      forall t <- All(c) ensures t in tabs {
        var i := InTables(c, |c.work|, t);
        assert i in UpTo(|c.work|) && i in Indices(c, tabs, |c.work|);
      }
    }
  }

  /** One covering pass confirms every table and makes the target equal to the source
      exactly when the deletes are ordered; no violation of any kind is hit then. */
  lemma PassSucceedsExactlyWhen(c: Covering)
    ensures Succeeds(c) <==> DeletesOrdered(c)
    ensures UpTo(|c.work|) <= Pass(c).done <==> DeletesOrdered(c)
  {
    PassResult(c);
    GoneFacts(c);
    AllGoneExactlyWhen(c);
    AllIndices(c, Gone(c));
    AllGoneIsSource(c);
  }

  /** An acyclic component, parents first: inserts, updates and deletes of any mix land in
      one covering pass and no foreign key is ever violated. */
  lemma AcyclicPassSucceeds(c: Covering)
    requires c.nullFill == map[]
    ensures Succeeds(c)
  {
    forall fk <- c.sch.fks ensures !Nulled(c, fk) {
      if fk.cols != [] { assert fk.cols[0] in fk.cols; }
    }
    PassSucceedsExactlyWhen(c);
  }

  /** NULL-then-fill closes every cycle when no dirty key is gone from the source. */
  lemma CyclicPassSucceeds(c: Covering)
    requires forall i, id {:trigger id in c.work[i].keys} |
               0 <= i < |c.work| && id in c.work[i].keys :: id in c.source
    ensures Succeeds(c)
  {
    forall fk, id | fk in c.sch.fks && id in c.target && id.table == fk.child && Ref(fk, c.target[id]).Some?
      ensures Ref(fk, c.target[id]).value in c.source
    {
      assert RefOk(fk, c.target, id);
      var r := Ref(fk, c.target[id]).value;
      if r !in c.source { var i := StaleTable(c, r); }
    }
    assert DeletesOrdered(c);
    PassSucceedsExactlyWhen(c);
  }
}
