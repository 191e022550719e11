/** When a per-table transaction is refused, and how: a foreign-key violation is transient
    and the drain goes on, any other violation halts the pass. Stated on the rows, for one
    transaction and for whole passes. */
module Verdicts {
  import opened Rows
  import opened Drain
  import opened FkPass
  import opened PassEffect

  // ---------- one transaction ----------

  /** Staging the row puts NULL into the column: the row carries it, or the column is left
      out and the target has no value to keep. */
  predicate LoadsNull(row: Row, col: Column, omit: set<Column>, prior: Option<Row>)
    requires col in row
  {
    if col in omit then prior.None? || col !in prior.value else row[col] == Null
  }

  /** A staged row that would put NULL into a NOT NULL column. */
  ghost predicate NullAt(sch: Schema, source: Database, keys: set<RowId>, omit: set<Column>, rows: Database,
                         id: RowId, col: Column) {
    && id in keys && id in source && col in source[id] && (id.table, col) in sch.notNull
    && LoadsNull(source[id], col, omit, Lookup(rows, id))
  }

  ghost predicate NullStaged(sch: Schema, source: Database, keys: set<RowId>, omit: set<Column>, rows: Database) {
    exists id, col :: NullAt(sch, source, keys, omit, rows, id, col)
  }

  /** A staged row whose left-out NOT NULL column is NULL at the source: the fill sets it. */
  ghost predicate NullFillAt(sch: Schema, source: Database, keys: set<RowId>, omit: set<Column>, id: RowId, col: Column) {
    && id in keys && id in source && col in source[id] && (id.table, col) in sch.notNull
    && col in omit && source[id][col] == Null
  }

  ghost predicate NullFilled(sch: Schema, source: Database, keys: set<RowId>, omit: set<Column>) {
    exists id, col :: NullFillAt(sch, source, keys, omit, id, col)
  }

  ghost predicate DanglesAt(sch: Schema, db: Database, fk: Fk, id: RowId) {
    && fk in sch.fks && id in db && id.table == fk.child
    && Ref(fk, db[id]).Some? && Ref(fk, db[id]).value !in db
  }

  /** Some row references a row that is not there. */
  ghost predicate Dangles(sch: Schema, db: Database) {
    exists fk, id :: DanglesAt(sch, db, fk, id)
  }

  lemma DanglesMeans(sch: Schema, db: Database)
    ensures Dangles(sch, db) <==> !FkOk(sch, db)
  {
    if !FkOk(sch, db) {
      var fk, id :| fk in sch.fks && id in db && id.table == fk.child && !RefOk(fk, db, id);
      assert DanglesAt(sch, db, fk, id);
    }
    if Dangles(sch, db) {
      var fk, id :| DanglesAt(sch, db, fk, id);
      assert !RefOk(fk, db, id);
    }
  }

  lemma NullStagedMeans(sch: Schema, source: Database, keys: set<RowId>, omit: set<Column>, rows: Database)
    requires NotNullOk(sch, rows)
    ensures NullStaged(sch, source, keys, omit, rows) <==>
            !NotNullOk(sch, UpsertAll(rows, Restrict(source, keys), omit))
  {
    var snap := Restrict(source, keys);
    var m := UpsertAll(rows, snap, omit);
    if !NotNullOk(sch, m) {
      var id, col :| id in m && col in m[id] && (id.table, col) in sch.notNull && !m[id][col].Text?;
      UpsertAllAt(rows, snap, omit, id);
      assert NullAt(sch, source, keys, omit, rows, id, col);
    }
    if NullStaged(sch, source, keys, omit, rows) {
      var id, col :| NullAt(sch, source, keys, omit, rows, id, col);
      UpsertAllAt(rows, snap, omit, id);
      assert m[id][col] == Null;
    }
  }

  lemma NullFilledMeans(sch: Schema, source: Database, keys: set<RowId>, omit: set<Column>, rows: Database)
    requires var m := UpsertAll(rows, Restrict(source, keys), omit); NotNullOk(sch, m)
    ensures var snap := Restrict(source, keys); var m := UpsertAll(rows, snap, omit);
            NullFilled(sch, source, keys, omit) <==> !NotNullOk(sch, FillColumns(m, snap, omit))
  {
    var snap := Restrict(source, keys);
    var m := UpsertAll(rows, snap, omit);
    var f := FillColumns(m, snap, omit);
    if !NotNullOk(sch, f) {
      var id, col :| id in f && col in f[id] && (id.table, col) in sch.notNull && !f[id][col].Text?;
      assert NullFillAt(sch, source, keys, omit, id, col);
    }
    if NullFilled(sch, source, keys, omit) {
      var id, col :| NullFillAt(sch, source, keys, omit, id, col);
      UpsertAllAt(rows, snap, omit, id);
      assert id in f && col in f[id] && f[id][col] == Null;
    }
  }

  /** Whether a transaction halts, is transient or commits is decided by NULLs first and
      dangling references second, after the upsert and again at the end. */
  lemma AttemptVerdict(c: Ctx, item: Item, phase: Phase, rows: Database)
    requires phase != ConfirmPhase && NotNullOk(c.sch, rows)
    ensures var omit := Omitted(c.nullFill, item.table);
            var snap := Restrict(c.source, item.keys);
            var mid := UpsertAll(rows, snap, omit);
            var end := PhaseEffect(rows, item.keys, PerTable(omit), phase, snap);
            var nulls := NullStaged(c.sch, c.source, item.keys, omit, rows);
            var late := phase == FillPhase && NullFilled(c.sch, c.source, item.keys, omit);
            var o := Attempt(c, item, phase, rows);
            && (o.Halted? <==> nulls || (!Dangles(c.sch, mid) && late))
            && (o.Transient? <==> !nulls && (Dangles(c.sch, mid) || (!late && Dangles(c.sch, end))))
            && (o.Committed? ==> o.rows == end)
  {
    var omit, snap := Omitted(c.nullFill, item.table), Restrict(c.source, item.keys);
    var mid, end := UpsertAll(rows, snap, omit), PhaseEffect(rows, item.keys, PerTable(omit), phase, snap);
    NullStagedMeans(c.sch, c.source, item.keys, omit, rows);
    DanglesMeans(c.sch, mid);
    DanglesMeans(c.sch, end);
    if NotNullOk(c.sch, mid) { NullFilledMeans(c.sch, c.source, item.keys, omit, rows); }
  }

  // ---------- whole passes ----------

  /** Table k's batch has a row that cannot be staged. */
  ghost predicate BadRow(c: Ctx, k: nat, rows: Database)
    requires k < |c.work|
  {
    NullStaged(c.sch, c.source, c.work[k].keys, Omitted(c.nullFill, c.work[k].table), rows)
  }

  ghost predicate NoBadRow(c: Ctx, rows: Database) {
    NotNullOk(c.sch, rows) && forall k: nat | k < |c.work| :: !BadRow(c, k, rows)
  }

  lemma SameBadRow(c: Ctx, k: nat, a: Database, b: Database)
    requires k < |c.work| && forall id <- c.work[k].keys :: Lookup(a, id) == Lookup(b, id)
    ensures BadRow(c, k, a) <==> BadRow(c, k, b)
  {
    var sch, source, keys, omit := c.sch, c.source, c.work[k].keys, Omitted(c.nullFill, c.work[k].table);
    if BadRow(c, k, a) {
      var id, col :| NullAt(sch, source, keys, omit, a, id, col);
      assert NullAt(sch, source, keys, omit, b, id, col);
    }
    if BadRow(c, k, b) {
      var id, col :| NullAt(sch, source, keys, omit, b, id, col);
      assert NullAt(sch, source, keys, omit, a, id, col);
    }
  }

  /** Once a table's rows are staged its columns are there, so staging again loads no NULL. */
  lemma OwnVisitStaysGood(c: Ctx, k: nat, phase: Phase, rows: Database)
    requires k < |c.work| && phase != ConfirmPhase
    requires Attempt(c, c.work[k], phase, rows).Committed?
    ensures BadRow(c, k, Attempt(c, c.work[k], phase, rows).rows) ==> BadRow(c, k, rows)
  {
    var sch, source, keys, omit := c.sch, c.source, c.work[k].keys, Omitted(c.nullFill, c.work[k].table);
    var after := Attempt(c, c.work[k], phase, rows).rows;
    if BadRow(c, k, after) {
      var id, col :| NullAt(sch, source, keys, omit, after, id, col);
      StagedIsThere(c, k, phase, rows, id);
      assert NullAt(sch, source, keys, omit, rows, id, col);
    }
  }

  lemma StagedIsThere(c: Ctx, k: nat, phase: Phase, rows: Database, id: RowId)
    requires k < |c.work| && phase != ConfirmPhase && id in c.work[k].keys && id in c.source
    requires Attempt(c, c.work[k], phase, rows).Committed?
    ensures var after := Attempt(c, c.work[k], phase, rows).rows; id in after && after[id].Keys == c.source[id].Keys
  {
    var omit, snap := Omitted(c.nullFill, c.work[k].table), Restrict(c.source, c.work[k].keys);
    UpsertAllAt(rows, snap, omit, id);
    assert UpsertAll(rows, snap, omit)[id].Keys == c.source[id].Keys;
  }

  /** A turn leaves good batches good and halts only on a fill that sets NULL. */
  lemma GoodVisit(c: Ctx, phase: Phase, k: nat, eligible: set<nat>, p: Progress)
    requires WorkOk(c) && k < |c.work| && phase != ConfirmPhase && NoBadRow(c, p.rows)
    ensures var q := Visit(c, phase, k, eligible, p); NoBadRow(c, q.rows) && (phase != FillPhase ==> q.halted == p.halted)
  {
    assert !BadRow(c, k, p.rows);
    AttemptVerdict(c, c.work[k], phase, p.rows);
    var q := Visit(c, phase, k, eligible, p);
    forall j: nat | j < |c.work| ensures !BadRow(c, j, q.rows) {
      if j == k {
        if k in eligible && Attempt(c, c.work[k], phase, p.rows).Committed? { OwnVisitStaysGood(c, k, phase, p.rows); }
      } else {
        forall id <- c.work[j].keys ensures Lookup(q.rows, id) == Lookup(p.rows, id) {
          OtherKeys(c, j, k, id);
          VisitFrame(c, phase, k, eligible, p, id);
        }
        SameBadRow(c, j, p.rows, q.rows);
      }
    }
    if k in eligible && Attempt(c, c.work[k], phase, p.rows).Committed? {
      AttemptFrame(c, k, phase, p.rows, RowId("", []));
    }
  }

  ghost predicate Good(c: Ctx, p: Progress) {
    !p.halted && NoBadRow(c, p.rows)
  }

  lemma GoodHandsOn(c: Ctx, phase: Phase, eligible: set<nat>, inv: LoopInv, i: nat)
    requires WorkOk(c) && phase in {UpsertPhase, DeletePhase} && i < |c.work|
    requires forall k: nat, p: Progress :: inv(k, p) <==> Good(c, p)
    ensures HandsOn(c, phase, eligible, inv, i) && HandsBack(c, phase, eligible, inv, i)
  {
    forall p: Progress | Good(c, p) ensures Good(c, Visit(c, phase, i, eligible, p)) { GoodVisit(c, phase, i, eligible, p); }
  }

  /** Without a bad row the first two phases never halt. */
  lemma GoodNeverHalts(c: Ctx)
    requires WorkOk(c) && NoBadRow(c, c.target)
    ensures Good(c, Upserts(c)) && Good(c, Deletes(c))
  {
    var inv: LoopInv := (i: nat, p: Progress) => Good(c, p);
    var all, u := UpTo(|c.work|), Upserts(c);
    forall i: nat | i < |c.work| ensures HandsOn(c, UpsertPhase, all, inv, i) { GoodHandsOn(c, UpsertPhase, all, inv, i); }
    Forward(c, UpsertPhase, all, inv, 0, Progress(c.target, {}, false, false));
    forall i: nat | i < |c.work| ensures HandsBack(c, DeletePhase, u.done, inv, i) { GoodHandsOn(c, DeletePhase, u.done, inv, i); }
    Backward(c, DeletePhase, u.done, inv, |c.work|, u.(done := {}));
  }

  /** Before table i's upsert, the batches from i on are as the pass found them. */
  ghost predicate Fresh(c: Ctx, i: nat, p: Progress) {
    && !p.halted && NotNullOk(c.sch, p.rows) && p.done <= UpTo(i)
    && forall j: nat, id {:trigger id in c.work[j].keys} | i <= j < |c.work| && id in c.work[j].keys ::
         Lookup(p.rows, id) == Lookup(c.target, id)
  }

  lemma FreshVisit(c: Ctx, i: nat, p: Progress)
    requires WorkOk(c) && i < |c.work| && Fresh(c, i, p)
    ensures var q := Visit(c, UpsertPhase, i, UpTo(|c.work|), p);
            if BadRow(c, i, c.target) then q == p.(halted := true) else Fresh(c, i + 1, q)
  {
    AttemptVerdict(c, c.work[i], UpsertPhase, p.rows);
    SameBadRow(c, i, p.rows, c.target);
    var q := Visit(c, UpsertPhase, i, UpTo(|c.work|), p);
    if !BadRow(c, i, c.target) {
      forall j: nat, id {:trigger id in c.work[j].keys} | i + 1 <= j < |c.work| && id in c.work[j].keys
        ensures Lookup(q.rows, id) == Lookup(c.target, id)
      {
        OtherKeys(c, j, i, id);
        VisitFrame(c, UpsertPhase, i, UpTo(|c.work|), p, id);
      }
      if Attempt(c, c.work[i], UpsertPhase, p.rows).Committed? {
        AttemptFrame(c, i, UpsertPhase, p.rows, RowId("", []));
      }
    }
  }

  /** Table `first`'s turn halts, whatever state it meets. */
  ghost predicate HaltsHere(c: Ctx, phase: Phase, eligible: set<nat>, inv: LoopInv, first: nat)
    requires first < |c.work|
  {
    forall p: Progress | inv(first, p) :: !p.halted && Visit(c, phase, first, eligible, p) == p.(halted := true)
  }

  lemma {:induction false} StopsAt(c: Ctx, phase: Phase, eligible: set<nat>, inv: LoopInv, i: nat, p: Progress, first: nat)
    requires i <= first < |c.work| && inv(i, p) && HaltsHere(c, phase, eligible, inv, first)
    requires forall k: nat | k < first :: HandsOn(c, phase, eligible, inv, k)
    ensures var q := RunForward(c, phase, i, eligible, p); q.halted && inv(first, q.(halted := false))
    decreases first - i
  {
    var q := Visit(c, phase, i, eligible, p);
    if i < first {
      assert HandsOn(c, phase, eligible, inv, i);
      StopsAt(c, phase, eligible, inv, i + 1, q, first);
    } else {
      assert RunForward(c, phase, i + 1, eligible, q) == q;
      assert q.(halted := false) == p;
    }
  }

  /** The upserts stop at the first table with a bad row: no table from it on is done and
      none of their rows has changed. */
  lemma StopsAtBadRow(c: Ctx, first: nat)
    requires WorkOk(c) && NotNullOk(c.sch, c.target) && first < |c.work| && BadRow(c, first, c.target)
    requires forall k: nat | k < first :: !BadRow(c, k, c.target)
    ensures Upserts(c).halted && Fresh(c, first, Upserts(c).(halted := false))
  {
    var inv: LoopInv := (i: nat, p: Progress) => Fresh(c, i, p);
    forall k: nat | k < first ensures HandsOn(c, UpsertPhase, UpTo(|c.work|), inv, k) {
      forall p: Progress | Fresh(c, k, p) { FreshVisit(c, k, p); }
    }
    forall p: Progress | Fresh(c, first, p) { FreshVisit(c, first, p); }
    StopsAt(c, UpsertPhase, UpTo(|c.work|), inv, 0, Progress(c.target, {}, false, false), first);
  }

  lemma {:induction false} FirstBadRow(c: Ctx, k: nat) returns (first: nat)
    requires k < |c.work| && BadRow(c, k, c.target)
    ensures first <= k && BadRow(c, first, c.target) && forall j: nat | j < first :: !BadRow(c, j, c.target)
  {
    if j: nat :| j < k && BadRow(c, j, c.target) { first := FirstBadRow(c, j); } else { first := k; }
  }

  /** A halted phase ends the pass where it is. */
  lemma HaltEndsPass(c: Ctx)
    requires Upserts(c).halted
    ensures Deletes(c) == Upserts(c).(done := {}) && Fills(c) == Deletes(c) && Pass(c) == Deletes(c)
  {
    assert ToFill(c, {}) == {};
  }

  /** The acyclic pass, and the first two phases of any pass, halt exactly when some row of
      the batch would put NULL into a NOT NULL column; then nothing is confirmed, and no row
      of the first such table or of a later one has changed. */
  lemma PassHaltsExactlyWhen(c: Ctx)
    requires WorkOk(c) && NotNullOk(c.sch, c.target)
    ensures Deletes(c).halted <==> exists k: nat :: k < |c.work| && BadRow(c, k, c.target)
    ensures Deletes(c).halted ==> Deletes(c).done == {} && Pass(c) == Deletes(c)
    ensures NullFillOk(c) ==> Pass(c).halted == Deletes(c).halted
    ensures forall k: nat, j: nat, id {:trigger BadRow(c, k, c.target), id in c.work[j].keys} |
              k < |c.work| && BadRow(c, k, c.target) && k <= j < |c.work| && id in c.work[j].keys
              && (forall i: nat | i < k :: !BadRow(c, i, c.target)) ::
              Lookup(Deletes(c).rows, id) == Lookup(c.target, id)
  {
    if k: nat :| k < |c.work| && BadRow(c, k, c.target) {
      var first := FirstBadRow(c, k);
      StopsAtBadRow(c, first);
      HaltEndsPass(c);
    } else {
      GoodNeverHalts(c);
      if NullFillOk(c) { FillsNeverHalt(c); }
    }
  }

  lemma NoNullFill(c: Ctx, k: nat)
    requires NullFillOk(c) && WorkOk(c) && k < |c.work|
    ensures !NullFilled(c.sch, c.source, c.work[k].keys, Omitted(c.nullFill, c.work[k].table))
  {}

  lemma FillsNeverHalt(c: Ctx)
    requires WorkOk(c) && NullFillOk(c) && Good(c, Deletes(c))
    ensures !Fills(c).halted
  {
    var inv: LoopInv := (i: nat, p: Progress) => Good(c, p);
    var d := Deletes(c);
    forall i: nat | i < |c.work| ensures HandsOn(c, FillPhase, ToFill(c, d.done), inv, i) {
      forall p: Progress | Good(c, p) ensures Good(c, Visit(c, FillPhase, i, ToFill(c, d.done), p)) {
        GoodVisit(c, FillPhase, i, ToFill(c, d.done), p);
        NoNullFill(c, i);
        assert !BadRow(c, i, p.rows);
        AttemptVerdict(c, c.work[i], FillPhase, p.rows);
      }
    }
    Forward(c, FillPhase, ToFill(c, d.done), inv, 0, d.(done := {}));
  }

  // ---------- fills that set NULL ----------

  /** A fill phase from p after its first k tables. */
  ghost function FirstFills(c: Ctx, eligible: set<nat>, p: Progress, k: nat): Progress
    requires k <= |c.work|
  {
    if k == 0 then p
    else
      var q := FirstFills(c, eligible, p, k - 1);
      if q.halted then q else Visit(c, FillPhase, k - 1, eligible, q)
  }

  lemma {:induction false} FillsGoOn(c: Ctx, eligible: set<nat>, p: Progress, k: nat)
    requires k <= |c.work|
    ensures RunForward(c, FillPhase, 0, eligible, p) == RunForward(c, FillPhase, k, eligible, FirstFills(c, eligible, p, k))
  {
    if k > 0 { FillsGoOn(c, eligible, p, k - 1); }
  }

  /** Table k's turn sets a NOT NULL column to NULL, its references being in order. */
  ghost predicate BadFill(c: Ctx, k: nat, rows: Database)
    requires k < |c.work|
  {
    var omit := Omitted(c.nullFill, c.work[k].table);
    && NullFilled(c.sch, c.source, c.work[k].keys, omit)
    && !Dangles(c.sch, UpsertAll(rows, Restrict(c.source, c.work[k].keys), omit))
  }

  ghost predicate BadFillTurn(c: Ctx, eligible: set<nat>, p: Progress, k: nat)
    requires k < |c.work|
  {
    var q := FirstFills(c, eligible, p, k);
    k in eligible && !q.halted && BadFill(c, k, q.rows)
  }

  lemma OneFill(c: Ctx, k: nat, eligible: set<nat>, p: Progress)
    requires WorkOk(c) && k < |c.work| && Good(c, p)
    ensures var q := Visit(c, FillPhase, k, eligible, p);
            NoBadRow(c, q.rows) && (q.halted <==> k in eligible && BadFill(c, k, p.rows))
  {
    GoodVisit(c, FillPhase, k, eligible, p);
    assert !BadRow(c, k, p.rows);
    AttemptVerdict(c, c.work[k], FillPhase, p.rows);
  }

  lemma OneMoreFill(c: Ctx, eligible: set<nat>, p: Progress, n: nat)
    requires WorkOk(c) && n < |c.work| && NoBadRow(c, FirstFills(c, eligible, p, n).rows)
    ensures NoBadRow(c, FirstFills(c, eligible, p, n + 1).rows)
    ensures FirstFills(c, eligible, p, n + 1).halted <==>
            FirstFills(c, eligible, p, n).halted || BadFillTurn(c, eligible, p, n)
  {
    var q := FirstFills(c, eligible, p, n);
    if !q.halted { OneFill(c, n, eligible, q); }
  }

  lemma {:induction false} FirstFillsGood(c: Ctx, eligible: set<nat>, p: Progress, n: nat)
    requires WorkOk(c) && NoBadRow(c, p.rows) && n <= |c.work|
    ensures NoBadRow(c, FirstFills(c, eligible, p, n).rows)
  {
    if n > 0 {
      FirstFillsGood(c, eligible, p, n - 1);
      OneMoreFill(c, eligible, p, n - 1);
    }
  }

  /** A flag that each bad turn raises is up exactly when there was one. */
  lemma {:induction false} Raised(flag: nat -> bool, bad: nat -> bool, n: nat)
    requires !flag(0) && forall k: nat | k < n :: flag(k + 1) <==> flag(k) || bad(k)
    ensures flag(n) <==> exists k: nat :: k < n && bad(k)
  {
    if n > 0 {
      Raised(flag, bad, n - 1);
      assert flag(n - 1 + 1) <==> flag(n - 1) || bad(n - 1);
    }
  }

  lemma {:induction false} FirstFillsHalt(c: Ctx, eligible: set<nat>, p: Progress)
    requires WorkOk(c) && Good(c, p)
    ensures FirstFills(c, eligible, p, |c.work|).halted <==>
            exists k: nat :: k < |c.work| && BadFillTurn(c, eligible, p, k)
  {
    var flag: nat -> bool := (k: nat) => k <= |c.work| && FirstFills(c, eligible, p, k).halted;
    var bad: nat -> bool := (k: nat) => k < |c.work| && BadFillTurn(c, eligible, p, k);
    forall k: nat | k < |c.work| ensures flag(k + 1) <==> flag(k) || bad(k) {
      FirstFillsGood(c, eligible, p, k);
      OneMoreFill(c, eligible, p, k);
    }
    Raised(flag, bad, |c.work|);
    assert forall k: nat | k < |c.work| :: bad(k) <==> BadFillTurn(c, eligible, p, k);
  }

  /** Past the first two phases a pass halts exactly when some table it fills has, at its
      turn, a row whose filled NOT NULL column is NULL at the source. */
  lemma FillHaltsExactlyWhen(c: Ctx)
    requires WorkOk(c) && NoBadRow(c, c.target)
    ensures Pass(c).halted <==>
            exists k: nat :: k < |c.work| && BadFillTurn(c, ToFill(c, Deletes(c).done), Deletes(c).(done := {}), k)
  {
    GoodNeverHalts(c);
    var eligible, p := ToFill(c, Deletes(c).done), Deletes(c).(done := {});
    FirstFillsHalt(c, eligible, p);
    FillsGoOn(c, eligible, p, |c.work|);
  }

  // ---------- transient passes ----------

  /** Table k, between lo and hi, had its turn and is not done. */
  predicate Left(c: Ctx, lo: nat, hi: nat, eligible: set<nat>, q: Progress, k: nat) {
    lo <= k < hi && k in eligible && k !in q.done
  }

  /** A phase is transient exactly when some table whose turn it was did not commit. */
  lemma {:induction false} ForwardLeaves(c: Ctx, phase: Phase, i: nat, eligible: set<nat>, p: Progress)
    requires i <= |c.work| && p.done <= UpTo(i)
    ensures var q := RunForward(c, phase, i, eligible, p);
            && p.done <= q.done <= p.done + eligible
            && (!q.halted ==> (q.transient <==> p.transient || exists k: nat :: Left(c, i, |c.work|, eligible, q, k)))
    decreases |c.work| - i
  {
    var q := RunForward(c, phase, i, eligible, p);
    if i < |c.work| && !p.halted {
      var v := Visit(c, phase, i, eligible, p);
      ForwardLeaves(c, phase, i + 1, eligible, v);
      ForwardKeeps(c, phase, i + 1, eligible, v, i);
      assert v.halted ==> q == v;
      assert v.transient && !p.transient ==> Left(c, i, |c.work|, eligible, q, i);
      if !q.halted && q.transient && !v.transient {
        var k: nat :| Left(c, i + 1, |c.work|, eligible, q, k);
        assert Left(c, i, |c.work|, eligible, q, k);
      }
      if !q.halted && !v.transient {
        forall k: nat ensures !Left(c, i, |c.work|, eligible, q, k) || Left(c, i + 1, |c.work|, eligible, q, k) {}
      }
    }
  }

  /** A table whose turn is past is not done later. */
  lemma {:induction false} ForwardKeeps(c: Ctx, phase: Phase, i: nat, eligible: set<nat>, p: Progress, k: nat)
    requires k < i <= |c.work|
    ensures k in RunForward(c, phase, i, eligible, p).done <==> k in p.done
    decreases |c.work| - i
  {
    if i < |c.work| && !p.halted { ForwardKeeps(c, phase, i + 1, eligible, Visit(c, phase, i, eligible, p), k); }
  }

  lemma {:induction false} BackwardKeeps(c: Ctx, phase: Phase, n: nat, eligible: set<nat>, p: Progress, k: nat)
    requires n <= k && n <= |c.work|
    ensures k in RunBackward(c, phase, n, eligible, p).done <==> k in p.done
  {
    if n > 0 && !p.halted { BackwardKeeps(c, phase, n - 1, eligible, Visit(c, phase, n - 1, eligible, p), k); }
  }

  lemma {:induction false} BackwardLeaves(c: Ctx, phase: Phase, n: nat, eligible: set<nat>, p: Progress)
    requires n <= |c.work| && forall k <- p.done :: n <= k
    ensures var q := RunBackward(c, phase, n, eligible, p);
            && p.done <= q.done <= p.done + eligible
            && (!q.halted ==> (q.transient <==> p.transient || exists k: nat :: Left(c, 0, n, eligible, q, k)))
  {
    var q := RunBackward(c, phase, n, eligible, p);
    if n > 0 && !p.halted {
      var v := Visit(c, phase, n - 1, eligible, p);
      BackwardLeaves(c, phase, n - 1, eligible, v);
      BackwardKeeps(c, phase, n - 1, eligible, v, n - 1);
      assert v.halted ==> q == v;
      assert v.transient && !p.transient ==> Left(c, 0, n, eligible, q, n - 1);
      if !q.halted && q.transient && !v.transient {
        var k: nat :| Left(c, 0, n - 1, eligible, q, k);
        assert Left(c, 0, n, eligible, q, k);
      }
      if !q.halted && !v.transient {
        forall k: nat ensures !Left(c, 0, n, eligible, q, k) || Left(c, 0, n - 1, eligible, q, k) {}
      }
    }
  }

  /** Some table of the batch is not confirmed. */
  predicate SomeLeft(c: Ctx, done: set<nat>) {
    exists k: nat :: k < |c.work| && k !in done
  }

  /** A pass that did not halt is transient exactly when it left a table unconfirmed. */
  lemma TransientExactlyWhen(c: Ctx)
    ensures !Deletes(c).halted ==> (Deletes(c).transient <==> SomeLeft(c, Deletes(c).done))
    ensures !Pass(c).halted ==> (Pass(c).transient <==> SomeLeft(c, Pass(c).done))
  {
    if !Deletes(c).halted { DeletesLeave(c); }
    if !Fills(c).halted { FillsLeave(c); }
  }

  lemma DeletesLeave(c: Ctx)
    requires !Deletes(c).halted
    ensures Deletes(c).transient <==> SomeLeft(c, Deletes(c).done)
  {
    var n, u, d := |c.work|, Upserts(c), Deletes(c);
    ForwardLeaves(c, UpsertPhase, 0, UpTo(n), Progress(c.target, {}, false, false));
    BackwardLeaves(c, DeletePhase, n, u.done, u.(done := {}));
    forall k: nat ensures Left(c, 0, n, UpTo(n), u, k) || Left(c, 0, n, u.done, d, k) <==> k < n && k !in d.done {}
  }

  lemma FillsLeave(c: Ctx)
    requires !Fills(c).halted
    ensures Pass(c).transient <==> SomeLeft(c, Pass(c).done)
  {
    var n, d, f := |c.work|, Deletes(c), Fills(c);
    var fill := ToFill(c, d.done);
    ForwardLeaves(c, FillPhase, 0, fill, d.(done := {}));
    DeletesLeave(c);
    forall k: nat ensures (k < n && k !in d.done) || Left(c, 0, n, fill, f, k) <==> k < n && k !in Pass(c).done {}
  }
}
