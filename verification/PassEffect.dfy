/** What any drain pass does, whatever its batch: it touches only its batch's keys, a
    confirmed table's keys agree with the source, the target stays sound, and on an
    acyclic component whose queued rows all still exist the first queued table is always
    confirmed. */
module PassEffect {
  import opened Rows
  import opened Drain
  import opened FkPass

  // ---------- frame ----------

  /** A committed attempt leaves other tables alone and the target sound. */
  lemma AttemptFrame(c: Ctx, k: nat, phase: Phase, rows: Database, id: RowId)
    requires k < |c.work| && phase != ConfirmPhase
    requires Attempt(c, c.work[k], phase, rows).Committed?
    ensures var rows' := Attempt(c, c.work[k], phase, rows).rows;
            && FkOk(c.sch, rows') && NotNullOk(c.sch, rows')
            && (id !in c.work[k].keys ==> Lookup(rows', id) == Lookup(rows, id))
  {
    PhaseOutcome(rows, c.work[k].keys, PerTable(Omitted(c.nullFill, c.work[k].table)), phase,
                 Restrict(c.source, c.work[k].keys), id);
  }

  lemma VisitFrame(c: Ctx, phase: Phase, k: nat, eligible: set<nat>, p: Progress, id: RowId)
    requires k < |c.work| && phase != ConfirmPhase && (k !in eligible || id !in c.work[k].keys)
    ensures Lookup(Visit(c, phase, k, eligible, p).rows, id) == Lookup(p.rows, id)
  {
    if k in eligible && Attempt(c, c.work[k], phase, p.rows).Committed? {
      AttemptFrame(c, k, phase, p.rows, id);
    }
  }

  lemma {:induction false} ForwardFrame(c: Ctx, phase: Phase, n: nat, eligible: set<nat>, p: Progress, id: RowId)
    requires n <= |c.work| && phase != ConfirmPhase
    requires forall k | n <= k < |c.work| && k in eligible :: id !in c.work[k].keys
    ensures Lookup(RunForward(c, phase, n, eligible, p).rows, id) == Lookup(p.rows, id)
    decreases |c.work| - n
  {
    if n < |c.work| && !p.halted {
      VisitFrame(c, phase, n, eligible, p, id);
      ForwardFrame(c, phase, n + 1, eligible, Visit(c, phase, n, eligible, p), id);
    }
  }

  lemma {:induction false} BackwardFrame(c: Ctx, phase: Phase, n: nat, eligible: set<nat>, p: Progress, id: RowId)
    requires n <= |c.work| && phase != ConfirmPhase
    requires forall k | 0 <= k < n && k in eligible :: id !in c.work[k].keys
    ensures Lookup(RunBackward(c, phase, n, eligible, p).rows, id) == Lookup(p.rows, id)
  {
    if n > 0 && !p.halted {
      VisitFrame(c, phase, n - 1, eligible, p, id);
      BackwardFrame(c, phase, n - 1, eligible, Visit(c, phase, n - 1, eligible, p), id);
    }
  }

  ghost predicate InBatch(c: Ctx, id: RowId) {
    exists k: nat :: k < |c.work| && id in c.work[k].keys
  }

  /** A pass changes no row outside its batch. */
  lemma PassFrame(c: Ctx, id: RowId)
    requires !InBatch(c, id)
    ensures Lookup(Pass(c).rows, id) == Lookup(c.target, id)
  {
    ForwardFrame(c, UpsertPhase, 0, UpTo(|c.work|), Progress(c.target, {}, false, false), id);
    BackwardFrame(c, DeletePhase, |c.work|, Upserts(c).done, Upserts(c).(done := {}), id);
    ForwardFrame(c, FillPhase, 0, ToFill(c, Deletes(c).done), Deletes(c).(done := {}), id);
  }

  // ---------- confirmed tables agree with the source ----------

  /** What table i's keys look like once its delete phase committed. */
  ghost predicate Settled(c: Ctx, i: nat, rows: Database)
    requires i < |c.work|
  {
    forall id <- c.work[i].keys ::
      && (id in rows <==> id in c.source)
      && (Omitted(c.nullFill, c.work[i].table) == {} ==> Lookup(rows, id) == Lookup(c.source, id))
  }

  ghost predicate Agrees(c: Ctx, i: nat, rows: Database)
    requires i < |c.work|
  {
    forall id <- c.work[i].keys :: Lookup(rows, id) == Lookup(c.source, id)
  }

  /** Tables do not share keys. */
  lemma OtherKeys(c: Ctx, i: nat, k: nat, id: RowId)
    requires WorkOk(c) && i < |c.work| && k < |c.work| && i != k && id in c.work[i].keys
    ensures id !in c.work[k].keys
  {
    assert At(c, i, c.work[i].table) && At(c, k, c.work[k].table);
  }

  lemma SettledElsewhere(c: Ctx, i: nat, phase: Phase, k: nat, eligible: set<nat>, p: Progress)
    requires WorkOk(c) && i < |c.work| && k < |c.work| && k != i && phase != ConfirmPhase
    ensures Settled(c, i, p.rows) ==> Settled(c, i, Visit(c, phase, k, eligible, p).rows)
    ensures Agrees(c, i, p.rows) ==> Agrees(c, i, Visit(c, phase, k, eligible, p).rows)
  {
    var q := Visit(c, phase, k, eligible, p);
    forall id <- c.work[i].keys ensures Lookup(q.rows, id) == Lookup(p.rows, id)
                                     && (id in q.rows <==> id in p.rows)
    {
      OtherKeys(c, i, k, id);
      VisitFrame(c, phase, k, eligible, p, id);
    }
  }

  lemma DeleteSettles(c: Ctx, i: nat, rows: Database)
    requires i < |c.work| && Attempt(c, c.work[i], DeletePhase, rows).Committed?
    ensures Settled(c, i, Attempt(c, c.work[i], DeletePhase, rows).rows)
  {
    var keys := c.work[i].keys;
    forall id <- keys {
      PhaseOutcome(rows, keys, PerTable(Omitted(c.nullFill, c.work[i].table)), DeletePhase,
                   Restrict(c.source, keys), id);
    }
  }

  lemma FillAgrees(c: Ctx, i: nat, rows: Database)
    requires i < |c.work| && Settled(c, i, rows) && Attempt(c, c.work[i], FillPhase, rows).Committed?
    ensures Agrees(c, i, Attempt(c, c.work[i], FillPhase, rows).rows)
  {
    var keys := c.work[i].keys;
    forall id <- keys {
      PhaseOutcome(rows, keys, PerTable(Omitted(c.nullFill, c.work[i].table)), FillPhase,
                   Restrict(c.source, keys), id);
    }
  }

  ghost predicate SettledIfDone(c: Ctx, i: nat, p: Progress)
    requires i < |c.work|
  {
    i in p.done ==> Settled(c, i, p.rows)
  }

  lemma DeleteVisitSettles(c: Ctx, k: nat, eligible: set<nat>, p: Progress, i: nat)
    requires WorkOk(c) && i < |c.work| && k < |c.work| && (i in p.done ==> k < i)
    ensures SettledIfDone(c, i, p) ==> SettledIfDone(c, i, Visit(c, DeletePhase, k, eligible, p))
    ensures i in Visit(c, DeletePhase, k, eligible, p).done ==> k <= i
  {
    if k == i {
      if i in eligible && Attempt(c, c.work[i], DeletePhase, p.rows).Committed? { DeleteSettles(c, i, p.rows); }
    } else {
      SettledElsewhere(c, i, DeletePhase, k, eligible, p);
    }
  }

  lemma {:induction false} BackwardSettles(c: Ctx, n: nat, eligible: set<nat>, p: Progress, i: nat)
    requires WorkOk(c) && i < |c.work| && n <= |c.work| && (i in p.done ==> n <= i)
    ensures SettledIfDone(c, i, p) ==> SettledIfDone(c, i, RunBackward(c, DeletePhase, n, eligible, p))
  {
    if n > 0 && !p.halted {
      DeleteVisitSettles(c, n - 1, eligible, p, i);
      BackwardSettles(c, n - 1, eligible, Visit(c, DeletePhase, n - 1, eligible, p), i);
    }
  }

  lemma {:induction false} ForwardFills(c: Ctx, n: nat, eligible: set<nat>, p: Progress, i: nat)
    requires WorkOk(c) && i < |c.work| && n <= |c.work|
    requires Settled(c, i, p.rows)
    requires i in p.done ==> Agrees(c, i, p.rows) && i < n
    ensures var q := RunForward(c, FillPhase, n, eligible, p);
            && (i in q.done ==> Agrees(c, i, q.rows))
            && (i !in eligible ==> Settled(c, i, q.rows))
    decreases |c.work| - n
  {
    if n < |c.work| && !p.halted {
      var q := Visit(c, FillPhase, n, eligible, p);
      if n == i {
        if i in q.done { FillAgrees(c, i, p.rows); }
      } else {
        SettledElsewhere(c, i, FillPhase, n, eligible, p);
      }
      ForwardFills(c, n + 1, eligible, q, i);
    }
  }

  /** A table the pass confirms had its delete committed. */
  lemma ConfirmedWereDeleted(c: Ctx)
    ensures Pass(c).done <= Deletes(c).done
  {
    var deleted := Deletes(c).done;
    ForwardDone(c, FillPhase, 0, ToFill(c, deleted), Deletes(c).(done := {}));
  }

  lemma {:induction false} ForwardDone(c: Ctx, phase: Phase, i: nat, eligible: set<nat>, p: Progress)
    requires i <= |c.work|
    ensures RunForward(c, phase, i, eligible, p).done <= p.done + eligible
    decreases |c.work| - i
  {
    if i < |c.work| && !p.halted {
      ForwardDone(c, phase, i + 1, eligible, Visit(c, phase, i, eligible, p));
    }
  }

  /** A table is confirmed only once its batch agrees with the source. */
  lemma ConfirmedAgrees(c: Ctx, i: nat)
    requires WorkOk(c) && i < |c.work| && i in Pass(c).done
    ensures Agrees(c, i, Pass(c).rows)
  {
    var p := Deletes(c);
    ConfirmedWereDeleted(c);
    BackwardSettles(c, |c.work|, Upserts(c).done, Upserts(c).(done := {}), i);
    ForwardFills(c, 0, ToFill(c, p.done), p.(done := {}), i);
  }

  // ---------- the target stays sound ----------

  lemma EffectWellFormed(sch: Schema, rows: Database, keys: set<RowId>, cols: set<Column>, phase: Phase, snap: Database)
    requires WellFormed(sch, rows) && WellFormed(sch, snap)
    ensures WellFormed(sch, PhaseEffect(rows, keys, PerTable(cols), phase, snap))
  {
    var merged := UpsertAll(rows, snap, cols);
    assert forall id | id in snap :: merged[id].Keys == snap[id].Keys;
    assert WellFormed(sch, merged);
  }

  lemma VisitSound(c: Ctx, phase: Phase, k: nat, eligible: set<nat>, p: Progress)
    requires k < |c.work| && WellFormed(c.sch, c.source)
    ensures Sound(c.sch, p.rows) ==> Sound(c.sch, Visit(c, phase, k, eligible, p).rows)
  {
    if Sound(c.sch, p.rows) && k in eligible && Attempt(c, c.work[k], phase, p.rows).Committed? {
      var snap := Restrict(c.source, c.work[k].keys);
      assert WellFormed(c.sch, snap);
      EffectWellFormed(c.sch, p.rows, c.work[k].keys, Omitted(c.nullFill, c.work[k].table), phase, snap);
    }
  }

  /** One table's turn keeps a property of the rows. */
  ghost predicate KeepsRows(c: Ctx, phase: Phase, eligible: set<nat>, good: Database -> bool, k: nat)
    requires k < |c.work|
  {
    forall p: Progress | good(p.rows) :: good(Visit(c, phase, k, eligible, p).rows)
  }

  lemma {:induction false} ForwardRows(c: Ctx, phase: Phase, eligible: set<nat>, good: Database -> bool, i: nat, p: Progress)
    requires i <= |c.work| && good(p.rows)
    requires forall k: nat | k < |c.work| :: KeepsRows(c, phase, eligible, good, k)
    ensures good(RunForward(c, phase, i, eligible, p).rows)
    decreases |c.work| - i
  {
    if i < |c.work| && !p.halted {
      assert KeepsRows(c, phase, eligible, good, i);
      ForwardRows(c, phase, eligible, good, i + 1, Visit(c, phase, i, eligible, p));
    }
  }

  lemma {:induction false} BackwardRows(c: Ctx, phase: Phase, eligible: set<nat>, good: Database -> bool, n: nat, p: Progress)
    requires n <= |c.work| && good(p.rows)
    requires forall k: nat | k < |c.work| :: KeepsRows(c, phase, eligible, good, k)
    ensures good(RunBackward(c, phase, n, eligible, p).rows)
  {
    if n > 0 && !p.halted {
      assert KeepsRows(c, phase, eligible, good, n - 1);
      BackwardRows(c, phase, eligible, good, n - 1, Visit(c, phase, n - 1, eligible, p));
    }
  }

  lemma SoundTurn(c: Ctx, phase: Phase, eligible: set<nat>, good: Database -> bool, k: nat)
    requires k < |c.work| && WellFormed(c.sch, c.source) && forall db: Database :: good(db) <==> Sound(c.sch, db)
    ensures KeepsRows(c, phase, eligible, good, k)
  {
    forall p: Progress | good(p.rows) ensures good(Visit(c, phase, k, eligible, p).rows) {
      VisitSound(c, phase, k, eligible, p);
    }
  }

  /** A pass never leaves a dangling reference or a forbidden NULL behind, not even when
      tables of it were refused. */
  lemma PassKeepsSound(c: Ctx)
    requires WellFormed(c.sch, c.source) && Sound(c.sch, c.target)
    ensures Sound(c.sch, Pass(c).rows)
  {
    var good: Database -> bool := (db: Database) => Sound(c.sch, db);
    var p, q := Upserts(c), Deletes(c);
    forall k: nat | k < |c.work|
      ensures KeepsRows(c, UpsertPhase, UpTo(|c.work|), good, k) && KeepsRows(c, DeletePhase, p.done, good, k)
           && KeepsRows(c, FillPhase, ToFill(c, q.done), good, k)
    {
      SoundTurn(c, UpsertPhase, UpTo(|c.work|), good, k);
      SoundTurn(c, DeletePhase, p.done, good, k);
      SoundTurn(c, FillPhase, ToFill(c, q.done), good, k);
    }
    ForwardRows(c, UpsertPhase, UpTo(|c.work|), good, 0, Progress(c.target, {}, false, false));
    BackwardRows(c, DeletePhase, p.done, good, |c.work|, p.(done := {}));
    ForwardRows(c, FillPhase, ToFill(c, q.done), good, 0, q.(done := {}));
  }

  // ---------- progress ----------

  /** Every table with a difference is in the pass, some part of its queue at least. */
  ghost predicate Queued(c: Ctx) {
    forall id | Differ(c.source, c.target, id) :: exists i :: At(c, i, id.table)
  }

  /** A legal acyclic pass of any batch whose keys all still exist at the source. */
  type Upserting = c: Ctx | Legal(c) && Queued(c) && c.nullFill == map[]
                            && forall k, id {:trigger id in c.work[k].keys} |
                                 0 <= k < |c.work| && id in c.work[k].keys :: id in c.source
    witness Ctx(Schema(map[], {}, {}), map[], map[], map[], [])

  /** What holds from the first table's upsert to its delete. */
  ghost predicate FirstLanded(c: Ctx, p: Progress)
    requires |c.work| > 0
  {
    !p.halted && Agrees(c, 0, p.rows) && FkOk(c.sch, p.rows) && NotNullOk(c.sch, p.rows)
  }

  lemma NullFree(c: Upserting, k: nat, rows: Database)
    requires k < |c.work| && NotNullOk(c.sch, rows)
    ensures NotNullOk(c.sch, UpsertAll(rows, Restrict(c.source, c.work[k].keys), {}))
  {
    var merged: Database := UpsertAll(rows, Restrict(c.source, c.work[k].keys), {});
    forall id: RowId, col: Column | id in merged && col in merged[id] && (id.table, col) in c.sch.notNull
      ensures merged[id][col].Text?
    {
      UpsertAllAt(rows, Restrict(c.source, c.work[k].keys), {}, id);
      if id in c.source { UpsertRowFacts(Lookup(rows, id), c.source[id], {}); }
    }
  }

  lemma NeverHalts(c: Upserting, k: nat, phase: Phase, rows: Database)
    requires k < |c.work| && phase in {UpsertPhase, DeletePhase} && NotNullOk(c.sch, rows)
    ensures !Attempt(c, c.work[k], phase, rows).Halted?
  {
    NullFree(c, k, rows);
  }

  /** The first queued table references only tables without a queue. */
  lemma FirstUpsertAccepted(c: Upserting)
    requires |c.work| > 0
    ensures Attempt(c, c.work[0], UpsertPhase, c.target) ==
            Committed(UpsertAll(c.target, Restrict(c.source, c.work[0].keys), {}))
  {
    var snap := Restrict(c.source, c.work[0].keys);
    var m := UpsertAll(c.target, snap, {});
    NullFree(c, 0, c.target);
    forall fk, id | fk in c.sch.fks && id in m && id.table == fk.child ensures RefOk(fk, m, id) {
      UpsertAllAt(c.target, snap, {}, id);
      if id in snap {
        UpsertRowFacts(Lookup(c.target, id), c.source[id], {});
        assert RefOk(fk, c.source, id);
        assert At(c, 0, fk.child);
        if Ref(fk, m[id]).Some? {
          FirstHasNoQueuedParent(c, fk, Ref(fk, m[id]).value);
        }
      } else {
        assert RefOk(fk, c.target, id);
      }
    }
  }

  lemma FirstHasNoQueuedParent(c: Upserting, fk: Fk, r: RowId)
    requires |c.work| > 0 && fk in c.sch.fks && fk.child == c.work[0].table && r.table == fk.parent && r in c.source
    ensures r in c.target
  {
    assert At(c, 0, fk.child);
    assert !Nulled(c, fk) by { if fk.cols != [] { assert fk.cols[0] in fk.cols; } }
    assert !Differ(c.source, c.target, r);
  }

  lemma LandedElsewhere(c: Upserting, phase: Phase, k: nat, eligible: set<nat>, p: Progress)
    requires 0 < k < |c.work| && phase in {UpsertPhase, DeletePhase} && FirstLanded(c, p)
    ensures FirstLanded(c, Visit(c, phase, k, eligible, p))
  {
    NeverHalts(c, k, phase, p.rows);
    SettledElsewhere(c, 0, phase, k, eligible, p);
  }

  lemma {:induction false} ForwardLanded(c: Upserting, n: nat, eligible: set<nat>, p: Progress)
    requires 0 < n <= |c.work| && FirstLanded(c, p) && 0 in p.done
    ensures var q := RunForward(c, UpsertPhase, n, eligible, p); FirstLanded(c, q) && 0 in q.done
    decreases |c.work| - n
  {
    if n < |c.work| {
      LandedElsewhere(c, UpsertPhase, n, eligible, p);
      ForwardLanded(c, n + 1, eligible, Visit(c, UpsertPhase, n, eligible, p));
    }
  }

  lemma {:induction false} BackwardConfirms(c: Upserting, n: nat, eligible: set<nat>, p: Progress)
    requires 0 < n <= |c.work| && FirstLanded(c, p) && 0 in eligible
    ensures 0 in RunBackward(c, DeletePhase, n, eligible, p).done
  {
    if n > 1 {
      LandedElsewhere(c, DeletePhase, n - 1, eligible, p);
      BackwardConfirms(c, n - 1, eligible, Visit(c, DeletePhase, n - 1, eligible, p));
    } else {
      FirstDeleteIsNoOp(c, p);
    }
  }

  lemma FirstDeleteIsNoOp(c: Upserting, p: Progress)
    requires |c.work| > 0 && FirstLanded(c, p)
    ensures Attempt(c, c.work[0], DeletePhase, p.rows) == Committed(p.rows)
  {
    var keys := c.work[0].keys;
    var snap := Restrict(c.source, keys);
    var merged := UpsertAll(p.rows, snap, {});
    forall id: RowId ensures Lookup(merged, id) == Lookup(p.rows, id) {
      UpsertAllAt(p.rows, snap, {}, id);
      if id in snap {
        assert Lookup(p.rows, id) == Lookup(c.source, id);
        UpsertRowFacts(Lookup(p.rows, id), c.source[id], {});
      }
    }
    SameLookup(merged, p.rows);
    assert keys - snap.Keys == {};
    assert DeleteAbsent(merged, keys, snap) == p.rows;
  }

  /** Whatever the batch, the first table with a queue is confirmed. */
  lemma EveryPassProgresses(c: Upserting)
    requires |c.work| > 0
    ensures 0 in Pass(c).done
  {
    FirstUpsertAccepted(c);
    var start := Progress(c.target, {}, false, false);
    var p := Visit(c, UpsertPhase, 0, UpTo(|c.work|), start);
    forall id <- c.work[0].keys ensures Lookup(p.rows, id) == Lookup(c.source, id) {
      UpsertAllAt(c.target, Restrict(c.source, c.work[0].keys), {}, id);
      UpsertRowFacts(Lookup(c.target, id), c.source[id], {});
    }
    AttemptFrame(c, 0, UpsertPhase, c.target, RowId("", []));
    ForwardLanded(c, 1, UpTo(|c.work|), p);
    BackwardConfirms(c, |c.work|, Upserts(c).done, Upserts(c).(done := {}));
    assert ToFill(c, Deletes(c).done) == {};
  }
}
