/** From the graph analysis to the drain: a component ordered and classified by it meets
    the drain's hypotheses, so one covering pass makes the target equal to the source. */
module ComponentPlan {
  import opened Rows
  import opened Graph
  import opened FkGraph
  import opened CyclicFk
  import opened FkPass

  ghost predicate KeyOf(members: seq<TableDef>, f: Fk, t: TableDef, fk: ForeignKey) {
    t in members && fk in t.fks && f == Fk(fk.child, fk.cols, fk.parent)
  }

  /** The target's foreign keys are the members', its NOT NULL columns are not nullable. */
  ghost predicate SchemaOf(sch: Schema, members: seq<TableDef>) {
    && (forall f <- sch.fks :: exists t, fk :: KeyOf(members, f, t, fk))
    && (forall t, col | (t, col) in sch.notNull :: !ColumnNullable(ByRef(members), t, col))
  }

  /** The pass visits its tables in the given order; `pos` are their places in it. */
  ghost predicate Follows(c: Ctx, order: seq<Node>, pos: seq<nat>) {
    && |pos| == |c.work| && Distinct(order)
    && (forall k | 0 <= k < |pos| :: pos[k] < |order| && c.work[k].table == order[pos[k]])
    && (forall j, k | 0 <= j < k < |pos| :: pos[j] < pos[k])
  }

  lemma {:induction false} BeforeMeansEarlier(c: Ctx, order: seq<Node>, pos: seq<nat>, i: int, j: int, t: Table, u: Table)
    requires Follows(c, order, pos) && At(c, i, t) && At(c, j, u) && Before(order, t, u)
    ensures i < j
  {
    var a, b :| 0 <= a < b < |order| && order[a] == t && order[b] == u;
    assert pos[i] == a && pos[j] == b;
  }

  // ---------- load strategies ----------

  /** A row of the table with all its columns and no NULL where none is allowed. */
  predicate LegalRow(t: TableDef, row: Row) {
    row.Keys == t.nullable.Keys && forall col <- row :: row[col].Null? ==> NullableIn(t, col)
  }

  /** A key is blocked exactly when it cannot be deferred and no legal row leaves it
      unchecked; it is loaded NULL and filled when some legal row does. */
  lemma BlockedExactlyWhen(t: TableDef, c: CyclicKey)
    requires StrategyFits(t, c) && forall col <- c.fk.cols :: col in t.nullable
    ensures var f := Fk(c.fk.child, c.fk.cols, c.fk.parent);
            && (c.strategy == Blocked <==> !c.fk.deferrable && forall row: Row | LegalRow(t, row) :: Ref(f, row).Some?)
            && (c.strategy == NullThenFill <==> !c.fk.deferrable && exists row: Row :: LegalRow(t, row) && Ref(f, row).None?)
  {
    var f := Fk(c.fk.child, c.fk.cols, c.fk.parent);
    if col :| col in c.fk.cols && NullableIn(t, col) {
      var row: Row := map k <- t.nullable :: if k == col then Null else Text("");
      assert LegalRow(t, row) && Ref(f, row).None?;
    } else {
      forall row: Row | LegalRow(t, row) ensures Ref(f, row).Some? {
        assert AllPresent(f.cols, row);
      }
    }
  }

  // ---------- acyclic components ----------

  lemma {:induction false} AcyclicPlan(members: seq<TableDef>, order: seq<Node>, c: Ctx, pos: seq<nat>)
    requires TablesOk(members) && IsApplyOrder(members, order, [])
    requires SchemaOf(c.sch, members) && Follows(c, order, pos) && c.nullFill == map[]
    ensures ParentsFirst(c) && NullFillOk(c)
  {
    assert order[..|order|] == order;
    forall f, i, j | f in c.sch.fks && !Nulled(c, f) && At(c, i, f.parent) && At(c, j, f.child) ensures i < j {
      var t, fk :| KeyOf(members, f, t, fk);
      assert order[pos[i]] in order;
      KeyHasEdge(members, Refs(members), t, fk);
      assert order[pos[j]] in order;
      assert Before(order, f.parent, f.child);
      BeforeMeansEarlier(c, order, pos, i, j, f.parent, f.child);
    }
  }

  /** An acyclic component drains in one covering pass. */
  lemma {:induction false} AcyclicComponentDrains(members: seq<TableDef>, order: seq<Node>, c: Ctx, pos: seq<nat>)
    requires TablesOk(members) && IsApplyOrder(members, order, [])
    requires SchemaOf(c.sch, members) && Follows(c, order, pos) && c.nullFill == map[]
    requires WorkOk(c) && Sound(c.sch, c.source) && Sound(c.sch, c.target) && Covers(c)
    ensures Succeeds(c)
  {
    AcyclicPlan(members, order, c, pos);
    AcyclicPassSucceeds(c);
  }

  // ---------- cyclic components ----------

  /** Every on-cycle key has only nullable columns, and no other composite key shares a
      column with one. */
  ghost predicate Fillable(members: seq<TableDef>, cyc: seq<CyclicKey>) {
    && (forall k <- cyc :: k.strategy == NullThenFill && !Mixed(k.fk, ByRef(members)))
    && (forall t, fk | t in members && fk in t.fks && !KeyOnCycle(members, fk) && |fk.cols| != 1 ::
          forall col <- fk.cols :: !NamesFill(cyc, fk.child, col))
  }

  /** The pass loads NULL exactly the columns of the NULL-then-fill keys. */
  ghost predicate NullsFilled(c: Ctx, cyc: seq<CyclicKey>) {
    forall t, col :: col in Omitted(c.nullFill, t) <==> NamesFill(cyc, t, col)
  }

  lemma {:induction false} OnCycleIsNulled(members: seq<TableDef>, cyc: seq<CyclicKey>, c: Ctx, f: Fk, t: TableDef, fk: ForeignKey)
    requires Classified(members, |members|, cyc) && Fillable(members, cyc) && NullsFilled(c, cyc)
    requires KeyOf(members, f, t, fk) && KeyOnCycle(members, fk)
    ensures Nulled(c, f)
  {
    FoundKey(members, cyc, t, fk);
    var k := ClassifyOne(fk, ByRef(members));
    assert k in cyc && k.fk == fk;
    forall col <- f.cols ensures col in Omitted(c.nullFill, f.child) {
      assert NamesFill(cyc, fk.child, col);
    }
  }

  lemma {:induction false} KeyNulledOrKept(members: seq<TableDef>, cyc: seq<CyclicKey>, c: Ctx, f: Fk)
    requires Classified(members, |members|, cyc) && Fillable(members, cyc) && NullsFilled(c, cyc)
    requires SchemaOf(c.sch, members) && f in c.sch.fks
    ensures Nulled(c, f) || forall col <- f.cols :: col !in Omitted(c.nullFill, f.child)
  {
    var t, fk :| KeyOf(members, f, t, fk);
    if KeyOnCycle(members, fk) {
      OnCycleIsNulled(members, cyc, c, f, t, fk);
    } else if |fk.cols| == 1 {
      assert f.cols == [f.cols[0]];
    }
  }

  lemma {:induction false} NulledIsNullable(members: seq<TableDef>, cyc: seq<CyclicKey>, t: Node, col: string)
    requires Classified(members, |members|, cyc) && Fillable(members, cyc) && NamesFill(cyc, t, col)
    ensures ColumnNullable(ByRef(members), t, col)
  {
    FilledIsNullable(members, cyc, t, col);
    forall u, fk ensures !BadKey(members, u, fk) {
      if BadKey(members, u, fk) { FoundKey(members, cyc, u, fk); }
    }
  }

  lemma {:induction false} NullFillPlan(members: seq<TableDef>, cyc: seq<CyclicKey>, order: seq<Node>, c: Ctx, pos: seq<nat>)
    requires TablesOk(members) && Classified(members, |members|, cyc) && OrderedBy(members, cyc, order)
    requires Fillable(members, cyc) && NullsFilled(c, cyc)
    requires SchemaOf(c.sch, members) && Follows(c, order, pos)
    ensures ParentsFirst(c) && NullFillOk(c)
  {
    forall f <- c.sch.fks ensures Nulled(c, f) || forall col <- f.cols :: col !in Omitted(c.nullFill, f.child) {
      KeyNulledOrKept(members, cyc, c, f);
    }
    forall t, col | col in Omitted(c.nullFill, t) ensures (t, col) !in c.sch.notNull {
      NulledIsNullable(members, cyc, t, col);
    }
    forall f, i, j | f in c.sch.fks && !Nulled(c, f) && At(c, i, f.parent) && At(c, j, f.child) ensures i < j {
      var t, fk :| KeyOf(members, f, t, fk);
      assert order[pos[i]] in order;
      if KeyOnCycle(members, fk) { OnCycleIsNulled(members, cyc, c, f, t, fk); }
      BeforeMeansEarlier(c, order, pos, i, j, f.parent, f.child);
    }
  }

  ghost predicate NothingGone(c: Ctx) {
    forall i, id {:trigger id in c.work[i].keys} |
      0 <= i < |c.work| && id in c.work[i].keys :: id in c.source
  }

  /** A cyclic component with fillable keys drains in one covering pass exactly when the
      deletes are ordered, in particular when every dirty row still exists. */
  lemma {:induction false} CyclicComponentDrains(members: seq<TableDef>, cyc: seq<CyclicKey>, order: seq<Node>, c: Ctx, pos: seq<nat>)
    requires TablesOk(members) && Classified(members, |members|, cyc) && OrderedBy(members, cyc, order)
    requires Fillable(members, cyc) && NullsFilled(c, cyc)
    requires SchemaOf(c.sch, members) && Follows(c, order, pos)
    requires WorkOk(c) && Sound(c.sch, c.source) && Sound(c.sch, c.target) && Covers(c)
    ensures Succeeds(c) <==> DeletesOrdered(c)
    ensures NothingGone(c) ==> Succeeds(c)
  {
    NullFillPlan(members, cyc, order, c, pos);
    PassSucceedsExactlyWhen(c);
    if NothingGone(c) { CyclicPassSucceeds(c); }
  }
}
