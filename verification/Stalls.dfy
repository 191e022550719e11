/** Covering passes repeated on a quiet source: when do they reach the source?

    A table waits for another while a row of the other, one that the pass cannot remove
    or repoint in time, still references one of its deleted rows. Passes repeated often
    enough make the target equal to the source exactly when the tables of the first pass
    do not wait for each other in a circle. */
module Stalls {
  import opened Rows
  import opened FkPass
  import G = Graph
  import PassEffect

  /** Row `id` points through `fk` to a row gone from the source. It is either still at the
      source, and repointed only by the fill, or gone as well, from another table. */
  ghost predicate Blocker(c: Ctx, fk: Fk, id: RowId) {
    && fk in c.sch.fks && id in c.target && id.table == fk.child
    && Ref(fk, c.target[id]).Some? && Ref(fk, c.target[id]).value !in c.source
    && if id in c.source then Nulled(c, fk) else fk.child != fk.parent
  }

  /** (u, t): the deletes of t wait for table u. */
  ghost function Waits(c: Ctx): G.Graph {
    set fk, id | fk in c.sch.fks && id in c.target && Blocker(c, fk, id) :: (fk.child, fk.parent)
  }

  lemma WaitFor(c: Ctx, u: Table, t: Table) returns (fk: Fk, id: RowId)
    requires (u, t) in Waits(c)
    ensures Blocker(c, fk, id) && fk.child == u && fk.parent == t
  {
    fk, id :| fk in c.sch.fks && id in c.target && Blocker(c, fk, id) && (fk.child, fk.parent) == (u, t);
  }

  lemma BlockerWaits(c: Ctx, fk: Fk, id: RowId)
    requires Blocker(c, fk, id)
    ensures (fk.child, fk.parent) in Waits(c)
  {}

  // ---------- a refused delete has a blocker ----------

  /** What one more delete leaves dangling was a blocker before the pass. */
  lemma DanglingIsBlocker(c: Covering, tabs: set<Table>, t: Table) returns (fk: Fk, id: RowId)
    requires FkOk(c.sch, Cut(c, tabs)) && !FkOk(c.sch, Cut(c, tabs + {t}))
    ensures Blocker(c, fk, id) && fk.parent == t
  {
    var more := Cut(c, tabs + {t});
    fk, id :| fk in c.sch.fks && id in more && id.table == fk.child && !RefOk(fk, more, id);
    var m := Merged(c, All(c));
    assert RefOk(fk, Cut(c, tabs), id);
    var r := Ref(fk, m[id]).value;
    CutAt(c, tabs, r);
    CutAt(c, tabs + {t}, r);
    MergedRef(c, All(c), fk, id);
    if id in c.source && id.table !in All(c) {
      OutsidePass(c, id);
      assert RefOk(fk, c.source, id);
    }
  }

  /** Every table visited and not deleted from is waiting. */
  ghost predicate Waiting(c: Ctx, n: nat, tabs: set<Table>) {
    && n <= |c.work| && tabs <= All(c) - Tables(c, n) && FkOk(c.sch, Cut(c, tabs))
    && forall t | t in All(c) - Tables(c, n) - tabs :: HasBlocker(c, t)
  }

  ghost predicate HasBlocker(c: Ctx, t: Table) {
    exists fk, id :: Blocker(c, fk, id) && fk.parent == t
  }

  lemma WaitingTurn(c: Covering, n: nat, tabs: set<Table>)
    requires 0 < n && Waiting(c, n, tabs)
    ensures Waiting(c, n - 1, Turn(c, tabs, c.work[n - 1].table))
  {
    var t := c.work[n - 1].table;
    OneLess(c, n);
    if !FkOk(c.sch, Cut(c, tabs + {t})) { var fk, id := DanglingIsBlocker(c, tabs, t); }
  }

  lemma RefusedAt(c: Covering, t: Table)
    requires t in All(c) && t !in Gone(c)
    ensures HasBlocker(c, t)
  {
    var inv: TurnInv := (i: nat, tabs: set<Table>) => Waiting(c, i, tabs);
    forall i: nat | i < |c.work| ensures Takes(c, inv, i) {
      forall tabs: set<Table> | inv(i + 1, tabs) ensures inv(i, Turn(c, tabs, c.work[i].table)) {
        WaitingTurn(c, i + 1, tabs);
      }
    }
    NothingCut(c);
    Turns(c, inv, |c.work|, {});
  }

  /** A table whose deletes do not commit waits for some table. */
  lemma RefusedWaits(c: Covering, t: Table) returns (fk: Fk, id: RowId)
    requires t in All(c) && t !in Gone(c)
    ensures Blocker(c, fk, id) && fk.parent == t && (fk.child, t) in Waits(c)
  {
    RefusedAt(c, t);
    fk, id :| Blocker(c, fk, id) && fk.parent == t;
    BlockerWaits(c, fk, id);
  }

  // ---------- a circle of blockers holds ----------

  /** The upserts do not repoint a blocker. */
  lemma MergedKeepsRef(c: Covering, fk: Fk, id: RowId)
    requires Blocker(c, fk, id)
    ensures id in Merged(c, All(c)) && Ref(fk, Merged(c, All(c))[id]) == Ref(fk, c.target[id])
  {
    var m := Merged(c, All(c));
    MergedAt(c, All(c), id);
    if id in c.source && id.table in All(c) {
      assert m[id] == UpsertRow(Some(c.target[id]), c.source[id], Omitted(c.nullFill, id.table));
      SameRef(fk, c.target[id], m[id]);
    }
  }

  /** Deleting from a table while its blocker is there leaves a dangling reference. */
  lemma BlockerRefuses(c: Covering, tabs: set<Table>, fk: Fk, id: RowId)
    requires Blocker(c, fk, id) && fk.child !in tabs
    ensures !FkOk(c.sch, Cut(c, tabs + {fk.parent}))
  {
    var more := Cut(c, tabs + {fk.parent});
    MergedKeepsRef(c, fk, id);
    CutAt(c, tabs + {fk.parent}, id);
    CutAt(c, tabs + {fk.parent}, Ref(fk, c.target[id]).value);
    assert !RefOk(fk, more, id);
  }

  /** Every table of k waits for a table of k. */
  ghost predicate Stuck(c: Ctx, k: set<Table>) {
    match c
    case Ctx(_, _, _, _, _) => G.Sourceless(Waits(c), k)
  }

  lemma StuckWaits(c: Ctx, k: set<Table>, t: Table) returns (fk: Fk, id: RowId)
    requires Stuck(c, k) && t in k
    ensures Blocker(c, fk, id) && fk.child in k && fk.parent == t
  {
    assert G.HasPredIn(Waits(c), k, t);
    var u :| u in k && (u, t) in Waits(c);
    fk, id := WaitFor(c, u, t);
  }

  lemma StuckRefuses(c: Covering, tabs: set<Table>, k: set<Table>, t: Table)
    requires Stuck(c, k) && k !! tabs && t in k
    ensures !FkOk(c.sch, Cut(c, tabs + {t}))
  {
    var fk, id := StuckWaits(c, k, t);
    BlockerRefuses(c, tabs, fk, id);
  }

  lemma StuckTurn(c: Covering, tabs: set<Table>, k: set<Table>, t: Table)
    requires Stuck(c, k) && k !! tabs
    ensures k !! Turn(c, tabs, t)
  {
    if t in k { StuckRefuses(c, tabs, k, t); }
  }

  /** No table of the circle is deleted from. */
  lemma StuckStays(c: Covering, k: set<Table>)
    requires Stuck(c, k)
    ensures k !! Gone(c)
  {
    var inv: TurnInv := (i: nat, tabs: set<Table>) => k !! tabs;
    forall i: nat | i < |c.work| ensures Takes(c, inv, i) {
      forall tabs: set<Table> | inv(i + 1, tabs) ensures inv(i, Turn(c, tabs, c.work[i].table)) {
        StuckTurn(c, tabs, k, c.work[i].table);
      }
    }
    Turns(c, inv, |c.work|, {});
  }

  // ---------- from one pass to the next ----------

  /** c' is a covering pass that finds what the pass c left. */
  ghost predicate Follows(c: Ctx, c': Ctx) {
    c'.sch == c.sch && c'.source == c.source && c'.nullFill == c.nullFill && c'.target == Pass(c).rows
  }

  lemma Found(c: Covering, c': Ctx, id: RowId)
    requires Follows(c, c')
    ensures Lookup(c'.target, id) ==
            if id.table in Gone(c) then Lookup(c.source, id) else Lookup(Merged(c, All(c)), id)
  {
    PassResult(c);
    GoneFacts(c);
    AfterAt(c, Gone(c), id);
  }

  lemma BlockerAfter(c: Covering, c': Ctx, fk: Fk, id: RowId)
    requires Follows(c, c')
    ensures Blocker(c', fk, id) ==> Blocker(c, fk, id) && fk.child !in Gone(c)
    ensures Blocker(c, fk, id) && fk.child !in Gone(c) ==> Blocker(c', fk, id)
  {
    Found(c, c', id);
    if Blocker(c, fk, id) { MergedKeepsRef(c, fk, id); }
    if Blocker(c', fk, id) {
      if id in c.source && (id.table in Gone(c) || id.table !in All(c)) {
        if id.table !in Gone(c) { NotInPass(c, id); }
        assert RefOk(fk, c.source, id);
      } else {
        MergedRef(c, All(c), fk, id);
      }
    }
  }

  lemma NotInPass(c: Covering, id: RowId)
    requires id.table !in All(c)
    ensures Lookup(Merged(c, All(c)), id) == Lookup(c.source, id)
  {
    MergedAt(c, All(c), id);
    OutsidePass(c, id);
  }

  /** After a pass the waits are those for tables whose deletes did not commit. */
  lemma WaitsAfter(c: Covering, c': Ctx, u: Table, t: Table)
    requires Follows(c, c')
    ensures (u, t) in Waits(c') <==> (u, t) in Waits(c) && u !in Gone(c)
  {
    if (u, t) in Waits(c') {
      var fk, id := WaitFor(c', u, t);
      BlockerAfter(c, c', fk, id);
      BlockerWaits(c, fk, id);
    }
    if (u, t) in Waits(c) && u !in Gone(c) {
      var fk, id := WaitFor(c, u, t);
      BlockerAfter(c, c', fk, id);
      BlockerWaits(c', fk, id);
    }
  }

  /** A circle of waiting tables survives every pass, and no pass makes a new one. */
  lemma StuckAfter(c: Covering, c': Ctx, k: set<Table>)
    requires Follows(c, c')
    ensures Stuck(c, k) <==> Stuck(c', k)
    ensures Stuck(c, k) ==> k !! Gone(c)
  {
    var g, h := Waits(c), Waits(c');
    forall u, t ensures (u, t) in h <==> (u, t) in g && u !in Gone(c) { WaitsAfter(c, c', u, t); }
    if Stuck(c, k) {
      StuckStays(c, k);
      G.SourcelessIn(g, h, k);
    }
    if Stuck(c', k) { G.SourcelessIn(h, g, k); }
  }

  // ---------- without a circle every pass gets further ----------

  /** The tables on which the two sides differ. */
  ghost function Late(c: Ctx): set<Table> {
    set id | id in c.source.Keys + c.target.Keys && Differ(c.source, c.target, id) :: id.table
  }

  lemma InLate(c: Ctx, id: RowId)
    requires Differ(c.source, c.target, id)
    ensures id.table in Late(c)
  {
    assert id in c.source.Keys + c.target.Keys;
  }

  lemma NotLate(c: Ctx)
    requires |Late(c)| == 0
    ensures c.target == c.source
  {
    forall id: RowId ensures Lookup(c.target, id) == Lookup(c.source, id) {
      if Differ(c.source, c.target, id) { InLate(c, id); }
    }
    SameLookup(c.target, c.source);
  }

  lemma LateIsInPass(c: Covering)
    ensures Late(c) <= All(c)
  {
    forall t <- Late(c) ensures t in All(c) {
      var id :| id in c.source.Keys + c.target.Keys && Differ(c.source, c.target, id) && id.table == t;
      var i := StaleTable(c, id);
    }
  }

  /** A blocker's own table is late. */
  lemma BlockerIsLate(c: Covering, fk: Fk, id: RowId)
    requires Blocker(c, fk, id)
    ensures fk.child in Late(c)
  {
    if id in c.source { assert RefOk(fk, c.source, id); }
    InLate(c, id);
  }

  lemma LateAfter(c: Covering, c': Ctx)
    requires Follows(c, c')
    ensures Late(c') <= Late(c) - Gone(c)
  {
    forall t <- Late(c') ensures t in Late(c) && t !in Gone(c) {
      var id :| id in c'.source.Keys + c'.target.Keys && Differ(c'.source, c'.target, id) && id.table == t;
      Found(c, c', id);
      MergedAt(c, All(c), id);
      if !Differ(c.source, c.target, id) && id in c.source {
        UpsertRowFacts(Lookup(c.target, id), c.source[id], Omitted(c.nullFill, id.table));
      }
      if Differ(c.source, c.target, id) { InLate(c, id); }
    }
  }

  /** If no late table's deletes commit, the late tables wait for each other. */
  lemma NoProgressIsStuck(c: Covering)
    requires Late(c) != {} && Late(c) !! Gone(c)
    ensures Stuck(c, Late(c))
  {
    LateIsInPass(c);
    forall t <- Late(c) ensures G.HasPredIn(Waits(c), Late(c), t) {
      var fk, id := RefusedWaits(c, t);
      BlockerIsLate(c, fk, id);
    }
  }

  lemma Smaller(a: set<Table>, b: set<Table>, gap: set<Table>)
    requires !(b !! gap) && a <= b - gap
    ensures |a| < |b|
  {
    assert b * gap != {};
    assert b == a + (b - gap - a) + b * gap;
  }

  lemma PassGetsFurther(c: Covering, c': Ctx)
    requires Follows(c, c') && !Stuck(c, Late(c))
    ensures Late(c') == {} || |Late(c')| < |Late(c)|
  {
    LateAfter(c, c');
    if Late(c) != {} {
      if Late(c) !! Gone(c) { NoProgressIsStuck(c); }
      Smaller(Late(c'), Late(c), Gone(c));
    }
  }

  // ---------- runs of passes ----------

  ghost predicate IsCovering(c: Ctx) {
    match c
    case Ctx(_, _, _, _, _) => Legal(c) && Covers(c)
  }

  ghost predicate Linked(c: Ctx, c': Ctx) {
    match c
    case Ctx(_, _, _, _, _) => IsCovering(c) && IsCovering(c') && Follows(c, c')
  }

  ghost predicate LinkedAt(cs: seq<Ctx>, i: nat)
    requires 0 < i < |cs|
  {
    Linked(cs[i - 1], cs[i])
  }

  /** Covering passes, each finding what the one before left. */
  ghost predicate Repeated(cs: seq<Ctx>) {
    |cs| > 0 && IsCovering(cs[0]) && forall i: nat | 0 < i < |cs| :: LinkedAt(cs, i)
  }

  /** What one pass does to waiting and late tables. */
  lemma LinkFacts(c: Ctx, c': Ctx, k: set<Table>)
    requires Linked(c, c')
    ensures (Stuck(c, k) <==> Stuck(c', k)) && c'.source == c.source && IsCovering(c')
    ensures !Stuck(c, Late(c)) ==> |Late(c')| == 0 || |Late(c')| < |Late(c)|
  {
    StuckAfter(c, c', k);
    if !Stuck(c, Late(c)) { PassGetsFurther(c, c'); }
  }

  /** The same, as one step of a run. */
  ghost predicate StepOk(c: Ctx, c': Ctx, k: set<Table>) {
    match c
    case Ctx(_, _, _, _, _) =>
      && (Stuck(c, k) <==> Stuck(c', k)) && c'.source == c.source && IsCovering(c')
      && (!Stuck(c, Late(c)) ==> |Late(c')| == 0 || |Late(c')| < |Late(c)|)
  }

  lemma StepFacts(cs: seq<Ctx>, i: nat, k: set<Table>)
    requires Repeated(cs) && 0 < i < |cs|
    ensures StepOk(cs[i - 1], cs[i], k)
  {
    assert LinkedAt(cs, i);
    LinkFacts(cs[i - 1], cs[i], k);
  }

  lemma {:induction false} Throughout(cs: seq<Ctx>, i: nat, k: set<Table>)
    requires Repeated(cs) && i < |cs|
    ensures (Stuck(cs[0], k) <==> Stuck(cs[i], k)) && cs[i].source == cs[0].source && IsCovering(cs[i])
  {
    if i > 0 {
      Throughout(cs, i - 1, k);
      StepFacts(cs, i, k);
    }
  }

  lemma StuckDiffers(c: Ctx, k: set<Table>)
    requires IsCovering(c) && Stuck(c, k)
    ensures c.target != c.source && k !! Gone(c)
  {
    StuckStays(c, k);
    var t :| t in k;
    var fk, id := StuckWaits(c, k, t);
    assert RefOk(fk, c.target, id);
  }

  /** The tables of a circle are never confirmed, and the target never arrives. */
  lemma StuckNeverArrives(cs: seq<Ctx>, i: nat, k: set<Table>)
    requires Repeated(cs) && i < |cs| && Stuck(cs[0], k)
    ensures cs[i].target != cs[0].source && k !! Gone(cs[i])
  {
    Throughout(cs, i, k);
    StuckDiffers(cs[i], k);
  }

  ghost predicate Free(c: Ctx) {
    match c
    case Ctx(_, _, _, _, _) => forall k :: !Stuck(c, k)
  }

  lemma NotStuck(c: Ctx, k: set<Table>)
    requires Free(c)
    ensures !Stuck(c, k)
  {}

  lemma StillFree(cs: seq<Ctx>, i: nat, k: set<Table>)
    requires Repeated(cs) && i < |cs| && Free(cs[0])
    ensures !Stuck(cs[i], k)
  {
    NotStuck(cs[0], k);
    Throughout(cs, i, k);
  }

  lemma FreeDrops(cs: seq<Ctx>, i: nat)
    requires Repeated(cs) && 0 < i < |cs| && Free(cs[0])
    ensures |Late(cs[i])| == 0 || |Late(cs[i])| < |Late(cs[i - 1])|
  {
    StillFree(cs, i - 1, Late(cs[i - 1]));
    StepFacts(cs, i, {});
  }

  lemma {:induction false} FreeFalls(cs: seq<Ctx>, i: nat)
    requires Repeated(cs) && i < |cs| && Free(cs[0])
    ensures |Late(cs[i])| == 0 || |Late(cs[i])| + i <= |Late(cs[0])|
  {
    if i > 0 {
      FreeFalls(cs, i - 1);
      FreeDrops(cs, i);
    }
  }

  /** A set of tables waiting for each other is there exactly when there is a circle. */
  lemma FreeMeansNoCycle(c: Ctx)
    ensures Free(c) <==> forall t :: !G.OnCycle(Waits(c), t)
  {
    forall k | Stuck(c, k) ensures exists t :: G.OnCycle(Waits(c), t) {
      var x :| x in k;
      var t := G.SourcelessHasCycle(Waits(c), k, x);
    }
    forall t | G.OnCycle(Waits(c), t) ensures !Free(c) {
      var k := G.CycleIsSourceless(Waits(c), t);
      assert Stuck(c, k);
    }
  }

  lemma FreeArrives(cs: seq<Ctx>, n: nat)
    requires Repeated(cs) && n < |cs| && n >= |Late(cs[0])| && Free(cs[0])
    ensures cs[n].target == cs[0].source
  {
    FreeFalls(cs, n);
    Throughout(cs, n, {});
    NotLate(cs[n]);
  }

  /** Repeated as often as tables are late, covering passes make the target equal to the
      source exactly when no tables wait for each other in a circle. */
  lemma RepeatedPassesArriveExactlyWhen(cs: seq<Ctx>, n: nat)
    requires Repeated(cs) && |Late(cs[0])| <= n < |cs|
    ensures cs[n].target == cs[0].source <==> forall t :: !G.OnCycle(Waits(cs[0]), t)
  {
    FreeMeansNoCycle(cs[0]);
    if Free(cs[0]) {
      FreeArrives(cs, n);
    } else {
      var k :| Stuck(cs[0], k);
      StuckNeverArrives(cs, n, k);
    }
  }

  /** There is always a next covering pass: the same work on what the last one left. */
  lemma NextPassExists(c: Covering) returns (c': Ctx)
    ensures Linked(c, c')
  {
    var next := c.(target := Pass(c).rows);
    PassEffect.PassKeepsSound(c);
    forall id | Differ(next.source, next.target, id) ensures exists i :: At(next, i, id.table) && id in next.work[i].keys {
      StillCovered(c, next, id);
    }
    assert WorkOk(next) && NullFillOk(next) && ParentsFirst(next) by { SameShape(c, next); }
    c' := next;
  }

  lemma StillCovered(c: Covering, next: Ctx, id: RowId)
    requires next == c.(target := Pass(c).rows) && Differ(next.source, next.target, id)
    ensures exists i :: At(next, i, id.table) && id in next.work[i].keys
  {
    if Differ(c.source, c.target, id) {
      var i := StaleTable(c, id);
      assert At(next, i, id.table);
    } else if PassEffect.InBatch(c, id) {
      var i: nat :| i < |c.work| && id in c.work[i].keys;
      assert At(next, i, id.table);
    } else {
      PassEffect.PassFrame(c, id);
    }
  }

  lemma SameShape(c: Covering, next: Ctx)
    requires next == c.(target := next.target)
    ensures WorkOk(next) && NullFillOk(next) && ParentsFirst(next)
  {
    assert forall i, t :: At(next, i, t) <==> At(c, i, t);
    assert forall fk :: Nulled(next, fk) <==> Nulled(c, fk);
  }

  // ---------- a stall ----------

  /** Two tables whose only rows reference each other. */
  function Pair(): Ctx {
    var row: Row := map["r" := Text("1")];
    Ctx(Schema(map["a" := {"r"}, "b" := {"r"}], {}, {Fk("a", ["r"], "b"), Fk("b", ["r"], "a")}), map[],
        map[RowId("a", ["1"]) := row, RowId("b", ["1"]) := row], map["a" := {"r"}, "b" := {"r"}],
        [Item("a", {RowId("a", ["1"])}, {0}), Item("b", {RowId("b", ["1"])}, {1})])
  }

  lemma PairRef(fk: Fk)
    requires fk.cols == ["r"]
    ensures Ref(fk, map["r" := Text("1")]) == Some(RowId(fk.parent, ["1"]))
  {
    var row: Row := map["r" := Text("1")];
    assert AllPresent(fk.cols, row);
    assert Ref(fk, row).value.key == ["1"];
  }

  lemma PairIsCovering(c: Ctx)
    requires c == Pair()
    ensures Legal(c) && Covers(c)
  {
    var toB, toA := Fk("a", ["r"], "b"), Fk("b", ["r"], "a");
    PairRef(toA);
    PairRef(toB);
    assert Nulled(c, toA) && Nulled(c, toB);
    assert At(c, 0, "a") && At(c, 1, "b");
    assert RefOk(toB, c.target, RowId("a", ["1"])) && RefOk(toA, c.target, RowId("b", ["1"]));
  }

  lemma PairIsStuck(c: Ctx)
    requires c == Pair()
    ensures Stuck(c, {"a", "b"})
  {
    var toB, toA := Fk("a", ["r"], "b"), Fk("b", ["r"], "a");
    PairRef(toA);
    PairRef(toB);
    assert Nulled(c, toA) && Nulled(c, toB);
    BlockerWaits(c, toB, RowId("a", ["1"]));
    BlockerWaits(c, toA, RowId("b", ["1"]));
    var k := {"a", "b"};
    assert G.HasPredIn(Waits(c), k, "a") && G.HasPredIn(Waits(c), k, "b");
  }

  lemma {:induction false} PairTables(c: Ctx)
    requires c == Pair()
    ensures All(c) == {"a", "b"} && Tables(c, 0) == {}
  {
    assert Tables(c, 1) == {"a"};
  }

  /** Nothing deleted and nothing upserted is nothing changed. */
  lemma NothingHappened(c: Covering)
    requires c.source == map[] && Gone(c) == {}
    ensures Pass(c).rows == c.target && Pass(c).done == {}
  {
    PassResult(c);
    forall id: RowId ensures Lookup(After(c, {}), id) == Lookup(c.target, id) {
      AfterAt(c, {}, id);
      MergedAt(c, All(c), id);
    }
    SameLookup(After(c, {}), c.target);
  }

  /** Two rows that reference each other, both deleted at the source: the pass is refused
      both deletes and leaves everything as it was, so every further pass does too. */
  lemma DeletedPairStalls() returns (c: Covering)
    ensures c.source == map[] && c.target != map[] && !DeletesOrdered(c)
    ensures Pass(c).rows == c.target && Pass(c).done == {}
    ensures Stuck(c, All(c))
  {
    PairIsCovering(Pair());
    c := Pair();
    PairIsStuck(c);
    PairTables(c);
    StuckStays(c, All(c));
    GoneFacts(c);
    NothingHappened(c);
    AllGoneExactlyWhen(c);
    assert RowId("a", ["1"]) in c.target;
  }
}
