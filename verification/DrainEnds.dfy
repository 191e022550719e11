/** What draining achieves: from every state the protocol can be in, undisturbed passes
    empty a target's queue and make it equal to the source, in every mode; and a completed
    pass records exactly the ids it read. */
module DrainEnds {
  import opened Rows
  import opened Drain

  // ---------- a completed pass records what it read ----------

  /** The step ends table's pass at the target, other than by confirming it. */
  predicate Abandons(s: Step, t: TargetId, table: Table) {
    (s.RejectPhase? && s.target == t && s.table == table) || (s.Crash? && s.target == t)
  }

  /** The pass under way at w is the one that read `observed`. */
  ghost predicate Carries(w: World, t: TargetId, table: Table, observed: set<DeltaId>) {
    t in w.sides && table in w.sides[t].pass && w.sides[t].pass[table].ids == observed
  }

  lemma StepCarries(gate: set<TargetId>, w: World, s: Step, w': World, t: TargetId, table: Table, observed: set<DeltaId>)
    requires Next(gate, w, s, w') && Carries(w, t, table, observed)
    requires !Abandons(s, t, table) && s != Confirm(t, table)
    ensures Carries(w', t, table, observed)
  {}

  lemma {:induction false} Carried(gate: set<TargetId>, ws: seq<World>, steps: seq<Step>, t: TargetId, table: Table,
                                   observed: set<DeltaId>, i: nat, j: nat)
    requires Run(gate, ws, steps) && i <= j <= |steps| && Carries(ws[i], t, table, observed)
    requires forall k | i <= k < j :: !Abandons(steps[k], t, table) && steps[k] != Confirm(t, table)
    ensures Carries(ws[j], t, table, observed)
  {
    if i < j {
      Carried(gate, ws, steps, t, table, observed, i, j - 1);
      StepCarries(gate, ws[j - 1], steps[j - 1], ws[j], t, table, observed);
    }
  }

  /** Between the read and the confirm of a pass that was not abandoned lies whatever the
      other parties do; the confirm then adds exactly the ids the pass had read, and no
      step but a confirm touches the track. */
  lemma PassRecordsWhatItRead(gate: set<TargetId>, ws: seq<World>, steps: seq<Step>, i: nat, j: nat)
    requires Run(gate, ws, steps) && i < j < |steps| && steps[i].ReadDirty?
    requires steps[j] == Confirm(steps[i].target, steps[i].table)
    requires forall k | i < k < j ::
               !Abandons(steps[k], steps[i].target, steps[i].table) && steps[k] != Confirm(steps[i].target, steps[i].table)
    ensures var t := steps[i].target;
            && t in ws[j].sides && t in ws[j + 1].sides
            && ws[j + 1].sides[t].track == ws[j].sides[t].track + steps[i].observed
  {
    assert Next(gate, ws[i], steps[i], ws[i + 1]);
    Carried(gate, ws, steps, steps[i].target, steps[i].table, steps[i].observed, i + 1, j);
    assert Next(gate, ws[j], steps[j], ws[j + 1]);
  }

  lemma OnlyConfirmsRecord(gate: set<TargetId>, w: World, s: Step, w': World, t: TargetId)
    requires Next(gate, w, s, w') && t in w.sides && t in w'.sides
    ensures w'.sides[t].track != w.sides[t].track ==> s.Confirm? && s.target == t
  {}

  // ---------- undisturbed runs ----------

  /** A step of the target's own drain. */
  predicate OwnStep(s: Step, t: TargetId) {
    (s.ReadDirty? || s.Reread? || s.CommitPhase? || s.CommitAtomic? || s.Confirm?) && s.target == t
  }

  /** A run from w to w' of nothing but the target's own drain steps, none rejected. */
  ghost predicate OwnRun(gate: set<TargetId>, t: TargetId, ws: seq<World>, steps: seq<Step>, w: World, w': World) {
    && Run(gate, ws, steps) && ws[0] == w && ws[|steps|] == w'
    && forall s <- steps :: OwnStep(s, t)
  }

  ghost predicate Reaches(gate: set<TargetId>, t: TargetId, w: World, w': World) {
    exists ws, steps :: OwnRun(gate, t, ws, steps, w, w')
  }

  lemma {:induction false} ReachesSelf(gate: set<TargetId>, t: TargetId, w: World)
    ensures Reaches(gate, t, w, w)
  {
    assert OwnRun(gate, t, [w], [], w, w);
  }

  lemma {:induction false} OneStep(gate: set<TargetId>, t: TargetId, w: World, w1: World, s: Step, w2: World)
    requires Reaches(gate, t, w, w1) && OwnStep(s, t) && Next(gate, w1, s, w2)
    ensures Reaches(gate, t, w, w2)
  {
    var ws, steps :| OwnRun(gate, t, ws, steps, w, w1);
    var ws', steps' := ws + [w2], steps + [s];
    forall i | 0 <= i < |steps'| ensures Next(gate, ws'[i], steps'[i], ws'[i + 1]) {
      if i < |steps| { assert ws'[i] == ws[i] && ws'[i + 1] == ws[i + 1] && steps'[i] == steps[i]; }
    }
    assert OwnRun(gate, t, ws', steps', w, w2);
  }

  function WithSide(w: World, t: TargetId, side: Side): World {
    w.(sides := w.sides[t := side])
  }

  /** The target's side changes and nothing else. */
  lemma SideMoves(gate: set<TargetId>, t: TargetId, w: World, w1: World, s: Step, side: Side)
    requires Reaches(gate, t, w, w1) && OwnStep(s, t) && t in w1.sides && SideStep(w1, w1.sides[t], s, side)
    ensures Reaches(gate, t, w, WithSide(w1, t, side))
  {
    OneStep(gate, t, w, w1, s, WithSide(w1, t, side));
  }

  // ---------- one table after the other, each in its own mode ----------

  /** The unconsumed deltas of a table. */
  function Queue(w: World, t: TargetId, table: Table): set<DeltaId>
    requires t in w.sides
  {
    set d | d in w.delta && d !in w.sides[t].track && w.delta[d].table == table
  }

  /** Two worlds alike but for the target's rows and track. */
  ghost predicate Alike(w: World, w': World, t: TargetId) {
    && t in w.sides && t in w'.sides
    && w' == w.(sides := w.sides[t := w'.sides[t]]) && w'.sides[t].pass == w.sides[t].pass
  }

  /** A pass at some phase, holding the table's queue. */
  ghost predicate Doing(w: World, w1: World, t: TargetId, table: Table, mode: Mode, phase: Phase) {
    && t in w.sides && t in w1.sides && table !in w.sides[t].pass && table in w1.sides[t].pass
    && w1 == WithSide(w, t, w1.sides[t]) && w1.sides[t].track == w.sides[t].track
    && w1.sides[t].pass == w.sides[t].pass[table := w1.sides[t].pass[table]]
    && var b := w1.sides[t].pass[table]; b.ids == Queue(w, t, table) && b.mode == mode && b.stage == Ready(phase)
  }

  lemma ReadAll(gate: set<TargetId>, t: TargetId, w0: World, w: World, table: Table, mode: Mode) returns (w1: World)
    requires Reaches(gate, t, w0, w) && t in w.sides && table !in w.sides[t].pass
    ensures Reaches(gate, t, w0, w1) && Doing(w, w1, t, table, mode, UpsertPhase)
  {
    var observed := Queue(w, t, table);
    var side := SetWork(w.sides[t], table, Work(set d <- observed :: w.delta[d], observed, mode, Ready(UpsertPhase)));
    SideMoves(gate, t, w0, w, ReadDirty(t, table, observed, mode), side);
    w1 := WithSide(w, t, side);
  }

  /** Re-read and commit one phase: what comes next is what the mode says. */
  lemma OnePhase(gate: set<TargetId>, t: TargetId, w0: World, w: World, w1: World, table: Table, mode: Mode,
                 phase: Phase, next: Phase) returns (w2: World)
    requires Reaches(gate, t, w0, w1) && Doing(w, w1, t, table, mode, phase)
    requires mode.PerTable?
    requires (phase == UpsertPhase && next == DeletePhase)
          || (phase == DeletePhase && mode.nullFill == {} && next == ConfirmPhase)
          || (phase == DeletePhase && mode.nullFill != {} && next == FillPhase)
          || (phase == FillPhase && next == ConfirmPhase)
    ensures Reaches(gate, t, w0, w2) && Doing(w, w2, t, table, mode, next)
  {
    var b := w1.sides[t].pass[table];
    var staged := b.(stage := Staged(phase, Restrict(w1.source, b.keys)));
    var side := SetWork(w1.sides[t], table, staged);
    SideMoves(gate, t, w0, w1, Reread(t, table), side);
    var mid := WithSide(w1, t, side);
    var done := SetWork(side, table, staged.(stage := Ready(next)))
                .(rows := PhaseEffect(side.rows, b.keys, b.mode, phase, staged.stage.snapshot));
    SideMoves(gate, t, w0, mid, CommitPhase(t, table), done);
    w2 := WithSide(mid, t, done);
  }

  /** The last step of a pass: its ids are recorded and the pass is over. */
  lemma OneConfirm(gate: set<TargetId>, t: TargetId, w0: World, w: World, w1: World, table: Table, mode: Mode) returns (w2: World)
    requires Reaches(gate, t, w0, w1) && Doing(w, w1, t, table, mode, ConfirmPhase)
    ensures Reaches(gate, t, w0, w2) && Alike(w, w2, t)
    ensures w2.sides[t].track == w.sides[t].track + Queue(w, t, table)
  {
    var side := w1.sides[t].(track := w1.sides[t].track + w1.sides[t].pass[table].ids, pass := w1.sides[t].pass - {table});
    SideMoves(gate, t, w0, w1, Confirm(t, table), side);
    w2 := WithSide(w1, t, side);
    assert side.pass == w.sides[t].pass;
  }

  /** A whole pass of one table: two phases, or three when columns are filled last. */
  lemma OneTable(gate: set<TargetId>, t: TargetId, w0: World, w: World, table: Table, cols: set<Column>) returns (w': World)
    requires Reaches(gate, t, w0, w) && t in w.sides && table !in w.sides[t].pass
    ensures Reaches(gate, t, w0, w') && Alike(w, w', t)
    ensures w'.sides[t].track == w.sides[t].track + Queue(w, t, table)
  {
    var mode := PerTable(cols);
    var u := ReadAll(gate, t, w0, w, table, mode);
    u := OnePhase(gate, t, w0, w, u, table, mode, UpsertPhase, DeletePhase);
    if cols == {} {
      u := OnePhase(gate, t, w0, w, u, table, mode, DeletePhase, ConfirmPhase);
    } else {
      u := OnePhase(gate, t, w0, w, u, table, mode, DeletePhase, FillPhase);
      u := OnePhase(gate, t, w0, w, u, table, mode, FillPhase, ConfirmPhase);
    }
    w' := OneConfirm(gate, t, w0, w, u, table, mode);
  }

  /** The tables with deltas. */
  function Touched(delta: map<DeltaId, RowId>): set<Table> {
    set d | d in delta :: delta[d].table
  }

  ghost predicate QueueOnly(w: World, t: TargetId, todo: set<Table>)
    requires t in w.sides
  {
    forall d | d in w.delta && d !in w.sides[t].track :: w.delta[d].table in todo
  }

  lemma {:induction false} EachTable(gate: set<TargetId>, t: TargetId, w0: World, w: World, todo: set<Table>, cols: Table -> set<Column>)
    returns (w': World)
    requires Reaches(gate, t, w0, w) && t in w.sides && w.sides[t].pass == map[] && QueueOnly(w, t, todo)
    ensures Reaches(gate, t, w0, w') && Alike(w, w', t) && w'.delta.Keys <= w'.sides[t].track
    ensures w'.sides[t].track <= w.sides[t].track + w.delta.Keys
    decreases todo
  {
    if todo == {} {
      w' := w;
    } else {
      var table :| table in todo;
      var w1 := OneTable(gate, t, w0, w, table, cols(table));
      w' := EachTable(gate, t, w0, w1, todo - {table}, cols);
    }
  }

  lemma {:induction false} ReachesKeeps(gate: set<TargetId>, t: TargetId, w: World, w': World)
    requires Reaches(gate, t, w, w') && Inv(gate, w) && t in gate
    ensures Inv(gate, w') && t in w'.sides && (w'.delta.Keys <= w'.sides[t].track ==> w'.sides[t].rows == w'.source)
  {
    var ws, steps :| OwnRun(gate, t, ws, steps, w, w');
    NoChangeIsLost(gate, ws, steps, t);
  }

  /** The target's queue is empty, it equals the source, and nothing else has changed. */
  ghost predicate Drained(w: World, w': World, t: TargetId) {
    && Alike(w, w', t) && w'.sides[t].rows == w.source
    && w'.sides[t].track == w.sides[t].track + w.delta.Keys
  }

  /** From every state of the protocol, undisturbed per-table passes drain the target,
      whichever columns each table loads NULL and fills last. */
  lemma PerTableDrainEnds(gate: set<TargetId>, w: World, t: TargetId, cols: Table -> set<Column>) returns (w': World)
    requires Inv(gate, w) && t in gate && w.sides[t].pass == map[]
    ensures Reaches(gate, t, w, w') && Drained(w, w', t)
  {
    ReachesSelf(gate, t, w);
    w' := EachTable(gate, t, w, w, Touched(w.delta), cols);
    ReachesKeeps(gate, t, w, w');
    assert w.sides[t].track + w.delta.Keys == w'.sides[t].track by { TrackGrows(gate, t, w, w'); }
  }

  lemma {:induction false} TrackGrows(gate: set<TargetId>, t: TargetId, w: World, w': World)
    requires Reaches(gate, t, w, w') && t in w.sides
    ensures t in w'.sides && w.sides[t].track <= w'.sides[t].track
  {
    var ws, steps :| OwnRun(gate, t, ws, steps, w, w');
    RunTrackGrows(gate, t, ws, steps, |steps|);
  }

  lemma {:induction false} RunTrackGrows(gate: set<TargetId>, t: TargetId, ws: seq<World>, steps: seq<Step>, n: nat)
    requires Run(gate, ws, steps) && n <= |steps| && t in ws[0].sides && forall s <- steps :: OwnStep(s, t)
    ensures t in ws[n].sides && ws[0].sides[t].track <= ws[n].sides[t].track
  {
    if n > 0 {
      RunTrackGrows(gate, t, ws, steps, n - 1);
      assert Next(gate, ws[n - 1], steps[n - 1], ws[n]) && OwnStep(steps[n - 1], t);
    }
  }

  // ---------- all tables in one transaction ----------

  /** The queue of a table as an atomic pass holds it. */
  function Held(w: World, t: TargetId, table: Table, stage: Stage): Work
    requires t in w.sides
  {
    var ids := Queue(w, t, table);
    Work(set d <- ids :: w.delta[d], ids, Atomic, stage)
  }

  function Snapshot(w: World, t: TargetId, table: Table): Database
    requires t in w.sides
  {
    Restrict(w.source, Held(w, t, table, Ready(UpsertPhase)).keys)
  }

  /** Passes under way for `tabs`: re-read for those in `staged`, only read for the others. */
  function Together(w: World, t: TargetId, tabs: set<Table>, staged: set<Table>): Side
    requires t in w.sides
  {
    w.sides[t].(pass := map table | table in tabs ::
      Held(w, t, table, if table in staged then Staged(UpsertPhase, Snapshot(w, t, table)) else Ready(UpsertPhase)))
  }

  lemma {:induction false} ReadTogether(gate: set<TargetId>, t: TargetId, w: World, tabs: set<Table>)
    requires t in w.sides && w.sides[t].pass == map[]
    ensures Reaches(gate, t, w, WithSide(w, t, Together(w, t, tabs, {})))
  {
    if tabs == {} {
      assert WithSide(w, t, Together(w, t, {}, {})) == w;
      ReachesSelf(gate, t, w);
    } else {
      var table :| table in tabs;
      var rest := tabs - {table};
      ReadTogether(gate, t, w, rest);
      var w1, side := WithSide(w, t, Together(w, t, rest, {})), Together(w, t, tabs, {});
      assert side == SetWork(w1.sides[t], table, Held(w, t, table, Ready(UpsertPhase)));
      SideMoves(gate, t, w, w1, ReadDirty(t, table, Queue(w, t, table), Atomic), side);
      assert WithSide(w1, t, side) == WithSide(w, t, side);
    }
  }

  lemma {:induction false} RereadTogether(gate: set<TargetId>, t: TargetId, w: World, tabs: set<Table>, staged: set<Table>)
    requires t in w.sides && w.sides[t].pass == map[] && staged <= tabs
    ensures Reaches(gate, t, w, WithSide(w, t, Together(w, t, tabs, staged)))
    decreases staged
  {
    if staged == {} {
      ReadTogether(gate, t, w, tabs);
    } else {
      var table :| table in staged;
      var rest := staged - {table};
      RereadTogether(gate, t, w, tabs, rest);
      var w1, side := WithSide(w, t, Together(w, t, tabs, rest)), Together(w, t, tabs, staged);
      var b := w1.sides[t].pass[table];
      assert side == SetWork(w1.sides[t], table, b.(stage := Staged(UpsertPhase, Restrict(w1.source, b.keys))));
      SideMoves(gate, t, w, w1, Reread(t, table), side);
      assert WithSide(w1, t, side) == WithSide(w, t, side);
    }
  }

  /** What one atomic transaction over the tables leaves of the target's rows. */
  function Committed(w: World, t: TargetId, tabs: set<Table>): Database
    requires t in w.sides
  {
    map id | id in w.sides[t].rows.Keys + w.source.Keys && After(w, t, tabs, id).Some? :: After(w, t, tabs, id).value
  }

  function After(w: World, t: TargetId, tabs: set<Table>, id: RowId): Option<Row>
    requires t in w.sides
  {
    var rows := w.sides[t].rows;
    if id.table in tabs then
      Lookup(PhaseEffect(rows, Held(w, t, id.table, Ready(UpsertPhase)).keys, Atomic, UpsertPhase, Snapshot(w, t, id.table)), id)
    else Lookup(rows, id)
  }

  lemma AfterIsThere(w: World, t: TargetId, tabs: set<Table>, id: RowId)
    requires t in w.sides
    ensures Lookup(Committed(w, t, tabs), id) == After(w, t, tabs, id)
  {
    var rows := w.sides[t].rows;
    if id.table in tabs {
      PhaseOutcome(rows, Held(w, t, id.table, Ready(UpsertPhase)).keys, Atomic, UpsertPhase, Snapshot(w, t, id.table), id);
    }
  }

  /** All committed; the tables in `left` are still to be confirmed. */
  function Confirming(w: World, t: TargetId, tabs: set<Table>, left: set<Table>): Side
    requires t in w.sides
  {
    Side(Committed(w, t, tabs),
         w.sides[t].track + (set d | d in w.delta && d !in w.sides[t].track && w.delta[d].table in tabs - left),
         map table | table in left :: Held(w, t, table, Ready(ConfirmPhase)))
  }

  lemma {:induction false} CommitTogether(gate: set<TargetId>, t: TargetId, w: World, tabs: set<Table>)
    requires t in w.sides && w.sides[t].pass == map[]
    ensures Reaches(gate, t, w, WithSide(w, t, Confirming(w, t, tabs, tabs)))
  {
    RereadTogether(gate, t, w, tabs, tabs);
    var before, after := Together(w, t, tabs, tabs), Confirming(w, t, tabs, tabs);
    forall id: RowId ensures Lookup(after.rows, id) == After(w, t, tabs, id) { AfterIsThere(w, t, tabs, id); }
    assert after.track == before.track;
    assert AtomicEffect(before, after, tabs);
    var w1 := WithSide(w, t, before);
    SideMoves(gate, t, w, w1, CommitAtomic(t, tabs), after);
    assert WithSide(w1, t, after) == WithSide(w, t, after);
  }

  lemma ConfirmOne(w: World, t: TargetId, tabs: set<Table>, left: set<Table>, table: Table)
    requires t in w.sides && left <= tabs && table in tabs && table !in left
    ensures var before := Confirming(w, t, tabs, left + {table});
            SideStep(WithSide(w, t, before), before, Confirm(t, table), Confirming(w, t, tabs, left))
  {
    var before, after := Confirming(w, t, tabs, left + {table}), Confirming(w, t, tabs, left);
    assert after.track == before.track + Queue(w, t, table);
    assert after.pass == before.pass - {table};
  }

  lemma {:induction false} ConfirmTogether(gate: set<TargetId>, t: TargetId, w: World, tabs: set<Table>, left: set<Table>)
    requires t in w.sides && w.sides[t].pass == map[] && left <= tabs
    ensures Reaches(gate, t, w, WithSide(w, t, Confirming(w, t, tabs, left)))
    decreases tabs - left
  {
    var done := tabs - left;
    if done == {} {
      forall x <- tabs ensures x in left { assert x !in done; }
      assert left == tabs;
      CommitTogether(gate, t, w, tabs);
    } else {
      var table :| table in done;
      var w1, side := WithSide(w, t, Confirming(w, t, tabs, left + {table})), Confirming(w, t, tabs, left);
      ConfirmTogether(gate, t, w, tabs, left + {table});
      ConfirmOne(w, t, tabs, left, table);
      SideMoves(gate, t, w, w1, Confirm(t, table), side);
      assert WithSide(w1, t, side) == WithSide(w, t, side);
    }
  }

  /** The same for the drain that applies all tables in one transaction. */
  lemma AtomicDrainEnds(gate: set<TargetId>, w: World, t: TargetId) returns (w': World)
    requires Inv(gate, w) && t in gate && w.sides[t].pass == map[]
    ensures Reaches(gate, t, w, w') && Drained(w, w', t)
  {
    var tabs := Touched(w.delta);
    ConfirmTogether(gate, t, w, tabs, {});
    w' := WithSide(w, t, Confirming(w, t, tabs, {}));
    ReachesKeeps(gate, t, w, w');
    assert w'.sides[t].track == w.sides[t].track + w.delta.Keys;
  }

  // ---------- after a failure ----------

  /** However a target stands, a crash costs it only its passes: it drains from there. */
  lemma CrashedTargetDrains(gate: set<TargetId>, w: World, t: TargetId, cols: Table -> set<Column>) returns (w1: World, w2: World)
    requires Inv(gate, w) && t in gate
    ensures Next(gate, w, Crash(t), w1) && Reaches(gate, t, w1, w2)
    ensures t in w2.sides && w2.sides[t].rows == w.source && w2.sides[t].track == w.sides[t].track + w.delta.Keys
  {
    w1 := WithSide(w, t, w.sides[t].(pass := map[]));
    StepKeepsInv(gate, w, Crash(t), w1);
    w2 := PerTableDrainEnds(gate, w1, t, cols);
  }

  /** A rejected phase gives up that table's pass alone, and the table's whole queue can be
      read again at once. */
  lemma RejectedTableRestarts(gate: set<TargetId>, w: World, t: TargetId, table: Table, mode: Mode) returns (w1: World, w2: World)
    requires t in w.sides
    ensures Next(gate, w, RejectPhase(t, table), w1) && Reaches(gate, t, w1, w2)
    ensures Doing(w1, w2, t, table, mode, UpsertPhase) && Queue(w1, t, table) == Queue(w, t, table)
    ensures forall u | u != table :: Lookup(w1.sides[t].pass, u) == Lookup(w.sides[t].pass, u)
    ensures w1.sides[t].rows == w.sides[t].rows
  {
    w1 := WithSide(w, t, w.sides[t].(pass := w.sides[t].pass - {table}));
    ReachesSelf(gate, t, w1);
    w2 := ReadAll(gate, t, w1, w1, table, mode);
  }
}
