/** Recovery passes over a target of which only some components are flagged.

    A pass runs over every component once any table is flagged. Where nothing at or after
    the current component is flagged any more, a stop is not followed by another pass: a
    table that was cleared and whose copy progress was not yet reset stays as it is. This
    module says for every pass and every stop exactly when a change is lost that way. */
module PartialFlags {
  import opened Rows
  import opened Chunks
  import opened Copy
  import opened Reseed
  import Drain
  import Graph

  /** A pass is due; its unflagged components, if any, are in order. */
  ghost predicate PassInit(comps: Components, r: Reseeding) {
    && Base(comps, r.copy) && r.phase == Stopped && AnyFlag(comps, r.flags)
    && forall j: nat | j < |comps| :: HasFlag(comps[j], r.flags) || Good(r.copy, comps[j])
  }

  /** One pass up to some point, without further flagging, stops or restarts. */
  ghost predicate IsPass(comps: Components, pos: Place, trace: seq<Reseeding>, moves: seq<Move>) {
    && |trace| == |moves| + 1 && |moves| > 0 && PassInit(comps, trace[0])
    && moves[0].Begin? && (forall j | 0 < j < |moves| :: OfPass(moves[j]))
    && forall j | 0 <= j < |moves| :: Reseed.Next(comps, pos, trace[j], moves[j], trace[j + 1])
  }

  // ---------- what the pass has not touched ----------

  ghost predicate Queued(s: State, id: RowId) {
    Drain.Pending(s.world.delta, s.track, id)
  }

  /** A row with nothing queued had nothing queued before and is the same at the source. */
  ghost predicate SourceSame(s0: State, s: State) {
    && s.track == s0.track
    && forall id: RowId | !Queued(s, id) ::
         !Queued(s0, id) && Lookup(s.world.source, id) == Lookup(s0.world.source, id)
  }

  ghost predicate SameFlags(order: seq<Table>, f: map<Table, bool>, g: map<Table, bool>) {
    forall t <- order :: Up(f, t) <==> Up(g, t)
  }

  ghost predicate SameCopy(s0: State, s: State, t: Table) {
    t in s0.tables && t in s.tables && s.tables[t] == s0.tables[t]
  }

  ghost predicate SameRows(s0: State, s: State, t: Table) {
    forall id: RowId | id.table == t :: Lookup(s.rows, id) == Lookup(s0.rows, id)
  }

  /** A component the pass has not come to. */
  ghost predicate Ahead(r0: Reseeding, r: Reseeding, order: seq<Table>) {
    SameFlags(order, r0.flags, r.flags) && forall t <- order :: SameCopy(r0.copy, r.copy, t) && SameRows(r0.copy, r.copy, t)
  }

  ghost predicate AllAhead(comps: Components, r0: Reseeding, r: Reseeding, c: nat) {
    forall j: nat | c <= j < |comps| :: Ahead(r0, r, comps[j])
  }

  /** What the pass that began at r0 has left as it was when it has come to r. */
  ghost predicate Left(comps: Components, r0: Reseeding, r: Reseeding) {
    match r.phase
    case Stopped => GoodBefore(comps, r.copy, |comps|)
    case Clearing(c, n) =>
      && c < |comps| && n <= |comps[c]| && AllAhead(comps, r0, r, c + 1) && SameFlags(comps[c], r0.flags, r.flags)
      && (forall t <- comps[c] :: SameCopy(r0.copy, r.copy, t))
      && (forall j | 0 <= j < n :: SameRows(r0.copy, r.copy, comps[c][j]))
    case Resetting(c, i) =>
      && c < |comps| && AllAhead(comps, r0, r, c + 1) && SameFlags(comps[c], r0.flags, r.flags)
      && (forall j | i <= j < |comps[c]| :: SameCopy(r0.copy, r.copy, comps[c][j]))
    case Copying(c, _) => c < |comps| && AllAhead(comps, r0, r, c + 1) && SameFlags(comps[c], r0.flags, r.flags)
    case CuttingOver(c, _) => c < |comps| && AllAhead(comps, r0, r, c + 1)
  }

  /** A change confined to component c. */
  lemma AheadStays(comps: Components, r0: Reseeding, r: Reseeding, r': Reseeding, c: nat)
    requires Shape(comps) && c < |comps| && AllAhead(comps, r0, r, c + 1)
    requires forall t | t !in comps[c] :: Up(r'.flags, t) <==> Up(r.flags, t)
    requires forall t | t in r.copy.tables && t !in comps[c] :: t in r'.copy.tables && r'.copy.tables[t] == r.copy.tables[t]
    requires forall id: RowId | id.table !in comps[c] :: Lookup(r'.copy.rows, id) == Lookup(r.copy.rows, id)
    ensures AllAhead(comps, r0, r', c + 1)
  {
    forall j: nat | c + 1 <= j < |comps| ensures Ahead(r0, r', comps[j]) {
      assert Ahead(r0, r, comps[j]);
      forall t <- comps[j] ensures t !in comps[c] {
        assert InComp(comps, j, t);
        assert t in comps[c] ==> InComp(comps, c, t);
      }
      forall t <- comps[j] ensures SameCopy(r0.copy, r'.copy, t) && SameRows(r0.copy, r'.copy, t) {
        assert SameCopy(r0.copy, r.copy, t) && SameRows(r0.copy, r.copy, t);
      }
    }
  }

  lemma BeginLeaves(comps: Components, pos: Place, r0: Reseeding, r: Reseeding)
    requires PassInit(comps, r0) && Reseed.Next(comps, pos, r0, Begin, r)
    ensures Left(comps, r0, r) && SourceSame(r0.copy, r.copy)
  {
    forall j: nat | j < |comps| ensures Ahead(r0, r, comps[j]) {
      forall t <- comps[j] ensures SameCopy(r0.copy, r.copy, t) { assert InComp(comps, j, t); }
    }
    assert Ahead(r0, r, comps[0]);
  }

  lemma ClearLeaves(comps: Components, pos: Place, r0: Reseeding, r: Reseeding, r': Reseeding)
    requires Going(comps, pos, r) && Left(comps, r0, r) && Reseed.Next(comps, pos, r, ClearTable, r')
    ensures Left(comps, r0, r')
  {
    var c, n := r.phase.c, r.phase.n;
    AheadStays(comps, r0, r, r', c);
    assert Graph.Distinct(comps[c]);
    forall t <- comps[c] ensures SameCopy(r0.copy, r'.copy, t) { assert SameCopy(r0.copy, r.copy, t); }
    forall j | 0 <= j < n - 1 ensures SameRows(r0.copy, r'.copy, comps[c][j]) {
      assert SameRows(r0.copy, r.copy, comps[c][j]);
    }
  }

  lemma ResetLeaves(comps: Components, pos: Place, r0: Reseeding, r: Reseeding, r': Reseeding)
    requires Going(comps, pos, r) && Left(comps, r0, r) && Reseed.Next(comps, pos, r, ResetProgress, r')
    ensures Left(comps, r0, r')
  {
    var c, i := r.phase.c, r.phase.i;
    AheadStays(comps, r0, r, r', c);
    assert Graph.Distinct(comps[c]);
    forall j | i + 1 <= j < |comps[c]| ensures SameCopy(r0.copy, r'.copy, comps[c][j]) {
      assert SameCopy(r0.copy, r.copy, comps[c][j]);
    }
  }

  lemma CopyLeaves(comps: Components, pos: Place, r0: Reseeding, r: Reseeding, m: Move, r': Reseeding)
    requires Going(comps, pos, r) && Left(comps, r0, r) && m.CopyStep? && Reseed.Next(comps, pos, r, m, r')
    ensures Left(comps, r0, r')
  {
    var c := r.phase.c;
    CopyKeepsTables(pos, r.copy, m.step, r'.copy, comps[c], r.phase.i);
    StepShape(pos, r.copy, m.step, r'.copy);
    AheadStays(comps, r0, r, r', c);
  }

  lemma FlagLeaves(comps: Components, pos: Place, r0: Reseeding, r: Reseeding, r': Reseeding)
    requires Going(comps, pos, r) && Left(comps, r0, r) && Reseed.Next(comps, pos, r, ClearFlag, r')
    ensures Left(comps, r0, r')
  {
    var c := r.phase.c;
    FlagGoes(comps, pos, r, r');
    AheadStays(comps, r0, r, r', c);
    if c + 1 < |comps| { assert Ahead(r0, r', comps[c + 1]); }
  }

  /** The rows a transaction leaves unqueued are the ones it did not touch. */
  lemma TxnSourceSame(pos: Place, s0: State, s: State, step: Step, s': State)
    requires Counters(s) && step.Txn? && Copy.Next(pos, s, step, s') && SourceSame(s0, s)
    ensures SourceSame(s0, s')
  {
    Drain.NewDeltasCover(step.ids, Drain.CapturedAll(step.changes));
    forall id: RowId | !Queued(s', id)
      ensures !Queued(s0, id) && Lookup(s'.world.source, id) == Lookup(s0.world.source, id)
    {
      TxnUnqueued(pos, s, step, s', id);
    }
  }

  lemma TxnUnqueued(pos: Place, s: State, step: Step, s': State, id: RowId)
    requires Counters(s) && step.Txn? && Copy.Next(pos, s, step, s') && !Queued(s', id)
    ensures !Queued(s, id) && Lookup(s'.world.source, id) == Lookup(s.world.source, id)
  {
    var txn := Drain.SourceTxn(step.changes, step.ids);
    var empty: Database := map[];
    var other: Database := map[id := map[]];
    assert Lookup(empty, id) == None && Lookup(other, id).Some?;
    Drain.TxnKeepsAgreement({}, s.world, txn, s'.world, s.world.source, s.track, id);
    Drain.TxnKeepsAgreement({}, s.world, txn, s'.world, empty, s.track, id);
    Drain.TxnKeepsAgreement({}, s.world, txn, s'.world, other, s.track, id);
  }

  lemma TxnLeaves(comps: Components, pos: Place, r0: Reseeding, r: Reseeding, m: Move, r': Reseeding)
    requires Going(comps, pos, r) && Left(comps, r0, r) && m.SourceTxn? && Reseed.Next(comps, pos, r, m, r')
    ensures Left(comps, r0, r')
  {
    TxnSame(comps, pos, r, Txn(m.changes, m.ids), r');
    if r.phase == Stopped {
      TxnGoes(comps, pos, r, m, r');
    } else {
      assert forall t :: SameRows(r0.copy, r.copy, t) <==> SameRows(r0.copy, r'.copy, t);
      assert forall t :: SameCopy(r0.copy, r.copy, t) <==> SameCopy(r0.copy, r'.copy, t);
      forall j: nat | r.phase.c + 1 <= j < |comps| ensures Ahead(r0, r', comps[j]) { assert Ahead(r0, r, comps[j]); }
    }
  }

  lemma MoveLeaves(comps: Components, pos: Place, r0: Reseeding, r: Reseeding, m: Move, r': Reseeding)
    requires Going(comps, pos, r) && Left(comps, r0, r) && SourceSame(r0.copy, r.copy)
    requires OfPass(m) && Reseed.Next(comps, pos, r, m, r')
    ensures Left(comps, r0, r') && SourceSame(r0.copy, r'.copy)
  {
    match m
    case ClearTable => ClearLeaves(comps, pos, r0, r, r');
    case ResetProgress => ResetLeaves(comps, pos, r0, r, r');
    case CopyStep(step) =>
      CopyLeaves(comps, pos, r0, r, m, r');
      StepShape(pos, r.copy, step, r'.copy);
    case NextTable =>
    case ClearFlag => FlagLeaves(comps, pos, r0, r, r');
    case SourceTxn(changes, ids) =>
      TxnLeaves(comps, pos, r0, r, m, r');
      TxnSourceSame(pos, r0.copy, r.copy, Txn(changes, ids), r'.copy);
  }

  ghost predicate PassInv(comps: Components, pos: Place, r0: Reseeding, r: Reseeding) {
    Going(comps, pos, r) && FlagsDown(comps, r) && Left(comps, r0, r) && SourceSame(r0.copy, r.copy)
  }

  lemma {:induction false} PassKeepsInv(comps: Components, pos: Place, trace: seq<Reseeding>, moves: seq<Move>)
    requires IsPass(comps, pos, trace, moves)
    ensures PassInv(comps, pos, trace[0], trace[|moves|])
  {
    var n := |moves| - 1;
    if n == 0 {
      BeginLeaves(comps, pos, trace[0], trace[1]);
      PassGoes(comps, pos, trace[0], moves[0], trace[1]);
    } else {
      assert IsPass(comps, pos, trace[..n + 1], moves[..n]);
      PassKeepsInv(comps, pos, trace[..n + 1], moves[..n]);
      PassGoes(comps, pos, trace[n], moves[n], trace[n + 1]);
      PassFlags(comps, pos, trace[n], moves[n], trace[n + 1]);
      MoveLeaves(comps, pos, trace[0], trace[n], moves[n], trace[n + 1]);
    }
  }

  // ---------- stops ----------

  /** Nothing is flagged, and the next bring-up does not put things right: its invariant,
      from which it brings every table to agree with the source, does not hold. */
  ghost predicate Stranded(comps: Components, pos: Place, r: Reseeding) {
    !AnyFlag(comps, r.flags) && !Copy.Inv(r.copy, pos)
  }

  /** A table the pass has cleared and whose copy progress it has not yet reset. */
  ghost predicate Exposed(comps: Components, phase: Phase, t: Table) {
    match phase
    case Clearing(c, n) => c < |comps| && exists j :: n <= j < |comps[c]| && comps[c][j] == t
    case Resetting(c, i) => c < |comps| && exists j :: i <= j < |comps[c]| && comps[c][j] == t
    case _ => false
  }

  ghost predicate NoFlagFrom(comps: Components, flags: map<Table, bool>, c: nat) {
    forall j: nat | c <= j < |comps| :: !HasFlag(comps[j], flags)
  }

  /** No component at or after the current one was flagged when the pass began. */
  ghost predicate Unflagged(comps: Components, flags: map<Table, bool>, phase: Phase) {
    phase != Stopped && NoFlagFrom(comps, flags, phase.c)
  }

  /** Where nothing changed, agreement is kept. */
  lemma StillOk(s0: State, s: State, id: RowId)
    requires SourceSame(s0, s) && RowOk(s0, id) && Lookup(s.rows, id) == Lookup(s0.rows, id)
    ensures RowOk(s, id)
  {}

  lemma StillDone(s0: State, s: State, t: Table)
    requires SourceSame(s0, s) && TableDone(s0, t) && SameCopy(s0, s, t) && SameRows(s0, s, t)
    ensures TableDone(s, t)
  {
    forall id: RowId | id.table == t ensures RowOk(s, id) {
      assert RowOk(s0, id);
      StillOk(s0, s, id);
    }
  }

  lemma DoneIsOk(s: State, pos: Place, t: Table)
    requires TableDone(s, t)
    ensures TableOk(s, pos, t)
  {}

  lemma LostIsOk(s: State, pos: Place, t: Table)
    requires t in s.tables && TableOk(s, pos, t)
    ensures t in Lost(s).tables && TableOk(Lost(s), pos, t)
  {
    assert forall id :: RowOk(s, id) <==> RowOk(Lost(s), id);
  }

  lemma SameFlag(order: seq<Table>, f: map<Table, bool>, g: map<Table, bool>)
    requires SameFlags(order, f, g)
    ensures HasFlag(order, f) <==> HasFlag(order, g)
  {
    if t :| t in order && Up(f, t) { assert Up(g, t); }
    if t :| t in order && Up(g, t) { assert Up(f, t); }
  }

  /** A table of a component other than the current one is in order when nothing is
      flagged any more. */
  lemma OtherIsOk(comps: Components, pos: Place, r0: Reseeding, r: Reseeding, j: nat, t: Table)
    requires PassInit(comps, r0) && PassInv(comps, pos, r0, r) && !AnyFlag(comps, r.flags)
    requires r.phase != Stopped && j < |comps| && j != r.phase.c && t in comps[j]
    ensures t in r.copy.tables && TableOk(r.copy, pos, t)
  {
    if j < r.phase.c {
      assert Good(r.copy, comps[j]);
    } else {
      assert Ahead(r0, r, comps[j]);
      SameFlag(comps[j], r0.flags, r.flags);
      assert !HasFlag(comps[j], r.flags);
      StillDone(r0.copy, r.copy, t);
    }
    DoneIsOk(r.copy, pos, t);
  }

  /** An exposed table is in order exactly when every row it held is queued. */
  lemma ExposedIsOk(s0: State, s: State, pos: Place, t: Table)
    requires SourceSame(s0, s) && TableDone(s0, t) && SameCopy(s0, s, t) && Empty(s, t)
    ensures TableOk(s, pos, t) <==> forall id | id in s0.rows && id.table == t :: Queued(s, id)
  {
    forall id: RowId | id.table == t ensures RowOk(s, id) <==> (id in s0.rows ==> Queued(s, id)) {
      assert RowOk(s0, id);
    }
    if TableOk(s, pos, t) {
      forall id | id in s0.rows && id.table == t ensures Queued(s, id) { assert RowOk(s, id); }
    }
  }

  /** What an exposed table is known to be. */
  lemma ExposedFacts(comps: Components, pos: Place, r0: Reseeding, r: Reseeding, t: Table)
    requires PassInit(comps, r0) && PassInv(comps, pos, r0, r)
    requires Unflagged(comps, r0.flags, r.phase) && Exposed(comps, r.phase, t)
    ensures TableDone(r0.copy, t) && SameCopy(r0.copy, r.copy, t) && Empty(r.copy, t)
  {
    var c := r.phase.c;
    assert !HasFlag(comps[c], r0.flags);
    assert Good(r0.copy, comps[c]);
  }

  /** A table of the current component is in order unless it is exposed. */
  lemma CurrentIsOk(comps: Components, pos: Place, r0: Reseeding, r: Reseeding, t: Table)
    requires PassInit(comps, r0) && PassInv(comps, pos, r0, r) && Unflagged(comps, r0.flags, r.phase)
    requires t in comps[r.phase.c] && !Exposed(comps, r.phase, t)
    ensures t in r.copy.tables && TableOk(r.copy, pos, t)
  {
    var c := r.phase.c;
    assert !HasFlag(comps[c], r0.flags);
    assert Good(r0.copy, comps[c]);
    var j :| 0 <= j < |comps[c]| && comps[c][j] == t;
    match r.phase
    case Clearing(_, n) =>
      assert SameRows(r0.copy, r.copy, comps[c][j]);
      StillDone(r0.copy, r.copy, t);
      DoneIsOk(r.copy, pos, t);
    case Resetting(_, i) =>
      assert Empty(r.copy, comps[c][j]) && IsFresh(r.copy, comps[c][j]);
    case Copying(_, _) =>
    case CuttingOver(_, _) => DoneIsOk(r.copy, pos, t);
  }

  /** The flags left are those of the components still to come. */
  lemma FlagsLeft(comps: Components, pos: Place, r0: Reseeding, r: Reseeding)
    requires PassInit(comps, r0) && PassInv(comps, pos, r0, r) && r.phase != Stopped && !r.phase.CuttingOver?
    ensures AnyFlag(comps, r.flags) <==> !Unflagged(comps, r0.flags, r.phase)
  {
    forall j: nat | r.phase.c <= j < |comps| ensures HasFlag(comps[j], r0.flags) <==> HasFlag(comps[j], r.flags) {
      if j > r.phase.c { assert Ahead(r0, r, comps[j]); }
      SameFlag(comps[j], r0.flags, r.flags);
    }
    forall j: nat | j < r.phase.c ensures !HasFlag(comps[j], r.flags) {
      forall t <- comps[j] ensures !Up(r.flags, t) {
        var k: nat :| k < |comps[j]| && comps[j][k] == t;
        assert Passed(comps, r.phase, j, k);
      }
    }
  }

  /** Nothing flagged and nothing exposed: the bring-up invariant holds. */
  lemma NothingStranded(comps: Components, pos: Place, r0: Reseeding, r: Reseeding)
    requires PassInit(comps, r0) && PassInv(comps, pos, r0, r) && !AnyFlag(comps, r.flags)
    requires forall id | id in r0.copy.rows && Exposed(comps, r.phase, id.table) :: Queued(r.copy, id)
    ensures Copy.Inv(Lost(r.copy), pos)
  {
    forall t | t in Lost(r.copy).tables ensures TableOk(Lost(r.copy), pos, t) {
      assert InSome(comps, t);
      var j: nat :| InComp(comps, j, t);
      if r.phase == Stopped {
        assert Good(r.copy, comps[j]);
        DoneIsOk(r.copy, pos, t);
      } else if j != r.phase.c {
        OtherIsOk(comps, pos, r0, r, j, t);
      } else {
        CurrentWithoutLoss(comps, pos, r0, r, t);
      }
      LostIsOk(r.copy, pos, t);
    }
  }

  lemma CurrentWithoutLoss(comps: Components, pos: Place, r0: Reseeding, r: Reseeding, t: Table)
    requires PassInit(comps, r0) && PassInv(comps, pos, r0, r) && !AnyFlag(comps, r.flags)
    requires forall id | id in r0.copy.rows && Exposed(comps, r.phase, id.table) :: Queued(r.copy, id)
    requires r.phase != Stopped && t in comps[r.phase.c]
    ensures t in r.copy.tables && TableOk(r.copy, pos, t)
  {
    if r.phase.CuttingOver? {
      DoneIsOk(r.copy, pos, t);
    } else {
      FlagsLeft(comps, pos, r0, r);
      if Exposed(comps, r.phase, t) {
        ExposedFacts(comps, pos, r0, r, t);
        ExposedIsOk(r0.copy, r.copy, pos, t);
      } else {
        CurrentIsOk(comps, pos, r0, r, t);
      }
    }
  }

  /** A stop strands the target exactly when no component at or after the current one was
      flagged and an exposed table held a row for which nothing is queued. */
  lemma StopStrandsExactlyWhen(comps: Components, pos: Place, trace: seq<Reseeding>, moves: seq<Move>, r': Reseeding)
    requires IsPass(comps, pos, trace, moves) && Reseed.Next(comps, pos, trace[|moves|], Stop, r')
    ensures var r0, r := trace[0], trace[|moves|];
            Stranded(comps, pos, r') <==>
              && Unflagged(comps, r0.flags, r.phase)
              && exists id :: id in r0.copy.rows && Exposed(comps, r.phase, id.table) && !Queued(r.copy, id)
  {
    var r0, r := trace[0], trace[|moves|];
    PassKeepsInv(comps, pos, trace, moves);
    if !AnyFlag(comps, r.flags) {
      if id :| id in r0.copy.rows && Exposed(comps, r.phase, id.table) && !Queued(r.copy, id) {
        FlagsLeft(comps, pos, r0, r);
        ExposedStrands(comps, pos, r0, r, id);
      } else {
        NothingStranded(comps, pos, r0, r);
      }
    } else if r.phase.Clearing? || r.phase.Resetting? {
      FlagsLeft(comps, pos, r0, r);
    }
  }

  lemma ExposedStrands(comps: Components, pos: Place, r0: Reseeding, r: Reseeding, id: RowId)
    requires PassInit(comps, r0) && PassInv(comps, pos, r0, r) && Unflagged(comps, r0.flags, r.phase)
    requires id in r0.copy.rows && Exposed(comps, r.phase, id.table) && !Queued(r.copy, id)
    ensures !Copy.Inv(Lost(r.copy), pos)
  {
    var t := id.table;
    ExposedFacts(comps, pos, r0, r, t);
    ExposedIsOk(r0.copy, r.copy, pos, t);
    var s := Lost(r.copy);
    assert s.tables[t].progress.done && RowOk(r0.copy, id);
    assert Copy.Inv(s, pos) ==> TableOk(s, pos, t) && RowOk(s, id);
    assert RowOk(s, id) <==> RowOk(r.copy, id);
  }

  // ---------- every such loss can happen ----------

  /** A pass from r0 to r on a quiet source. */
  ghost predicate QuietPass(comps: Components, pos: Place, trace: seq<Reseeding>, moves: seq<Move>, r0: Reseeding, r: Reseeding) {
    && IsPass(comps, pos, trace, moves) && trace[0] == r0 && trace[|moves|] == r
    && r.copy.world == r0.copy.world && r.copy.track == r0.copy.track
  }

  ghost predicate Reaches(comps: Components, pos: Place, r0: Reseeding, r: Reseeding) {
    exists trace, moves :: QuietPass(comps, pos, trace, moves, r0, r)
  }

  lemma {:induction false} ReachesGoing(comps: Components, pos: Place, r0: Reseeding, r: Reseeding)
    requires Reaches(comps, pos, r0, r)
    ensures Going(comps, pos, r)
  {
    var trace, moves :| QuietPass(comps, pos, trace, moves, r0, r);
    PassKeepsInv(comps, pos, trace, moves);
  }

  lemma {:induction false} Further(comps: Components, pos: Place, r0: Reseeding, r: Reseeding, m: Move, r': Reseeding)
    requires Reaches(comps, pos, r0, r) && OfPass(m) && !m.SourceTxn? && Reseed.Next(comps, pos, r, m, r')
    ensures Reaches(comps, pos, r0, r')
  {
    var trace, moves :| QuietPass(comps, pos, trace, moves, r0, r);
    if m.CopyStep? { StepShape(pos, r.copy, m.step, r'.copy); }
    var trace', moves' := trace + [r'], moves + [m];
    forall j | 0 <= j < |moves'| ensures Reseed.Next(comps, pos, trace'[j], moves'[j], trace'[j + 1]) {
      if j < |moves| { assert trace'[j] == trace[j] && trace'[j + 1] == trace[j + 1] && moves'[j] == moves[j]; }
    }
    assert QuietPass(comps, pos, trace', moves', r0, r');
  }

  lemma {:induction false} CanBegin(comps: Components, pos: Place, r0: Reseeding) returns (r: Reseeding)
    requires PassInit(comps, r0)
    ensures Reaches(comps, pos, r0, r) && r.phase == Clearing(0, |comps[0]|)
  {
    r := r0.(phase := Clearing(0, |comps[0]|));
    assert QuietPass(comps, pos, [r0, r], [Begin], r0, r);
  }

  lemma {:induction false} CanClear(comps: Components, pos: Place, r0: Reseeding, r: Reseeding) returns (r': Reseeding)
    requires Reaches(comps, pos, r0, r) && r.phase.Clearing?
    ensures Reaches(comps, pos, r0, r') && r'.phase == Resetting(r.phase.c, 0)
    decreases r.phase.n
  {
    ReachesGoing(comps, pos, r0, r);
    r' := r.(copy := r.copy.(rows := WithoutTable(r.copy.rows, comps[r.phase.c][r.phase.n - 1])),
             phase := AfterClear(r.phase.c, r.phase.n));
    Further(comps, pos, r0, r, ClearTable, r');
    if r.phase.n > 1 { r' := CanClear(comps, pos, r0, r'); }
  }

  lemma {:induction false} CanReset(comps: Components, pos: Place, r0: Reseeding, r: Reseeding) returns (r': Reseeding)
    requires Reaches(comps, pos, r0, r) && r.phase.Resetting?
    ensures Reaches(comps, pos, r0, r') && r'.phase == Copying(r.phase.c, 0)
    decreases if r.phase.c < |comps| then |comps[r.phase.c]| - r.phase.i else 0
  {
    ReachesGoing(comps, pos, r0, r);
    r' := r.(copy := r.copy.(tables := r.copy.tables[comps[r.phase.c][r.phase.i] := FreshCopy()]),
             phase := AfterReset(comps, r.phase.c, r.phase.i));
    Further(comps, pos, r0, r, ResetProgress, r');
    if r'.phase.Resetting? { r' := CanReset(comps, pos, r0, r'); }
  }

  lemma {:induction false} CanCut(comps: Components, pos: Place, r0: Reseeding, r: Reseeding) returns (r': Reseeding)
    requires Reaches(comps, pos, r0, r) && r.phase.CuttingOver?
    ensures Reaches(comps, pos, r0, r') && r.phase.c < |comps|
    ensures r'.phase == if r.phase.c + 1 < |comps| then Clearing(r.phase.c + 1, |comps[r.phase.c + 1]|) else Stopped
    decreases if r.phase.c < |comps| then |comps[r.phase.c]| - r.phase.i else 0
  {
    ReachesGoing(comps, pos, r0, r);
    r' := r.(flags := r.flags[comps[r.phase.c][r.phase.i] := false], phase := AfterFlag(comps, r.phase.c, r.phase.i));
    Further(comps, pos, r0, r, ClearFlag, r');
    if r'.phase.CuttingOver? { r' := CanCut(comps, pos, r0, r'); }
  }

  lemma CanCopyStep(comps: Components, pos: Place, r0: Reseeding, r: Reseeding, step: Step, s': State) returns (r': Reseeding)
    requires Reaches(comps, pos, r0, r) && r.phase.Copying? && !step.Txn?
    requires r.phase.c < |comps| && r.phase.i < |comps[r.phase.c]| && step.table == comps[r.phase.c][r.phase.i]
    requires Copy.Next(pos, r.copy, step, s')
    ensures Reaches(comps, pos, r0, r') && r' == r.(copy := s')
  {
    r' := r.(copy := s');
    Further(comps, pos, r0, r, CopyStep(step), r');
  }

  /** A run that copies the table in one chunk by merging. */
  function OneRun(lo: Option<real>, stage: Stage, tried: bool, done: bool): Run {
    Run(lo, [], Merge, [stage], [tried], [done], if done then 1 else 0)
  }

  function InOneRun(s: State, t: Table, stage: Stage, tried: bool, done: bool): State
    requires t in s.tables
  {
    SetRun(s, t, OneRun(s.tables[t].progress.watermark, stage, tried, done))
  }

  lemma OneStart(pos: Place, s: State, t: Table)
    requires t in s.tables && s.tables[t].run.None? && !s.tables[t].progress.done
    ensures Copy.Next(pos, s, Start(t, [], Merge), InOneRun(s, t, Idle, false, false))
  {
    assert seq(1, _ => Idle) == [Idle] && seq(1, _ => false) == [false];
  }

  lemma OneRead(pos: Place, s: State, t: Table) returns (snap: Database)
    requires t in s.tables
    ensures Copy.Next(pos, InOneRun(s, t, Idle, false, false), ReadChunk(t, 0), InOneRun(s, t, Holding(snap), false, false))
  {
    var run := OneRun(s.tables[t].progress.watermark, Idle, false, false);
    RangesCount(run.lo, []);
    snap := RowsIn(s.world.source, pos, t, ChunksOf(run)[0]);
    assert [Idle][0 := Holding(snap)] == [Holding(snap)];
  }

  lemma OneLoad(pos: Place, s: State, t: Table, snap: Database)
    requires t in s.tables
    ensures Copy.Next(pos, InOneRun(s, t, Holding(snap), false, false), LoadChunk(t, 0, true),
                      InOneRun(s, t, Landed, true, false).(rows := s.rows + snap))
  {
    RangesCount(s.tables[t].progress.watermark, []);
    assert [Holding(snap)][0 := Landed] == [Landed] && [false][0 := true] == [true];
  }

  lemma OneMark(pos: Place, s: State, t: Table)
    requires t in s.tables
    ensures Copy.Next(pos, InOneRun(s, t, Landed, true, false), MarkDone(t, 0), InOneRun(s, t, Landed, true, true))
  {
    var before, after := InOneRun(s, t, Landed, true, false), InOneRun(s, t, Landed, true, true);
    RangesCount(s.tables[t].progress.watermark, []);
    assert [false][0 := true] == [true] && Advance([true], 0) == 1;
    assert Saved(s.tables[t].progress, [], 0, 1) == s.tables[t].progress;
    assert after == before.(tables := before.tables[t := after.tables[t]]);
  }

  lemma OneFinish(pos: Place, s: State, t: Table) returns (s': State)
    requires t in s.tables
    ensures Copy.Next(pos, InOneRun(s, t, Landed, true, true), Finish(t), s')
    ensures t in s'.tables && s'.tables[t].progress.done
  {
    var before := InOneRun(s, t, Landed, true, true);
    s' := before.(tables := before.tables[t := TableCopy(Progress(true, None), None)]);
  }

  lemma OneChunk(pos: Place, s: State, t: Table) returns (steps: seq<Step>, ss: seq<State>)
    requires t in s.tables && s.tables[t].run.None? && !s.tables[t].progress.done
    ensures |ss| == |steps| + 1 == 6 && ss[0] == s && t in ss[5].tables && ss[5].tables[t].progress.done
    ensures forall j | 0 <= j < 5 :: !steps[j].Txn? && steps[j].table == t && Copy.Next(pos, ss[j], steps[j], ss[j + 1])
  {
    OneStart(pos, s, t);
    var snap := OneRead(pos, s, t);
    OneLoad(pos, s, t, snap);
    var loaded := s.(rows := s.rows + snap);
    assert InOneRun(loaded, t, Landed, true, false) == InOneRun(s, t, Landed, true, false).(rows := s.rows + snap);
    OneMark(pos, loaded, t);
    var end := OneFinish(pos, loaded, t);
    steps := [Start(t, [], Merge), ReadChunk(t, 0), LoadChunk(t, 0, true), MarkDone(t, 0), Finish(t)];
    ss := [s, InOneRun(s, t, Idle, false, false), InOneRun(s, t, Holding(snap), false, false),
           InOneRun(loaded, t, Landed, true, false), InOneRun(loaded, t, Landed, true, true), end];
  }

  lemma {:induction false} CanTake(comps: Components, pos: Place, r0: Reseeding, r: Reseeding, steps: seq<Step>, ss: seq<State>, n: nat)
    returns (r': Reseeding)
    requires Reaches(comps, pos, r0, r) && r.phase.Copying? && r.phase.c < |comps| && r.phase.i < |comps[r.phase.c]|
    requires |ss| == |steps| + 1 && n <= |steps| && ss[0] == r.copy
    requires forall j | 0 <= j < |steps| ::
               !steps[j].Txn? && steps[j].table == comps[r.phase.c][r.phase.i] && Copy.Next(pos, ss[j], steps[j], ss[j + 1])
    ensures Reaches(comps, pos, r0, r') && r' == r.(copy := ss[n])
  {
    if n == 0 {
      r' := r;
    } else {
      r' := CanTake(comps, pos, r0, r, steps, ss, n - 1);
      r' := CanCopyStep(comps, pos, r0, r', steps[n - 1], ss[n]);
    }
  }

  lemma CanCopyTable(comps: Components, pos: Place, r0: Reseeding, r: Reseeding) returns (r': Reseeding)
    requires Reaches(comps, pos, r0, r) && r.phase.Copying?
    ensures r.phase.c < |comps| && r.phase.i < |comps[r.phase.c]|
    ensures Reaches(comps, pos, r0, r') && r'.phase == AfterTable(comps, r.phase.c, r.phase.i)
  {
    ReachesGoing(comps, pos, r0, r);
    var t := comps[r.phase.c][r.phase.i];
    var dropped := r.copy.(tables := r.copy.tables[t := r.copy.tables[t].(run := None)]);
    r' := CanCopyStep(comps, pos, r0, r, Crash(t), dropped);
    if !r'.copy.tables[t].progress.done {
      var steps, ss := OneChunk(pos, r'.copy, t);
      r' := CanTake(comps, pos, r0, r', steps, ss, 5);
    }
    var r1 := r';
    r' := r1.(phase := AfterTable(comps, r.phase.c, r.phase.i));
    Further(comps, pos, r0, r1, NextTable, r');
  }

  lemma {:induction false} CanCopy(comps: Components, pos: Place, r0: Reseeding, r: Reseeding) returns (r': Reseeding)
    requires Reaches(comps, pos, r0, r) && r.phase.Copying?
    ensures Reaches(comps, pos, r0, r') && r'.phase == CuttingOver(r.phase.c, 0)
    decreases if r.phase.c < |comps| then |comps[r.phase.c]| - r.phase.i else 0
  {
    ReachesGoing(comps, pos, r0, r);
    r' := CanCopyTable(comps, pos, r0, r);
    if r'.phase.Copying? { r' := CanCopy(comps, pos, r0, r'); }
  }

  /** A pass can come to the point where component c is cleared. */
  lemma {:induction false} CanReach(comps: Components, pos: Place, r0: Reseeding, c: nat) returns (r: Reseeding)
    requires PassInit(comps, r0) && c < |comps|
    ensures Reaches(comps, pos, r0, r) && r.phase == Resetting(c, 0)
  {
    if c == 0 {
      r := CanBegin(comps, pos, r0);
    } else {
      r := CanReach(comps, pos, r0, c - 1);
      r := CanReset(comps, pos, r0, r);
      r := CanCopy(comps, pos, r0, r);
      r := CanCut(comps, pos, r0, r);
    }
    r := CanClear(comps, pos, r0, r);
  }

  /** A pass from r0 that, stopped at its end, strands the target. */
  ghost predicate CanStrand(comps: Components, pos: Place, trace: seq<Reseeding>, moves: seq<Move>, r0: Reseeding, r': Reseeding) {
    && IsPass(comps, pos, trace, moves) && trace[0] == r0
    && Reseed.Next(comps, pos, trace[|moves|], Stop, r') && Stranded(comps, pos, r')
  }

  /** A row with nothing queued, in a component from which on nothing is flagged. */
  ghost predicate AtRisk(comps: Components, r0: Reseeding, c: nat, id: RowId) {
    && c < |comps| && NoFlagFrom(comps, r0.flags, c)
    && id in r0.copy.rows && id.table in comps[c] && !Queued(r0.copy, id)
  }

  lemma {:induction false} RiskIsReal(comps: Components, pos: Place, r0: Reseeding, c: nat, id: RowId)
    returns (trace: seq<Reseeding>, moves: seq<Move>, r': Reseeding)
    requires PassInit(comps, r0) && AtRisk(comps, r0, c, id)
    ensures CanStrand(comps, pos, trace, moves, r0, r')
  {
    var r := CanReach(comps, pos, r0, c);
    trace, moves :| QuietPass(comps, pos, trace, moves, r0, r);
    r' := r.(copy := Lost(r.copy), phase := Stopped);
    var j :| 0 <= j < |comps[c]| && comps[c][j] == id.table;
    assert Exposed(comps, r.phase, id.table);
    StopStrandsExactlyWhen(comps, pos, trace, moves, r');
  }

  lemma {:induction false} StrandedWasAtRisk(comps: Components, pos: Place, trace: seq<Reseeding>, moves: seq<Move>, r0: Reseeding, r': Reseeding)
    returns (c: nat, id: RowId)
    requires CanStrand(comps, pos, trace, moves, r0, r')
    ensures AtRisk(comps, r0, c, id)
  {
    var r := trace[|moves|];
    StopStrandsExactlyWhen(comps, pos, trace, moves, r');
    PassKeepsInv(comps, pos, trace, moves);
    id :| id in r0.copy.rows && Exposed(comps, r.phase, id.table) && !Queued(r.copy, id);
    c := r.phase.c;
  }

  /** Whether some stop of the next pass can strand the target is decided when it begins:
      it can exactly when a row with nothing queued lies in a component from which on
      nothing is flagged. */
  lemma PassCanStrandExactlyWhen(comps: Components, pos: Place, r0: Reseeding)
    requires PassInit(comps, r0)
    ensures (exists trace, moves, r' :: CanStrand(comps, pos, trace, moves, r0, r')) <==>
            exists c, id :: AtRisk(comps, r0, c, id)
  {
    if trace, moves, r' :| CanStrand(comps, pos, trace, moves, r0, r') {
      var c, id := StrandedWasAtRisk(comps, pos, trace, moves, r0, r');
    }
    if c, id :| AtRisk(comps, r0, c, id) {
      var trace, moves, r' := RiskIsReal(comps, pos, r0, c, id);
    }
  }

  /** How such flags come about: all tables flagged while the last flag of a pass is about
      to be cleared. The pass then ends with every flag set but that one. */
  lemma FlaggingMidPass(comps: Components, pos: Place, r: Reseeding, r1: Reseeding, r2: Reseeding)
    requires Shape(comps) && r.phase == CuttingOver(|comps| - 1, |comps[|comps| - 1]| - 1)
    requires Reseed.Next(comps, pos, r, FlagAll, r1) && Reseed.Next(comps, pos, r1, ClearFlag, r2)
    ensures r2.phase == Stopped && forall t | InSome(comps, t) :: Up(r2.flags, t) <==> t != Final(comps)
  {
    assert comps[|comps| - 1] != [];
    forall t | InSome(comps, t) ensures Up(r1.flags, t) { var j :| InComp(comps, j, t); }
  }

  /** From there the next pass can strand the target: the last component, if it is a single
      table, is unflagged, and the others are flagged. */
  lemma MidPassIsAtRisk(comps: Components, pos: Place, r: Reseeding, r1: Reseeding, r2: Reseeding, id: RowId)
    requires Reseed.Inv(comps, pos, r) && |comps| > 1 && |comps[|comps| - 1]| == 1 && r.phase == CuttingOver(|comps| - 1, 0)
    requires Reseed.Next(comps, pos, r, FlagAll, r1) && Reseed.Next(comps, pos, r1, ClearFlag, r2)
    requires id in r.copy.rows && id.table == Final(comps) && !Queued(r.copy, id)
    ensures PassInit(comps, r2) && AtRisk(comps, r2, |comps| - 1, id)
  {
    var last := |comps| - 1;
    FlaggingMidPass(comps, pos, r, r1, r2);
    forall j: nat | j < |comps| ensures HasFlag(comps[j], r2.flags) <==> j < last { OnlyLastDown(comps, r2.flags, j); }
    assert HasFlag(comps[0], r2.flags);
    assert Good(r2.copy, comps[last]);
  }

  lemma OnlyLastDown(comps: Components, flags: map<Table, bool>, j: nat)
    requires Shape(comps) && j < |comps| && |comps[|comps| - 1]| == 1
    requires forall t | InSome(comps, t) :: Up(flags, t) <==> t != Final(comps)
    ensures HasFlag(comps[j], flags) <==> j < |comps| - 1
  {
    var last := |comps| - 1;
    assert comps[j] != [] && InComp(comps, j, comps[j][0]) && InComp(comps, last, Final(comps));
    if j < last { assert comps[j][0] in comps[j] && Up(flags, comps[j][0]); }
  }
}
