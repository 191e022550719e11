/** The recovery code. Its loops run against a source that writes before every effect and
    endpoints that may fail at every effect; every effect is recorded as a move of the
    protocol of module Reseed, so whatever is proved of all its histories holds at each
    point where this code can stop. A pass that meets no failure finishes: every flag
    cleared, no change of any component lost. */
module Recovery {
  import opened Rows
  import opened Chunks
  import opened Copy
  import opened R = Reseed
  import Drain
  import Graph

  /** A transaction the source would like to commit, with the delta ids it draws. */
  datatype Write = Write(changes: seq<Drain.Change>, ids: seq<DeltaId>)

  /** The ids are fresh and there is one for every captured key. */
  predicate Fits(w: Drain.World, x: Write) {
    && |x.ids| == |Drain.CapturedAll(x.changes)|
    && (forall i, j | 0 <= i < j < |x.ids| :: x.ids[i] != x.ids[j])
    && (forall d <- x.ids :: d !in w.issued)
  }

  function Committed(w: Drain.World, x: Write): Drain.World
    requires Fits(w, x)
  {
    w.(source := Drain.ApplyAll(w.source, x.changes),
       delta := w.delta + Drain.NewDeltas(x.ids, Drain.CapturedAll(x.changes)),
       issued := w.issued + (set d <- x.ids))
  }

  /** How the j-th attempt at a chunk from a tick on ends; each takes two ticks. */
  function AttemptFrom(fate: nat -> Fate, start: nat, j: nat): Attempt {
    fate(start + 2 * j).attempt
  }

  /** All of them before the n-th meet a dropped connection. */
  ghost predicate DroppedBefore(fate: nat -> Fate, start: nat, n: nat) {
    forall j: nat | 1 <= j < n :: AttemptFrom(fate, start, j) == Dropped
  }

  lemma OneMoreDropped(fate: nat -> Fate, start: nat, n: nat)
    requires DroppedBefore(fate, start, n) && AttemptFrom(fate, start, n) == Dropped
    ensures DroppedBefore(fate, start, n + 1)
    ensures AttemptFrom(fate, start + 2 * n, 1) == AttemptFrom(fate, start, n + 1)
  {}

  /** The run of a table about to be copied. */
  function NewRun(lo: Option<real>, bounds: seq<real>, mode: LoadMode): Run {
    var n := |bounds| + 1;
    Run(lo, bounds, mode, seq(n, _ => Idle), seq(n, _ => false), seq(n, _ => false), 0)
  }

  /** The history so far ends in the given state. */
  ghost predicate EndsIn(comps: Components, pos: Place, trace: seq<Reseeding>, moves: seq<Move>, r: Reseeding) {
    IsHistory(comps, pos, trace, moves) && trace[|moves|] == r
  }

  lemma {:induction false} OneMore(comps: Components, pos: Place, trace: seq<Reseeding>, moves: seq<Move>, r: Reseeding,
                                   m: Move, r': Reseeding)
    requires EndsIn(comps, pos, trace, moves, r) && Calm(r, m) && R.Next(comps, pos, r, m, r')
    ensures EndsIn(comps, pos, trace + [r'], moves + [m], r')
  {
    var trace', moves' := trace + [r'], moves + [m];
    forall j | 0 <= j < |moves'| ensures Calm(trace'[j], moves'[j]) && R.Next(comps, pos, trace'[j], moves'[j], trace'[j + 1]) {
      if j < |moves| {
        assert trace'[j] == trace[j] && trace'[j + 1] == trace[j + 1] && moves'[j] == moves[j];
      }
    }
  }

  /** How the n-th load ends, and whether a dropped one landed all the same. */
  datatype Fate = Fate(attempt: Attempt, landed: bool)

  class Recovery {
    const comps: Components
    const pos: Place
    const traffic: nat -> Write
    const works: nat -> bool
    const fate: nat -> Fate
    const plan: Table -> seq<real>
    var s: State
    var flags: map<Table, bool>
    var clock: nat
    ghost var phase: Phase
    ghost var trace: seq<Reseeding>
    ghost var moves: seq<Move>

    constructor (comps: Components, pos: Place, traffic: nat -> Write, works: nat -> bool, fate: nat -> Fate,
                 plan: Table -> seq<real>, s: State, flags: map<Table, bool>)
      requires R.Init(comps, Reseeding(s, flags, Stopped))
      requires forall t | InSome(comps, t) :: BoundsOk(None, plan(t))
      ensures this.comps == comps && this.s == s && this.flags == flags && Valid() && phase == Stopped
    {
      this.comps, this.pos, this.traffic, this.works, this.fate, this.plan := comps, pos, traffic, works, fate, plan;
      this.s, this.flags := s, flags;
      clock, phase, trace, moves := 0, Stopped, [Reseeding(s, flags, Stopped)], [];
    }

    ghost predicate Valid()
      reads this
    {
      && EndsIn(comps, pos, trace, moves, Reseeding(s, flags, phase))
      && forall t | InSome(comps, t) :: BoundsOk(None, plan(t))
    }

    /** No effect and no load ever fails. */
    ghost predicate Smooth() {
      (forall n :: works(n)) && forall n :: fate(n).attempt == Loaded
    }

    /** Records a move that led to the present state. */
    ghost method Log(r: Reseeding, m: Move)
      requires EndsIn(comps, pos, trace, moves, r) && (forall t | InSome(comps, t) :: BoundsOk(None, plan(t)))
      requires Calm(r, m) && R.Next(comps, pos, r, m, Reseeding(s, flags, phase))
      modifies this`trace, this`moves
      ensures Valid()
    {
      var r' := Reseeding(s, flags, phase);
      OneMore(comps, pos, trace, moves, r, m, r');
      trace, moves := trace + [r'], moves + [m];
    }

    /** The source may commit a transaction here; then the next effect works or fails. */
    method Proceed() returns (ok: bool)
      requires Valid()
      modifies this`s, this`clock, this`trace, this`moves
      ensures Valid() && s == old(s).(world := s.world) && (Smooth() ==> ok)
      ensures ok == works(old(clock)) && clock == old(clock) + 1
    {
      var x := traffic(clock);
      ok := works(clock);
      clock := clock + 1;
      if Fits(s.world, x) {
        ghost var r := Reseeding(s, flags, phase);
        s := s.(world := Committed(s.world, x));
        Log(r, SourceTxn(x.changes, x.ids));
      }
    }

    /** Empties the component's tables at the target, children first. */
    method ClearTargets(c: nat) returns (ok: bool)
      requires Valid() && c < |comps| && comps[c] != [] && phase == Clearing(c, |comps[c]|)
      modifies this`s, this`clock, this`phase, this`trace, this`moves
      ensures Valid() && (ok ==> phase == Resetting(c, 0)) && (Smooth() ==> ok)
    {
      for i := |comps[c]| downto 0
        invariant Valid() && phase == if i == 0 then Resetting(c, 0) else Clearing(c, i)
      {
        ok := Proceed();
        if !ok { return; }
        ClearOne(c, i);
      }
      ok := true;
    }

    method ClearOne(c: nat, i: nat)
      requires Valid() && c < |comps| && i < |comps[c]| && phase == Clearing(c, i + 1)
      modifies this`s, this`phase, this`trace, this`moves
      ensures Valid() && phase == AfterClear(c, i + 1) && s == old(s).(rows := WithoutTable(old(s).rows, comps[c][i]))
    {
      ghost var r := Reseeding(s, flags, phase);
      s := s.(rows := WithoutTable(s.rows, comps[c][i]));
      phase := AfterClear(c, i + 1);
      Log(r, ClearTable);
    }

    /** Forgets the tables' copy progress. */
    method ResetProgresses(c: nat) returns (ok: bool)
      requires Valid() && c < |comps| && comps[c] != [] && phase == Resetting(c, 0)
      modifies this`s, this`clock, this`phase, this`trace, this`moves
      ensures Valid() && (ok ==> phase == Copying(c, 0)) && (Smooth() ==> ok)
      ensures ok ==> forall t <- comps[c] :: IsFresh(s, t)
    {
      for i := 0 to |comps[c]|
        invariant Valid() && phase == if i == |comps[c]| then Copying(c, 0) else Resetting(c, i)
        invariant forall t <- comps[c][..i] :: IsFresh(s, t)
      {
        ok := Proceed();
        if !ok { return; }
        ResetOne(c, i);
        assert comps[c][..i + 1] == comps[c][..i] + [comps[c][i]];
      }
      assert comps[c][..|comps[c]|] == comps[c];
      ok := true;
    }

    method ResetOne(c: nat, i: nat)
      requires Valid() && c < |comps| && i < |comps[c]| && phase == Resetting(c, i)
      modifies this`s, this`phase, this`trace, this`moves
      ensures Valid() && phase == AfterReset(comps, c, i)
      ensures s == old(s).(tables := old(s).tables[comps[c][i] := FreshCopy()])
    {
      ghost var r := Reseeding(s, flags, phase);
      s := s.(tables := s.tables[comps[c][i] := FreshCopy()]);
      phase := AfterReset(comps, c, i);
      Log(r, ResetProgress);
    }

    ghost predicate At(c: nat, i: nat)
      reads this
    {
      c < |comps| && i < |comps[c]| && phase == Copying(c, i)
    }

    method ReadOne(c: nat, i: nat, k: nat)
      requires Valid() && At(c, i) && Under(s, comps[c][i], k)
      requires k < |s.tables[comps[c][i]].run.value.done|
      modifies this`s, this`trace, this`moves
      ensures Valid()
      ensures s == SetRun(old(s), comps[c][i], Reading(old(s), pos, comps[c][i], k))
    {
      ghost var r := Reseeding(s, flags, phase);
      s := SetRun(s, comps[c][i], Reading(s, pos, comps[c][i], k));
      Log(r, CopyStep(ReadChunk(comps[c][i], k)));
    }

    /** The table under copy is never collided with. */
    lemma NoClash(c: nat, i: nat, k: nat)
      requires Valid() && At(c, i) && Running(s, comps[c][i], k)
      ensures !Collides(s, comps[c][i], k)
    {
      RecoveryIsSafe(comps, pos, trace, moves);
      OnlyInv(s, pos, comps[c]);
      NoCollision(pos, Only(s, comps[c]), comps[c][i], k);
    }

    method LoadOne(c: nat, i: nat, k: nat, acked: bool)
      requires Valid() && At(c, i) && Running(s, comps[c][i], k)
      requires s.tables[comps[c][i]].run.value.stages[k].Holding?
      modifies this`s, this`trace, this`moves
      ensures Valid()
      ensures s == SetRun(old(s), comps[c][i], Loading(old(s), comps[c][i], k, acked)).(rows := s.rows)
    {
      ghost var r := Reseeding(s, flags, phase);
      var t := comps[c][i];
      NoClash(c, i, k);
      s := SetRun(s, t, Loading(s, t, k, acked)).(rows := s.rows + s.tables[t].run.value.stages[k].snap);
      Log(r, CopyStep(LoadChunk(t, k, acked)));
    }

    method FailOne(c: nat, i: nat, k: nat)
      requires Valid() && At(c, i) && Running(s, comps[c][i], k)
      requires s.tables[comps[c][i]].run.value.stages[k].Holding?
      modifies this`s, this`trace, this`moves
      ensures Valid()
      ensures s == SetRun(old(s), comps[c][i], Loading(old(s), comps[c][i], k, false))
    {
      ghost var r := Reseeding(s, flags, phase);
      s := SetRun(s, comps[c][i], Loading(s, comps[c][i], k, false));
      Log(r, CopyStep(FailChunk(comps[c][i], k)));
    }

    method MarkOne(c: nat, i: nat, k: nat)
      requires Valid() && At(c, i) && Running(s, comps[c][i], k)
      requires s.tables[comps[c][i]].run.value.stages[k] == Landed
      requires s.tables[comps[c][i]].run.value.prefix <= |s.tables[comps[c][i]].run.value.done|
      modifies this`s, this`trace, this`moves
      ensures Valid()
      ensures s == old(s).(tables := old(s).tables[comps[c][i] := Marking(old(s), comps[c][i], k)])
    {
      ghost var r := Reseeding(s, flags, phase);
      s := s.(tables := s.tables[comps[c][i] := Marking(s, comps[c][i], k)]);
      Log(r, CopyStep(MarkDone(comps[c][i], k)));
    }

    /** The load lands, acknowledged or not, or it does not. */
    method LoadOrFail(c: nat, i: nat, k: nat) returns (a: Attempt)
      requires Valid() && At(c, i) && Running(s, comps[c][i], k)
      requires s.tables[comps[c][i]].run.value.stages[k].Holding?
      modifies this`s, this`trace, this`moves
      ensures Valid() && a == AttemptFrom(fate, clock, 0)
      ensures s == SetRun(old(s), comps[c][i], Loading(old(s), comps[c][i], k, a == Loaded)).(rows := s.rows)
    {
      var f := fate(clock);
      a := f.attempt;
      if a == Loaded || (a == Dropped && f.landed) {
        LoadOne(c, i, k, a == Loaded);
      } else {
        FailOne(c, i, k);
      }
    }

    /** The source as a chunk read finds it, and the read; the source may write on. */
    method ReadForLoad(c: nat, i: nat, k: nat) returns (ghost found: State)
      requires Valid() && At(c, i) && Under(s, comps[c][i], k)
      requires k < |s.tables[comps[c][i]].run.value.done|
      modifies this`s, this`clock, this`trace, this`moves
      ensures Valid() && clock == old(clock) + 2 && found == old(s).(world := found.world)
      ensures s == SetRun(found, comps[c][i], Reading(found, pos, comps[c][i], k)).(world := s.world)
    {
      var up := Proceed();
      found := s;
      ReadOne(c, i, k);
      up := Proceed();
    }

    /** One attempt at a chunk: read it, then load it or fail. */
    method AttemptChunk(c: nat, i: nat, k: nat) returns (a: Attempt)
      requires Valid() && At(c, i) && Under(s, comps[c][i], k)
      requires k < |s.tables[comps[c][i]].run.value.done|
      modifies this`s, this`clock, this`trace, this`moves
      ensures Valid() && Attempted(old(s), s, comps[c][i], k, a == Loaded)
      ensures clock == old(clock) + 2 && a == AttemptFrom(fate, old(clock), 1)
    {
      ghost var s1 := ReadForLoad(c, i, k);
      ghost var s2 := s;
      a := LoadOrFail(c, i, k);
      assert clock + 2 * 0 == old(clock) + 2 * 1;
      Attempts(s1, s2, s, pos, comps[c][i], k, a == Loaded);
    }

    /** Records a loaded chunk as done, if the store still works. */
    method MarkLoaded(c: nat, i: nat, k: nat, ghost before: State) returns (ok: bool)
      requires Valid() && At(c, i) && Attempted(before, s, comps[c][i], k, true)
      modifies this`s, this`clock, this`trace, this`moves
      ensures Valid() && OthersSame(old(s), s, comps[c][i]) && ok == works(old(clock))
      ensures ok ==> Under(s, comps[c][i], k + 1)
      ensures ok ==> |s.tables[comps[c][i]].run.value.done| == |old(s).tables[comps[c][i]].run.value.done|
    {
      ok := Proceed();
      if !ok { return; }
      ghost var s3 := s;
      MarkOne(c, i, k);
      Marked(s3, s, comps[c][i], k);
    }

    /** Another attempt after one that failed. */
    method AttemptAgain(c: nat, i: nat, k: nat, ghost first: State) returns (a: Attempt)
      requires Valid() && At(c, i) && Attempted(first, s, comps[c][i], k, false)
      modifies this`s, this`clock, this`trace, this`moves
      ensures Valid() && Attempted(first, s, comps[c][i], k, a == Loaded)
      ensures clock == old(clock) + 2 && a == AttemptFrom(fate, old(clock), 1)
    {
      TryAgain(first, s, comps[c][i], k);
      a := AttemptChunk(c, i, k);
      AttemptedAgain(first, old(s), s, comps[c][i], k, a == Loaded);
    }

    /** The attempts at one chunk, each two ticks of the clock: six at most, every one but
        the last a dropped connection. */
    method AttemptRepeatedly(c: nat, i: nat, k: nat) returns (a: Attempt, attempts: nat)
      requires Valid() && At(c, i) && Under(s, comps[c][i], k)
      requires k < |s.tables[comps[c][i]].run.value.done|
      modifies this`s, this`clock, this`trace, this`moves
      ensures Valid() && Attempted(old(s), s, comps[c][i], k, a == Loaded)
      ensures clock == old(clock) + 2 * attempts && a == AttemptFrom(fate, old(clock), attempts)
      ensures 1 <= attempts <= 6 && (a == Dropped ==> attempts == 6)
      ensures DroppedBefore(fate, old(clock), attempts)
    {
      var t := comps[c][i];
      a := AttemptChunk(c, i, k);
      attempts := 1;
      while a == Dropped && attempts < MAX_ATTEMPTS
        invariant 1 <= attempts <= MAX_ATTEMPTS && clock == old(clock) + 2 * attempts
        invariant a == AttemptFrom(fate, old(clock), attempts)
        invariant Valid() && Attempted(old(s), s, t, k, a == Loaded)
        invariant DroppedBefore(fate, old(clock), attempts)
      {
        OneMoreDropped(fate, old(clock), attempts);
        a := AttemptAgain(c, i, k, old(s));
        attempts := attempts + 1;
      }
    }

    /** Copies one chunk: dropped connections are retried, other errors are not. It is
        marked done when its last attempt loaded it and the store still works. */
    method CopyChunk(c: nat, i: nat, k: nat) returns (ok: bool, attempts: nat)
      requires Valid() && At(c, i) && Under(s, comps[c][i], k)
      requires k < |s.tables[comps[c][i]].run.value.done|
      modifies this`s, this`clock, this`trace, this`moves
      ensures Valid() && OthersSame(old(s), s, comps[c][i]) && (Smooth() ==> ok)
      ensures ok ==> Under(s, comps[c][i], k + 1)
      ensures ok ==> |s.tables[comps[c][i]].run.value.done| == |old(s).tables[comps[c][i]].run.value.done|
      ensures 1 <= attempts <= 6 && DroppedBefore(fate, old(clock), attempts)
      ensures AttemptFrom(fate, old(clock), attempts) == Dropped ==> attempts == 6
      ensures ok <==> AttemptFrom(fate, old(clock), attempts) == Loaded && works(old(clock) + 2 * attempts)
    {
      var a;
      a, attempts := AttemptRepeatedly(c, i, k);
      if a != Loaded { return false, attempts; }
      ok := MarkLoaded(c, i, k, old(s));
    }

    /** Plans the table; an empty one is loaded directly. */
    method StartOne(c: nat, i: nat)
      requires Valid() && At(c, i) && IsFresh(s, comps[c][i])
      modifies this`s, this`trace, this`moves
      ensures Valid() && Under(s, comps[c][i], 0) && OthersSame(old(s), s, comps[c][i])
    {
      var t := comps[c][i];
      ghost var r := Reseeding(s, flags, phase);
      var mode := if exists id :: id in s.rows && id.table == t then Merge else Direct;
      assert InComp(comps, c, t);
      RangesCount(None, plan(t));
      s := SetRun(s, t, NewRun(None, plan(t), mode));
      Log(r, CopyStep(Start(t, plan(t), mode)));
    }

    method FinishOne(c: nat, i: nat, ghost n: nat)
      requires Valid() && At(c, i) && Under(s, comps[c][i], n) && n == |s.tables[comps[c][i]].run.value.done|
      modifies this`s, this`trace, this`moves
      ensures Valid() && OthersSame(old(s), s, comps[c][i])
      ensures comps[c][i] in s.tables && s.tables[comps[c][i]].progress.done
    {
      ghost var r := Reseeding(s, flags, phase);
      s := s.(tables := s.tables[comps[c][i] := TableCopy(Progress(true, None), None)]);
      Log(r, CopyStep(Finish(comps[c][i])));
    }

    /** Copies one table: plan, every chunk, done. */
    method CopyTable(c: nat, i: nat) returns (ok: bool)
      requires Valid() && At(c, i) && IsFresh(s, comps[c][i])
      modifies this`s, this`clock, this`phase, this`trace, this`moves
      ensures Valid() && (ok ==> phase == AfterTable(comps, c, i)) && OthersSame(old(s), s, comps[c][i])
      ensures Smooth() ==> ok
    {
      var t := comps[c][i];
      ok := Proceed();
      if !ok { return; }
      StartOne(c, i);
      ghost var s0 := s;
      var n := |s.tables[t].run.value.done|;
      for k := 0 to n
        invariant Valid() && At(c, i) && Under(s, t, k) && OthersSame(s0, s, t)
        invariant n == |s.tables[t].run.value.done|
      {
        var copied, _ := CopyChunk(c, i, k);
        ok := copied;
        if !ok { return; }
      }
      ok := Proceed();
      if !ok { return; }
      FinishOne(c, i, n);
      ghost var r := Reseeding(s, flags, phase);
      phase := AfterTable(comps, c, i);
      Log(r, NextTable);
    }

    method CopyTables(c: nat) returns (ok: bool)
      requires Valid() && c < |comps| && comps[c] != [] && Graph.Distinct(comps[c]) && phase == Copying(c, 0)
      requires forall t <- comps[c] :: IsFresh(s, t)
      modifies this`s, this`clock, this`phase, this`trace, this`moves
      ensures Valid() && (ok ==> phase == CuttingOver(c, 0)) && (Smooth() ==> ok)
    {
      for i := 0 to |comps[c]|
        invariant Valid() && phase == if i == |comps[c]| then CuttingOver(c, 0) else Copying(c, i)
        invariant forall j | i <= j < |comps[c]| :: IsFresh(s, comps[c][j])
      {
        ok := CopyTable(c, i);
        if !ok { return; }
      }
      ok := true;
    }

    /** Cuts the component back to streaming: its flags go last, in table order. */
    method ClearFlags(c: nat) returns (ok: bool)
      requires Valid() && c < |comps| && comps[c] != [] && phase == CuttingOver(c, 0)
      modifies this`s, this`flags, this`clock, this`phase, this`trace, this`moves
      ensures Valid() && (ok ==> phase == AfterFlag(comps, c, |comps[c]| - 1)) && (Smooth() ==> ok)
      ensures ok ==> !Up(flags, comps[c][|comps[c]| - 1])
    {
      for i := 0 to |comps[c]|
        invariant i > 0 ==> !Up(flags, comps[c][i - 1])
        invariant Valid() && phase == if i == |comps[c]| then AfterFlag(comps, c, i - 1) else CuttingOver(c, i)
      {
        ok := Proceed();
        if !ok { return; }
        ghost var r := Reseeding(s, flags, phase);
        flags := flags[comps[c][i] := false];
        phase := AfterFlag(comps, c, i);
        Log(r, ClearFlag);
      }
      ok := true;
    }

    /** Recovers one component from whatever its tables and their progress hold. */
    method Run(c: nat) returns (ok: bool)
      requires Valid() && c < |comps| && phase == Clearing(c, |comps[c]|)
      modifies this
      ensures comps[c] != [] && Valid() && (ok ==> phase == AfterFlag(comps, c, |comps[c]| - 1)) && (Smooth() ==> ok)
      ensures ok ==> !Up(flags, comps[c][|comps[c]| - 1])
    {
      RecoveryIsSafe(comps, pos, trace, moves);
      ok := ClearTargets(c);
      if !ok { return; }
      ok := ResetProgresses(c);
      if !ok { return; }
      ok := CopyTables(c);
      if !ok { return; }
      ok := ClearFlags(c);
    }

    /** Some cursor of the target is flagged. */
    method NeedsReseed() returns (due: bool)
      ensures due <==> AnyFlag(comps, flags)
    {
      for c := 0 to |comps|
        invariant forall j | 0 <= j < c :: !HasFlag(comps[j], flags)
      {
        for i := 0 to |comps[c]|
          invariant forall k | 0 <= k < i :: !Up(flags, comps[c][k])
        {
          if Up(flags, comps[c][i]) {
            assert HasFlag(comps[c], flags);
            return true;
          }
        }
      }
      due := false;
    }

    /** Every component in turn; the first error ends the pass. */
    method RecoverAll() returns (ok: bool)
      requires Valid() && Shape(comps) && phase == Clearing(0, |comps[0]|)
      modifies this
      ensures Valid() && (ok ==> phase == Stopped && !FinalUp(comps, flags)) && (Smooth() ==> ok)
    {
      for c := 0 to |comps|
        invariant Valid() && phase == if c == |comps| then Stopped else Clearing(c, |comps[c]|)
        invariant c == |comps| ==> !FinalUp(comps, flags)
      {
        ok := Run(c);
        if !ok { return; }
      }
      ok := true;
    }

    /** The tail of a streaming pass: if any table of the target is flagged, every
        component is recovered. */
    method RecoverTarget() returns (ok: bool)
      requires Valid() && phase == Stopped
      modifies this
      ensures Valid() && phase == Stopped && Safe(comps, Reseeding(s, flags, phase))
      ensures ok ==> !AnyFlag(comps, flags) && GoodBefore(comps, s, |comps|)
      ensures Smooth() ==> ok
    {
      RecoveryIsSafe(comps, pos, trace, moves);
      var due := NeedsReseed();
      if !due {
        NotDue(comps, flags);
        return true;
      }
      ghost var r := Reseeding(s, flags, phase);
      phase := Clearing(0, |comps[0]|);
      Log(r, Begin);
      ok := RecoverAll();
      if !ok { GiveUp(); }
      RecoveryIsSafe(comps, pos, trace, moves);
    }

    /** An error ends the pass where it is. */
    method GiveUp()
      requires Valid()
      modifies this
      ensures Valid() && phase == Stopped
    {
      ghost var r := Reseeding(s, flags, phase);
      s := Lost(s);
      phase := Stopped;
      Log(r, Stop);
    }
  }

  // ---------- the effects ----------

  /** A table under copy with its first k chunks done. */
  ghost predicate Under(s: State, t: Table, k: nat) {
    && t in s.tables && s.tables[t].run.Some?
    && var r := s.tables[t].run.value;
    && RunShape(r) && k <= |r.done|
    && (forall j | 0 <= j < k :: r.done[j])
    && (forall j | k <= j < |r.stages| :: r.stages[j] == Idle)
  }

  ghost predicate OthersSame(s: State, s': State, t: Table) {
    forall u | u in s.tables && u != t :: u in s'.tables && s'.tables[u] == s.tables[u]
  }

  function Reading(s: State, pos: Place, t: Table, k: nat): Run
    requires t in s.tables && s.tables[t].run.Some?
    requires k < |ChunksOf(s.tables[t].run.value)| && k < |s.tables[t].run.value.stages|
  {
    var r := s.tables[t].run.value;
    r.(stages := r.stages[k := Holding(RowsIn(s.world.source, pos, t, ChunksOf(r)[k]))])
  }

  function Loading(s: State, t: Table, k: nat, acked: bool): Run
    requires t in s.tables && s.tables[t].run.Some?
    requires k < |s.tables[t].run.value.tried| && k < |s.tables[t].run.value.stages|
  {
    var r := s.tables[t].run.value;
    r.(stages := r.stages[k := if acked then Landed else Idle], tried := r.tried[k := true])
  }

  function Marking(s: State, t: Table, k: nat): TableCopy
    requires t in s.tables && s.tables[t].run.Some?
    requires k < |s.tables[t].run.value.done| && s.tables[t].run.value.prefix <= |s.tables[t].run.value.done|
  {
    var tc := s.tables[t];
    var r := tc.run.value;
    var done := r.done[k := true];
    var p := Advance(done, r.prefix);
    TableCopy(Saved(tc.progress, r.bounds, r.prefix, p), Some(r.(done := done, prefix := p)))
  }

  /** A chunk was tried: it has landed, or is as idle as before. */
  ghost predicate Attempted(s: State, s': State, t: Table, k: nat, landed: bool) {
    && OthersSame(s, s', t) && t in s.tables && t in s'.tables && s.tables[t].run.Some? && s'.tables[t].run.Some?
    && var r, r' := s.tables[t].run.value, s'.tables[t].run.value;
    && RunShape(r') && r'.done == r.done && k < |r'.done|
    && (forall j | 0 <= j < k :: r'.done[j])
    && (forall j | k < j < |r'.stages| :: r'.stages[j] == Idle)
    && r'.stages[k] == if landed then Landed else Idle
  }

  lemma {:induction false} Attempts(s1: State, s2: State, s3: State, pos: Place, t: Table, k: nat, landed: bool)
    requires Under(s1, t, k) && k < |s1.tables[t].run.value.done|
    requires s2.tables == SetRun(s1, t, Reading(s1, pos, t, k)).tables
    requires s3.tables == SetRun(s2, t, Loading(s2, t, k, landed)).tables
    ensures Attempted(s1, s3, t, k, landed)
  {}

  /** After a failed attempt the chunk can be tried again. */
  lemma TryAgain(s: State, s': State, t: Table, k: nat)
    requires Attempted(s, s', t, k, false)
    ensures Under(s', t, k)
  {}

  lemma AttemptedAgain(s: State, s': State, s'': State, t: Table, k: nat, landed: bool)
    requires Attempted(s, s', t, k, false) && Attempted(s', s'', t, k, landed)
    ensures Attempted(s, s'', t, k, landed)
  {}

  lemma {:induction false} Marked(s: State, s': State, t: Table, k: nat)
    requires t in s.tables && s.tables[t].run.Some? && RunShape(s.tables[t].run.value)
    requires var r := s.tables[t].run.value;
             && k < |r.done| && (forall j | 0 <= j < k :: r.done[j])
             && (forall j | k < j < |r.stages| :: r.stages[j] == Idle)
    requires s'.tables == s.tables[t := Marking(s, t, k)]
    ensures Under(s', t, k + 1) && OthersSame(s, s', t)
    ensures |s'.tables[t].run.value.done| == |s.tables[t].run.value.done|
  {}

  lemma NotDue(comps: Components, flags: map<Table, bool>)
    requires Shape(comps) && !AnyFlag(comps, flags)
    ensures !FinalUp(comps, flags)
  {
    var last := |comps| - 1;
    assert comps[last] != [] && Final(comps) in comps[last];
    assert !HasFlag(comps[last], flags);
  }
}
