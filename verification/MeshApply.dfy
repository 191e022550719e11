/** Version-guarded apply of a versioned re-read, as the two SQL engines write it.

    Postgres runs four statements that each evaluate the winner predicate afresh; MySQL
    marks the winners once and lets every statement read the mark. Both are the per-key
    last-writer-wins merge, which is idempotent, commutative and associative. */
module MeshApply {
  import opened Rows
  import opened Hlc

  datatype Stamp = Stamp(ver: Version, deleted: bool)

  type Register = map<RowId, Stamp>

  /** A node's user tables and version registers. */
  datatype Store = Store(rows: Database, reg: Register)

  /** A staged row of the versioned re-read; a tombstone's value columns are NULL. */
  datatype Staged = Staged(ver: Version, deleted: bool, row: Row)

  type Staging = map<RowId, Staged>

  /** The versioned re-read: registers of the dirty keys, joined with their rows. */
  function Reread(s: Store, keys: set<RowId>): Staging {
    map k | k in s.reg && k in keys ::
      Staged(s.reg[k].ver, s.reg[k].deleted, if k in s.rows then s.rows[k] else map[])
  }

  /** The staged version beats the register, or the register has none. */
  predicate Wins(stg: Staging, reg: Register, k: RowId) {
    k in stg && (k !in reg || Beats(stg[k].ver, reg[k].ver))
  }

  // ---------- the reference ----------

  /** Last writer wins on one key. */
  ghost predicate MergedAt(before: Store, stg: Staging, after: Store, k: RowId) {
    if Wins(stg, before.reg, k) then
      && Lookup(after.reg, k) == Some(Stamp(stg[k].ver, stg[k].deleted))
      && Lookup(after.rows, k) == if stg[k].deleted then None else Some(stg[k].row)
    else
      Lookup(after.reg, k) == Lookup(before.reg, k) && Lookup(after.rows, k) == Lookup(before.rows, k)
  }

  ghost predicate IsMerge(before: Store, stg: Staging, after: Store) {
    forall k: RowId :: MergedAt(before, stg, after, k)
  }

  lemma SameStore(a: Store, b: Store)
    requires forall k: RowId :: Lookup(a.reg, k) == Lookup(b.reg, k)
    requires forall k: RowId :: Lookup(a.rows, k) == Lookup(b.rows, k)
    ensures a == b
  {
    forall k: RowId ensures (k in a.reg <==> k in b.reg) && (k in a.reg ==> a.reg[k] == b.reg[k]) {
      assert Lookup(a.reg, k) == Lookup(b.reg, k);
    }
    forall k: RowId ensures (k in a.rows <==> k in b.rows) && (k in a.rows ==> a.rows[k] == b.rows[k]) {
      assert Lookup(a.rows, k) == Lookup(b.rows, k);
    }
    assert a.reg.Keys == b.reg.Keys && a.rows.Keys == b.rows.Keys;
  }

  /** The merge is a function of the store and the staging. */
  lemma MergeIsUnique(before: Store, stg: Staging, a: Store, b: Store)
    requires IsMerge(before, stg, a) && IsMerge(before, stg, b)
    ensures a == b
  {
    forall k: RowId ensures Lookup(a.reg, k) == Lookup(b.reg, k) && Lookup(a.rows, k) == Lookup(b.rows, k) {
      assert MergedAt(before, stg, a, k) && MergedAt(before, stg, b, k);
    }
    SameStore(a, b);
  }

  // ---------- the statements ----------

  function Winners(stg: Staging, reg: Register): (win: set<RowId>)
    ensures forall k: RowId :: k in win <==> Wins(stg, reg, k)
  {
    set k | k in stg && Wins(stg, reg, k)
  }

  /** Rows of the marked alive entries are inserted or updated. */
  function UpsertAlive(rows: Database, stg: Staging, win: set<RowId>): Database {
    rows + (map k | k in stg && k in win && !stg[k].deleted :: stg[k].row)
  }

  /** Versions of the marked alive, or the marked deleted, entries are recorded. */
  function RecordWinners(reg: Register, stg: Staging, win: set<RowId>, deleted: bool): Register {
    reg + (map k | k in stg && k in win && stg[k].deleted == deleted :: Stamp(stg[k].ver, deleted))
  }

  /** Rows of the marked tombstones are deleted. */
  function DeleteTombstones(rows: Database, stg: Staging, win: set<RowId>): Database {
    rows - (set k | k in stg && k in win && stg[k].deleted)
  }

  lemma UpsertAliveAt(rows: Database, stg: Staging, win: set<RowId>, k: RowId)
    ensures Lookup(UpsertAlive(rows, stg, win), k) ==
            if k in stg && k in win && !stg[k].deleted then Some(stg[k].row) else Lookup(rows, k)
  {}

  lemma RecordWinnersAt(reg: Register, stg: Staging, win: set<RowId>, deleted: bool, k: RowId)
    ensures Lookup(RecordWinners(reg, stg, win, deleted), k) ==
            if k in stg && k in win && stg[k].deleted == deleted then Some(Stamp(stg[k].ver, deleted))
            else Lookup(reg, k)
  {}

  lemma DeleteTombstonesAt(rows: Database, stg: Staging, win: set<RowId>, k: RowId)
    ensures Lookup(DeleteTombstones(rows, stg, win), k) ==
            if k in stg && k in win && stg[k].deleted then None else Lookup(rows, k)
  {}

  /** Phase 1: the alive winners only. */
  function ApplyAlive(s: Store, stg: Staging): Store {
    var win := Winners(stg, s.reg);
    Store(UpsertAlive(s.rows, stg, win), RecordWinners(s.reg, stg, win, false))
  }

  /** The tombstone statements, under winners marked by `win`. */
  function ApplyTombstones(s: Store, stg: Staging, win: set<RowId>): Store {
    Store(DeleteTombstones(s.rows, stg, win), RecordWinners(s.reg, stg, win, true))
  }

  /** The full apply of one staging. */
  function ApplyAll(s: Store, stg: Staging): Store {
    ApplyTombstones(ApplyAlive(s, stg), stg, Winners(stg, s.reg))
  }

  lemma AliveAt(s: Store, stg: Staging, k: RowId)
    ensures var r := ApplyAlive(s, stg);
            if Wins(stg, s.reg, k) && !stg[k].deleted then
              && Lookup(r.reg, k) == Some(Stamp(stg[k].ver, false)) && Lookup(r.rows, k) == Some(stg[k].row)
            else
              Lookup(r.reg, k) == Lookup(s.reg, k) && Lookup(r.rows, k) == Lookup(s.rows, k)
  {
    UpsertAliveAt(s.rows, stg, Winners(stg, s.reg), k);
    RecordWinnersAt(s.reg, stg, Winners(stg, s.reg), false, k);
  }

  lemma TombstonesAt(s: Store, stg: Staging, win: set<RowId>, k: RowId)
    ensures var r := ApplyTombstones(s, stg, win);
            if k in stg && k in win && stg[k].deleted then
              Lookup(r.reg, k) == Some(Stamp(stg[k].ver, true)) && Lookup(r.rows, k) == None
            else
              Lookup(r.reg, k) == Lookup(s.reg, k) && Lookup(r.rows, k) == Lookup(s.rows, k)
  {
    DeleteTombstonesAt(s.rows, stg, win, k);
    RecordWinnersAt(s.reg, stg, win, true, k);
  }

  lemma ApplyAllAt(s: Store, stg: Staging, k: RowId)
    ensures MergedAt(s, stg, ApplyAll(s, stg), k)
  {
    AliveAt(s, stg, k);
    TombstonesAt(ApplyAlive(s, stg), stg, Winners(stg, s.reg), k);
  }

  /** Winners marked once: the merge. */
  lemma MarkedOnceIsMerge(s: Store, stg: Staging)
    ensures IsMerge(s, stg, ApplyAll(s, stg))
  {
    forall k: RowId ensures MergedAt(s, stg, ApplyAll(s, stg), k) { ApplyAllAt(s, stg, k); }
  }

  /** Winners evaluated afresh, against the register the alive statements have already
      changed: still the merge, because no key is both alive and deleted in a staging. */
  lemma ReevaluatedIsMerge(s: Store, stg: Staging)
    ensures var mid := ApplyAlive(s, stg); IsMerge(s, stg, ApplyTombstones(mid, stg, Winners(stg, mid.reg)))
  {
    var mid := ApplyAlive(s, stg);
    forall k: RowId ensures MergedAt(s, stg, ApplyTombstones(mid, stg, Winners(stg, mid.reg)), k) {
      AliveAt(s, stg, k);
      TombstonesAt(mid, stg, Winners(stg, mid.reg), k);
    }
  }

  // ---------- clocks ----------

  ghost predicate Latest(stg: Staging, m: Clock) {
    && (exists k :: k in stg && When(stg[k].ver) == m)
    && (forall k <- stg :: NotAfter(When(stg[k].ver), m))
  }

  lemma {:induction false} LatestExists(stg: Staging) returns (m: Clock)
    requires stg != map[]
    ensures Latest(stg, m)
    decreases |stg|
  {
    var k :| k in stg;
    var rest := stg - {k};
    m := When(stg[k].ver);
    if rest == map[] {
      forall j <- stg ensures j == k {
        assert j != k ==> j in rest;
      }
    } else {
      var l := LatestExists(rest);
      if Before(m, l) {
        m := l;
        var j :| j in rest && When(rest[j].ver) == m;
        assert j in stg && When(stg[j].ver) == m;
      }
      forall j <- stg ensures NotAfter(When(stg[j].ver), m) {
        if j != k { assert j in rest && NotAfter(When(rest[j].ver), l); }
      }
    }
  }

  lemma LatestIsUnique(stg: Staging, a: Clock, b: Clock)
    requires Latest(stg, a) && Latest(stg, b)
    ensures a == b
  {}

  /** ORDER BY phys DESC, log DESC LIMIT 1. */
  ghost function LatestOf(stg: Staging): (m: Clock)
    requires stg != map[]
    ensures Latest(stg, m)
  {
    assert exists m :: Latest(stg, m) by { var m := LatestExists(stg); }
    var m :| Latest(stg, m);
    m
  }

  /** The receive step over a whole staging; a no-op when it is empty. */
  ghost function ObserveAll(c: Clock, stg: Staging, now: int): (r: Clock)
    ensures NotAfter(c, r) && forall k <- stg :: NotAfter(When(stg[k].ver), r)
  {
    if stg == map[] then c else Receive(c, LatestOf(stg), now)
  }

  /** A cluster member's database. */
  class Member {
    var rows: Database
    var reg: Register
    var clock: Clock

    constructor (s: Store, c: Clock)
      ensures Value() == s && clock == c
    {
      rows, reg, clock := s.rows, s.reg, c;
    }

    function Value(): Store
      reads this
    {
      Store(rows, reg)
    }

    /** Advances the clock past the newest staged version. */
    method ObserveFromStaging(stg: Staging, now: int)
      modifies this`clock
      ensures clock == ObserveAll(old(clock), stg, now)
    {
      if stg == map[] { return; }
      var keys := stg.Keys;
      var k :| k in keys;
      var best := When(stg[k].ver);
      ghost var seen := {k};
      keys := keys - {k};
      while keys != {}
        invariant seen + keys == stg.Keys
        invariant exists j :: j in seen && When(stg[j].ver) == best
        invariant forall j <- seen :: NotAfter(When(stg[j].ver), best)
        decreases keys
      {
        var j :| j in keys;
        if Before(best, When(stg[j].ver)) { best := When(stg[j].ver); }
        keys := keys - {j};
        seen := seen + {j};
      }
      LatestIsUnique(stg, best, LatestOf(stg));
      clock := Receive(clock, best, now);
    }

    // ---------- Postgres: winners re-evaluated by each statement ----------

    method PostgresStageUpsert(stg: Staging, now: int)
      modifies this
      ensures Value() == ApplyAlive(old(Value()), stg)
      ensures clock == ObserveAll(old(clock), stg, now)
    {
      rows := UpsertAlive(rows, stg, Winners(stg, reg));
      reg := RecordWinners(reg, stg, Winners(stg, reg), false);
      ObserveFromStaging(stg, now);
    }

    method PostgresDeleteTombstones(stg: Staging, now: int)
      modifies this
      ensures Value() == ApplyTombstones(old(Value()), stg, Winners(stg, old(reg)))
      ensures clock == ObserveAll(old(clock), stg, now)
    {
      rows := DeleteTombstones(rows, stg, Winners(stg, reg));
      reg := RecordWinners(reg, stg, Winners(stg, reg), true);
      ObserveFromStaging(stg, now);
    }

    method PostgresApply(stg: Staging, now: int, later: int)
      modifies this
      ensures IsMerge(old(Value()), stg, Value())
      ensures clock == ObserveAll(ObserveAll(old(clock), stg, now), stg, later)
    {
      ReevaluatedIsMerge(Value(), stg);
      PostgresStageUpsert(stg, now);
      PostgresDeleteTombstones(stg, later);
    }

    // ---------- MySQL: winners marked once ----------

    method MySqlStageUpsert(stg: Staging, now: int) returns (win: set<RowId>)
      modifies this
      ensures win == Winners(stg, old(reg))
      ensures Value() == ApplyAlive(old(Value()), stg)
      ensures clock == ObserveAll(old(clock), stg, now)
    {
      win := Winners(stg, reg);
      rows := UpsertAlive(rows, stg, win);
      reg := RecordWinners(reg, stg, win, false);
      ObserveFromStaging(stg, now);
    }

    method MySqlDeleteTombstones(stg: Staging, win: set<RowId>, now: int)
      modifies this
      ensures Value() == ApplyTombstones(old(Value()), stg, win)
      ensures clock == ObserveAll(old(clock), stg, now)
    {
      rows := DeleteTombstones(rows, stg, win);
      reg := RecordWinners(reg, stg, win, true);
      ObserveFromStaging(stg, now);
    }

    method MySqlApply(stg: Staging, now: int, later: int)
      modifies this
      ensures IsMerge(old(Value()), stg, Value())
      ensures clock == ObserveAll(ObserveAll(old(clock), stg, now), stg, later)
    {
      MarkedOnceIsMerge(Value(), stg);
      var win := MySqlStageUpsert(stg, now);
      MySqlDeleteTombstones(stg, win, later);
    }
  }

  // ---------- algebra of the merge ----------

  /** Equal versions of a key carry equal content. */
  ghost predicate TiesAgree(a: Staging, b: Staging) {
    forall k | k in a && k in b && a[k].ver == b[k].ver :: a[k] == b[k]
  }

  /** The newer entry of each key. */
  function Newer(a: Staging, b: Staging): Staging {
    a + (map k | k in b && (k !in a || Beats(b[k].ver, a[k].ver)) :: b[k])
  }

  lemma NewerAt(a: Staging, b: Staging, k: RowId)
    ensures Lookup(Newer(a, b), k) ==
            if k in b && (k !in a || Beats(b[k].ver, a[k].ver)) then Some(b[k]) else Lookup(a, k)
  {}

  lemma ApplyIsIdempotent(s: Store, a: Staging, once: Store, twice: Store)
    requires IsMerge(s, a, once) && IsMerge(once, a, twice)
    ensures twice == once
  {
    forall k: RowId ensures Lookup(twice.reg, k) == Lookup(once.reg, k) && Lookup(twice.rows, k) == Lookup(once.rows, k) {
      assert MergedAt(s, a, once, k) && MergedAt(once, a, twice, k);
    }
    SameStore(twice, once);
  }

  lemma ApplyIsCommutative(s: Store, a: Staging, b: Staging, sa: Store, sab: Store, sb: Store, sba: Store)
    requires TiesAgree(a, b)
    requires IsMerge(s, a, sa) && IsMerge(sa, b, sab)
    requires IsMerge(s, b, sb) && IsMerge(sb, a, sba)
    ensures sab == sba
  {
    forall k: RowId ensures Lookup(sab.reg, k) == Lookup(sba.reg, k) && Lookup(sab.rows, k) == Lookup(sba.rows, k) {
      assert MergedAt(s, a, sa, k) && MergedAt(sa, b, sab, k);
      assert MergedAt(s, b, sb, k) && MergedAt(sb, a, sba, k);
    }
    SameStore(sab, sba);
  }

  /** Applying one staging after the other is applying their merge. */
  lemma ApplyIsAssociative(s: Store, a: Staging, b: Staging, sa: Store, sab: Store, joint: Store)
    requires IsMerge(s, a, sa) && IsMerge(sa, b, sab) && IsMerge(s, Newer(a, b), joint)
    ensures sab == joint
  {
    forall k: RowId ensures Lookup(sab.reg, k) == Lookup(joint.reg, k) && Lookup(sab.rows, k) == Lookup(joint.rows, k) {
      NewerAt(a, b, k);
      assert MergedAt(s, a, sa, k) && MergedAt(sa, b, sab, k) && MergedAt(s, Newer(a, b), joint, k);
    }
    SameStore(sab, joint);
  }

  // ---------- the cyclic fill in cluster mode ----------

  /** The value a staged entry has for a column; a tombstone stages NULLs. */
  function StagedCell(e: Staged, c: Column): Cell {
    if !e.deleted && c in e.row then e.row[c] else Null
  }

  /** The fill statement joins staging and table on the key only, versions unseen. */
  function FillStaged(rows: Database, stg: Staging, cols: set<Column>): Database {
    map k | k in rows ::
      if k in stg then map c | c in rows[k] :: if c in cols then StagedCell(stg[k], c) else rows[k][c]
      else rows[k]
  }

  /** A staged row that the guard turned away, or a tombstone, against a row still here. */
  ghost predicate Loses(s: Store, stg: Staging, k: RowId) {
    k in stg && k in s.rows && (!Wins(stg, s.reg, k) || stg[k].deleted)
  }

  ghost predicate FillNeutral(s: Store, stg: Staging, cols: set<Column>, k: RowId)
    requires Loses(s, stg, k)
  {
    forall c | c in s.rows[k] && c in cols :: s.rows[k][c] == StagedCell(stg[k], c)
  }

  lemma FillStagedAt(s: Store, stg: Staging, cols: set<Column>, k: RowId)
    requires k in ApplyAlive(s, stg).rows
    ensures var rows := ApplyAlive(s, stg).rows;
            FillStaged(rows, stg, cols)[k] == rows[k] <==> (Loses(s, stg, k) ==> FillNeutral(s, stg, cols, k))
  {
    var rows := ApplyAlive(s, stg).rows;
    AliveAt(s, stg, k);
    if k in stg {
      var row := map c | c in rows[k] :: if c in cols then StagedCell(stg[k], c) else rows[k][c];
      assert FillStaged(rows, stg, cols)[k] == row;
      if Loses(s, stg, k) {
        assert rows[k] == s.rows[k];
        if row == rows[k] {
          assert forall c | c in s.rows[k] && c in cols :: row[c] == s.rows[k][c];
        }
      } else {
        assert rows[k] == stg[k].row && row == rows[k];
      }
    }
  }

  /** The fill phase leaves the guarded apply intact exactly when every staged row that
      lost already agrees with the local row on the filled columns. */
  lemma FillIsHarmlessExactlyWhen(s: Store, stg: Staging, cols: set<Column>)
    ensures FillStaged(ApplyAlive(s, stg).rows, stg, cols) == ApplyAlive(s, stg).rows <==>
            forall k | Loses(s, stg, k) :: FillNeutral(s, stg, cols, k)
  {
    var rows := ApplyAlive(s, stg).rows;
    var filled := FillStaged(rows, stg, cols);
    forall k | k in rows ensures filled[k] == rows[k] <==> (Loses(s, stg, k) ==> FillNeutral(s, stg, cols, k)) {
      FillStagedAt(s, stg, cols, k);
    }
    forall k | Loses(s, stg, k) ensures k in rows { AliveAt(s, stg, k); }
    assert filled.Keys == rows.Keys;
  }

  /** An older staged row overwrites a newer local value through the fill. */
  lemma FillCanOverwriteNewer()
    ensures exists s: Store, stg: Staging, cols: set<Column>, k: RowId ::
              && k in stg && k in s.reg && Beats(s.reg[k].ver, stg[k].ver)
              && FillStaged(ApplyAlive(s, stg).rows, stg, cols) != ApplyAlive(s, stg).rows
  {
    var k := RowId("t", ["1"]);
    var s := Store(map[k := map["p" := Text("new")]], map[k := Stamp(Version(2, 0, 1), false)]);
    var stg: Staging := map[k := Staged(Version(1, 0, 0), false, map["p" := Text("old")])];
    assert Loses(s, stg, k) && "p" in s.rows[k];
    assert !FillNeutral(s, stg, {"p"}, k);
    FillIsHarmlessExactlyWhen(s, stg, {"p"});
    assert FillStaged(ApplyAlive(s, stg).rows, stg, {"p"}) != ApplyAlive(s, stg).rows;
  }
}
