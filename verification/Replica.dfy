/** The drain loops themselves, run against a quiet source.

    `Replica` is one target of one component: the source tables and deltas it reads, its
    own rows, and its track. The methods follow the sequential drains statement by
    statement; each is tied to the pass of module FkPass, whose properties then carry
    over. `DrainToEmpty` repeats bounded passes until nothing is queued. */
module Replicator {
  import opened Rows
  import opened Ids
  import opened Drain
  import opened FkPass
  import opened PassEffect
  import opened Verdicts
  import opened KeySignature

  /** How often a component is tried before it is reported halted. */
  const MAX_PASSES: nat := 5

  // ---------- coalescing ----------

  /** The keys behind a set of delta ids. */
  function KeysOf(delta: map<DeltaId, RowId>, ids: set<DeltaId>): set<RowId> {
    set d | d in ids && d in delta :: delta[d]
  }

  lemma KeysGrow(delta: map<DeltaId, RowId>, ids: set<DeltaId>, d: DeltaId)
    requires d in delta
    ensures KeysOf(delta, ids + {d}) == KeysOf(delta, ids) + {delta[d]}
  {}

  /** Keys of one table, all of the table's key arity. */
  predicate OneTable(delta: map<DeltaId, RowId>, dirty: seq<DeltaId>, t: Table, arity: nat) {
    forall d <- dirty :: d in delta && delta[d].table == t && |delta[d].key| == arity
  }

  predicate AllNulFree(delta: map<DeltaId, RowId>, dirty: seq<DeltaId>) {
    forall d <- dirty :: d in delta && forall p <- delta[d].key :: NulFree(p)
  }

  /** Some entry stands for the key: it has the key's signature. */
  ghost predicate Represented(distinct: seq<RowId>, id: RowId) {
    exists k :: k in distinct && Signature(k.key) == Signature(id.key)
  }

  /** Without NUL bytes a key is represented only by itself. */
  lemma RepresentedExactly(delta: map<DeltaId, RowId>, dirty: seq<DeltaId>, t: Table, arity: nat, distinct: seq<RowId>)
    requires OneTable(delta, dirty, t, arity) && AllNulFree(delta, dirty)
    requires Elems(distinct) <= KeysOf(delta, Elems(dirty)) && forall d <- dirty :: Represented(distinct, delta[d])
    ensures Elems(distinct) == KeysOf(delta, Elems(dirty))
  {
    forall id <- KeysOf(delta, Elems(dirty)) ensures id in distinct {
      var d :| d in Elems(dirty) && d in delta && delta[d] == id;
      assert d in dirty && Represented(distinct, id);
      var k :| k in distinct && Signature(k.key) == Signature(id.key);
      assert k in Elems(distinct);
      var e :| e in Elems(dirty) && e in delta && delta[e] == k;
      assert e in dirty;
      SignatureIsInjective(k.key, id.key);
    }
  }

  /** One entry per distinct signature, every observed key represented and every id kept;
      without NUL bytes, one entry per distinct key. */
  method Coalesce(delta: map<DeltaId, RowId>, dirty: seq<DeltaId>, ghost t: Table, ghost arity: nat)
    returns (distinct: seq<RowId>, ids: seq<DeltaId>)
    requires OneTable(delta, dirty, t, arity)
    ensures ids == dirty && Elems(distinct) <= KeysOf(delta, Elems(dirty))
    ensures forall d <- dirty :: Represented(distinct, delta[d])
    ensures forall i, j | 0 <= i < j < |distinct| :: Signature(distinct[i].key) != Signature(distinct[j].key)
    ensures AllNulFree(delta, dirty) ==> Elems(distinct) == KeysOf(delta, Elems(dirty))
  {
    distinct, ids := [], [];
    var seen: set<string> := {};
    for i := 0 to |dirty|
      invariant ids == dirty[..i]
      invariant Elems(distinct) <= KeysOf(delta, Elems(dirty[..i]))
      invariant forall d <- dirty[..i] :: Represented(distinct, delta[d])
      invariant seen == set k <- distinct :: Signature(k.key)
      invariant forall a, b | 0 <= a < b < |distinct| :: Signature(distinct[a].key) != Signature(distinct[b].key)
    {
      var id := delta[dirty[i]];
      assert dirty[i] in dirty && dirty[..i + 1] == dirty[..i] + [dirty[i]];
      ElemsAppend(dirty[..i], dirty[i]);
      KeysGrow(delta, Elems(dirty[..i]), dirty[i]);
      ids := ids + [dirty[i]];
      var sig := Signature(id.key);
      ghost var before := distinct;
      if sig !in seen {
        forall k <- distinct ensures Signature(k.key) != sig { assert Signature(k.key) in seen; }
        seen := seen + {sig};
        ElemsAppend(distinct, id);
        distinct := distinct + [id];
        assert id in distinct;
      }
      assert Represented(distinct, id);
      forall d <- dirty[..i] ensures Represented(distinct, delta[d]) {
        var k :| k in before && Signature(k.key) == Signature(delta[d].key);
        assert k in distinct;
      }
    }
    assert dirty[..|dirty|] == dirty;
    if AllNulFree(delta, dirty) { RepresentedExactly(delta, dirty, t, arity, distinct); }
  }

  // ---------- one target of one component ----------

  function IdCount(work: seq<Item>, done: set<nat>): nat {
    if |work| == 0 then 0
    else IdCount(work[..|work| - 1], done) + if |work| - 1 in done then |work[|work| - 1].ids| else 0
  }

  lemma {:induction false} IdCountSame(work: seq<Item>, a: set<nat>, b: set<nat>)
    requires forall i: nat | i < |work| :: i in a <==> i in b
    ensures IdCount(work, a) == IdCount(work, b)
  {
    if |work| > 0 { IdCountSame(work[..|work| - 1], a, b); }
  }

  lemma {:induction false} IdCountAppend(work: seq<Item>, item: Item)
    ensures IdCount(work + [item], UpTo(|work| + 1)) == IdCount(work, UpTo(|work|)) + |item.ids|
  {
    assert (work + [item])[..|work|] == work;
    IdCountSame(work, UpTo(|work|), UpTo(|work| + 1));
  }

  predicate HasTable(work: seq<Item>, t: Table) {
    exists k :: 0 <= k < |work| && work[k].table == t
  }

  /** The ids of the confirmed tables among the first n. */
  function IdsOf(work: seq<Item>, done: set<nat>): set<DeltaId> {
    if |work| == 0 then {}
    else IdsOf(work[..|work| - 1], done) + if |work| - 1 in done then work[|work| - 1].ids else {}
  }

  lemma {:induction false} NoneDone(work: seq<Item>)
    ensures IdsOf(work, {}) == {} && IdCount(work, {}) == 0
  {
    if |work| > 0 { NoneDone(work[..|work| - 1]); }
  }

  lemma {:induction false} OneMoreDone(work: seq<Item>, done: set<nat>, i: nat)
    requires i !in done
    ensures IdsOf(work, done + {i}) == IdsOf(work, done) + if i < |work| then work[i].ids else {}
    ensures IdCount(work, done + {i}) == IdCount(work, done) + if i < |work| then |work[i].ids| else 0
  {
    if |work| > 0 { OneMoreDone(work[..|work| - 1], done, i); }
  }

  lemma {:induction false} BackwardEligible(c: Ctx, phase: Phase, n: nat, eligible: set<nat>, p: Progress)
    requires n <= |c.work|
    ensures RunBackward(c, phase, n, eligible, p).done <= p.done + eligible
  {
    if n > 0 && !p.halted {
      BackwardEligible(c, phase, n - 1, eligible, Visit(c, phase, n - 1, eligible, p));
    }
  }

  /** With nothing loaded NULL the fill phase does nothing. */
  lemma {:induction false} NothingEligible(c: Ctx, i: nat, p: Progress)
    requires i <= |c.work|
    ensures RunForward(c, FillPhase, i, {}, p) == p
    decreases |c.work| - i
  {
    if i < |c.work| { NothingEligible(c, i + 1, p); }
  }

  lemma AcyclicPassIsDeletes(c: Ctx)
    requires c.nullFill == map[]
    ensures Pass(c) == Deletes(c)
  {
    assert ToFill(c, Deletes(c).done) == {};
    NothingEligible(c, 0, Deletes(c).(done := {}));
  }

  /** A batch of one table: unconsumed ids of that table and the keys behind them. */
  ghost predicate ItemOf(delta: map<DeltaId, RowId>, track: set<DeltaId>, item: Item) {
    && item.ids != {} && item.keys == KeysOf(delta, item.ids)
    && forall d <- item.ids :: d in delta && d !in track && delta[d].table == item.table
  }

  ghost predicate BatchOf(delta: map<DeltaId, RowId>, track: set<DeltaId>, work: seq<Item>) {
    forall k: nat | k < |work| :: ItemOf(delta, track, work[k])
  }

  lemma {:induction false} InIdsOf(work: seq<Item>, done: set<nat>, d: DeltaId) returns (k: nat)
    requires d in IdsOf(work, done)
    ensures k < |work| && k in done && d in work[k].ids
  {
    var n := |work| - 1;
    if n in done && d in work[n].ids {
      k := n;
    } else {
      k := InIdsOf(work[..n], done, d);
    }
  }

  lemma {:induction false} IdsOfHas(work: seq<Item>, done: set<nat>, k: nat)
    requires k < |work| && k in done
    ensures work[k].ids <= IdsOf(work, done)
  {
    if k < |work| - 1 {
      IdsOfHas(work[..|work| - 1], done, k);
      assert work[..|work| - 1][k] == work[k];
    }
  }

  /** A pass leaves every remaining difference queued: a confirmed table agrees, and a
      row that no confirmed table covers keeps its delta. */
  lemma StillPending(c: Ctx, delta: map<DeltaId, RowId>, track: set<DeltaId>, id: RowId)
    requires WorkOk(c) && BatchOf(delta, track, c.work)
    requires Differ(c.source, c.target, id) ==> Pending(delta, track, id)
    requires Differ(c.source, Pass(c).rows, id)
    ensures Pending(delta, track + IdsOf(c.work, Pass(c).done), id)
  {
    var gone := IdsOf(c.work, Pass(c).done);
    if InBatch(c, id) {
      var k: nat :| k < |c.work| && id in c.work[k].keys;
      var d :| d in c.work[k].ids && d in delta && delta[d] == id;
      if d in gone { ConfirmedCovers(c, delta, track, d); }
    } else {
      PassFrame(c, id);
      var d :| d in delta && d !in track && delta[d] == id;
      if d in gone { ConfirmedCovers(c, delta, track, d); }
    }
  }

  lemma ConfirmedCovers(c: Ctx, delta: map<DeltaId, RowId>, track: set<DeltaId>, d: DeltaId)
    requires WorkOk(c) && BatchOf(delta, track, c.work) && d in IdsOf(c.work, Pass(c).done)
    ensures d in delta && InBatch(c, delta[d]) && !Differ(c.source, Pass(c).rows, delta[d])
  {
    var k := InIdsOf(c.work, Pass(c).done, d);
    assert ItemOf(delta, track, c.work[k]);
    assert delta[d] in c.work[k].keys;
    ConfirmedAgrees(c, k);
  }

  /** Batches of different tables share no delta. */
  lemma {:induction false} CountIsSize(c: Ctx, delta: map<DeltaId, RowId>, track: set<DeltaId>, n: nat, done: set<nat>)
    requires WorkOk(c) && BatchOf(delta, track, c.work) && n <= |c.work|
    ensures |IdsOf(c.work[..n], done)| == IdCount(c.work[..n], done)
  {
    if n > 0 {
      CountIsSize(c, delta, track, n - 1, done);
      assert c.work[..n][..n - 1] == c.work[..n - 1];
      var init := IdsOf(c.work[..n - 1], done);
      forall d <- init ensures d !in c.work[n - 1].ids {
        var k := InIdsOf(c.work[..n - 1], done, d);
        assert ItemOf(delta, track, c.work[k]) && ItemOf(delta, track, c.work[n - 1]);
        assert At(c, k, c.work[k].table) && At(c, n - 1, c.work[n - 1].table);
      }
      assert |init + c.work[n - 1].ids| == |init| + |c.work[n - 1].ids|;
    }
  }

  /** What a pass consumes is new, and it counts it right. */
  lemma PassConsumes(c: Ctx, delta: map<DeltaId, RowId>, track: set<DeltaId>)
    requires WorkOk(c) && BatchOf(delta, track, c.work)
    ensures var gone := IdsOf(c.work, Pass(c).done);
            && gone !! track && gone <= delta.Keys
            && |gone| == |(track + gone) - track| == IdCount(c.work, Pass(c).done)
            && (|c.work| > 0 && 0 in Pass(c).done ==> gone != {})
  {
    var gone := IdsOf(c.work, Pass(c).done);
    if |c.work| > 0 && 0 in Pass(c).done {
      IdsOfHas(c.work, Pass(c).done, 0);
      assert ItemOf(delta, track, c.work[0]);
    }
    forall d <- gone ensures d !in track && d in delta {
      var k := InIdsOf(c.work, Pass(c).done, d);
      assert ItemOf(delta, track, c.work[k]);
    }
    CountIsSize(c, delta, track, |c.work|, Pass(c).done);
    assert c.work[..|c.work|] == c.work;
    assert (track + gone) - track == gone;
  }

  lemma Additive(a: set<DeltaId>, b: set<DeltaId>, c: set<DeltaId>)
    requires a <= b <= c
    ensures |c - a| == |b - a| + |c - b|
  {
    assert c - a == (b - a) + (c - b);
  }

  lemma Shrinks(all: set<DeltaId>, a: set<DeltaId>, b: set<DeltaId>)
    requires a <= b && b - a <= all && |b - a| > 0
    ensures |all - b| < |all - a|
  {
    assert all - a == (all - b) + (b - a);
  }

  /** The tables whose flag is set. */
  function Marked(flags: seq<bool>): set<nat> {
    set k: nat | k < |flags| && flags[k]
  }

  lemma MarkOne(flags: seq<bool>, i: nat)
    requires i < |flags|
    ensures Marked(flags[i := true]) == Marked(flags) + {i}
  {
    assert forall k: nat | k < |flags| && k != i :: flags[i := true][k] == flags[k];
  }

  /** The tables a pass records as consumed. */
  function Confirmed(c: Ctx): set<nat> {
    if Pass(c).halted then {} else Pass(c).done
  }

  /** A table's unconsumed deltas. */
  function QueueOf(delta: map<DeltaId, RowId>, track: set<DeltaId>, t: Table): set<DeltaId> {
    set d | d in delta && d !in track && delta[d].table == t
  }

  /** The ids of a queue that come before d. */
  function Before(queue: set<DeltaId>, d: DeltaId): set<DeltaId> {
    set e | e in queue && e < d
  }

  /** What one read of a table is due to return: the `batch` smallest ids of its queue, the
      whole queue if the batch is not positive. */
  function Due(delta: map<DeltaId, RowId>, track: set<DeltaId>, t: Table, batch: int): set<DeltaId> {
    set d | d in QueueOf(delta, track, t) && (batch <= 0 || |Before(QueueOf(delta, track, t), d)| < batch)
  }

  /** The smallest ids are those with few ids before them. */
  lemma SmallestAreDue(queue: set<DeltaId>, dirty: seq<DeltaId>, batch: nat, d: DeltaId)
    requires Ascending(dirty) && Elems(dirty) <= queue && d in queue
    requires |dirty| == if batch < |queue| then batch else |queue|
    requires forall e | e in queue && e !in dirty :: Above(dirty, e)
    ensures d in dirty <==> |Before(queue, d)| < batch
  {
    AscendingCount(dirty);
    if d in dirty {
      var i :| 0 <= i < |dirty| && dirty[i] == d;
      forall e <- Before(queue, d) ensures e in Elems(dirty) - {d} { assert !Above(dirty, e); }
      FewerElements(Before(queue, d), Elems(dirty) - {d});
    } else {
      assert Above(dirty, d);
      forall e <- Elems(dirty) ensures e in Before(queue, d) {
        var i :| 0 <= i < |dirty| && dirty[i] == e;
      }
      FewerElements(Elems(dirty), Before(queue, d));
      FewerElements(Elems(dirty) + {d}, queue);
    }
  }

  lemma FewerElements(a: set<DeltaId>, b: set<DeltaId>)
    requires a <= b
    ensures |a| <= |b|
  {
    assert b == a + (b - a);
  }

  /** A batch that covers the queue is the queue. */
  lemma AllDue(delta: map<DeltaId, RowId>, track: set<DeltaId>, t: Table, batch: int)
    requires batch <= 0 || |QueueOf(delta, track, t)| <= batch
    ensures Due(delta, track, t, batch) == QueueOf(delta, track, t)
  {
    var queue := QueueOf(delta, track, t);
    forall d <- queue ensures batch <= 0 || |Before(queue, d)| < batch {
      FewerElements(Before(queue, d) + {d}, queue);
    }
  }

  lemma SomeDue(delta: map<DeltaId, RowId>, track: set<DeltaId>, t: Table, batch: int)
    requires QueueOf(delta, track, t) != {}
    ensures Due(delta, track, t, batch) != {}
  {
    var queue := QueueOf(delta, track, t);
    var least := Least(queue);
    assert Before(queue, least) == {};
    assert least in Due(delta, track, t, batch);
  }

  /** A pass left some table's batch unconsumed. */
  ghost predicate LeftOver(delta: map<DeltaId, RowId>, order: seq<Table>, batch: int, before: set<DeltaId>, after: set<DeltaId>) {
    exists t <- order :: !(Due(delta, before, t, batch) <= after)
  }

  class Replica {
    const sch: Schema
    const order: seq<Table>
    const arity: map<Table, nat>
    const nullFill: map<Table, set<Column>>
    const source: Database
    const delta: map<DeltaId, RowId>
    var rows: Database
    var track: set<DeltaId>

    constructor (sch: Schema, order: seq<Table>, arity: map<Table, nat>, nullFill: map<Table, set<Column>>,
                 source: Database, delta: map<DeltaId, RowId>, rows: Database, track: set<DeltaId>)
      ensures this.sch == sch && this.order == order && this.arity == arity && this.nullFill == nullFill
      ensures this.source == source && this.delta == delta && this.rows == rows && this.track == track
    {
      this.sch, this.order, this.arity, this.nullFill := sch, order, arity, nullFill;
      this.source, this.delta, this.rows, this.track := source, delta, rows, track;
    }

    function Queue(t: Table): set<DeltaId>
      reads this`track
    {
      QueueOf(delta, track, t)
    }

    function Context(work: seq<Item>): Ctx
      reads this`rows
    {
      Ctx(sch, source, rows, nullFill, work)
    }

    /** Every delta belongs to a table of the component, with a well-shaped key. */
    predicate CaptureOk() {
      && (forall t <- order :: t in arity)
      && (forall d <- delta :: delta[d].table in order && |delta[d].key| == arity[delta[d].table]
                               && forall p <- delta[d].key :: NulFree(p))
    }

    /** Unconsumed deltas of a table, smallest ids first, at most max of them. */
    method ReadDirtyKeys(t: Table, max: int) returns (dirty: seq<DeltaId>)
      ensures Ascending(dirty)
      ensures Elems(dirty) <= Queue(t)
      ensures |Elems(dirty)| == |dirty| == if 0 < max < |Queue(t)| then max else |Queue(t)|
      ensures forall d | d in Queue(t) && d !in dirty :: Above(dirty, d)
    {
      var limit: nat := if max > 0 then max else |Queue(t)|;
      FirstIdsCount(Queue(t), limit);
      FirstIdsSorted(Queue(t), limit);
      dirty := FirstIds(Queue(t), limit);
      AscendingCount(dirty);
    }

    /** One table's batch: the ids due, not none, and the keys behind them. */
    ghost predicate ItemOk(item: Item, batch: int)
      reads this`track
    {
      && item.ids != {} && item.ids == Due(delta, track, item.table, batch)
      && item.keys == KeysOf(delta, item.ids)
    }

    method GatherTable(t: Table, batch: int) returns (item: Item)
      requires CaptureOk() && t in order
      ensures item.table == t
      ensures item.ids == Due(delta, track, t, batch) && item.keys == KeysOf(delta, item.ids)
      ensures |item.ids| == if 0 < batch < |Queue(t)| then batch else |Queue(t)|
    {
      var dirty := ReadDirtyKeys(t, batch);
      assert forall d <- dirty :: d in Elems(dirty);
      var distinct, ids := Coalesce(delta, dirty, t, arity[t]);
      item := Item(t, Elems(distinct), Elems(ids));
      if batch <= 0 {
        SubsetOfSameSize(item.ids, Queue(t));
        AllDue(delta, track, t, batch);
      } else {
        forall d <- Queue(t) ensures d in dirty <==> |Before(Queue(t), d)| < batch {
          SmallestAreDue(Queue(t), dirty, batch, d);
        }
        assert item.ids == Due(delta, track, t, batch);
      }
    }

    /** The dirty work of one pass: per table in apply order its coalesced batch, tables
        with an empty queue dropped. `pos` says where each table sits in the order. */
    method GatherWork(batch: int) returns (work: seq<Item>, total: nat, ghost pos: seq<nat>)
      requires CaptureOk()
      ensures GatherSpec(work, batch, pos)
      ensures total == IdCount(work, UpTo(|work|))
    {
      work, total, pos := [], 0, [];
      for i := 0 to |order|
        invariant Gathered(work, batch, pos, i)
        invariant total == IdCount(work, UpTo(|work|))
      {
        var item := GatherTable(order[i], batch);
        if item.ids != {} {
          GatherOne(work, batch, pos, i, item);
          IdCountAppend(work, item);
          work := work + [item];
          pos := pos + [i];
          total := total + |item.ids|;
        } else {
          GatherNone(work, batch, pos, i);
        }
      }
    }

    ghost predicate Gathered(work: seq<Item>, batch: int, pos: seq<nat>, n: nat)
      requires n <= |order|
      reads this`track
    {
      && |pos| == |work|
      && (forall k | 0 <= k < |work| :: Placed(work[k], batch, pos[k], n))
      && Ascending(pos)
      && (forall t | t in order[..n] && Queue(t) != {} :: HasTable(work, t))
    }

    ghost predicate Placed(item: Item, batch: int, at: nat, n: nat)
      requires n <= |order|
      reads this`track
    {
      at < n && item.table == order[at] && ItemOk(item, batch)
    }

    lemma GatherNone(work: seq<Item>, batch: int, pos: seq<nat>, i: nat)
      requires i < |order| && Gathered(work, batch, pos, i) && Queue(order[i]) == {}
      ensures Gathered(work, batch, pos, i + 1)
    {
      assert order[..i + 1] == order[..i] + [order[i]];
      forall k | 0 <= k < |work| ensures Placed(work[k], batch, pos[k], i + 1) {
        assert Placed(work[k], batch, pos[k], i);
      }
    }

    lemma GatherOne(work: seq<Item>, batch: int, pos: seq<nat>, i: nat, item: Item)
      requires i < |order| && Gathered(work, batch, pos, i)
      requires item.table == order[i] && ItemOk(item, batch)
      ensures Gathered(work + [item], batch, pos + [i], i + 1)
    {
      assert order[..i + 1] == order[..i] + [order[i]];
      var work', pos' := work + [item], pos + [i];
      forall k | 0 <= k < |work| ensures pos[k] < i && Placed(work'[k], batch, pos'[k], i + 1) {
        assert Placed(work[k], batch, pos[k], i);
      }
      forall t | t in order[..i + 1] && Queue(t) != {} ensures HasTable(work', t) {
        if t == item.table {
          assert work'[|work|].table == t;
        } else {
          var k :| 0 <= k < |work| && work[k].table == t;
          assert work'[k].table == t;
        }
      }
    }

    ghost predicate GatherSpec(work: seq<Item>, batch: int, pos: seq<nat>)
      reads this`track
    {
      Gathered(work, batch, pos, |order|)
    }

    // ---------- the drains ----------

    /** A transaction halts when a staged or filled row puts NULL into a NOT NULL column, is
        transient when a reference dangles, and commits otherwise. */
    ghost predicate VerdictOk(item: Item, phase: Phase, before: Database, o: Outcome) {
      var omit := Omitted(nullFill, item.table);
      var staged := Restrict(source, item.keys);
      var mid, end := UpsertAll(before, staged, omit), PhaseEffect(before, item.keys, PerTable(omit), phase, staged);
      var early := NullStaged(sch, source, item.keys, omit, before);
      var late := phase == FillPhase && NullFilled(sch, source, item.keys, omit);
      && (o.Halted? <==> early || (!Dangles(sch, mid) && late))
      && (o.Transient? <==> !early && (Dangles(sch, mid) || (!late && Dangles(sch, end))))
    }

    /** One phase of one table in its own transaction: re-read, stage and upsert, then the
        phase's statement; a violation rolls everything back. */
    method PerTableApply(ghost c: Ctx, item: Item, phase: Phase) returns (o: Outcome)
      requires phase != ConfirmPhase
      requires c.sch == sch && c.source == source && c.nullFill == nullFill
      modifies this`rows
      ensures o == Attempt(c, item, phase, old(rows))
      ensures rows == if o.Committed? then o.rows else old(rows)
      ensures NotNullOk(sch, old(rows)) ==> VerdictOk(item, phase, old(rows), o)
    {
      if NotNullOk(sch, rows) { AttemptVerdict(c, item, phase, rows); }
      var staged := Restrict(source, item.keys);
      var cols := Omitted(nullFill, item.table);
      var tx := UpsertAll(rows, staged, cols);
      if !NotNullOk(sch, tx) { return Halted; }
      if !FkOk(sch, tx) { return Transient; }
      if phase == FillPhase {
        tx := FillColumns(tx, staged, cols);
      } else if phase == DeletePhase {
        tx := DeleteAbsent(tx, item.keys, staged);
      }
      if !NotNullOk(sch, tx) { return Halted; }
      if !FkOk(sch, tx) { return Transient; }
      rows := tx;
      return Committed(rows);
    }

    method PerTableUpsert(ghost c: Ctx, item: Item) returns (o: Outcome)
      requires c.sch == sch && c.source == source && c.nullFill == nullFill
      modifies this`rows
      ensures o == Attempt(c, item, UpsertPhase, old(rows)) && rows == if o.Committed? then o.rows else old(rows)
    {
      o := PerTableApply(c, item, UpsertPhase);
    }

    method PerTableDelete(ghost c: Ctx, item: Item) returns (o: Outcome)
      requires c.sch == sch && c.source == source && c.nullFill == nullFill
      modifies this`rows
      ensures o == Attempt(c, item, DeletePhase, old(rows)) && rows == if o.Committed? then o.rows else old(rows)
    {
      o := PerTableApply(c, item, DeletePhase);
    }

    method PerTableFill(ghost c: Ctx, item: Item) returns (o: Outcome)
      requires c.sch == sch && c.source == source && c.nullFill == nullFill
      modifies this`rows
      ensures o == Attempt(c, item, FillPhase, old(rows)) && rows == if o.Committed? then o.rows else old(rows)
    {
      o := PerTableApply(c, item, FillPhase);
    }

    /** Phase 1 of both drains: upserts, parents to children. */
    method UpsertAllTables(ghost c: Ctx, work: seq<Item>) returns (upserted: seq<bool>, transient: bool, halted: bool)
      requires c == Context(work)
      modifies this`rows
      ensures |upserted| == |work|
      ensures Upserts(c) == Progress(rows, Marked(upserted), transient, halted)
    {
      upserted, transient, halted := seq(|work|, _ => false), false, false;
      assert Marked(upserted) == {};
      for i := 0 to |work|
        invariant |upserted| == |work|
        invariant Upserts(c) == RunForward(c, UpsertPhase, i, UpTo(|work|),
                                           Progress(rows, Marked(upserted), transient, false))
      {
        var o := PerTableUpsert(c, work[i]);
        if o.Committed? {
          MarkOne(upserted, i);
          upserted := upserted[i := true];
        } else if o.Transient? {
          transient := true;
        } else {
          halted := true;
          return;
        }
      }
    }

    method ConfirmConsumed(ids: set<DeltaId>)
      modifies this`track
      ensures track == old(track) + ids
    {
      track := track + ids;
    }

    /** Phase 2 of the acyclic drain, children to parents; a table is confirmed as soon as
        its second phase committed. */
    method DeleteAndConfirm(ghost c: Ctx, work: seq<Item>, upserted: seq<bool>, blocked: bool)
      returns (total: nat, transient: bool, halted: bool)
      requires c.sch == sch && c.source == source && c.nullFill == nullFill && c.work == work
      requires |upserted| == |work|
      modifies this
      ensures var q := RunBackward(c, DeletePhase, |work|, Marked(upserted), Progress(old(rows), {}, blocked, false));
              && q == Progress(rows, q.done, transient, halted)
              && track == old(track) + IdsOf(work, q.done)
              && total == IdCount(work, q.done)
    {
      ghost var q := RunBackward(c, DeletePhase, |work|, Marked(upserted), Progress(rows, {}, blocked, false));
      ghost var done: set<nat> := {};
      NoneDone(work);
      total, transient, halted := 0, blocked, false;
      for i := |work| downto 0
        invariant q == RunBackward(c, DeletePhase, i, Marked(upserted), Progress(rows, done, transient, false))
        invariant forall k <- done :: i <= k
        invariant track == old(track) + IdsOf(work, done)
        invariant total == IdCount(work, done)
      {
        if upserted[i] {
          var o := PerTableDelete(c, work[i]);
          if o.Committed? {
            ConfirmConsumed(work[i].ids);
            total := total + |work[i].ids|;
            OneMoreDone(work, done, i);
            done := done + {i};
          } else if o.Transient? {
            transient := true;
          } else {
            halted := true;
            return;
          }
        }
      }
    }

    /** The acyclic drain. A halt during the upserts confirms nothing. */
    method DrainAcyclicSeq(work: seq<Item>) returns (total: nat, transient: bool, halted: bool)
      modifies this
      ensures var q := Deletes(old(Context(work)));
              && q == Progress(rows, q.done, transient, halted)
              && track == old(track) + IdsOf(work, q.done)
              && total == IdCount(work, q.done)
      ensures var c := old(Context(work));
              WorkOk(c) && NotNullOk(sch, old(rows)) ==>
                && (halted <==> exists k: nat :: k < |work| && BadRow(c, k, old(rows)))
                && (halted ==> track == old(track) && total == 0)
      ensures !halted ==> (transient <==> SomeLeft(old(Context(work)), Deletes(old(Context(work))).done))
    {
      ghost var c := Context(work);
      NoneDone(work);
      if WorkOk(c) && NotNullOk(sch, rows) { PassHaltsExactlyWhen(c); }
      TransientExactlyWhen(c);
      var upserted: seq<bool>;
      upserted, transient, halted := UpsertAllTables(c, work);
      if halted { return 0, transient, true; }
      total, transient, halted := DeleteAndConfirm(c, work, upserted, transient);
    }

    /** Phase 2 of the cyclic drain: deletes only, nothing confirmed yet. */
    method DeleteAllTables(ghost c: Ctx, work: seq<Item>, upserted: seq<bool>, blocked: bool)
      returns (deleted: seq<bool>, transient: bool, halted: bool)
      requires c.sch == sch && c.source == source && c.nullFill == nullFill && c.work == work
      requires |upserted| == |work|
      modifies this`rows
      ensures |deleted| == |work|
      ensures RunBackward(c, DeletePhase, |work|, Marked(upserted), Progress(old(rows), {}, blocked, false)) ==
              Progress(rows, Marked(deleted), transient, halted)
    {
      ghost var q := RunBackward(c, DeletePhase, |work|, Marked(upserted), Progress(rows, {}, blocked, false));
      deleted, transient, halted := seq(|work|, _ => false), blocked, false;
      assert Marked(deleted) == {};
      for i := |work| downto 0
        invariant |deleted| == |work|
        invariant q == RunBackward(c, DeletePhase, i, Marked(upserted), Progress(rows, Marked(deleted), transient, false))
      {
        if upserted[i] {
          var o := PerTableDelete(c, work[i]);
          if o.Committed? {
            MarkOne(deleted, i);
            deleted := deleted[i := true];
          } else if o.Transient? {
            transient := true;
          } else {
            halted := true;
            return;
          }
        }
      }
    }

    /** Phase 3: fills the columns the upserts left NULL, parents to children. A table
        without such columns has nothing to fill. */
    method FillAllTables(ghost c: Ctx, work: seq<Item>, deleted: seq<bool>, blocked: bool)
      returns (filled: seq<bool>, ghost done: set<nat>, transient: bool, halted: bool)
      requires c.sch == sch && c.source == source && c.nullFill == nullFill && c.work == work
      requires |deleted| == |work|
      modifies this`rows
      ensures |filled| == |work|
      ensures RunForward(c, FillPhase, 0, ToFill(c, Marked(deleted)), Progress(old(rows), {}, blocked, false)) ==
              Progress(rows, done, transient, halted)
      ensures !halted ==> FilledFlags(work, filled, done, |work|)
    {
      ghost var q := RunForward(c, FillPhase, 0, ToFill(c, Marked(deleted)), Progress(rows, {}, blocked, false));
      filled, done, transient, halted := seq(|work|, _ => false), {}, blocked, false;
      for i := 0 to |work|
        invariant |filled| == |work|
        invariant q == RunForward(c, FillPhase, i, ToFill(c, Marked(deleted)), Progress(rows, done, transient, false))
        invariant FilledFlags(work, filled, done, i)
      {
        ghost var before := done;
        if Omitted(nullFill, work[i].table) == {} {
          filled := filled[i := true];
        } else if deleted[i] {
          var o := PerTableFill(c, work[i]);
          if o.Committed? {
            filled := filled[i := true];
            done := done + {i};
          } else if o.Transient? {
            transient := true;
          } else {
            halted := true;
            return;
          }
        }
      }
    }

    /** The first n flags: set where the fill committed or nothing was to be filled. */
    ghost predicate FilledFlags(work: seq<Item>, filled: seq<bool>, done: set<nat>, n: nat)
      requires |filled| == |work|
    {
      && (forall k <- done :: k < n)
      && (forall k | 0 <= k < |work| ::
            filled[k] <==> k < n && (k in done || Omitted(nullFill, work[k].table) == {}))
    }

    /** Records as consumed the tables all of whose flags are set. */
    method ConfirmTables(work: seq<Item>, upserted: seq<bool>, deleted: seq<bool>, filled: seq<bool>,
                         ghost settled: set<nat>) returns (total: nat)
      requires |upserted| == |deleted| == |filled| == |work|
      requires forall k: nat :: k in settled <==> k < |work| && upserted[k] && deleted[k] && filled[k]
      modifies this`track
      ensures track == old(track) + IdsOf(work, settled) && total == IdCount(work, settled)
    {
      total := 0;
      ghost var done: set<nat> := {};
      NoneDone(work);
      for i := 0 to |work|
        invariant forall k: nat :: k in done <==> k in settled && k < i
        invariant track == old(track) + IdsOf(work, done) && total == IdCount(work, done)
      {
        if upserted[i] && deleted[i] && filled[i] {
          OneMoreDone(work, done, i);
          ConfirmConsumed(work[i].ids);
          total := total + |work[i].ids|;
          done := done + {i};
        }
      }
      assert done == settled;
    }

    lemma SettledByFlags(c: Ctx, upserted: seq<bool>, deleted: seq<bool>, filled: seq<bool>, fills: set<nat>)
      requires c.nullFill == nullFill && |upserted| == |deleted| == |filled| == |c.work|
      requires Upserts(c).done == Marked(upserted) && Deletes(c).done == Marked(deleted)
      requires Fills(c).done == fills && FilledFlags(c.work, filled, fills, |c.work|)
      ensures forall k: nat :: k in Pass(c).done <==> k < |c.work| && upserted[k] && deleted[k] && filled[k]
    {
      BackwardEligible(c, DeletePhase, |c.work|, Upserts(c).done, Upserts(c).(done := {}));
      ForwardDone(c, FillPhase, 0, ToFill(c, Deletes(c).done), Deletes(c).(done := {}));
    }

    /** The cyclic drain: columns of cyclic foreign keys load NULL and are filled last. A
        halt in any phase confirms nothing, although earlier phases have committed. */
    method DrainCyclicNullFillSeq(work: seq<Item>) returns (total: nat, transient: bool, halted: bool)
      modifies this
      ensures var c := old(Context(work));
              && Pass(c) == Progress(rows, Pass(c).done, transient, halted)
              && track == old(track) + IdsOf(work, Confirmed(c))
              && total == IdCount(work, Confirmed(c))
      ensures halted ==> track == old(track) && total == 0
      ensures var c := old(Context(work));
              WorkOk(c) && NullFillOk(c) && NotNullOk(sch, old(rows)) ==>
                (halted <==> exists k: nat :: k < |work| && BadRow(c, k, old(rows)))
      ensures !halted ==> (transient <==> SomeLeft(old(Context(work)), Pass(old(Context(work))).done))
    {
      ghost var c := Context(work);
      NoneDone(work);
      if WorkOk(c) && NotNullOk(sch, rows) { PassHaltsExactlyWhen(c); }
      TransientExactlyWhen(c);
      var upserted: seq<bool>, deleted: seq<bool>, filled: seq<bool>;
      upserted, transient, halted := UpsertAllTables(c, work);
      if halted { return 0, transient, true; }
      deleted, transient, halted := DeleteAllTables(c, work, upserted, transient);
      if halted { return 0, transient, true; }
      ghost var fills: set<nat>;
      filled, fills, transient, halted := FillAllTables(c, work, deleted, transient);
      if halted { return 0, transient, true; }
      SettledByFlags(c, upserted, deleted, filled, fills);
      total := ConfirmTables(work, upserted, deleted, filled, Pass(c).done);
    }

    // ---------- bounded passes until the queues are empty ----------

    /** An acyclic component in topological order over a consistent, quiet source. */
    ghost predicate AcyclicOk() {
      && CaptureOk() && nullFill == map[] && Sound(sch, source)
      && (forall i, j | 0 <= i < j < |order| :: order[i] != order[j])
      && (forall fk, i, j | fk in sch.fks && 0 <= i < |order| && 0 <= j < |order|
                            && order[i] == fk.parent && order[j] == fk.child :: i < j)
    }

    /** The target is consistent and has lost no change. */
    ghost predicate BacklogOk()
      reads this
    {
      Sound(sch, rows) && forall id | Differ(source, rows, id) :: Pending(delta, track, id)
    }

    /** Every queued row still exists. */
    ghost predicate NothingGone()
      reads this`track
    {
      forall d | d in delta && d !in track :: delta[d] in source
    }

    /** The batch covers every queue. */
    ghost predicate Covered(track: set<DeltaId>, batch: int) {
      forall t <- order :: |QueueOf(delta, track, t)| <= batch
    }

    lemma OrderedWork(work: seq<Item>, batch: int, pos: seq<nat>)
      requires AcyclicOk() && GatherSpec(work, batch, pos)
      ensures WorkOk(Context(work)) && ParentsFirst(Context(work))
    {
      var c := Context(work);
      forall i, t | At(c, i, t) ensures pos[i] < |order| && order[pos[i]] == t && ItemOk(work[i], batch) {
        assert Placed(work[i], batch, pos[i], |order|);
      }
      forall i, id | 0 <= i < |work| && id in work[i].keys ensures id.table == work[i].table {
        assert At(c, i, work[i].table);
      }
    }

    /** Every difference is queued, so its table has work. */
    lemma WorkCoversTables(work: seq<Item>, batch: int, pos: seq<nat>)
      requires CaptureOk() && GatherSpec(work, batch, pos)
      requires forall id | Differ(source, rows, id) :: Pending(delta, track, id)
      ensures Queued(Context(work))
    {
      var c := Context(work);
      forall id | Differ(source, rows, id) ensures exists i :: At(c, i, id.table) {
        var e :| e in delta && e !in track && delta[e] == id;
        assert e in Queue(id.table);
        assert HasTable(work, id.table);
        var k :| 0 <= k < |work| && work[k].table == id.table;
        assert At(c, k, id.table);
      }
    }

    lemma WorkExists(work: seq<Item>, batch: int, pos: seq<nat>, k: int, id: RowId)
      requires GatherSpec(work, batch, pos) && 0 <= k < |work| && id in work[k].keys
      requires NothingGone()
      ensures id in source
    {
      assert Placed(work[k], batch, pos[k], |order|);
    }

    lemma NothingNulled(c: Ctx)
      requires c.nullFill == map[]
      ensures NullFillOk(c)
    {}

    lemma LegalWork(work: seq<Item>, batch: int, pos: seq<nat>)
      requires AcyclicOk() && BacklogOk() && GatherSpec(work, batch, pos)
      ensures Legal(Context(work)) && Queued(Context(work))
    {
      OrderedWork(work, batch, pos);
      NothingNulled(Context(work));
      WorkCoversTables(work, batch, pos);
    }

    lemma UpsertingWork(work: seq<Item>, batch: int, pos: seq<nat>) returns (c: Upserting)
      requires AcyclicOk() && BacklogOk() && GatherSpec(work, batch, pos) && NothingGone()
      ensures c == Context(work)
    {
      LegalWork(work, batch, pos);
      forall k, id | 0 <= k < |work| && id in work[k].keys ensures id in source {
        WorkExists(work, batch, pos, k, id);
      }
      c := Context(work);
    }

    /** A batch that covers the queues covers every difference. */
    lemma CoveringWork(work: seq<Item>, batch: int, pos: seq<nat>) returns (c: Covering)
      requires AcyclicOk() && BacklogOk() && GatherSpec(work, batch, pos) && Covered(track, batch)
      ensures c == Context(work)
    {
      LegalWork(work, batch, pos);
      var ctx := Context(work);
      forall id | Differ(source, rows, id) ensures exists i :: At(ctx, i, id.table) && id in ctx.work[i].keys {
        var d :| d in delta && d !in track && delta[d] == id;
        assert d in Queue(id.table);
        assert HasTable(work, id.table);
        var k :| 0 <= k < |work| && work[k].table == id.table;
        assert Placed(work[k], batch, pos[k], |order|);
        AllDue(delta, track, id.table, batch);
        assert At(ctx, k, id.table) && id in ctx.work[k].keys;
      }
      c := ctx;
    }

    /** Source rows hold no forbidden NULL, and nothing is loaded NULL here. */
    lemma NeverABadRow(work: seq<Item>, k: nat)
      requires AcyclicOk() && k < |work|
      ensures !BadRow(Context(work), k, rows)
    {}

    lemma BatchFromQueue(work: seq<Item>, batch: int, pos: seq<nat>)
      requires GatherSpec(work, batch, pos)
      ensures BatchOf(delta, track, work)
    {
      forall k: nat | k < |work| ensures ItemOf(delta, track, work[k]) {
        assert Placed(work[k], batch, pos[k], |order|);
      }
    }

    /** Which tables a pass of this work confirms shows in the track: a table's whole batch
        is in it or none of it is. */
    lemma {:induction false} BatchesWholeOrNot(c: Ctx, before: set<DeltaId>, done: set<nat>, k: nat)
      requires WorkOk(c) && BatchOf(delta, before, c.work) && k < |c.work|
      ensures if k in done then c.work[k].ids <= before + IdsOf(c.work, done)
              else c.work[k].ids !! before + IdsOf(c.work, done)
    {
      if k in done {
        IdsOfHas(c.work, done, k);
      } else {
        forall d <- c.work[k].ids ensures d !in before + IdsOf(c.work, done) {
          assert ItemOf(delta, before, c.work[k]);
          if d in IdsOf(c.work, done) {
            var j := InIdsOf(c.work, done, d);
            assert ItemOf(delta, before, c.work[j]);
            assert At(c, j, c.work[j].table) && At(c, k, c.work[k].table);
          }
        }
      }
    }

    /** What a pass that confirms `done` of its tables adds to the track. */
    lemma {:induction false} WhatIsConsumed(c: Ctx, batch: int, pos: seq<nat>, done: set<nat>)
      requires AcyclicOk() && GatherSpec(c.work, batch, pos) && c == Context(c.work)
      ensures var after := track + IdsOf(c.work, done);
              && (forall t <- order :: Due(delta, track, t, batch) <= after || Due(delta, track, t, batch) !! after)
              && (forall d | d in after && d !in track :: d in delta && d in Due(delta, track, delta[d].table, batch))
              && (SomeLeft(c, done) <==> LeftOver(delta, order, batch, track, after))
    {
      var after := track + IdsOf(c.work, done);
      OrderedWork(c.work, batch, pos);
      BatchFromQueue(c.work, batch, pos);
      forall k: nat | k < |c.work|
        ensures ItemOk(c.work[k], batch) && c.work[k].table in order
        ensures if k in done then c.work[k].ids <= after else c.work[k].ids !! after
      {
        assert Placed(c.work[k], batch, pos[k], |order|);
        BatchesWholeOrNot(c, track, done, k);
      }
      forall t <- order ensures Due(delta, track, t, batch) == {} || exists k: nat :: k < |c.work| && c.work[k].table == t {
        if Queue(t) != {} { assert t in order[..|order|]; assert HasTable(c.work, t); }
      }
      forall d | d in after && d !in track ensures d in delta && d in Due(delta, track, delta[d].table, batch) {
        var k := InIdsOf(c.work, done, d);
        assert ItemOf(delta, track, c.work[k]);
      }
    }

    /** One acyclic pass with any batch: it reports exactly what it consumed, keeps the
        target consistent and every difference queued, and never halts. Each table's batch
        is consumed whole or not at all, nothing else is, and the pass is transient exactly
        when it left a batch over. If every queued row still exists it consumes something
        of what was queued; if the batch covers the queues, everything. */
    method DrainComponent(batch: nat) returns (total: nat, transient: bool, halted: bool)
      requires AcyclicOk() && BacklogOk() && batch >= 1
      modifies this
      ensures BacklogOk() && old(track) <= track && !halted
      ensures total == |track - old(track)| && track - old(track) <= delta.Keys
      ensures forall t <- order :: old(Due(delta, track, t, batch)) <= track || old(Due(delta, track, t, batch)) !! track
      ensures forall d | d in track && d !in old(track) :: d in old(Due(delta, track, delta[d].table, batch))
      ensures transient <==> LeftOver(delta, order, batch, old(track), track)
      ensures total == 0 && (!transient || old(NothingGone())) ==> delta.Keys <= track
      ensures old(Covered(track, batch)) ==> delta.Keys <= track && !transient
    {
      var work, _, pos := GatherWork(batch);
      if |work| == 0 {
        forall d | d in delta ensures d in track {
          assert d !in Queue(delta[d].table);
        }
        return 0, false, false;
      }
      ghost var before := track;
      ghost var c := Context(work);
      LegalWork(work, batch, pos);
      BatchFromQueue(work, batch, pos);
      AcyclicPassIsDeletes(c);
      WhatIsConsumed(c, batch, pos, Deletes(c).done);
      forall k: nat | k < |work| ensures !BadRow(c, k, rows) { NeverABadRow(work, k); }
      if NothingGone() {
        ghost var u := UpsertingWork(work, batch, pos);
        EveryPassProgresses(u);
      }
      if Covered(track, batch) {
        ghost var v := CoveringWork(work, batch, pos);
        AcyclicPassSucceeds(v);
      }
      total, transient, halted := DrainAcyclicSeq(work);
      PassKeepsSound(c);
      PassConsumes(c, delta, before);
      forall id | Differ(source, rows, id) ensures Pending(delta, track, id) {
        StillPending(c, delta, before, id);
      }
      if total == 0 && !transient { NothingLeft(before, track, batch); }
      if old(Covered(track, batch)) { CoveredEmpties(before, before, track, batch); }
    }

    /** A pass that consumed nothing and left nothing over found the queues empty. */
    lemma NothingLeft(before: set<DeltaId>, after: set<DeltaId>, batch: nat)
      requires CaptureOk() && batch >= 1 && before <= after && |after - before| == 0
      requires !LeftOver(delta, order, batch, before, after)
      ensures delta.Keys <= after
    {
      assert after == before + (after - before);
      forall d | d in delta ensures d in after {
        var t := delta[d].table;
        assert Due(delta, before, t, batch) <= before;
        assert Due(delta, before, t, batch) == {};
        if QueueOf(delta, before, t) != {} { SomeDue(delta, before, t, batch); }
        assert d !in QueueOf(delta, before, t);
      }
    }

    /** The i-th pass left a batch over. */
    ghost predicate PassLeft(tracks: seq<set<DeltaId>>, batch: int, i: int)
      requires 0 <= i < |tracks| - 1
    {
      LeftOver(delta, order, batch, tracks[i], tracks[i + 1])
    }

    /** The tracks between passes: each pass left a batch over, the last one unless `ok`. */
    ghost predicate Retried(tracks: seq<set<DeltaId>>, batch: int, ok: bool) {
      && |tracks| >= 2
      && (forall i | 0 <= i < |tracks| - 2 :: PassLeft(tracks, batch, i))
      && (ok <==> !PassLeft(tracks, batch, |tracks| - 2))
    }

    /** A covered pass that leaves nothing over empties the queues, also after others. */
    lemma CoveredEmpties(first: set<DeltaId>, before: set<DeltaId>, after: set<DeltaId>, batch: int)
      requires CaptureOk() && first <= before <= after && Covered(first, batch)
      requires !LeftOver(delta, order, batch, before, after)
      ensures delta.Keys <= after
    {
      forall d | d in delta && d !in before ensures d in after {
        var t := delta[d].table;
        FewerElements(QueueOf(delta, before, t), QueueOf(delta, first, t));
        AllDue(delta, before, t, batch);
        assert d in Due(delta, before, t, batch);
      }
    }

    lemma StaysCovered(before: set<DeltaId>, after: set<DeltaId>, batch: int)
      requires before <= after && Covered(before, batch)
      ensures Covered(after, batch)
    {
      forall t <- order ensures |QueueOf(delta, after, t)| <= batch {
        FewerElements(QueueOf(delta, after, t), QueueOf(delta, before, t));
      }
    }

    lemma RetryOnce(tracks: seq<set<DeltaId>>, after: set<DeltaId>, batch: int, ok: bool)
      requires |tracks| >= 2 ==> Retried(tracks, batch, false)
      requires |tracks| >= 1 && (ok <==> !LeftOver(delta, order, batch, tracks[|tracks| - 1], after))
      ensures Retried(tracks + [after], batch, ok)
    {
      var longer := tracks + [after];
      forall i | 0 <= i < |longer| - 2 ensures PassLeft(longer, batch, i) {
        assert longer[i] == tracks[i] && longer[i + 1] == tracks[i + 1];
        assert PassLeft(tracks, batch, i);
      }
    }

    /** One of the passes, with what has been recorded so far. */
    method RetryPass(batch: nat, ghost first: set<DeltaId>, ghost tracks: seq<set<DeltaId>>)
      returns (n: nat, transient: bool, halted: bool)
      requires AcyclicOk() && BacklogOk() && batch >= 1 && first <= track <= first + delta.Keys
      requires |tracks| >= 1 && tracks[|tracks| - 1] == track && (|tracks| >= 2 ==> Retried(tracks, batch, false))
      modifies this
      ensures BacklogOk() && first <= track <= first + delta.Keys && !halted
      ensures |track - first| == |old(track) - first| + n
      ensures Retried(tracks + [track], batch, !transient)
      ensures !transient && n == 0 ==> delta.Keys <= track
      ensures old(NothingGone()) ==> NothingGone() && (transient ==> n > 0)
      ensures old(Covered(track, batch)) ==> !transient && delta.Keys <= track
    {
      ghost var before := track;
      n, transient, halted := DrainComponent(batch);
      Additive(first, before, track);
      RetryOnce(tracks, track, batch, !transient);
      if delta.Keys <= track { NoneOver(before, track, batch); }
    }

    lemma NoneOver(before: set<DeltaId>, after: set<DeltaId>, batch: int)
      requires delta.Keys <= after
      ensures !LeftOver(delta, order, batch, before, after)
    {}

    /** Passes until one leaves no batch over, at most five. `ok` is false exactly when five
        passes were made and each left one over; then the component is reported halted,
        with every difference still queued. `tracks` is the track before the first pass and
        after each. A batch that covers the queues needs one pass. */
    method DrainRetrying(batch: nat) returns (total: nat, ok: bool, passes: nat, ghost tracks: seq<set<DeltaId>>)
      requires AcyclicOk() && BacklogOk() && batch >= 1
      modifies this
      ensures BacklogOk() && old(track) <= track
      ensures total == |track - old(track)| && track - old(track) <= delta.Keys
      ensures |tracks| == passes + 1 && tracks[0] == old(track) && tracks[passes] == track
      ensures 1 <= passes <= 5 && Retried(tracks, batch, ok) && (!ok ==> passes == 5)
      ensures ok && total == 0 ==> delta.Keys <= track
      ensures old(NothingGone()) && !ok ==> total >= 5
      ensures old(Covered(track, batch)) ==> ok && passes == 1 && delta.Keys <= track
    {
      total, passes, ok, tracks := 0, 0, false, [track];
      ghost var intact, covers := NothingGone(), Covered(track, batch);
      while passes < MAX_PASSES
        invariant passes <= MAX_PASSES
        invariant BacklogOk() && old(track) <= track <= old(track) + delta.Keys
        invariant total == |track - old(track)| && (intact ==> NothingGone() && total >= passes)
        invariant |tracks| == passes + 1 && tracks[0] == old(track) && tracks[passes] == track
        invariant |tracks| >= 2 ==> Retried(tracks, batch, false)
        invariant covers ==> passes == 0 && track == old(track)
      {
        var n, transient, halted := RetryPass(batch, old(track), tracks);
        total, passes, tracks := total + n, passes + 1, tracks + [track];
        if !transient { return total, !halted, passes, tracks; }
      }
    }

    /** A target whose queue is empty equals the source. */
    lemma EmptyMeansEqual()
      requires BacklogOk() && delta.Keys <= track
      ensures rows == source
    {
      forall id: RowId ensures Lookup(rows, id) == Lookup(source, id) {
        assert !Differ(source, rows, id);
      }
      SameLookup(rows, source);
    }

    /** Drains until nothing is queued or the component is reported halted. A halt's total
        leaves out what the halted call itself consumed, at least five deltas if every
        queued row still exists. */
    method DrainToConvergence(batch: nat) returns (total: nat, ok: bool, ghost missed: nat)
      requires AcyclicOk() && BacklogOk() && batch >= 1
      modifies this
      ensures BacklogOk() && old(track) <= track <= old(track) + delta.Keys
      ensures total + missed == |track - old(track)|
      ensures ok ==> rows == source && delta.Keys <= track && missed == 0
      ensures !ok && old(NothingGone()) ==> missed >= 5
      ensures old(Covered(track, batch)) ==> ok
    {
      total, missed := 0, 0;
      while true
        invariant BacklogOk() && old(track) <= track <= old(track) + delta.Keys && total == |track - old(track)|
        invariant missed == 0 && (old(NothingGone()) ==> NothingGone())
        invariant old(Covered(track, batch)) ==> Covered(track, batch)
        decreases |delta.Keys - track|
      {
        ghost var before := track;
        var n, drained, _, _ := DrainRetrying(batch);
        ok := drained;
        Additive(old(track), before, track);
        if old(Covered(track, batch)) { StaysCovered(before, track, batch); }
        if !ok {
          missed := n;
          return;
        }
        total := total + n;
        if n == 0 {
          EmptyMeansEqual();
          return;
        }
        Shrinks(delta.Keys, before, track);
      }
    }

    /** The streaming ticks of a quiet source: a reported halt is logged and the next tick
        drains on. The queues empty whatever the batch, every queued delta is consumed
        exactly once, and the target ends up equal to the source. */
    method DrainToEmpty(batch: nat) returns (total: nat)
      requires AcyclicOk() && BacklogOk() && NothingGone() && batch >= 1
      modifies this
      ensures rows == source
      ensures track == old(track) + delta.Keys
      ensures total == |delta.Keys - old(track)|
    {
      total := 0;
      var n := 1;
      while n != 0
        invariant BacklogOk() && NothingGone() && old(track) <= track <= old(track) + delta.Keys
        invariant total == |track - old(track)|
        invariant n == 0 ==> delta.Keys <= track
        decreases |delta.Keys - track|, n
      {
        ghost var before := track;
        var consumed, _, _, _ := DrainRetrying(batch);
        n := consumed;
        Additive(old(track), before, track);
        if n != 0 { Shrinks(delta.Keys, before, track); }
        total := total + n;
      }
      assert delta.Keys - old(track) == track - old(track);
      EmptyMeansEqual();
    }
  }
}
