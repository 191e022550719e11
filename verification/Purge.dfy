/** Purging consumed deltas under a retention policy, for one table's queue.

    A delta is purgeable when as many of the given targets as there are have consumed it.
    Postgres groups the track table by delta id, MySQL counts per delta. Targets whose
    backlog breaks a cap are sacrificed: their track is reset and the purge no longer
    waits for them. */
module Purge {
  import opened Rows
  import opened Ids
  import Drain

  type Track = set<(TargetId, DeltaId)>

  /** Delta ids with the time each was captured. */
  type Deltas = map<DeltaId, nat>

  const PURGE_BATCH: nat := 10_000

  predicate NoDuplicates(targets: seq<TargetId>) {
    forall i, j | 0 <= i < j < |targets| :: targets[i] != targets[j]
  }

  /** The given targets that have consumed d; the track holds each pair once. */
  function Consumers(track: Track, targets: seq<TargetId>, d: DeltaId): set<TargetId> {
    set t | t in targets && (t, d) in track
  }

  /** What the purge means to test. */
  predicate ConsumedByAll(track: Track, targets: seq<TargetId>, d: DeltaId) {
    forall t <- targets :: (t, d) in track
  }

  lemma {:induction false} TargetCount(targets: seq<TargetId>)
    ensures |Elems(targets)| <= |targets|
    ensures |Elems(targets)| == |targets| <==> NoDuplicates(targets)
  {
    if targets != [] {
      var n := |targets| - 1;
      var init, last := targets[..n], targets[n];
      TargetCount(init);
      assert targets == init + [last];
      ElemsAppend(init, last);
      if last in init {
        var i :| 0 <= i < n && init[i] == last;
        assert targets[i] == targets[n];
      } else {
        assert forall i | 0 <= i < n :: targets[i] == init[i];
      }
    }
  }

  /** "Count equals size" is "consumed by every target" for a duplicate-free list; with a
      duplicate the count never reaches the size. */
  lemma {:induction false} CountMeansAll(track: Track, targets: seq<TargetId>, d: DeltaId)
    ensures |Consumers(track, targets, d)| == |targets| <==>
            NoDuplicates(targets) && ConsumedByAll(track, targets, d)
  {
    var c, all := Consumers(track, targets, d), Elems(targets);
    TargetCount(targets);
    assert c <= all;
    assert |all - c| == |all| - |c|;
    if |c| == |targets| {
      assert all - c == {};
      forall t <- targets ensures (t, d) in track { assert t in all; }
    }
    if ConsumedByAll(track, targets, d) { assert c == all; }
  }

  // ---------- the two forms of the purge query ----------

  /** MySQL: a correlated count per delta row. */
  function PurgeableCorrelated(delta: Deltas, track: Track, targets: seq<TargetId>): set<DeltaId> {
    if targets == [] then delta.Keys
    else set d | d in delta && |Consumers(track, targets, d)| == |targets|
  }

  /** Postgres: GROUP BY delta_id over the track rows of the targets, HAVING count = size,
      then a semijoin with the delta table. */
  function PurgeableGrouped(delta: Deltas, track: Track, targets: seq<TargetId>): set<DeltaId> {
    if targets == [] then delta.Keys
    else
      var groups := set r | r in track && r.0 in targets && |Consumers(track, targets, r.1)| == |targets| :: r.1;
      set d | d in delta && d in groups
  }

  lemma {:induction false} FormsAgree(delta: Deltas, track: Track, targets: seq<TargetId>)
    ensures PurgeableGrouped(delta, track, targets) == PurgeableCorrelated(delta, track, targets)
  {
    if targets != [] {
      forall d | d in delta && |Consumers(track, targets, d)| == |targets|
        ensures d in PurgeableGrouped(delta, track, targets)
      {
        var t :| t in Consumers(track, targets, d);
        assert (t, d) in track && (t, d).0 in targets;
      }
    }
  }

  lemma {:induction false} PurgeableMeansAll(delta: Deltas, track: Track, targets: seq<TargetId>, d: DeltaId)
    requires NoDuplicates(targets)
    ensures d in PurgeableCorrelated(delta, track, targets) <==> d in delta && ConsumedByAll(track, targets, d)
  {
    CountMeansAll(track, targets, d);
  }

  // ---------- retention ----------

  function Backlog(delta: Deltas, track: Track, t: TargetId): set<DeltaId> {
    set d | d in delta && (t, d) !in track
  }

  function Times(delta: Deltas, ids: set<DeltaId>): set<nat> {
    set d | d in ids && d in delta :: delta[d]
  }

  /** Age of the oldest unconsumed delta; zero without a backlog. */
  function OldestAge(delta: Deltas, track: Track, t: TargetId, now: int): int {
    var times := Times(delta, Backlog(delta, track, t));
    if times == {} then 0 else now - Least(times)
  }

  datatype Retention = Retention(maxAge: int, maxBytes: int)

  ghost predicate HasBacklog(delta: Deltas, track: Track, t: TargetId) {
    Backlog(delta, track, t) != {}
  }

  /** The first target in the list with the oldest unconsumed delta. */
  ghost predicate IsLaggard(delta: Deltas, track: Track, targets: seq<TargetId>, now: int, i: nat) {
    && i < |targets| && HasBacklog(delta, track, targets[i])
    && forall j | 0 <= j < |targets| && j != i && HasBacklog(delta, track, targets[j]) ::
         var a, b := OldestAge(delta, track, targets[j], now), OldestAge(delta, track, targets[i], now);
         a < b || (a == b && i < j)
  }

  // ---------- the caps, on the deltas and their capture times ----------

  predicate Unconsumed(delta: Deltas, track: Track, t: TargetId, d: DeltaId) {
    d in delta && (t, d) !in track
  }

  /** The target has yet to consume a delta older than the cap. */
  ghost predicate Overdue(delta: Deltas, track: Track, t: TargetId, cap: int, now: int) {
    exists d :: Unconsumed(delta, track, t, d) && now - delta[d] > cap
  }

  /** No given target has yet to consume an older delta than d. */
  ghost predicate Oldest(delta: Deltas, track: Track, targets: seq<TargetId>, d: DeltaId)
    requires d in delta
  {
    forall u, e | u in targets && Unconsumed(delta, track, u, e) :: delta[d] <= delta[e]
  }

  /** The target has yet to consume a delta as old as any given target has. */
  ghost predicate Pins(delta: Deltas, track: Track, targets: seq<TargetId>, t: TargetId) {
    exists d :: Unconsumed(delta, track, t, d) && Oldest(delta, track, targets, d)
  }

  ghost predicate FirstToPin(delta: Deltas, track: Track, targets: seq<TargetId>, i: nat) {
    && i < |targets| && Pins(delta, track, targets, targets[i])
    && forall j | 0 <= j < i :: !Pins(delta, track, targets, targets[j])
  }

  /** The targets a retention policy gives up: those with an overdue delta under an age
      cap, and the first to pin the queue when the table is over a size cap. */
  ghost predicate GivenUp(delta: Deltas, track: Track, targets: seq<TargetId>, ret: Retention, totalBytes: int, now: int, t: TargetId) {
    || (ret.maxAge > 0 && t in targets && Overdue(delta, track, t, ret.maxAge, now))
    || (ret.maxBytes > 0 && totalBytes > ret.maxBytes && exists i: nat :: FirstToPin(delta, track, targets, i) && targets[i] == t)
  }

  lemma {:induction false} OldestAgeOf(delta: Deltas, track: Track, t: TargetId, now: int) returns (d: DeltaId)
    requires HasBacklog(delta, track, t)
    ensures Unconsumed(delta, track, t, d) && OldestAge(delta, track, t, now) == now - delta[d]
    ensures forall e | Unconsumed(delta, track, t, e) :: delta[d] <= delta[e]
  {
    var times := Times(delta, Backlog(delta, track, t));
    var b :| b in Backlog(delta, track, t);
    assert delta[b] in times;
    var least := Least(times);
    d :| d in Backlog(delta, track, t) && d in delta && delta[d] == least;
    forall e | Unconsumed(delta, track, t, e) ensures delta[d] <= delta[e] {
      assert e in Backlog(delta, track, t);
      assert delta[e] in times;
      assert least <= delta[e];
    }
  }

  lemma OverdueMeans(delta: Deltas, track: Track, t: TargetId, cap: int, now: int)
    ensures Overdue(delta, track, t, cap, now) <==> HasBacklog(delta, track, t) && OldestAge(delta, track, t, now) > cap
  {
    if HasBacklog(delta, track, t) {
      var d := OldestAgeOf(delta, track, t, now);
    }
    assert forall d :: Unconsumed(delta, track, t, d) <==> d in Backlog(delta, track, t);
  }

  lemma PinsMeans(delta: Deltas, track: Track, targets: seq<TargetId>, t: TargetId, now: int)
    requires t in targets
    ensures Pins(delta, track, targets, t) <==>
            && HasBacklog(delta, track, t)
            && forall u | u in targets && HasBacklog(delta, track, u) ::
                 OldestAge(delta, track, u, now) <= OldestAge(delta, track, t, now)
  {
    assert forall u, d :: Unconsumed(delta, track, u, d) <==> d in Backlog(delta, track, u);
    if HasBacklog(delta, track, t) {
      var o := OldestAgeOf(delta, track, t, now);
      forall u | u in targets && HasBacklog(delta, track, u)
        ensures Pins(delta, track, targets, t) ==> OldestAge(delta, track, u, now) <= OldestAge(delta, track, t, now)
      {
        var e := OldestAgeOf(delta, track, u, now);
      }
      forall u, e | u in targets && Unconsumed(delta, track, u, e)
        ensures HasBacklog(delta, track, u) && now - delta[e] <= OldestAge(delta, track, u, now)
      {
        var m := OldestAgeOf(delta, track, u, now);
      }
    }
  }

  lemma FirstToPinMeans(delta: Deltas, track: Track, targets: seq<TargetId>, now: int, i: nat)
    ensures FirstToPin(delta, track, targets, i) <==> IsLaggard(delta, track, targets, now, i)
  {
    forall j | 0 <= j < |targets|
      ensures Pins(delta, track, targets, targets[j]) <==>
              && HasBacklog(delta, track, targets[j])
              && forall u | u in targets && HasBacklog(delta, track, u) ::
                   OldestAge(delta, track, u, now) <= OldestAge(delta, track, targets[j], now)
    {
      PinsMeans(delta, track, targets, targets[j], now);
    }
  }

  class Queue {
    var delta: Deltas
    var track: Track

    constructor (delta: Deltas, track: Track)
      ensures this.delta == delta && this.track == track
    {
      this.delta, this.track := delta, track;
    }

    /** The targets over a cap. */
    method OverCapTargets(targets: seq<TargetId>, ret: Retention, totalBytes: int, now: int) returns (over: set<TargetId>)
      ensures forall t :: t in over <==> GivenUp(delta, track, targets, ret, totalBytes, now, t)
    {
      over := {};
      if ret.maxAge <= 0 && ret.maxBytes <= 0 { return; }
      if ret.maxAge > 0 { over := OverAge(targets, ret.maxAge, now); }
      if ret.maxBytes > 0 && totalBytes > ret.maxBytes {
        var found, i := Laggard(targets, now);
        if found {
          assert forall j: nat :: IsLaggard(delta, track, targets, now, j) ==> j == i;
          over := over + {targets[i]};
        }
        forall j: nat { FirstToPinMeans(delta, track, targets, now, j); }
      }
    }

    method OverAge(targets: seq<TargetId>, cap: int, now: int) returns (over: set<TargetId>)
      ensures forall t :: t in over <==> t in targets && Overdue(delta, track, t, cap, now)
    {
      over := {};
      for i := 0 to |targets|
        invariant forall t :: t in over <==> t in targets[..i] && Overdue(delta, track, t, cap, now)
      {
        assert targets[..i + 1] == targets[..i] + [targets[i]];
        OverdueMeans(delta, track, targets[i], cap, now);
        if Backlog(delta, track, targets[i]) != {} && OldestAge(delta, track, targets[i], now) > cap {
          over := over + {targets[i]};
        }
      }
      assert targets[..|targets|] == targets;
    }

    /** The scan for the laggard. */
    method Laggard(targets: seq<TargetId>, now: int) returns (found: bool, at: nat)
      ensures found <==> exists t <- targets :: HasBacklog(delta, track, t)
      ensures found ==> IsLaggard(delta, track, targets, now, at)
      ensures !found ==> forall i: nat :: !IsLaggard(delta, track, targets, now, i)
    {
      found, at := false, 0;
      var oldest := 0;
      for i := 0 to |targets|
        invariant found <==> exists t <- targets[..i] :: HasBacklog(delta, track, t)
        invariant found ==> IsLaggard(delta, track, targets[..i], now, at) && oldest == OldestAge(delta, track, targets[at], now)
      {
        ghost var before := targets[..i];
        assert targets[..i + 1] == before + [targets[i]];
        assert HasBacklog(delta, track, targets[i]) ==> targets[i] in targets[..i + 1];
        if Backlog(delta, track, targets[i]) != {} && (!found || OldestAge(delta, track, targets[i], now) > oldest) {
          found, at, oldest := true, i, OldestAge(delta, track, targets[i], now);
        }
      }
      assert targets[..|targets|] == targets;
    }

    /** One DELETE of at most `batch` purgeable rows, smallest ids first. */
    method DeleteBatch(targets: seq<TargetId>, batch: nat) returns (n: nat)
      modifies this`delta
      ensures var v := Victims(old(delta), track, targets, batch); delta == old(delta) - v && n == |v|
    {
      FormsAgree(delta, track, targets);
      var v := Elems(FirstIds(PurgeableGrouped(delta, track, targets), batch));
      delta := delta - v;
      n := |v|;
    }

    /** The batched delete loop: all purgeable deltas go, and only those. */
    method PurgeConsumedBy(targets: seq<TargetId>, batch: nat) returns (total: nat)
      requires batch > 0
      modifies this`delta
      ensures delta == old(delta) - PurgeableCorrelated(old(delta), track, targets)
      ensures total == |PurgeableCorrelated(old(delta), track, targets)|
    {
      total := 0;
      ghost var all := PurgeableCorrelated(delta, track, targets);
      ghost var gone: set<DeltaId> := {};
      while true
        invariant Purged(old(delta), delta, track, targets, all, gone) && total == |gone|
        decreases |all - gone|
      {
        ghost var v := Victims(delta, track, targets, batch);
        OneBatch(old(delta), delta, track, targets, all, gone, batch);
        var n := DeleteBatch(targets, batch);
        gone := gone + v;
        total := total + n;
        if n < batch { return; }
      }
    }
  }

  function Victims(delta: Deltas, track: Track, targets: seq<TargetId>, batch: nat): set<DeltaId> {
    Elems(FirstIds(PurgeableCorrelated(delta, track, targets), batch))
  }

  /** `gone` has been removed so far; the rest of `all` is still purgeable. */
  ghost predicate Purged(start: Deltas, delta: Deltas, track: Track, targets: seq<TargetId>,
                         all: set<DeltaId>, gone: set<DeltaId>) {
    && gone <= all && delta == start - gone
    && PurgeableCorrelated(delta, track, targets) == all - gone
  }

  lemma {:induction false} BatchFacts(purgeable: set<DeltaId>, batch: nat)
    ensures var v := Elems(FirstIds(purgeable, batch));
            && v <= purgeable && |v| == (if batch < |purgeable| then batch else |purgeable|)
            && (|v| < batch ==> v == purgeable)
  {
    FirstIdsCount(purgeable, batch);
    FirstIdsSorted(purgeable, batch);
    AscendingCount(FirstIds(purgeable, batch));
    var v := Elems(FirstIds(purgeable, batch));
    if |v| == |purgeable| { SubsetOfSameSize(v, purgeable); }
  }

  lemma {:induction false} RemoveSome(start: Deltas, delta: Deltas, track: Track, targets: seq<TargetId>,
                                      all: set<DeltaId>, gone: set<DeltaId>, v: set<DeltaId>)
    requires Purged(start, delta, track, targets, all, gone) && v <= all - gone
    ensures Purged(start, delta - v, track, targets, all, gone + v)
  {
    assert delta - v == start - (gone + v);
    PurgeableShrinks(delta, track, targets, v);
    assert all - gone - v == all - (gone + v);
  }

  lemma PurgeableShrinks(delta: Deltas, track: Track, targets: seq<TargetId>, v: set<DeltaId>)
    ensures PurgeableCorrelated(delta - v, track, targets) == PurgeableCorrelated(delta, track, targets) - v
  {
    assert forall d :: d in delta - v <==> d in delta && d !in v;
  }

  lemma CountSome(all: set<DeltaId>, gone: set<DeltaId>, v: set<DeltaId>)
    requires gone <= all && v <= all - gone
    ensures |gone + v| == |gone| + |v| && |all - (gone + v)| == |all - gone| - |v|
    ensures v == all - gone ==> gone + v == all
  {
    assert all - gone == (all - (gone + v)) + v;
  }

  lemma {:induction false} OneBatch(start: Deltas, delta: Deltas, track: Track, targets: seq<TargetId>,
                                    all: set<DeltaId>, gone: set<DeltaId>, batch: nat)
    requires batch > 0 && Purged(start, delta, track, targets, all, gone)
    ensures var v := Victims(delta, track, targets, batch);
            && Purged(start, delta - v, track, targets, all, gone + v)
            && |gone + v| == |gone| + |v|
            && (|v| < batch ==> gone + v == all)
            && (|v| >= batch ==> |all - (gone + v)| < |all - gone|)
  {
    var v := Victims(delta, track, targets, batch);
    BatchFacts(all - gone, batch);
    RemoveSome(start, delta, track, targets, all, gone, v);
    CountSome(all, gone, v);
  }

  // ---------- the purge as a whole ----------

  /** The targets not in `remove`, in order. */
  method SubtractTargets(targets: seq<TargetId>, remove: set<TargetId>) returns (out: seq<TargetId>)
    ensures forall t :: t in out <==> t in targets && t !in remove
    ensures NoDuplicates(targets) ==> NoDuplicates(out)
  {
    out := [];
    for i := 0 to |targets|
      invariant forall t :: t in out <==> t in targets[..i] && t !in remove
      invariant NoDuplicates(targets) ==> NoDuplicates(out)
    {
      assert targets[..i + 1] == targets[..i] + [targets[i]];
      if targets[i] !in remove { out := out + [targets[i]]; }
    }
    assert targets[..|targets|] == targets;
  }

  function ResetTrack(track: Track, over: set<TargetId>): Track {
    set r | r in track && r.0 !in over
  }

  /** A target the purge waits for loses no delta it has not consumed. */
  lemma {:induction false} BacklogSurvives(delta: Deltas, track: Track, gate: seq<TargetId>, t: TargetId)
    requires NoDuplicates(gate) && t in gate
    ensures Backlog(delta - PurgeableCorrelated(delta, track, gate), track, t) == Backlog(delta, track, t)
  {
    var purged := PurgeableCorrelated(delta, track, gate);
    forall d | d in Backlog(delta, track, t) ensures d !in purged {
      PurgeableMeansAll(delta, track, gate, d);
    }
  }

  /** Removing the purgeable deltas is a purge step of the drain protocol, gated on the
      targets the purge was given. */
  lemma {:induction false} PurgeIsGated(w: Drain.World, delta: Deltas, track: Track, gate: seq<TargetId>)
    requires NoDuplicates(gate)
    requires forall t, d | t in gate && t in w.sides && (t, d) in track :: d in w.sides[t].track
    ensures var purged := PurgeableCorrelated(delta, track, gate);
            Drain.Next(Elems(gate), w, Drain.Purge(purged), w.(delta := w.delta - purged))
  {
    var purged := PurgeableCorrelated(delta, track, gate);
    forall d <- purged, t <- Elems(gate) ensures t in w.sides ==> d in w.sides[t].track {
      PurgeableMeansAll(delta, track, gate, d);
    }
  }

  lemma GivenUpHasBacklog(delta: Deltas, track: Track, targets: seq<TargetId>, ret: Retention, totalBytes: int, now: int, t: TargetId)
    requires GivenUp(delta, track, targets, ret, totalBytes, now, t)
    ensures t in targets && HasBacklog(delta, track, t)
  {
    var d :| Unconsumed(delta, track, t, d);
    assert d in Backlog(delta, track, t);
  }

  /** Purge with retention: the targets given up are exactly those over a cap, and they
      start over with an empty track; every other given target keeps its whole backlog;
      what goes is exactly what all of those have consumed. */
  method PurgeTable(q: Queue, targets: seq<TargetId>, ret: Retention, totalBytes: int, now: int)
    returns (purged: nat, reseeded: set<TargetId>)
    requires NoDuplicates(targets)
    modifies q
    ensures forall t :: t in reseeded <==> GivenUp(old(q.delta), old(q.track), targets, ret, totalBytes, now, t)
    ensures forall t <- reseeded :: t in targets && HasBacklog(old(q.delta), old(q.track), t)
    ensures forall t, d :: (t, d) in q.track <==> (t, d) in old(q.track) && t !in reseeded
    ensures forall d :: d in q.delta <==>
              d in old(q.delta) && !forall t | t in targets && t !in reseeded :: (t, d) in old(q.track)
    ensures forall d | d in q.delta :: q.delta[d] == old(q.delta)[d]
    ensures purged == |old(q.delta).Keys - q.delta.Keys|
    ensures forall t | t in targets && t !in reseeded ::
              Backlog(q.delta, q.track, t) == Backlog(old(q.delta), old(q.track), t)
  {
    reseeded := q.OverCapTargets(targets, ret, totalBytes, now);
    forall t <- reseeded ensures t in targets && HasBacklog(q.delta, q.track, t) {
      GivenUpHasBacklog(q.delta, q.track, targets, ret, totalBytes, now, t);
    }
    var remaining := targets;
    if reseeded != {} {
      q.track := ResetTrack(q.track, reseeded);
      remaining := SubtractTargets(targets, reseeded);
    } else {
      assert ResetTrack(q.track, {}) == q.track;
    }
    purged := q.PurgeConsumedBy(remaining, PURGE_BATCH);
    PurgeOutcome(old(q.delta), old(q.track), targets, reseeded, remaining, q.delta);
  }

  lemma {:induction false} PurgeOutcome(delta: Deltas, track: Track, targets: seq<TargetId>, reseeded: set<TargetId>,
                                        remaining: seq<TargetId>, delta': Deltas)
    requires NoDuplicates(remaining) && forall t :: t in remaining <==> t in targets && t !in reseeded
    requires delta' == delta - PurgeableCorrelated(delta, ResetTrack(track, reseeded), remaining)
    ensures forall d :: d in delta' <==>
              d in delta && !forall t | t in targets && t !in reseeded :: (t, d) in track
    ensures PurgeableCorrelated(delta, ResetTrack(track, reseeded), remaining) == delta.Keys - delta'.Keys
    ensures forall t | t in targets && t !in reseeded ::
              Backlog(delta', ResetTrack(track, reseeded), t) == Backlog(delta, track, t)
  {
    var track' := ResetTrack(track, reseeded);
    forall d ensures d in delta' <==> d in delta && !forall t | t in targets && t !in reseeded :: (t, d) in track {
      PurgeableMeansAll(delta, track', remaining, d);
      ResetKeepsOthers(track, targets, reseeded, remaining, d);
    }
    forall t | t in targets && t !in reseeded
      ensures Backlog(delta', track', t) == Backlog(delta, track, t)
    {
      BacklogSurvives(delta, track', remaining, t);
      assert forall d :: (t, d) in track' <==> (t, d) in track;
    }
  }

  lemma ResetKeepsOthers(track: Track, targets: seq<TargetId>, reseeded: set<TargetId>, remaining: seq<TargetId>, d: DeltaId)
    requires forall t :: t in remaining <==> t in targets && t !in reseeded
    ensures ConsumedByAll(ResetTrack(track, reseeded), remaining, d) <==>
            forall t | t in targets && t !in reseeded :: (t, d) in track
  {
    var track' := ResetTrack(track, reseeded);
    if ConsumedByAll(track', remaining, d) {
      forall t | t in targets && t !in reseeded ensures (t, d) in track { assert t in remaining; }
    }
    if forall t | t in targets && t !in reseeded :: (t, d) in track {
      forall t <- remaining ensures (t, d) in track' { assert t in targets && t !in reseeded; }
    }
  }
}
