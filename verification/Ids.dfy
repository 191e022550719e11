/** Sets of ids and their order: the smallest id, and ORDER BY id LIMIT n. */
module Ids {
  import opened Rows

  predicate Ascending(s: seq<DeltaId>) {
    forall i, j | 0 <= i < j < |s| :: s[i] < s[j]
  }

  function Elems<T>(s: seq<T>): set<T> {
    set x | x in s
  }

  lemma ElemsAppend<T>(s: seq<T>, x: T)
    ensures Elems(s + [x]) == Elems(s) + {x}
  {}

  ghost predicate Lowest(s: set<DeltaId>, m: DeltaId) {
    m in s && forall x <- s :: m <= x
  }

  lemma {:induction false} LeastExists(s: set<DeltaId>) returns (m: DeltaId)
    requires s != {}
    ensures Lowest(s, m)
  {
    var y :| y in s;
    var rest := s - {y};
    if rest == {} {
      m := y;
      assert s == {y};
    } else {
      var l := LeastExists(rest);
      m := if y < l then y else l;
      forall x <- s ensures m <= x {
        if x != y { assert x in rest; }
      }
    }
  }

  function Least(s: set<DeltaId>): (m: DeltaId)
    requires s != {}
    ensures m in s && forall x <- s :: m <= x
  {
    assert exists m :: Lowest(s, m) by { var m := LeastExists(s); }
    var m :| m in s && forall x <- s :: m <= x;
    m
  }

  /** ORDER BY delta_id LIMIT n. */
  function FirstIds(queue: set<DeltaId>, n: nat): seq<DeltaId> {
    if queue == {} || n == 0 then [] else [Least(queue)] + FirstIds(queue - {Least(queue)}, n - 1)
  }

  predicate Above(ids: seq<DeltaId>, d: DeltaId) {
    forall i | 0 <= i < |ids| :: ids[i] < d
  }

  lemma {:induction false} FirstIdsCount(queue: set<DeltaId>, n: nat)
    ensures |FirstIds(queue, n)| == if n < |queue| then n else |queue|
    ensures forall d <- FirstIds(queue, n) :: d in queue
  {
    if queue != {} && n != 0 {
      FirstIdsCount(queue - {Least(queue)}, n - 1);
    }
  }

  lemma {:induction false} FirstIdsSorted(queue: set<DeltaId>, n: nat)
    ensures Ascending(FirstIds(queue, n))
    ensures forall d | d in queue && d !in FirstIds(queue, n) :: Above(FirstIds(queue, n), d)
  {
    if queue != {} && n != 0 {
      var m, rest := Least(queue), queue - {Least(queue)};
      var tail := FirstIds(rest, n - 1);
      FirstIdsSorted(rest, n - 1);
      FirstIdsCount(rest, n - 1);
      assert forall i | 0 <= i < |tail| :: tail[i] in tail;
      forall d | d in queue && d !in [m] + tail ensures Above([m] + tail, d) {
        assert d in rest && d !in tail;
        assert Above(tail, d);
      }
    }
  }

  lemma {:induction false} AscendingCount(s: seq<DeltaId>)
    requires Ascending(s)
    ensures |Elems(s)| == |s|
  {
    if s != [] {
      var init, last := s[..|s| - 1], s[|s| - 1];
      AscendingCount(init);
      assert s == init + [last];
      ElemsAppend(init, last);
      assert last !in Elems(init);
    }
  }

  lemma SubsetOfSameSize(a: set<DeltaId>, b: set<DeltaId>)
    requires a <= b && |a| == |b|
    ensures a == b
  {
    assert |b - a| == |b| - |a|;
  }
}
