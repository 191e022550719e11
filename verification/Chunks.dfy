/** Keyset chunk planning. Keys are modelled by their place in the table's key order, a
    real number; a static table is the ascending sequence of its keys' places.

    Postgres numbers the rows at or above the lower bound and keeps every Nth; MySQL
    walks from bound to bound with OFFSET N. Both give the same boundaries, and the
    half-open chunks built from them partition the keys. */
module Chunks {
  import opened Rows

  const DEFAULT_CHUNK_ROWS: nat := 100_000
  const MAX_CHUNKS: nat := 1_000_000

  /** [lo, hi), a missing bound being open. */
  datatype Chunk = Chunk(lo: Option<real>, hi: Option<real>)

  datatype Result<+T> = Ok(value: T) | TooManyChunks

  predicate AtLeast(lo: Option<real>, x: real) {
    lo.None? || lo.value <= x
  }

  predicate InChunk(c: Chunk, x: real) {
    AtLeast(c.lo, x) && (c.hi.None? || x < c.hi.value)
  }

  predicate Ascending(s: seq<real>) {
    forall i, j | 0 <= i < j < |s| :: s[i] < s[j]
  }

  function ChunkRows(targetRows: int): nat {
    if targetRows <= 0 then DEFAULT_CHUNK_ROWS else targetRows
  }

  /** The keys at or above a lower bound, in order. */
  function From(keys: seq<real>, lo: Option<real>): seq<real> {
    if keys == [] then [] else if AtLeast(lo, keys[0]) then keys else From(keys[1..], lo)
  }

  lemma {:induction false} FromFacts(keys: seq<real>, lo: Option<real>)
    requires Ascending(keys)
    ensures Ascending(From(keys, lo))
    ensures forall x :: x in From(keys, lo) <==> x in keys && AtLeast(lo, x)
  {
    if keys != [] && !AtLeast(lo, keys[0]) {
      FromFacts(keys[1..], lo);
      assert keys == [keys[0]] + keys[1..];
    }
  }

  /** Restarting at a key found n rows further drops exactly the n rows. */
  lemma {:induction false} FromNext(keys: seq<real>, lo: Option<real>, n: nat)
    requires Ascending(keys) && n < |From(keys, lo)|
    ensures From(keys, Some(From(keys, lo)[n])) == From(keys, lo)[n..]
  {
    if AtLeast(lo, keys[0]) {
      FromIndex(keys, n);
    } else {
      FromNext(keys[1..], lo, n);
      FromFacts(keys[1..], lo);
      assert From(keys, lo)[n] in From(keys[1..], lo);
      var i :| 0 <= i < |keys[1..]| && keys[1..][i] == From(keys, lo)[n];
      assert keys[0] < keys[i + 1];
    }
  }

  lemma {:induction false} FromIndex(keys: seq<real>, n: nat)
    requires Ascending(keys) && n < |keys|
    ensures From(keys, Some(keys[n])) == keys[n..]
  {
    if n > 0 { FromIndex(keys[1..], n - 1); }
  }

  /** Every nth row after the first. */
  function Strided(rows: seq<real>, n: nat): seq<real>
    requires n > 0
  {
    if |rows| <= n then [] else [rows[n]] + Strided(rows[n..], n)
  }

  lemma {:induction false} StrideAppend(rows: seq<real>, x: real, n: nat)
    requires n > 0
    ensures Strided(rows + [x], n) == Strided(rows, n) + if |rows| > 0 && |rows| % n == 0 then [x] else []
  {
    if |rows| > n {
      assert (rows + [x])[n..] == rows[n..] + [x];
      StrideAppend(rows[n..], x, n);
      ModDrop(|rows|, n);
    } else if |rows| == n {
      assert (rows + [x])[n..] == [x];
    } else if |rows| > 0 {
      ModSmall(|rows|, n);
    }
  }

  lemma MulAtLeast(k: int, n: nat)
    requires k >= 1
    ensures k * n >= n
  {
    assert (k - 1) * n >= 0;
  }

  lemma ModUnique(a: int, n: nat, q: int, r: nat)
    requires n > 0 && a == q * n + r && r < n
    ensures a % n == r
  {
    var p, s := a / n, a % n;
    assert a == p * n + s;
    if p > q {
      MulAtLeast(p - q, n);
    } else if p < q {
      MulAtLeast(q - p, n);
    }
  }

  lemma ModDrop(a: nat, n: nat)
    requires a >= n > 0
    ensures (a - n) % n == a % n
  {
    var q := a / n;
    assert a == q * n + a % n;
    assert (q - 1) * n == q * n - n;
    ModUnique(a - n, n, q - 1, a % n);
  }

  lemma ModSmall(a: nat, n: nat)
    requires 0 < a < n
    ensures a % n == a
  {
    ModUnique(a, n, 0, a);
  }

  // ---------- the two planners ----------

  /** row_number() over the rows, keeping those with (rn - 1) % n == 0 and rn > 1. */
  method PostgresBoundaries(keys: seq<real>, n: nat, lo: Option<real>) returns (out: seq<real>)
    requires n > 0
    ensures out == Strided(From(keys, lo), n)
  {
    var rows := From(keys, lo);
    out := [];
    for i := 0 to |rows|
      invariant out == Strided(rows[..i], n)
    {
      var rn := i + 1;
      assert rows[..i + 1] == rows[..i] + [rows[i]];
      StrideAppend(rows[..i], rows[i], n);
      if (rn - 1) % n == 0 && rn > 1 {
        out := out + [rows[i]];
      }
    }
    assert rows[..|rows|] == rows;
  }

  /** One query of the walk finds the next boundary of what is left. */
  lemma {:induction false} WalkStep(keys: seq<real>, cur: Option<real>, n: nat)
    requires n > 0 && Ascending(keys) && |From(keys, cur)| > n
    ensures var next := From(keys, cur)[n];
            && Strided(From(keys, cur), n) == [next] + Strided(From(keys, Some(next)), n)
            && |From(keys, Some(next))| < |From(keys, cur)|
  {
    FromNext(keys, cur, n);
  }

  /** ORDER BY key LIMIT 1 OFFSET n from the current bound, until no row is left there. */
  method MySqlBoundaries(keys: seq<real>, n: nat, lo: Option<real>) returns (r: Result<seq<real>>)
    requires n > 0 && Ascending(keys)
    ensures r == if |Strided(From(keys, lo), n)| > MAX_CHUNKS then TooManyChunks else Ok(Strided(From(keys, lo), n))
  {
    var boundaries: seq<real> := [];
    var cur := lo;
    ghost var all := Strided(From(keys, lo), n);
    while true
      invariant boundaries + Strided(From(keys, cur), n) == all && |boundaries| <= MAX_CHUNKS
      decreases |From(keys, cur)|
    {
      var rows := From(keys, cur);
      if |rows| <= n {
        assert boundaries == all;
        return Ok(boundaries);
      }
      WalkStep(keys, cur, n);
      boundaries := boundaries + [rows[n]];
      cur := Some(rows[n]);
      if |boundaries| > MAX_CHUNKS { return TooManyChunks; }
    }
  }

  // ---------- ranges ----------

  /** Contiguous chunks from `lo`, cut at the boundaries, open above. */
  function Ranges(lo: Option<real>, bs: seq<real>): seq<Chunk>
    decreases |bs|
  {
    if bs == [] then [Chunk(lo, None)] else [Chunk(lo, Some(bs[0]))] + Ranges(Some(bs[0]), bs[1..])
  }

  method PostgresRanges(start: Option<real>, boundaries: seq<real>) returns (out: seq<Chunk>)
    ensures out == Ranges(start, boundaries)
  {
    out := [];
    var prev := start;
    for i := 0 to |boundaries|
      invariant out + Ranges(prev, boundaries[i..]) == Ranges(start, boundaries)
    {
      var b := boundaries[i];
      assert boundaries[i..] == [b] + boundaries[i + 1..];
      assert out + Ranges(prev, boundaries[i..]) ==
             out + [Chunk(prev, Some(b))] + Ranges(Some(b), boundaries[i + 1..]);
      out := out + [Chunk(prev, Some(b))];
      prev := Some(b);
    }
    assert boundaries[|boundaries|..] == [];
    out := out + [Chunk(prev, None)];
  }

  method MySqlRanges(lo: Option<real>, boundaries: seq<real>) returns (chunks: seq<Chunk>)
    ensures chunks == Ranges(lo, boundaries)
  {
    var bounds := [lo] + seq(|boundaries|, i requires 0 <= i < |boundaries| => Some(boundaries[i]));
    chunks := [];
    for i := 0 to |bounds|
      invariant |chunks| == i
      invariant i < |bounds| ==> chunks + Ranges(bounds[i], boundaries[i..]) == Ranges(lo, boundaries)
      invariant i == |bounds| ==> chunks == Ranges(lo, boundaries)
    {
      var hi := None;
      if i + 1 < |bounds| {
        hi := bounds[i + 1];
        assert boundaries[i..] == [boundaries[i]] + boundaries[i + 1..];
        assert chunks + Ranges(bounds[i], boundaries[i..]) ==
               chunks + [Chunk(bounds[i], hi)] + Ranges(hi, boundaries[i + 1..]);
      } else {
        assert boundaries[i..] == [];
      }
      chunks := chunks + [Chunk(bounds[i], hi)];
    }
  }

  /** The plan: what both engines hand to the copy. */
  function Plan(keys: seq<real>, targetRows: int, lo: Option<real>): seq<Chunk> {
    Ranges(lo, Strided(From(keys, lo), ChunkRows(targetRows)))
  }

  method PostgresPlan(keys: seq<real>, targetRows: int, lo: Option<real>) returns (chunks: seq<Chunk>)
    ensures chunks == Plan(keys, targetRows, lo)
  {
    var boundaries := PostgresBoundaries(keys, ChunkRows(targetRows), lo);
    chunks := PostgresRanges(lo, boundaries);
  }

  /** The same plan, or an error exactly when it needs more boundaries than the limit. */
  method MySqlPlan(keys: seq<real>, targetRows: int, lo: Option<real>) returns (r: Result<seq<Chunk>>)
    requires Ascending(keys)
    ensures r == if |Plan(keys, targetRows, lo)| > 1_000_001 then TooManyChunks
                 else Ok(Plan(keys, targetRows, lo))
  {
    RangesCount(lo, Strided(From(keys, lo), ChunkRows(targetRows)));
    var b := MySqlBoundaries(keys, ChunkRows(targetRows), lo);
    if b.TooManyChunks? { return TooManyChunks; }
    var chunks := MySqlRanges(lo, b.value);
    return Ok(chunks);
  }

  lemma {:induction false} RangesCount(lo: Option<real>, bs: seq<real>)
    ensures |Ranges(lo, bs)| == |bs| + 1
    decreases |bs|
  {
    if bs != [] { RangesCount(Some(bs[0]), bs[1..]); }
  }

  // ---------- what a plan is good for ----------

  /** Boundaries rise and start at or above the lower bound. */
  predicate BoundsOk(lo: Option<real>, bs: seq<real>) {
    Ascending(bs) && forall b <- bs :: AtLeast(lo, b)
  }

  lemma {:induction false} StridedAboveFirst(rows: seq<real>, n: nat, b: real)
    requires n > 0 && Ascending(rows) && b in Strided(rows, n)
    ensures rows != [] && rows[0] < b && b in rows
  {
    if b != rows[n] {
      StridedAboveFirst(rows[n..], n, b);
      assert rows[0] < rows[n];
    }
  }

  lemma {:induction false} StridedRises(rows: seq<real>, n: nat)
    requires n > 0 && Ascending(rows)
    ensures Ascending(Strided(rows, n))
  {
    if |rows| > n {
      var tail := Strided(rows[n..], n);
      StridedRises(rows[n..], n);
      forall i | 0 <= i < |tail| ensures rows[n] < tail[i] {
        assert tail[i] in tail;
        StridedAboveFirst(rows[n..], n, tail[i]);
      }
    }
  }

  lemma {:induction false} StridedBounds(rows: seq<real>, n: nat, lo: Option<real>)
    requires n > 0 && Ascending(rows) && forall x <- rows :: AtLeast(lo, x)
    ensures BoundsOk(lo, Strided(rows, n))
    ensures |rows| > n ==> BoundsOk(Some(rows[n]), Strided(rows[n..], n))
  {
    StridedRises(rows, n);
    forall b <- Strided(rows, n) ensures AtLeast(lo, b) { StridedAboveFirst(rows, n, b); }
    if |rows| > n {
      StridedRises(rows[n..], n);
      forall b <- Strided(rows[n..], n) ensures AtLeast(Some(rows[n]), b) { StridedAboveFirst(rows[n..], n, b); }
    }
  }

  lemma {:induction false} PlanBounds(keys: seq<real>, targetRows: int, lo: Option<real>)
    requires Ascending(keys)
    ensures BoundsOk(lo, Strided(From(keys, lo), ChunkRows(targetRows)))
  {
    FromFacts(keys, lo);
    StridedBounds(From(keys, lo), ChunkRows(targetRows), lo);
  }

  predicate Holds(chunks: seq<Chunk>, i: int, x: real) {
    0 <= i < |chunks| && InChunk(chunks[i], x)
  }

  lemma {:induction false} SomeChunk(lo: Option<real>, bs: seq<real>, x: real) returns (i: nat)
    requires BoundsOk(lo, bs) && AtLeast(lo, x)
    ensures Holds(Ranges(lo, bs), i, x)
    decreases |bs|
  {
    i := 0;
    if bs != [] && x >= bs[0] {
      i := SomeChunk(Some(bs[0]), bs[1..], x);
      i := i + 1;
    }
  }

  lemma {:induction false} ChunkAbove(lo: Option<real>, bs: seq<real>, i: nat, x: real)
    requires BoundsOk(lo, bs) && Holds(Ranges(lo, bs), i, x)
    ensures AtLeast(lo, x)
    decreases |bs|
  {
    if i > 0 {
      ChunkAbove(Some(bs[0]), bs[1..], i - 1, x);
      assert bs[0] in bs;
    }
  }

  lemma {:induction false} OnlyChunk(lo: Option<real>, bs: seq<real>, i: nat, j: nat, x: real)
    requires BoundsOk(lo, bs) && Holds(Ranges(lo, bs), i, x) && Holds(Ranges(lo, bs), j, x)
    ensures i == j
    decreases |bs|
  {
    if i > 0 && j > 0 {
      OnlyChunk(Some(bs[0]), bs[1..], i - 1, j - 1, x);
    } else if i > 0 {
      ChunkAbove(Some(bs[0]), bs[1..], i - 1, x);
    } else if j > 0 {
      ChunkAbove(Some(bs[0]), bs[1..], j - 1, x);
    }
  }

  /** Every place at or above the lower bound, planned for or not, lies in exactly one
      chunk; nothing below it lies in any. */
  lemma {:induction false} ExactlyOneChunk(keys: seq<real>, targetRows: int, lo: Option<real>, x: real)
    requires Ascending(keys)
    ensures AtLeast(lo, x) <==> exists i :: Holds(Plan(keys, targetRows, lo), i, x)
    ensures forall i, j | Holds(Plan(keys, targetRows, lo), i, x) && Holds(Plan(keys, targetRows, lo), j, x) :: i == j
  {
    var bs := Strided(From(keys, lo), ChunkRows(targetRows));
    PlanBounds(keys, targetRows, lo);
    var r := Plan(keys, targetRows, lo);
    if AtLeast(lo, x) {
      var i := SomeChunk(lo, bs, x);
      assert Holds(r, i, x);
    }
    forall i | Holds(r, i, x) ensures AtLeast(lo, x) { ChunkAbove(lo, bs, i, x); }
    forall i, j | Holds(r, i, x) && Holds(r, j, x) ensures i == j { OnlyChunk(lo, bs, i, j, x); }
  }

  function CountIn(rows: seq<real>, c: Chunk): nat {
    if rows == [] then 0 else CountIn(rows[1..], c) + if InChunk(c, rows[0]) then 1 else 0
  }

  lemma {:induction false} CountSplit(a: seq<real>, b: seq<real>, c: Chunk)
    ensures CountIn(a + b, c) == CountIn(a, c) + CountIn(b, c)
  {
    if a == [] {
      assert a + b == b;
    } else {
      assert (a + b)[1..] == a[1..] + b;
      CountSplit(a[1..], b, c);
    }
  }

  lemma {:induction false} CountAll(rows: seq<real>, c: Chunk, inside: bool)
    requires forall x <- rows :: InChunk(c, x) == inside
    ensures CountIn(rows, c) == if inside then |rows| else 0
  {
    if rows != [] { CountAll(rows[1..], c, inside); }
  }

  lemma {:induction false} FirstChunkSize(rows: seq<real>, n: nat, lo: Option<real>)
    requires 0 < n < |rows| && Ascending(rows) && forall x <- rows :: AtLeast(lo, x)
    ensures CountIn(rows, Chunk(lo, Some(rows[n]))) == n
  {
    var head, tail, c := rows[..n], rows[n..], Chunk(lo, Some(rows[n]));
    assert rows == head + tail;
    CountSplit(head, tail, c);
    forall x <- head ensures InChunk(c, x) { assert x in rows; }
    CountAll(head, c, true);
    CountAll(tail, c, false);
  }

  lemma {:induction false} LaterChunkSize(rows: seq<real>, n: nat, j: nat)
    requires 0 < n < |rows| && Ascending(rows) && j < |Ranges(Some(rows[n]), Strided(rows[n..], n))|
    ensures var c := Ranges(Some(rows[n]), Strided(rows[n..], n))[j]; CountIn(rows, c) == CountIn(rows[n..], c)
  {
    var head, tail, bs := rows[..n], rows[n..], Strided(rows[n..], n);
    var c := Ranges(Some(rows[n]), bs)[j];
    assert rows == head + tail;
    CountSplit(head, tail, c);
    StridedBounds(rows, n, None);
    forall x <- head ensures !InChunk(c, x) {
      if InChunk(c, x) { ChunkAbove(Some(rows[n]), bs, j, x); }
    }
    CountAll(head, c, false);
  }

  /** Every chunk but the last holds exactly n of the planned rows; the last at most n. */
  lemma {:induction false} ChunkSizes(rows: seq<real>, n: nat, lo: Option<real>, j: nat)
    requires n > 0 && Ascending(rows) && forall x <- rows :: AtLeast(lo, x)
    requires j < |Ranges(lo, Strided(rows, n))|
    ensures var r := Ranges(lo, Strided(rows, n));
            if j < |r| - 1 then CountIn(rows, r[j]) == n else CountIn(rows, r[j]) <= n
    decreases |rows|
  {
    if |rows| <= n {
      CountAll(rows, Chunk(lo, None), true);
    } else if j == 0 {
      FirstChunkSize(rows, n, lo);
      RangesCount(lo, Strided(rows, n));
    } else {
      LaterChunkSize(rows, n, j - 1);
      ChunkSizes(rows[n..], n, Some(rows[n]), j - 1);
    }
  }

  lemma {:induction false} PlanSizes(keys: seq<real>, targetRows: int, lo: Option<real>, j: nat)
    requires Ascending(keys) && j < |Plan(keys, targetRows, lo)|
    ensures var r, n := Plan(keys, targetRows, lo), if targetRows > 0 then targetRows else 100_000;
            if j < |r| - 1 then CountIn(From(keys, lo), r[j]) == n else CountIn(From(keys, lo), r[j]) <= n
  {
    FromFacts(keys, lo);
    ChunkSizes(From(keys, lo), ChunkRows(targetRows), lo, j);
  }
}
