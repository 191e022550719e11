/** The active-active mesh as an interleaved protocol.

    Every node takes local writes; the capture trigger ticks the node's clock, stamps the
    version register of each touched key and enqueues the key. Every ordered pair of
    nodes runs drain passes: read the source's unconsumed deltas, re-read versions and
    values, apply them at the peer under the version guard and advance the peer's clock,
    then record the deltas as consumed. Passes of all edges and tables interleave with
    local writes and may be lost at any point. Applied changes are not captured again.

    `history` remembers every version ever issued and the content it stands for; no step
    reads it. `base` is the content all nodes started from. */
module Mesh {
  import opened Rows
  import opened Hlc
  import opened MeshApply
  import Drain

  type NodeId = nat

  datatype Issue = Issue(key: RowId, ver: Version)

  datatype Node = Node(clock: Clock, store: Store, delta: map<DeltaId, RowId>)

  datatype Edge = Edge(src: NodeId, dst: NodeId)

  datatype PassId = PassId(edge: Edge, table: Table)

  datatype Phase = Upserts | Deletes | Confirmable

  datatype Stage = Ready(phase: Phase) | Loaded(phase: Phase, stg: Staging)

  /** `atomic` passes run both phases in one transaction. */
  datatype Work = Work(keys: set<RowId>, ids: set<DeltaId>, atomic: bool, stage: Stage)

  datatype Mesh = Mesh(base: Database, nodes: map<NodeId, Node>, track: map<Edge, set<DeltaId>>,
                       pass: map<PassId, Work>, history: map<Issue, Option<Row>>)

  datatype Step =
    | LocalWrite(node: NodeId, change: Drain.Change, ids: seq<DeltaId>, now: int)
    | ReadDirty(pass: PassId, observed: set<DeltaId>, atomic: bool)
    | RereadVersions(pass: PassId)
    | Apply(pass: PassId, now: int, later: int)
    | Confirm(pass: PassId)
    | Lose(passes: set<PassId>)

  // ---------- edges ----------

  function FullMesh(nodes: set<NodeId>): set<Edge> {
    set a, b | a in nodes && b in nodes && a != b :: Edge(a, b)
  }

  /** The directed edges of a cluster: every ordered pair of distinct members, once. */
  method ClusterEdges(members: seq<NodeId>) returns (edges: seq<Edge>)
    requires forall i, j | 0 <= i < j < |members| :: members[i] != members[j]
    ensures forall e :: e in edges <==> e in FullMesh(set n | n in members)
    ensures forall i, j | 0 <= i < j < |edges| :: edges[i] != edges[j]
  {
    edges := [];
    for i := 0 to |members|
      invariant forall e :: e in edges <==> e.src in members[..i] && e.dst in members && e.src != e.dst
      invariant forall a, b | 0 <= a < b < |edges| :: edges[a] != edges[b]
    {
      ghost var outer := edges;
      for j := 0 to |members|
        invariant forall e :: e in edges <==> e in outer || (e.src == members[i] && e.dst in members[..j] && e.dst != e.src)
        invariant forall a, b | 0 <= a < b < |edges| :: edges[a] != edges[b]
      {
        assert members[..j + 1] == members[..j] + [members[j]];
        if i != j {
          edges := edges + [Edge(members[i], members[j])];
        }
      }
      assert members[..i + 1] == members[..i] + [members[i]];
      assert members[..|members|] == members;
    }
    assert members[..|members|] == members;
  }

  // ---------- steps ----------

  function Tracked(m: Mesh, e: Edge): set<DeltaId> {
    if e in m.track then m.track[e] else {}
  }

  /** The register entries a local change writes, all with the same fresh tick. */
  function Stamps(c: Drain.Change, ver: Version): Register {
    match c
    case Insert(id, _) => map[id := Stamp(ver, false)]
    case Update(from, id, _) =>
      if from != id then map[from := Stamp(ver, true), id := Stamp(ver, false)] else map[id := Stamp(ver, false)]
    case Delete(id) => map[id := Stamp(ver, true)]
  }

  function Ticked(n: Node, now: int, id: NodeId): Version {
    var c := Send(n.clock, now);
    Version(c.phys, c.log, id)
  }

  function Written(n: Node, c: Drain.Change, ver: Version, added: map<DeltaId, RowId>): Node {
    Node(When(ver), Store(Drain.ApplyChange(n.store.rows, c), n.store.reg + Stamps(c, ver)), n.delta + added)
  }

  /** The versions a local change issues, with the content each stands for. */
  function Issued(n: Node, c: Drain.Change, ver: Version): map<Issue, Option<Row>> {
    var rows := Drain.ApplyChange(n.store.rows, c);
    map k | k in Stamps(c, ver) :: Issue(k, ver) := Lookup(rows, k)
  }

  function AfterApply(w: Work): Phase {
    if w.stage.phase == Upserts && !w.atomic then Deletes else Confirmable
  }

  /** The peer after one apply transaction. */
  ghost function Applied(n: Node, w: Work, now: int, later: int): Node
    requires w.stage.Loaded?
  {
    var seen := ObserveAll(n.clock, w.stage.stg, now);
    if AfterApply(w) == Deletes then n.(store := ApplyAlive(n.store, w.stage.stg), clock := seen)
    else n.(store := ApplyAll(n.store, w.stage.stg), clock := ObserveAll(seen, w.stage.stg, later))
  }

  ghost predicate Next(m: Mesh, s: Step, m': Mesh) {
    match s
    case LocalWrite(id, c, ids, now) =>
      && id in m.nodes
      && |ids| == |Drain.Captured(c)|
      && (forall i, j | 0 <= i < j < |ids| :: ids[i] != ids[j])
      && (forall d <- ids :: d !in m.nodes[id].delta)
      && var n := m.nodes[id];
      && var ver := Ticked(n, now, id);
      && m' == m.(nodes := m.nodes[id := Written(n, c, ver, Drain.NewDeltas(ids, Drain.Captured(c)))],
                  history := m.history + Issued(n, c, ver))
    case ReadDirty(p, observed, atomic) =>
      && p !in m.pass && p.edge in FullMesh(m.nodes.Keys)
      && var n := m.nodes[p.edge.src];
      && (forall d <- observed :: d in n.delta && d !in Tracked(m, p.edge) && n.delta[d].table == p.table)
      && m' == m.(pass := m.pass[p := Work(set d <- observed :: n.delta[d], observed, atomic, Ready(Upserts))])
    case RereadVersions(p) =>
      && p in m.pass && p.edge.src in m.nodes
      && var w := m.pass[p];
      && w.stage.Ready? && w.stage.phase != Confirmable
      && m' == m.(pass := m.pass[p := w.(stage := Loaded(w.stage.phase, Reread(m.nodes[p.edge.src].store, w.keys)))])
    case Apply(p, now, later) =>
      && p in m.pass && p.edge.dst in m.nodes
      && var w := m.pass[p];
      && w.stage.Loaded?
      && m' == m.(nodes := m.nodes[p.edge.dst := Applied(m.nodes[p.edge.dst], w, now, later)],
                  pass := m.pass[p := w.(stage := Ready(AfterApply(w)))])
    case Confirm(p) =>
      && p in m.pass && m.pass[p].stage == Ready(Confirmable)
      && m' == m.(track := m.track[p.edge := Tracked(m, p.edge) + m.pass[p].ids], pass := m.pass - {p})
    case Lose(passes) => m' == m.(pass := m.pass - passes)
  }

  // ---------- the invariant ----------

  /** The node's register for k is at least v. */
  predicate Has(n: Node, k: RowId, v: Version) {
    k in n.store.reg && !Beats(v, n.store.reg[k].ver)
  }

  /** A registered key: its version was issued, is dated no later than the node's clock,
      and the node holds exactly the content that version stands for. A key without a
      register still has its initial content. */
  ghost predicate KeyOk(m: Mesh, id: NodeId, k: RowId)
    requires id in m.nodes
  {
    var n := m.nodes[id];
    if k in n.store.reg then
      && NotAfter(When(n.store.reg[k].ver), n.clock)
      && Issue(k, n.store.reg[k].ver) in m.history
      && m.history[Issue(k, n.store.reg[k].ver)] == Lookup(n.store.rows, k)
      && (n.store.reg[k].deleted <==> k !in n.store.rows)
    else Lookup(n.store.rows, k) == Lookup(m.base, k)
  }

  /** A version was issued no later than its node's clock reads now. */
  ghost predicate Dated(m: Mesh, i: Issue) {
    i.ver.node in m.nodes ==> NotAfter(When(i.ver), m.nodes[i.ver.node].clock)
  }

  /** An issued version has reached a node, or its key is still queued for it. */
  ghost predicate Reached(m: Mesh, i: Issue, id: NodeId)
    requires id in m.nodes
  {
    || Has(m.nodes[id], i.key, i.ver)
    || (i.ver.node in m.nodes && i.ver.node != id
        && Drain.Pending(m.nodes[i.ver.node].delta, Tracked(m, Edge(i.ver.node, id)), i.key))
  }

  ghost predicate TrackOk(m: Mesh, e: Edge) {
    e.src in m.nodes ==> Tracked(m, e) <= m.nodes[e.src].delta.Keys
  }

  /** A staged entry carries an issued version and the content it stands for. */
  ghost predicate EntryOk(m: Mesh, stg: Staging, k: RowId)
    requires k in stg
  {
    && Issue(k, stg[k].ver) in m.history
    && m.history[Issue(k, stg[k].ver)] == if stg[k].deleted then None else Some(stg[k].row)
  }

  /** What a pass holds of an issue of its source, short of changes queued after its read. */
  ghost predicate Covered(m: Mesh, p: PassId, i: Issue)
    requires p in m.pass && p.edge.src in m.nodes && p.edge.dst in m.nodes
  {
    var w := m.pass[p];
    || (match w.stage
        case Ready(phase) => phase == Confirmable ==> Has(m.nodes[p.edge.dst], i.key, i.ver)
        case Loaded(_, stg) => i.key in stg && !Beats(i.ver, stg[i.key].ver))
    || Drain.Pending(m.nodes[p.edge.src].delta, Tracked(m, p.edge) + w.ids, i.key)
  }

  ghost predicate PassShape(m: Mesh, p: PassId)
    requires p in m.pass
  {
    var w := m.pass[p];
    && p.edge.src in m.nodes && p.edge.dst in m.nodes && p.edge.src != p.edge.dst
    && (forall d <- w.ids ::
          d in m.nodes[p.edge.src].delta && m.nodes[p.edge.src].delta[d].table == p.table
          && m.nodes[p.edge.src].delta[d] in w.keys)
    && (forall k <- w.keys :: k.table == p.table)
    && (w.stage.Loaded? ==> w.stage.phase != Confirmable && forall k <- w.stage.stg :: EntryOk(m, w.stage.stg, k))
  }

  ghost predicate PassOk(m: Mesh, p: PassId)
    requires p in m.pass
  {
    && PassShape(m, p)
    && forall i | i in m.history && i.ver.node == p.edge.src && i.key in m.pass[p].keys :: Covered(m, p, i)
  }

  ghost predicate Inv(m: Mesh) {
    && (forall id, k: RowId | id in m.nodes :: KeyOk(m, id, k))
    && (forall i | i in m.history :: Dated(m, i))
    && (forall i, id | i in m.history && id in m.nodes :: Reached(m, i, id))
    && (forall e: Edge :: TrackOk(m, e))
    && (forall p | p in m.pass :: PassOk(m, p))
  }

  // ---------- local writes ----------

  /** A fresh tick beats every version the node's clock covers. */
  lemma TickBeats(n: Node, now: int, id: NodeId, v: Version)
    requires NotAfter(When(v), n.clock)
    ensures Beats(Ticked(n, now, id), v)
  {
    ClockAdvances(n.clock, n.clock, now);
  }

  lemma StampsFacts(c: Drain.Change, ver: Version, k: RowId)
    ensures k in Stamps(c, ver) <==> k in Drain.Captured(c)
    ensures k in Stamps(c, ver) ==> Stamps(c, ver)[k].ver == ver
  {}

  lemma StampsMatchRows(db: Database, c: Drain.Change, ver: Version, k: RowId)
    ensures if k in Stamps(c, ver) then
              Stamps(c, ver)[k].deleted <==> k !in Drain.ApplyChange(db, c)
            else Lookup(Drain.ApplyChange(db, c), k) == Lookup(db, k)
  {}

  /** A local write always wins its own register, so stamping needs no guard. */
  lemma LocalStampWins(m: Mesh, id: NodeId, now: int, k: RowId)
    requires Inv(m) && id in m.nodes && k in m.nodes[id].store.reg
    ensures Beats(Ticked(m.nodes[id], now, id), m.nodes[id].store.reg[k].ver)
  {
    assert KeyOk(m, id, k);
    TickBeats(m.nodes[id], now, id, m.nodes[id].store.reg[k].ver);
  }

  /** A fresh tick names a version no node has issued. */
  lemma TickIsNew(m: Mesh, id: NodeId, now: int, k: RowId)
    requires Inv(m) && id in m.nodes
    ensures Issue(k, Ticked(m.nodes[id], now, id)) !in m.history
  {
    var i := Issue(k, Ticked(m.nodes[id], now, id));
    if i in m.history {
      assert Dated(m, i);
      TickBeats(m.nodes[id], now, id, i.ver);
    }
  }

  // ---------- growth: what local writes and applies have in common ----------

  /** A reachable-looking state: all parts of the invariant hold. */
  type Sane = m: Mesh | Inv(m) witness Mesh(map[], map[], map[], map[], map[])

  ghost predicate DeltaGrown(a: map<DeltaId, RowId>, b: map<DeltaId, RowId>) {
    forall d | d in a :: d in b && b[d] == a[d]
  }

  /** Registers only grow, the clock only moves forward, deltas only accumulate. */
  ghost predicate Grown(a: Node, b: Node) {
    && NotAfter(a.clock, b.clock)
    && (forall k, v | Has(a, k, v) :: Has(b, k, v))
    && DeltaGrown(a.delta, b.delta)
  }

  ghost predicate MeshGrown(a: Mesh, b: Mesh) {
    && b.nodes.Keys == a.nodes.Keys && b.track == a.track && b.base == a.base
    && (forall id | id in a.nodes :: Grown(a.nodes[id], b.nodes[id]))
    && (forall i | i in a.history :: i in b.history && b.history[i] == a.history[i])
  }

  lemma PendingGrows(a: map<DeltaId, RowId>, b: map<DeltaId, RowId>, consumed: set<DeltaId>, k: RowId)
    requires DeltaGrown(a, b) && Drain.Pending(a, consumed, k)
    ensures Drain.Pending(b, consumed, k)
  {
    var d :| d in a && d !in consumed && a[d] == k;
    assert d in b && b[d] == k;
  }

  lemma GrowthKeepsIssue(m: Sane, m': Mesh, i: Issue)
    requires MeshGrown(m, m') && i in m.history
    ensures Dated(m', i)
    ensures forall id | id in m'.nodes :: Reached(m', i, id)
  {
    assert Dated(m, i);
    forall id | id in m'.nodes ensures Reached(m', i, id) {
      assert Reached(m, i, id);
      assert Grown(m.nodes[id], m'.nodes[id]);
      if !Has(m.nodes[id], i.key, i.ver) {
        assert Grown(m.nodes[i.ver.node], m'.nodes[i.ver.node]);
        PendingGrows(m.nodes[i.ver.node].delta, m'.nodes[i.ver.node].delta, Tracked(m, Edge(i.ver.node, id)), i.key);
      }
    }
    if i.ver.node in m'.nodes { assert Grown(m.nodes[i.ver.node], m'.nodes[i.ver.node]); }
  }

  lemma GrowthKeepsTrack(m: Sane, m': Mesh)
    requires MeshGrown(m, m')
    ensures forall e: Edge :: TrackOk(m', e)
  {
    forall e: Edge ensures TrackOk(m', e) {
      assert TrackOk(m, e);
      if e.src in m'.nodes { assert Grown(m.nodes[e.src], m'.nodes[e.src]); }
    }
  }

  lemma GrowthKeepsShape(m: Sane, m': Mesh, p: PassId)
    requires MeshGrown(m, m') && p in m.pass && p in m'.pass && m'.pass[p] == m.pass[p]
    ensures PassShape(m', p)
  {
    assert PassOk(m, p);
    var w := m.pass[p];
    assert Grown(m.nodes[p.edge.src], m'.nodes[p.edge.src]);
    if w.stage.Loaded? {
      forall k <- w.stage.stg ensures EntryOk(m', w.stage.stg, k) {
        assert EntryOk(m, w.stage.stg, k);
      }
    }
  }

  lemma GrowthKeepsCovered(m: Sane, m': Mesh, p: PassId, i: Issue)
    requires MeshGrown(m, m') && p in m.pass && p in m'.pass && m'.pass[p] == m.pass[p]
    requires i in m.history && i.ver.node == p.edge.src && i.key in m.pass[p].keys
    requires p.edge.src in m'.nodes && p.edge.dst in m'.nodes
    ensures Covered(m', p, i)
  {
    assert PassOk(m, p);
    assert Covered(m, p, i);
    assert Grown(m.nodes[p.edge.src], m'.nodes[p.edge.src]) && Grown(m.nodes[p.edge.dst], m'.nodes[p.edge.dst]);
    var seen := Tracked(m, p.edge) + m.pass[p].ids;
    if Drain.Pending(m.nodes[p.edge.src].delta, seen, i.key) {
      PendingGrows(m.nodes[p.edge.src].delta, m'.nodes[p.edge.src].delta, seen, i.key);
    }
  }

  // ---------- local writes, continued ----------

  /** Every stamped key is enqueued under an id nothing has consumed. */
  lemma WriteEnqueues(m: Mesh, s: Step, m': Mesh, k: RowId, consumed: set<DeltaId>)
    requires s.LocalWrite? && Next(m, s, m') && k in Drain.Captured(s.change)
    requires consumed <= m.nodes[s.node].delta.Keys
    ensures Drain.Pending(m'.nodes[s.node].delta, consumed, k)
  {
    var captured := Drain.Captured(s.change);
    Drain.NewDeltasCover(s.ids, captured);
    var j :| 0 <= j < |captured| && captured[j] == k;
    assert s.ids[j] in s.ids && m'.nodes[s.node].delta[s.ids[j]] == k;
  }

  lemma WriteGrowsNode(m: Sane, s: Step, m': Mesh)
    requires s.LocalWrite? && Next(m, s, m')
    ensures Grown(m.nodes[s.node], m'.nodes[s.node])
  {
    var n, n' := m.nodes[s.node], m'.nodes[s.node];
    Drain.NewDeltasCover(s.ids, Drain.Captured(s.change));
    ClockAdvances(n.clock, n.clock, s.now);
    forall k, v | Has(n, k, v) ensures Has(n', k, v) {
      LocalStampWins(m, s.node, s.now, k);
      StampsFacts(s.change, Ticked(n, s.now, s.node), k);
    }
  }

  lemma GrownRefl(n: Node)
    ensures Grown(n, n)
  {}

  lemma WriteGrows(m: Sane, s: Step, m': Mesh)
    requires s.LocalWrite? && Next(m, s, m')
    ensures MeshGrown(m, m')
  {
    WriteGrowsNode(m, s, m');
    forall id | id in m.nodes ensures Grown(m.nodes[id], m'.nodes[id]) {
      if id != s.node { GrownRefl(m.nodes[id]); }
    }
    forall i | i in m.history ensures i in m'.history && m'.history[i] == m.history[i] {
      TickIsNew(m, s.node, s.now, i.key);
    }
  }

  lemma WriteKeyOk(m: Sane, s: Step, m': Mesh, id: NodeId, k: RowId)
    requires s.LocalWrite? && Next(m, s, m') && id in m.nodes && MeshGrown(m, m')
    ensures KeyOk(m', id, k)
  {
    assert KeyOk(m, id, k);
    if id == s.node {
      var n := m.nodes[id];
      var ver := Ticked(n, s.now, id);
      StampsFacts(s.change, ver, k);
      StampsMatchRows(n.store.rows, s.change, ver, k);
      ClockAdvances(n.clock, n.clock, s.now);
      if k in Stamps(s.change, ver) {
        assert Issue(k, ver) in Issued(n, s.change, ver);
      }
    }
  }

  /** An issue of this very write: stamped here, queued for everyone else. */
  lemma NewIssueOk(m: Sane, s: Step, m': Mesh, i: Issue)
    requires s.LocalWrite? && Next(m, s, m') && i in m'.history && i !in m.history
    ensures i.ver == Ticked(m.nodes[s.node], s.now, s.node) && i.key in Drain.Captured(s.change)
    ensures Dated(m', i)
    ensures forall id | id in m'.nodes :: Reached(m', i, id)
  {
    var n := m.nodes[s.node];
    var ver := Ticked(n, s.now, s.node);
    assert i in Issued(n, s.change, ver);
    StampsFacts(s.change, ver, i.key);
    forall id | id in m'.nodes ensures Reached(m', i, id) {
      if id != s.node {
        assert TrackOk(m, Edge(s.node, id));
        WriteEnqueues(m, s, m', i.key, Tracked(m, Edge(s.node, id)));
      }
    }
  }

  lemma NewIssueCovered(m: Sane, s: Step, m': Mesh, p: PassId, i: Issue)
    requires s.LocalWrite? && Next(m, s, m') && i in m'.history && i !in m.history
    requires p in m'.pass && i.ver.node == p.edge.src && PassShape(m', p)
    ensures Covered(m', p, i)
  {
    NewIssueOk(m, s, m', i);
    assert PassOk(m, p) && TrackOk(m, p.edge);
    WriteEnqueues(m, s, m', i.key, Tracked(m, p.edge) + m.pass[p].ids);
  }

  lemma WriteKeepsInv(m: Sane, s: Step, m': Mesh)
    requires s.LocalWrite? && Next(m, s, m')
    ensures Inv(m')
  {
    WriteGrows(m, s, m');
    GrowthKeepsTrack(m, m');
    forall id, k: RowId | id in m'.nodes ensures KeyOk(m', id, k) { WriteKeyOk(m, s, m', id, k); }
    forall i | i in m'.history ensures Dated(m', i) && forall id | id in m'.nodes :: Reached(m', i, id) {
      if i in m.history { GrowthKeepsIssue(m, m', i); } else { NewIssueOk(m, s, m', i); }
    }
    forall p | p in m'.pass ensures PassOk(m', p) {
      GrowthKeepsShape(m, m', p);
      forall i | i in m'.history && i.ver.node == p.edge.src && i.key in m'.pass[p].keys ensures Covered(m', p, i) {
        if i in m.history { GrowthKeepsCovered(m, m', p, i); } else { NewIssueCovered(m, s, m', p, i); }
      }
    }
  }

  // ---------- applies ----------

  /** What an apply does to one key: the staged entry or the old one. */
  lemma AppliedAt(n: Node, w: Work, now: int, later: int, k: RowId)
    requires w.stage.Loaded?
    ensures var n' := Applied(n, w, now, later);
            var stg := w.stage.stg;
            if Wins(stg, n.store.reg, k) && (AfterApply(w) == Confirmable || !stg[k].deleted) then
              && Lookup(n'.store.reg, k) == Some(Stamp(stg[k].ver, stg[k].deleted))
              && Lookup(n'.store.rows, k) == if stg[k].deleted then None else Some(stg[k].row)
            else
              && Lookup(n'.store.reg, k) == Lookup(n.store.reg, k)
              && Lookup(n'.store.rows, k) == Lookup(n.store.rows, k)
  {
    if AfterApply(w) == Deletes {
      AliveAt(n.store, w.stage.stg, k);
    } else {
      ApplyAllAt(n.store, w.stage.stg, k);
    }
  }

  /** After a full apply the node has at least what was staged. */
  lemma AppliedHas(n: Node, w: Work, now: int, later: int, k: RowId, v: Version)
    requires w.stage.Loaded? && AfterApply(w) == Confirmable
    requires k in w.stage.stg && !Beats(v, w.stage.stg[k].ver)
    ensures Has(Applied(n, w, now, later), k, v)
  {
    AppliedAt(n, w, now, later, k);
  }

  lemma AppliedClock(n: Node, w: Work, now: int, later: int)
    requires w.stage.Loaded?
    ensures var n' := Applied(n, w, now, later);
            && NotAfter(n.clock, n'.clock) && n'.delta == n.delta
            && forall k <- w.stage.stg :: NotAfter(When(w.stage.stg[k].ver), n'.clock)
  {}

  lemma AppliedGrows(n: Node, w: Work, now: int, later: int)
    requires w.stage.Loaded?
    ensures Grown(n, Applied(n, w, now, later))
  {
    var n' := Applied(n, w, now, later);
    AppliedClock(n, w, now, later);
    forall k, v | Has(n, k, v) ensures Has(n', k, v) {
      AppliedAt(n, w, now, later, k);
    }
  }

  lemma ApplyGrows(m: Sane, s: Step, m': Mesh)
    requires s.Apply? && Next(m, s, m')
    ensures MeshGrown(m, m')
  {
    AppliedGrows(m.nodes[s.pass.edge.dst], m.pass[s.pass], s.now, s.later);
    forall id | id in m.nodes ensures Grown(m.nodes[id], m'.nodes[id]) {
      if id != s.pass.edge.dst { GrownRefl(m.nodes[id]); }
    }
  }

  lemma ApplyKeyOk(m: Sane, s: Step, m': Mesh, id: NodeId, k: RowId)
    requires s.Apply? && Next(m, s, m') && id in m.nodes
    ensures KeyOk(m', id, k)
  {
    assert KeyOk(m, id, k);
    if id == s.pass.edge.dst {
      var n, w := m.nodes[id], m.pass[s.pass];
      AppliedAt(n, w, s.now, s.later, k);
      AppliedClock(n, w, s.now, s.later);
      assert PassOk(m, s.pass);
      if k in w.stage.stg { assert EntryOk(m, w.stage.stg, k); }
    }
  }

  /** After the second phase the peer holds at least what was staged. */
  lemma ApplyCovers(m: Sane, s: Step, m': Mesh, i: Issue)
    requires s.Apply? && Next(m, s, m') && MeshGrown(m, m')
    requires i in m.history && i.ver.node == s.pass.edge.src && i.key in m.pass[s.pass].keys
    requires s.pass.edge.src in m.nodes
    ensures Covered(m', s.pass, i)
  {
    var p, w := s.pass, m.pass[s.pass];
    assert PassOk(m, p);
    assert Covered(m, p, i);
    if AfterApply(w) == Confirmable && i.key in w.stage.stg && !Beats(i.ver, w.stage.stg[i.key].ver) {
      AppliedHas(m.nodes[p.edge.dst], w, s.now, s.later, i.key, i.ver);
    }
  }

  lemma ApplyKeepsPass(m: Sane, s: Step, m': Mesh, p: PassId)
    requires s.Apply? && Next(m, s, m') && MeshGrown(m, m') && p in m'.pass
    ensures PassOk(m', p)
  {
    if p == s.pass {
      assert PassOk(m, p);
      forall i | i in m'.history && i.ver.node == p.edge.src && i.key in m'.pass[p].keys ensures Covered(m', p, i) {
        ApplyCovers(m, s, m', i);
      }
    } else {
      GrowthKeepsShape(m, m', p);
      forall i | i in m'.history && i.ver.node == p.edge.src && i.key in m'.pass[p].keys ensures Covered(m', p, i) {
        GrowthKeepsCovered(m, m', p, i);
      }
    }
  }

  lemma ApplyKeepsInv(m: Sane, s: Step, m': Mesh)
    requires s.Apply? && Next(m, s, m')
    ensures Inv(m')
  {
    ApplyGrows(m, s, m');
    GrowthKeepsTrack(m, m');
    forall id, k: RowId | id in m'.nodes ensures KeyOk(m', id, k) { ApplyKeyOk(m, s, m', id, k); }
    forall i | i in m'.history ensures Dated(m', i) && forall id | id in m'.nodes :: Reached(m', i, id) {
      GrowthKeepsIssue(m, m', i);
    }
    forall p | p in m'.pass ensures PassOk(m', p) { ApplyKeepsPass(m, s, m', p); }
  }

  // ---------- reads, confirms, losses ----------

  /** Steps that change passes only leave the rest of the invariant alone. */
  lemma OnlyPasses(m: Sane, m': Mesh)
    requires m' == m.(pass := m'.pass)
    requires forall p | p in m'.pass :: PassOk(m', p)
    ensures Inv(m')
  {
    forall id, k: RowId | id in m'.nodes ensures KeyOk(m', id, k) { assert KeyOk(m, id, k); }
    forall i | i in m'.history ensures Dated(m', i) { assert Dated(m, i); }
    forall i, id | i in m'.history && id in m'.nodes ensures Reached(m', i, id) { assert Reached(m, i, id); }
    forall e: Edge ensures TrackOk(m', e) { assert TrackOk(m, e); }
  }

  lemma SamePass(m: Sane, m': Mesh, p: PassId)
    requires m' == m.(pass := m'.pass) && p in m.pass && p in m'.pass && m'.pass[p] == m.pass[p]
    ensures PassOk(m', p)
  {
    assert PassOk(m, p);
    forall i | i in m'.history && i.ver.node == p.edge.src && i.key in m'.pass[p].keys ensures Covered(m', p, i) {
      assert Covered(m, p, i);
    }
    if m.pass[p].stage.Loaded? {
      forall k <- m.pass[p].stage.stg ensures EntryOk(m', m.pass[p].stage.stg, k) {
        assert EntryOk(m, m.pass[p].stage.stg, k);
      }
    }
  }

  /** The re-read sees at least every version its node has issued. */
  lemma RereadCovers(m: Sane, s: Step, m': Mesh)
    requires s.RereadVersions? && Next(m, s, m')
    ensures PassOk(m', s.pass)
  {
    var p, w := s.pass, m.pass[s.pass];
    assert PassOk(m, p);
    var stg := m'.pass[p].stage.stg;
    forall k <- stg ensures EntryOk(m', stg, k) { assert KeyOk(m, p.edge.src, k); }
    forall i | i in m'.history && i.ver.node == p.edge.src && i.key in m'.pass[p].keys ensures Covered(m', p, i) {
      assert Reached(m, i, p.edge.src);
    }
  }

  lemma PassStepKeepsInv(m: Sane, s: Step, m': Mesh)
    requires s.ReadDirty? || s.RereadVersions? || s.Lose?
    requires Next(m, s, m')
    ensures Inv(m')
  {
    forall p | p in m'.pass ensures PassOk(m', p) {
      if s.RereadVersions? && p == s.pass {
        RereadCovers(m, s, m');
      } else if s.ReadDirty? && p == s.pass {
        assert PassShape(m', p);
      } else {
        SamePass(m, m', p);
      }
    }
    OnlyPasses(m, m');
  }

  /** What a finished pass consumed has reached the peer, or is queued again. */
  lemma ConfirmReached(m: Sane, s: Step, m': Mesh, i: Issue, id: NodeId)
    requires s.Confirm? && Next(m, s, m') && i in m.history && id in m.nodes
    ensures Reached(m', i, id)
  {
    var p := s.pass;
    assert Reached(m, i, id) && PassOk(m, p);
    if !Has(m.nodes[id], i.key, i.ver) && p.edge == Edge(i.ver.node, id) {
      var delta := m.nodes[i.ver.node].delta;
      var d :| d in delta && d !in Tracked(m, p.edge) && delta[d] == i.key;
      if d in m.pass[p].ids {
        assert Covered(m, p, i);
      } else {
        assert d !in Tracked(m', p.edge);
      }
    }
  }

  /** Passes of other tables on the edge do not lose a queued change to the confirm. */
  lemma ConfirmKeepsPass(m: Sane, s: Step, m': Mesh, p: PassId)
    requires s.Confirm? && Next(m, s, m') && p in m'.pass
    ensures PassOk(m', p)
  {
    assert PassOk(m, p) && PassOk(m, s.pass);
    var w := m.pass[p];
    if w.stage.Loaded? {
      forall k <- w.stage.stg ensures EntryOk(m', w.stage.stg, k) { assert EntryOk(m, w.stage.stg, k); }
    }
    forall i | i in m'.history && i.ver.node == p.edge.src && i.key in w.keys ensures Covered(m', p, i) {
      assert Covered(m, p, i);
      var delta := m.nodes[p.edge.src].delta;
      if Drain.Pending(delta, Tracked(m, p.edge) + w.ids, i.key) {
        var d :| d in delta && d !in Tracked(m, p.edge) + w.ids && delta[d] == i.key;
        assert d !in Tracked(m', p.edge) + w.ids;
      }
    }
  }

  lemma ConfirmKeepsInv(m: Sane, s: Step, m': Mesh)
    requires s.Confirm? && Next(m, s, m')
    ensures Inv(m')
  {
    assert PassOk(m, s.pass);
    forall id, k: RowId | id in m'.nodes ensures KeyOk(m', id, k) { assert KeyOk(m, id, k); }
    forall i | i in m'.history ensures Dated(m', i) { assert Dated(m, i); }
    forall i, id | i in m'.history && id in m'.nodes ensures Reached(m', i, id) { ConfirmReached(m, s, m', i, id); }
    forall e: Edge ensures TrackOk(m', e) { assert TrackOk(m, e); }
    forall p | p in m'.pass ensures PassOk(m', p) { ConfirmKeepsPass(m, s, m', p); }
  }

  // ---------- whole runs ----------

  lemma StepKeepsInv(m: Sane, s: Step, m': Mesh)
    requires Next(m, s, m')
    ensures Inv(m')
  {
    match s
    case LocalWrite(_, _, _, _) => WriteKeepsInv(m, s, m');
    case Apply(_, _, _) => ApplyKeepsInv(m, s, m');
    case Confirm(_) => ConfirmKeepsInv(m, s, m');
    case ReadDirty(_, _, _) => PassStepKeepsInv(m, s, m');
    case RereadVersions(_) => PassStepKeepsInv(m, s, m');
    case Lose(_) => PassStepKeepsInv(m, s, m');
  }

  /** All nodes start from the same rows and registers, every registered version known to
      `history`, every clock at or past every version. Anything may already be queued. */
  ghost predicate Init(m: Mesh) {
    && m.track == map[] && m.pass == map[]
    && (forall id, k: RowId | id in m.nodes :: KeyOk(m, id, k))
    && (forall i, id | i in m.history && id in m.nodes ::
          Has(m.nodes[id], i.key, i.ver) && NotAfter(When(i.ver), m.nodes[id].clock))
  }

  ghost predicate Run(trace: seq<Mesh>, steps: seq<Step>) {
    && |trace| == |steps| + 1
    && Init(trace[0])
    && forall j | 0 <= j < |steps| :: Next(trace[j], steps[j], trace[j + 1])
  }

  lemma InitInv(m: Mesh)
    requires Init(m)
    ensures Inv(m)
  {
    forall i, id | i in m.history && id in m.nodes ensures Reached(m, i, id) {
      assert Has(m.nodes[id], i.key, i.ver);
    }
    forall i | i in m.history ensures Dated(m, i) {
      if i.ver.node in m.nodes { assert Has(m.nodes[i.ver.node], i.key, i.ver); }
    }
  }

  lemma {:induction false} RunKeepsInv(trace: seq<Mesh>, steps: seq<Step>)
    requires Run(trace, steps)
    ensures Inv(trace[|steps|])
  {
    if steps == [] {
      InitInv(trace[0]);
    } else {
      var n := |steps| - 1;
      assert Run(trace[..n + 1], steps[..n]);
      RunKeepsInv(trace[..n + 1], steps[..n]);
      StepKeepsInv(trace[n], steps[n], trace[n + 1]);
    }
  }

  /** Every version a node ever issued has reached each peer, or its key is still queued
      on the edge from its issuer. */
  lemma NoVersionIsLost(trace: seq<Mesh>, steps: seq<Step>, i: Issue, id: NodeId)
    requires Run(trace, steps)
    requires i in trace[|steps|].history && id in trace[|steps|].nodes
    ensures Reached(trace[|steps|], i, id)
  {
    RunKeepsInv(trace, steps);
  }

  /** Equal versions of a key stand for equal values and equal tombstone flags. */
  lemma EqualVersionsEqualContent(m: Mesh, a: NodeId, b: NodeId, k: RowId)
    requires Inv(m) && a in m.nodes && b in m.nodes
    requires k in m.nodes[a].store.reg && k in m.nodes[b].store.reg
    requires m.nodes[a].store.reg[k].ver == m.nodes[b].store.reg[k].ver
    ensures m.nodes[a].store.reg[k] == m.nodes[b].store.reg[k]
    ensures Lookup(m.nodes[a].store.rows, k) == Lookup(m.nodes[b].store.rows, k)
  {
    assert KeyOk(m, a, k) && KeyOk(m, b, k);
  }

  /** No register of any node ever goes back. */
  lemma RegistersGrow(m: Mesh, s: Step, m': Mesh, id: NodeId, k: RowId, v: Version)
    requires Inv(m) && Next(m, s, m') && id in m.nodes && Has(m.nodes[id], k, v)
    ensures id in m'.nodes && Has(m'.nodes[id], k, v)
  {
    if s.LocalWrite? {
      WriteGrows(m, s, m');
      assert Grown(m.nodes[id], m'.nodes[id]);
    } else if s.Apply? {
      ApplyGrows(m, s, m');
      assert Grown(m.nodes[id], m'.nodes[id]);
    }
  }

  ghost predicate Drained(m: Mesh, e: Edge) {
    e.src in m.nodes ==> m.nodes[e.src].delta.Keys <= Tracked(m, e)
  }

  /** With every queue empty, a node knows every issued version. */
  lemma DrainedKnowsAll(m: Sane, id: NodeId, i: Issue)
    requires id in m.nodes && i in m.history
    requires forall e <- FullMesh(m.nodes.Keys) :: Drained(m, e)
    ensures Has(m.nodes[id], i.key, i.ver)
  {
    assert Reached(m, i, id);
    var e := Edge(i.ver.node, id);
    assert e in FullMesh(m.nodes.Keys) ==> Drained(m, e);
  }

  lemma DrainedAgree(m: Sane, a: NodeId, b: NodeId, k: RowId)
    requires a in m.nodes && b in m.nodes
    requires forall e <- FullMesh(m.nodes.Keys) :: Drained(m, e)
    ensures Lookup(m.nodes[a].store.reg, k) == Lookup(m.nodes[b].store.reg, k)
    ensures Lookup(m.nodes[a].store.rows, k) == Lookup(m.nodes[b].store.rows, k)
  {
    assert KeyOk(m, a, k) && KeyOk(m, b, k);
    var ra, rb := m.nodes[a].store.reg, m.nodes[b].store.reg;
    if k in ra { DrainedKnowsAll(m, b, Issue(k, ra[k].ver)); }
    if k in rb { DrainedKnowsAll(m, a, Issue(k, rb[k].ver)); }
    if k in ra && k in rb { EqualVersionsEqualContent(m, a, b, k); }
  }

  /** Convergence: over any run, once every queue of the full mesh is empty, all nodes
      hold the same rows and the same registers. */
  lemma MeshConverges(trace: seq<Mesh>, steps: seq<Step>, a: NodeId, b: NodeId)
    requires Run(trace, steps)
    requires a in trace[|steps|].nodes && b in trace[|steps|].nodes
    requires forall e <- FullMesh(trace[|steps|].nodes.Keys) :: Drained(trace[|steps|], e)
    ensures trace[|steps|].nodes[a].store == trace[|steps|].nodes[b].store
  {
    RunKeepsInv(trace, steps);
    var m := trace[|steps|];
    forall k: RowId ensures
      && Lookup(m.nodes[a].store.reg, k) == Lookup(m.nodes[b].store.reg, k)
      && Lookup(m.nodes[a].store.rows, k) == Lookup(m.nodes[b].store.rows, k)
    {
      DrainedAgree(m, a, b, k);
    }
    SameStore(m.nodes[a].store, m.nodes[b].store);
  }
}
