/** What the mesh ends up with: once its queues are empty every node holds, for each key, the
    content of the latest write to it anywhere; and from every state the queues can empty. */
module MeshEnds {
  import opened Rows
  import opened Hlc
  import opened MeshApply
  import opened Mesh
  import Drain

  // ---------- history is the writes ----------

  /** The j-th step is a local write that touches the key and stamps it with the version. */
  ghost predicate Wrote(trace: seq<Mesh>, steps: seq<Step>, j: nat, i: Issue) {
    && j < |steps| && j < |trace| && steps[j].LocalWrite? && steps[j].node in trace[j].nodes
    && Drain.TouchOf(steps[j].change, i.key) != Drain.Untouched
    && i.ver == Ticked(trace[j].nodes[steps[j].node], steps[j].now, steps[j].node)
  }

  /** The content a write leaves at a key it touches. */
  function Content(s: Step, k: RowId): Option<Row>
    requires s.LocalWrite?
  {
    Drain.AfterTouch(Drain.TouchOf(s.change, k), None)
  }

  /** What one step adds to the history. */
  lemma StepHistory(m: Mesh, s: Step, m': Mesh, i: Issue)
    requires Next(m, s, m') && i in m'.history
    ensures (i in m.history && m'.history[i] == m.history[i])
         || (s.LocalWrite? && Drain.TouchOf(s.change, i.key) != Drain.Untouched
             && i.ver == Ticked(m.nodes[s.node], s.now, s.node) && m'.history[i] == Content(s, i.key))
  {
    if s.LocalWrite? {
      var n := m.nodes[s.node];
      var ver := Ticked(n, s.now, s.node);
      if i in Issued(n, s.change, ver) {
        StampsFacts(s.change, ver, i.key);
        Drain.ChangeOutcome(n.store.rows, s.change, i.key);
      }
    }
  }

  lemma {:induction false} InvAt(trace: seq<Mesh>, steps: seq<Step>, n: nat)
    requires Run(trace, steps) && n <= |steps|
    ensures Inv(trace[n])
  {
    assert Run(trace[..n + 1], steps[..n]);
    RunKeepsInv(trace[..n + 1], steps[..n]);
  }

  /** Every issued version was there at the start or comes from a write of the run, whose
      content it stands for. */
  lemma {:induction false} HistoryIsWrites(trace: seq<Mesh>, steps: seq<Step>, n: nat, i: Issue)
    requires Run(trace, steps) && n <= |steps| && i in trace[n].history
    ensures (i in trace[0].history && trace[n].history[i] == trace[0].history[i])
         || exists j: nat :: j < n && Wrote(trace, steps, j, i) && trace[n].history[i] == Content(steps[j], i.key)
  {
    if n > 0 {
      StepHistory(trace[n - 1], steps[n - 1], trace[n], i);
      if i in trace[n - 1].history && trace[n].history[i] == trace[n - 1].history[i] {
        HistoryIsWrites(trace, steps, n - 1, i);
      } else {
        assert Wrote(trace, steps, n - 1, i);
      }
    }
  }

  /** A step forgets no version. */
  lemma StepKeepsHistory(m: Mesh, s: Step, m': Mesh, i: Issue)
    requires Inv(m) && Next(m, s, m') && i in m.history
    ensures i in m'.history && m'.history[i] == m.history[i]
  {
    if s.LocalWrite? { WriteGrows(m, s, m'); }
  }

  /** A step adds and removes no node and moves no clock back. */
  lemma StepKeepsClock(m: Mesh, s: Step, m': Mesh, id: NodeId)
    requires Inv(m) && Next(m, s, m')
    ensures id in m'.nodes <==> id in m.nodes
    ensures id in m.nodes ==> NotAfter(m.nodes[id].clock, m'.nodes[id].clock)
  {
    if id in m.nodes {
      if s.LocalWrite? {
        WriteGrows(m, s, m');
        assert Grown(m.nodes[id], m'.nodes[id]);
      } else if s.Apply? {
        ApplyGrows(m, s, m');
        assert Grown(m.nodes[id], m'.nodes[id]);
      }
    }
  }

  lemma HistoryStep(trace: seq<Mesh>, steps: seq<Step>, n: nat, i: Issue)
    requires Run(trace, steps) && n < |steps| && i in trace[n].history
    ensures i in trace[n + 1].history && trace[n + 1].history[i] == trace[n].history[i]
  {
    InvAt(trace, steps, n);
    StepKeepsHistory(trace[n], steps[n], trace[n + 1], i);
  }

  lemma {:induction false} HistoryStays(trace: seq<Mesh>, steps: seq<Step>, j: nat, n: nat, i: Issue)
    requires Run(trace, steps) && j <= n <= |steps| && i in trace[j].history
    ensures i in trace[n].history && trace[n].history[i] == trace[j].history[i]
  {
    if j < n {
      HistoryStays(trace, steps, j, n - 1, i);
      HistoryStep(trace, steps, n - 1, i);
    }
  }

  lemma WritesAreHistory(trace: seq<Mesh>, steps: seq<Step>, j: nat, i: Issue)
    requires Run(trace, steps) && Wrote(trace, steps, j, i)
    ensures i in trace[|steps|].history
  {
    var m, s := trace[j], steps[j];
    assert Next(m, s, trace[j + 1]);
    var n := m.nodes[s.node];
    StampsFacts(s.change, i.ver, i.key);
    Drain.ChangeOutcome(n.store.rows, s.change, i.key);
    assert i in Issued(n, s.change, i.ver);
    HistoryStays(trace, steps, j + 1, |steps|, i);
  }

  // ---------- the clocks never fall behind the start ----------

  /** A version known at the start is dated no later than any clock, ever. */
  lemma {:induction false} StartIsPast(trace: seq<Mesh>, steps: seq<Step>, n: nat, i: Issue, id: NodeId)
    requires Run(trace, steps) && n <= |steps| && i in trace[0].history && id in trace[n].nodes
    ensures NotAfter(When(i.ver), trace[n].nodes[id].clock)
  {
    if n == 0 {
      assert Has(trace[0].nodes[id], i.key, i.ver);
    } else {
      InvAt(trace, steps, n - 1);
      StepKeepsClock(trace[n - 1], steps[n - 1], trace[n], id);
      StartIsPast(trace, steps, n - 1, i, id);
    }
  }

  /** Every write of the run beats every version there was at the start. */
  lemma WritesBeatStart(trace: seq<Mesh>, steps: seq<Step>, j: nat, i: Issue, prior: Issue)
    requires Run(trace, steps) && Wrote(trace, steps, j, i) && prior in trace[0].history
    ensures Beats(i.ver, prior.ver)
  {
    StartIsPast(trace, steps, j, prior, steps[j].node);
    TickBeats(trace[j].nodes[steps[j].node], steps[j].now, steps[j].node, prior.ver);
  }

  // ---------- the latest write wins ----------

  ghost predicate AllDrained(m: Mesh) {
    forall e <- FullMesh(m.nodes.Keys) :: Drained(m, e)
  }

  /** Step j's write to the key carries the largest version of all writes to it. */
  ghost predicate Latest(trace: seq<Mesh>, steps: seq<Step>, j: nat, i: Issue) {
    && Wrote(trace, steps, j, i)
    && forall l: nat, o: Issue | Wrote(trace, steps, l, o) && o.key == i.key :: !Beats(o.ver, i.ver)
  }

  lemma RegisterStep(trace: seq<Mesh>, steps: seq<Step>, n: nat, id: NodeId, k: RowId, v: Version)
    requires Run(trace, steps) && n < |steps| && id in trace[n].nodes && Has(trace[n].nodes[id], k, v)
    ensures id in trace[n + 1].nodes && Has(trace[n + 1].nodes[id], k, v)
  {
    InvAt(trace, steps, n);
    RegistersGrow(trace[n], steps[n], trace[n + 1], id, k, v);
  }

  lemma {:induction false} RegisterStays(trace: seq<Mesh>, steps: seq<Step>, n: nat, id: NodeId, k: RowId, v: Version)
    requires Run(trace, steps) && n <= |steps| && id in trace[0].nodes && Has(trace[0].nodes[id], k, v)
    ensures id in trace[n].nodes && Has(trace[n].nodes[id], k, v)
  {
    if n > 0 {
      RegisterStays(trace, steps, n - 1, id, k, v);
      RegisterStep(trace, steps, n - 1, id, k, v);
    }
  }

  lemma {:induction false} NodesStay(trace: seq<Mesh>, steps: seq<Step>, n: nat)
    requires Run(trace, steps) && n <= |steps|
    ensures trace[n].nodes.Keys == trace[0].nodes.Keys && trace[n].base == trace[0].base
  {
    if n > 0 {
      NodesStay(trace, steps, n - 1);
      assert Next(trace[n - 1], steps[n - 1], trace[n]);
    }
  }

  /** A key that some write of the run touched: every node of a drained mesh holds what the
      write with the largest version left. */
  lemma LatestWriteWins(trace: seq<Mesh>, steps: seq<Step>, id: NodeId, k: RowId) returns (j: nat, i: Issue)
    requires Run(trace, steps) && AllDrained(trace[|steps|]) && id in trace[|steps|].nodes
    requires exists l: nat, o: Issue :: Wrote(trace, steps, l, o) && o.key == k
    ensures i.key == k && Latest(trace, steps, j, i)
    ensures Lookup(trace[|steps|].nodes[id].store.rows, k) == Content(steps[j], k)
  {
    var m := trace[|steps|];
    InvAt(trace, steps, |steps|);
    forall l: nat, o: Issue | Wrote(trace, steps, l, o) && o.key == k ensures Has(m.nodes[id], k, o.ver) {
      WritesAreHistory(trace, steps, l, o);
      DrainedKnowsAll(m, id, o);
    }
    var l: nat, o: Issue :| Wrote(trace, steps, l, o) && o.key == k;
    assert KeyOk(m, id, k);
    i := Issue(k, m.nodes[id].store.reg[k].ver);
    HistoryIsWrites(trace, steps, |steps|, i);
    if i in trace[0].history { WritesBeatStart(trace, steps, l, o, i); }
    j :| j < |steps| && Wrote(trace, steps, j, i) && m.history[i] == Content(steps[j], k);
  }

  /** A key that none touched is as it was. */
  lemma UntouchedStays(trace: seq<Mesh>, steps: seq<Step>, id: NodeId, k: RowId)
    requires Run(trace, steps) && AllDrained(trace[|steps|]) && id in trace[|steps|].nodes
    requires forall l: nat, o: Issue | Wrote(trace, steps, l, o) :: o.key != k
    ensures id in trace[0].nodes
    ensures Lookup(trace[|steps|].nodes[id].store.rows, k) == Lookup(trace[0].nodes[id].store.rows, k)
  {
    var first, m := trace[0], trace[|steps|];
    NodesStay(trace, steps, |steps|);
    InvAt(trace, steps, |steps|);
    assert KeyOk(first, id, k) && KeyOk(m, id, k);
    if k in first.nodes[id].store.reg {
      RegisterStays(trace, steps, |steps|, id, k, first.nodes[id].store.reg[k].ver);
    }
    if k in m.nodes[id].store.reg {
      var i := Issue(k, m.nodes[id].store.reg[k].ver);
      HistoryIsWrites(trace, steps, |steps|, i);
      assert Has(first.nodes[id], k, i.ver);
    }
  }

  // ---------- the queues can always empty ----------

  /** A run of drain steps only: no local write, and no pass lost once they begin. */
  ghost predicate Draining(trace: seq<Mesh>, steps: seq<Step>, m: Mesh, m': Mesh) {
    && |trace| == |steps| + 1 && trace[0] == m && trace[|steps|] == m'
    && (forall j | 0 <= j < |steps| :: Next(trace[j], steps[j], trace[j + 1]))
    && (forall s <- steps :: !s.LocalWrite? && !s.Lose?)
  }

  ghost predicate Reaches(m: Mesh, m': Mesh) {
    exists trace, steps :: Draining(trace, steps, m, m')
  }

  lemma {:induction false} OneStep(m: Mesh, m1: Mesh, s: Step, m2: Mesh)
    requires Reaches(m, m1) && Next(m1, s, m2) && !s.LocalWrite? && !s.Lose?
    ensures Reaches(m, m2)
  {
    var trace, steps :| Draining(trace, steps, m, m1);
    var trace', steps' := trace + [m2], steps + [s];
    forall j | 0 <= j < |steps'| ensures Next(trace'[j], steps'[j], trace'[j + 1]) {
      if j < |steps| { assert trace'[j] == trace[j] && trace'[j + 1] == trace[j + 1] && steps'[j] == steps[j]; }
    }
    assert Draining(trace', steps', m, m2);
  }

  lemma {:induction false} DrainingKeepsInv(trace: seq<Mesh>, steps: seq<Step>, m: Mesh, m': Mesh)
    requires Inv(m) && Draining(trace, steps, m, m')
    ensures Inv(m')
    decreases |steps|
  {
    if steps != [] {
      var n := |steps| - 1;
      assert trace[..n + 1][n] == trace[n];
      assert Draining(trace[..n + 1], steps[..n], m, trace[n]);
      DrainingKeepsInv(trace[..n + 1], steps[..n], m, trace[n]);
      assert Next(trace[n], steps[n], trace[n + 1]);
      StepKeepsInv(trace[n], steps[n], m');
    }
  }

  /** The same members with the same deltas, and nothing un-consumed. */
  ghost predicate Later(m: Mesh, m': Mesh) {
    && m'.nodes.Keys == m.nodes.Keys
    && (forall id | id in m.nodes :: m'.nodes[id].delta == m.nodes[id].delta)
    && (forall e: Edge :: Tracked(m, e) <= Tracked(m', e))
  }

  function QueueOf(m: Mesh, p: PassId): set<DeltaId>
    requires p.edge.src in m.nodes
  {
    var delta := m.nodes[p.edge.src].delta;
    set d | d in delta && d !in Tracked(m, p.edge) && delta[d].table == p.table
  }

  /** One pass is under way: it read the whole queue and has come to `stage`. */
  ghost predicate Doing(m: Mesh, m1: Mesh, p: PassId, atomic: bool, stage: Stage) {
    && p.edge in FullMesh(m.nodes.Keys) && Later(m, m1) && m1.track == m.track
    && m1.pass.Keys == {p} && m1.pass[p].ids == QueueOf(m, p)
    && m1.pass[p].atomic == atomic && m1.pass[p].stage == stage
  }

  lemma ReadAll(m0: Mesh, m: Mesh, p: PassId, atomic: bool) returns (m1: Mesh)
    requires Reaches(m0, m) && m.pass == map[] && p.edge in FullMesh(m.nodes.Keys)
    ensures Reaches(m0, m1) && Doing(m, m1, p, atomic, Ready(Upserts))
  {
    var q := QueueOf(m, p);
    var keys := set d <- q :: m.nodes[p.edge.src].delta[d];
    m1 := m.(pass := m.pass[p := Work(keys, q, atomic, Ready(Upserts))]);
    OneStep(m0, m, ReadDirty(p, q, atomic), m1);
  }

  lemma RereadOnce(m0: Mesh, m: Mesh, m1: Mesh, p: PassId, atomic: bool, phase: Phase) returns (m2: Mesh, stg: Staging)
    requires Reaches(m0, m1) && Doing(m, m1, p, atomic, Ready(phase)) && phase != Confirmable
    ensures Reaches(m0, m2) && Doing(m, m2, p, atomic, Loaded(phase, stg))
  {
    var w := m1.pass[p];
    stg := Reread(m1.nodes[p.edge.src].store, w.keys);
    m2 := m1.(pass := m1.pass[p := w.(stage := Loaded(phase, stg))]);
    OneStep(m0, m1, RereadVersions(p), m2);
  }

  lemma ApplyOnce(m0: Mesh, m: Mesh, m1: Mesh, p: PassId, atomic: bool, phase: Phase, stg: Staging, next: Phase) returns (m2: Mesh)
    requires Reaches(m0, m1) && Doing(m, m1, p, atomic, Loaded(phase, stg))
    requires (phase == Upserts && !atomic && next == Deletes) || (phase == Upserts && atomic && next == Confirmable)
          || (phase == Deletes && next == Confirmable)
    ensures Reaches(m0, m2) && Doing(m, m2, p, atomic, Ready(next))
  {
    var w := m1.pass[p];
    var n := Applied(m1.nodes[p.edge.dst], w, 0, 0);
    m2 := m1.(nodes := m1.nodes[p.edge.dst := n], pass := m1.pass[p := w.(stage := Ready(AfterApply(w)))]);
    OneStep(m0, m1, Apply(p, 0, 0), m2);
  }

  /** Re-read and apply: what comes next is what the kind of pass says. */
  lemma OnePhase(m0: Mesh, m: Mesh, m1: Mesh, p: PassId, atomic: bool, phase: Phase, next: Phase) returns (m2: Mesh)
    requires Reaches(m0, m1) && Doing(m, m1, p, atomic, Ready(phase))
    requires (phase == Upserts && !atomic && next == Deletes) || (phase == Upserts && atomic && next == Confirmable)
          || (phase == Deletes && next == Confirmable)
    ensures Reaches(m0, m2) && Doing(m, m2, p, atomic, Ready(next))
  {
    var mid, stg := RereadOnce(m0, m, m1, p, atomic, phase);
    m2 := ApplyOnce(m0, m, mid, p, atomic, phase, stg, next);
  }

  /** The whole pass of one table over one edge. */
  lemma OnePass(m0: Mesh, m: Mesh, p: PassId, atomic: bool) returns (m': Mesh)
    requires Reaches(m0, m) && m.pass == map[] && p.edge in FullMesh(m.nodes.Keys)
    ensures Reaches(m0, m') && Later(m, m') && m'.pass == map[] && QueueOf(m', p) == {}
  {
    var m1 := ReadAll(m0, m, p, atomic);
    if !atomic { m1 := OnePhase(m0, m, m1, p, atomic, Upserts, Deletes); }
    m1 := OnePhase(m0, m, m1, p, atomic, if atomic then Upserts else Deletes, Confirmable);
    m' := m1.(track := m1.track[p.edge := Tracked(m1, p.edge) + m1.pass[p].ids], pass := m1.pass - {p});
    OneStep(m0, m1, Confirm(p), m');
    assert m'.pass.Keys == {};
  }

  lemma StaysEmpty(m: Mesh, m': Mesh, p: PassId)
    requires Later(m, m') && p.edge.src in m.nodes && QueueOf(m, p) == {}
    ensures p.edge.src in m'.nodes && QueueOf(m', p) == {}
  {
    assert QueueOf(m', p) <= QueueOf(m, p);
  }

  /** The given edges and tables one after the other, each pass atomic or not. */
  lemma {:induction false} EachPass(m0: Mesh, m: Mesh, todo: set<PassId>, atomic: PassId -> bool) returns (m': Mesh)
    requires Reaches(m0, m) && m.pass == map[] && forall p <- todo :: p.edge in FullMesh(m.nodes.Keys)
    ensures Reaches(m0, m') && Later(m, m') && m'.pass == map[]
    ensures forall p <- todo :: p.edge.src in m'.nodes && QueueOf(m', p) == {}
    decreases todo
  {
    if todo == {} {
      m' := m;
    } else {
      var p :| p in todo;
      var m1 := OnePass(m0, m, p, atomic(p));
      m' := EachPass(m0, m1, todo - {p}, atomic);
      StaysEmpty(m1, m', p);
      forall q <- todo ensures q.edge.src in m'.nodes && QueueOf(m', q) == {} {
        assert q != p ==> q in todo - {p};
      }
    }
  }

  /** Every edge paired with every table its source has deltas of. */
  function AllPasses(m: Mesh): set<PassId> {
    set e, d | e in FullMesh(m.nodes.Keys) && d in m.nodes[e.src].delta :: PassId(e, m.nodes[e.src].delta[d].table)
  }

  /** However the mesh stands, losing every pass costs nothing else, and from there
      undisturbed passes of either kind empty all queues, and then the nodes agree. */
  lemma MeshCanDrain(m: Sane, atomic: PassId -> bool) returns (m1: Mesh, m2: Mesh)
    ensures Next(m, Lose(m.pass.Keys), m1) && m1 == m.(pass := map[])
    ensures Reaches(m1, m2) && Later(m1, m2) && AllDrained(m2)
    ensures forall a, b | a in m2.nodes && b in m2.nodes :: m2.nodes[a].store == m2.nodes[b].store
  {
    m1 := m.(pass := map[]);
    assert m.pass - m.pass.Keys == map[];
    StepKeepsInv(m, Lose(m.pass.Keys), m1);
    assert Draining([m1], [], m1, m1);
    m2 := EachPass(m1, m1, AllPasses(m1), atomic);
    forall e <- FullMesh(m2.nodes.Keys) ensures Drained(m2, e) {
      forall d | d in m2.nodes[e.src].delta ensures d in Tracked(m2, e) {
        var p := PassId(e, m1.nodes[e.src].delta[d].table);
        assert p in AllPasses(m1);
        assert d !in QueueOf(m2, p);
      }
    }
    var trace, steps :| Draining(trace, steps, m1, m2);
    DrainingKeepsInv(trace, steps, m1, m2);
    forall a, b | a in m2.nodes && b in m2.nodes ensures m2.nodes[a].store == m2.nodes[b].store {
      forall k: RowId { DrainedAgree(m2, a, b, k); }
      SameStore(m2.nodes[a].store, m2.nodes[b].store);
    }
  }
}
