/** On-cycle foreign keys: how they are found, how each is loaded, and the apply order
    that ignores them.

    A foreign key is on a cycle when its child can be reached from its parent along
    child-to-parent references. Those keys are loaded deferred or NULL-then-fill; the
    tables are ordered by the remaining keys, which form no cycle. */
module CyclicFk {
  import opened Graph
  import opened FkGraph
  import Kahn

  // ---------- reversal ----------

  function Rev(g: Graph): Graph {
    set e | e in g :: (e.1, e.0)
  }

  lemma {:induction false} RevWalk(g: Graph, a: Node, b: Node, p: seq<Node>)
    requires WalkFrom(g, a, b, p)
    ensures Reach(Rev(g), b, a)
    decreases |p|
  {
    if |p| == 1 {
      ReachSelf(Rev(g), a);
    } else {
      assert WalkFrom(g, p[1], b, p[1..]);
      RevWalk(g, p[1], b, p[1..]);
      ReachEdge(Rev(g), p[1], a);
      ReachTrans(Rev(g), b, p[1], a);
    }
  }

  lemma ReachRev(g: Graph, a: Node, b: Node)
    ensures Reach(g, a, b) <==> Reach(Rev(g), b, a)
  {
    if Reach(g, a, b) {
      var p :| WalkFrom(g, a, b, p);
      RevWalk(g, a, b, p);
    }
    if Reach(Rev(g), b, a) {
      var p :| WalkFrom(Rev(g), b, a, p);
      RevWalk(Rev(g), b, a, p);
      assert Rev(Rev(g)) == g;
    }
  }

  // ---------- depth-first search ----------

  type Adjacency = map<Node, seq<Node>>

  function Nexts(adj: Adjacency, n: Node): seq<Node> {
    if n in adj then adj[n] else []
  }

  ghost predicate IsAdjacency(adj: Adjacency, g: Graph) {
    forall n, m :: m in Nexts(adj, n) <==> (n, m) in g
  }

  /** Successors of visited nodes are visited or on the stack. */
  ghost predicate Frontier(g: Graph, seen: set<Node>, stack: seq<Node>) {
    forall e <- g :: e.0 in seen ==> e.1 in seen || e.1 in stack
  }

  lemma PushKeepsFrontier(adj: Adjacency, g: Graph, seen: set<Node>, rest: seq<Node>, n: Node)
    requires IsAdjacency(adj, g) && Frontier(g, seen, rest + [n])
    ensures n in seen ==> Frontier(g, seen, rest)
    ensures Frontier(g, seen + {n}, rest + Nexts(adj, n))
  {}

  /** `to` can be reached from `from`: an explicit-stack depth-first search. */
  method Reachable(adj: Adjacency, ghost g: Graph, ghost nodes: set<Node>, from: Node, to: Node) returns (found: bool)
    requires IsAdjacency(adj, g) && from in nodes && forall e <- g :: e.1 in nodes
    ensures found <==> Reach(g, from, to)
  {
    var seen: set<Node> := {};
    var stack := [from];
    ReachSelf(g, from);
    while stack != []
      invariant seen <= nodes && to !in seen && (from in seen || from in stack)
      invariant forall x <- stack :: x in nodes && Reach(g, from, x)
      invariant Frontier(g, seen, stack)
      decreases nodes - seen, |stack|
    {
      var n := stack[|stack| - 1];
      var rest := stack[..|stack| - 1];
      assert stack == rest + [n];
      PushKeepsFrontier(adj, g, seen, rest, n);
      stack := rest;
      if n == to { return true; }
      if n in seen { continue; }
      seen := seen + {n};
      forall x <- Nexts(adj, n) ensures x in nodes && Reach(g, from, x) {
        ReachEdge(g, n, x);
        ReachTrans(g, from, n, x);
      }
      stack := stack + Nexts(adj, n);
    }
    if Reach(g, from, to) { ClosedReach(g, seen, from, to); }
    return false;
  }

  // ---------- classification ----------

  datatype Strategy = Deferred | NullThenFill | Blocked

  datatype CyclicKey = CyclicKey(fk: ForeignKey, strategy: Strategy, nullable: bool)

  function ByRef(tables: seq<TableDef>): map<Node, TableDef> {
    if tables == [] then map[] else ByRef(tables[..|tables| - 1])[tables[|tables| - 1].ref := tables[|tables| - 1]]
  }

  lemma {:induction false} ByRefFinds(tables: seq<TableDef>, i: nat)
    requires TablesOk(tables) && i < |tables|
    ensures tables[i].ref in ByRef(tables) && ByRef(tables)[tables[i].ref] == tables[i]
  {
    var n := |tables| - 1;
    if i < n { ByRefFinds(tables[..n], i); }
  }

  predicate ColumnNullable(byRef: map<Node, TableDef>, t: Node, col: string) {
    t in byRef && col in byRef[t].nullable && byRef[t].nullable[col]
  }

  /** One nullable referencing column is enough: MATCH SIMPLE. */
  predicate AnyColumnNullable(fk: ForeignKey, byRef: map<Node, TableDef>) {
    exists col <- fk.cols :: ColumnNullable(byRef, fk.child, col)
  }

  function ClassifyOne(fk: ForeignKey, byRef: map<Node, TableDef>): CyclicKey {
    var nullable := AnyColumnNullable(fk, byRef);
    if fk.deferrable then CyclicKey(fk, Deferred, nullable)
    else if nullable then CyclicKey(fk, NullThenFill, true)
    else CyclicKey(fk, Blocked, false)
  }

  /** The key lies on a cycle of the selection, or references its own table. */
  ghost predicate KeyOnCycle(tables: seq<TableDef>, fk: ForeignKey) {
    fk.parent in Refs(tables) && Reach(Edges(tables, Refs(tables)), fk.child, fk.parent)
  }

  /** Child-to-parent adjacency of the selected keys. */
  method ParentLists(tables: seq<TableDef>, sel: set<Node>) returns (adj: Adjacency)
    ensures IsAdjacency(adj, Rev(Edges(tables, sel)))
  {
    adj := map[];
    for i := 0 to |tables|
      invariant IsAdjacency(adj, Rev(Edges(tables[..i], sel)))
    {
      ghost var g := Edges(tables[..i], sel);
      var fks := tables[i].fks;
      EdgesAppend(tables, sel, i);
      assert g + KeyEdges(fks[..0], sel) == g;
      for j := 0 to |fks|
        invariant IsAdjacency(adj, Rev(g + KeyEdges(fks[..j], sel)))
      {
        KeyEdgesAppend(fks, sel, j);
        if fks[j].parent in sel {
          AdjacencyGrows(adj, g + KeyEdges(fks[..j], sel), fks[j].child, fks[j].parent);
          assert g + KeyEdges(fks[..j + 1], sel) == g + KeyEdges(fks[..j], sel) + {(fks[j].parent, fks[j].child)};
          adj := adj[fks[j].child := Nexts(adj, fks[j].child) + [fks[j].parent]];
        } else {
          assert g + KeyEdges(fks[..j + 1], sel) == g + KeyEdges(fks[..j], sel);
        }
      }
      assert fks[..|fks|] == fks;
    }
    assert tables[..|tables|] == tables;
  }

  lemma AdjacencyGrows(adj: Adjacency, g: Graph, child: Node, parent: Node)
    requires IsAdjacency(adj, Rev(g))
    ensures IsAdjacency(adj[child := Nexts(adj, child) + [parent]], Rev(g + {(parent, child)}))
  {
    var adj' := adj[child := Nexts(adj, child) + [parent]];
    forall n, m ensures m in Nexts(adj', n) <==> (n, m) in Rev(g + {(parent, child)}) {
      assert (n, m) in Rev(g + {(parent, child)}) <==> (m, n) in g + {(parent, child)};
      assert (n, m) in Rev(g) <==> (m, n) in g;
    }
  }

  /** Exactly the on-cycle keys among the first n tables, each with its strategy. */
  ghost predicate Classified(tables: seq<TableDef>, n: nat, out: seq<CyclicKey>)
    requires n <= |tables|
  {
    && (forall c <- out :: KeyOnCycle(tables, c.fk) && c == ClassifyOne(c.fk, ByRef(tables)) && OwnedBy(tables[..n], c.fk))
    && (forall i | 0 <= i < n :: AllFound(tables, tables[i].fks, out))
  }

  ghost predicate OwnedBy(tables: seq<TableDef>, fk: ForeignKey) {
    exists t :: t in tables && fk in t.fks
  }

  ghost predicate AllFound(tables: seq<TableDef>, fks: seq<ForeignKey>, out: seq<CyclicKey>) {
    forall fk <- fks :: KeyOnCycle(tables, fk) ==> ClassifyOne(fk, ByRef(tables)) in out
  }

  /** One table's keys. */
  method ClassifyTable(tables: seq<TableDef>, i: nat, sel: set<Node>, byRef: map<Node, TableDef>, adj: Adjacency,
                       out0: seq<CyclicKey>) returns (out: seq<CyclicKey>)
    requires TablesOk(tables) && i < |tables| && sel == Refs(tables) && byRef == ByRef(tables)
    requires IsAdjacency(adj, Rev(Edges(tables, sel))) && Classified(tables, i, out0)
    ensures Classified(tables, i + 1, out)
  {
    out := out0;
    var t := tables[i];
    assert OwnKeys(tables[i]);
    assert tables[..i + 1] == tables[..i] + [t];
    for j := 0 to |t.fks|
      invariant out0 <= out && AllFound(tables, t.fks[..j], out)
      invariant forall c <- out[|out0|..] :: KeyOnCycle(tables, c.fk) && c == ClassifyOne(c.fk, byRef) && c.fk in t.fks
    {
      var fk := t.fks[j];
      assert t.fks[..j + 1] == t.fks[..j] + [fk];
      if fk.parent !in sel { continue; }
      var onCycle := fk.child == fk.parent;
      ReachSelf(Edges(tables, sel), fk.child);
      if !onCycle {
        ReachRev(Edges(tables, sel), fk.child, fk.parent);
        UpEnds(tables);
        onCycle := Reachable(adj, Rev(Edges(tables, sel)), sel, fk.parent, fk.child);
      }
      if !onCycle { continue; }
      out := out + [ClassifyOne(fk, byRef)];
    }
    assert t.fks[..|t.fks|] == t.fks;
    assert out == out0 + out[|out0|..];
    forall c <- out ensures OwnedBy(tables[..i + 1], c.fk) {
      if c in out0 {
        var u :| u in tables[..i] && c.fk in u.fks;
        assert u in tables[..i + 1];
      } else {
        assert t in tables[..i + 1];
      }
    }
  }

  lemma {:induction false} UpEnds(tables: seq<TableDef>)
    requires TablesOk(tables)
    ensures forall e <- Rev(Edges(tables, Refs(tables))) :: e.1 in Refs(tables)
  {
    forall e <- Rev(Edges(tables, Refs(tables))) ensures e.1 in Refs(tables) {
      EdgeEnds(tables, Refs(tables), (e.1, e.0));
    }
  }

  predicate NullableIn(t: TableDef, col: string) {
    col in t.nullable && t.nullable[col]
  }

  /** The strategy and the flag of a key that t's definition calls for: deferred if it can
      be, else filled if one of its columns takes NULL, else blocked. */
  ghost predicate StrategyFits(t: TableDef, c: CyclicKey) {
    var some := exists col <- c.fk.cols :: NullableIn(t, col);
    && (c.strategy == Deferred <==> c.fk.deferrable)
    && (c.strategy == NullThenFill <==> !c.fk.deferrable && some)
    && (c.strategy == Blocked <==> !c.fk.deferrable && !some)
    && (c.nullable <==> some)
  }

  ghost predicate Lists(out: seq<CyclicKey>, fk: ForeignKey) {
    exists c :: c in out && c.fk == fk
  }

  lemma ClassifiedFits(tables: seq<TableDef>, out: seq<CyclicKey>, t: TableDef, c: CyclicKey)
    requires TablesOk(tables) && Classified(tables, |tables|, out) && t in tables && c in out && c.fk in t.fks
    ensures StrategyFits(t, c)
  {
    var i :| 0 <= i < |tables| && tables[i] == t;
    assert OwnKeys(tables[i]);
    ByRefFinds(tables, i);
    assert forall col :: ColumnNullable(ByRef(tables), t.ref, col) <==> NullableIn(t, col);
  }

  lemma ClassifiedLists(tables: seq<TableDef>, out: seq<CyclicKey>, t: TableDef, fk: ForeignKey)
    requires Classified(tables, |tables|, out) && t in tables && fk in t.fks
    ensures Lists(out, fk) <==> KeyOnCycle(tables, fk)
  {
    var i :| 0 <= i < |tables| && tables[i] == t;
    assert AllFound(tables, tables[i].fks, out);
    if KeyOnCycle(tables, fk) {
      assert ClassifyOne(fk, ByRef(tables)) in out;
    }
  }

  /** Every on-cycle key of the selection, and no other, with the load strategy its table's
      definition calls for. */
  method ClassifyCyclicKeys(tables: seq<TableDef>) returns (out: seq<CyclicKey>)
    requires TablesOk(tables)
    ensures Classified(tables, |tables|, out)
    ensures forall c <- out :: OwnedBy(tables, c.fk)
    ensures forall t, fk | t in tables && fk in t.fks :: Lists(out, fk) <==> KeyOnCycle(tables, fk)
    ensures forall t, c | t in tables && c in out && c.fk in t.fks :: StrategyFits(t, c)
  {
    var sel, byRef := Refs(tables), ByRef(tables);
    var adj := ParentLists(tables, sel);
    out := [];
    for i := 0 to |tables|
      invariant Classified(tables, i, out)
    {
      out := ClassifyTable(tables, i, sel, byRef, adj, out);
    }
    assert tables[..|tables|] == tables;
    forall t, fk | t in tables && fk in t.fks ensures Lists(out, fk) <==> KeyOnCycle(tables, fk) {
      ClassifiedLists(tables, out, t, fk);
    }
    forall t, c | t in tables && c in out && c.fk in t.fks ensures StrategyFits(t, c) {
      ClassifiedFits(tables, out, t, c);
    }
  }

  // ---------- columns loaded NULL ----------

  type Columns = map<Node, seq<string>>

  ghost predicate Has(out: Columns, t: Node, col: string) {
    t in out && col in out[t]
  }

  /** Some key of the list lives on t and uses col. */
  ghost predicate Names(cyc: seq<CyclicKey>, t: Node, col: string) {
    exists c :: c in cyc && c.fk.child == t && col in c.fk.cols
  }

  ghost predicate NoRepeats(out: Columns) {
    forall t | t in out :: forall i, j | 0 <= i < j < |out[t]| :: out[t][i] != out[t][j]
  }

  /** The columns of the given keys by child table, each once. */
  method CyclicColsByTable(cyc: seq<CyclicKey>) returns (out: Columns)
    ensures NoRepeats(out) && forall t, col :: Has(out, t, col) <==> Names(cyc, t, col)
  {
    out := map[];
    for i := 0 to |cyc|
      invariant NoRepeats(out) && forall t, col :: Has(out, t, col) <==> Names(cyc[..i], t, col)
    {
      var fk := cyc[i].fk;
      ghost var before := out;
      assert cyc[..i + 1] == cyc[..i] + [cyc[i]];
      for j := 0 to |fk.cols|
        invariant NoRepeats(out)
        invariant forall t, col :: Has(out, t, col) <==> Has(before, t, col) || (t == fk.child && col in fk.cols[..j])
      {
        var col := fk.cols[j];
        assert fk.cols[..j + 1] == fk.cols[..j] + [col];
        var prior := if fk.child in out then out[fk.child] else [];
        ghost var was := out;
        if col !in prior {
          AppendColumn(out, fk.child, col);
          out := out[fk.child := prior + [col]];
        }
        forall t, c ensures Has(out, t, c) <==> Has(before, t, c) || (t == fk.child && c in fk.cols[..j + 1]) {
          assert Has(out, t, c) <==> Has(was, t, c) || (t == fk.child && c == col);
        }
      }
      assert fk.cols[..|fk.cols|] == fk.cols;
      forall t, col ensures Has(out, t, col) <==> Names(cyc[..i + 1], t, col) {
        NamesAppend(cyc[..i], cyc[i], t, col);
      }
    }
    assert cyc[..|cyc|] == cyc;
  }

  lemma AppendColumn(out: Columns, t: Node, col: string)
    requires NoRepeats(out) && !Has(out, t, col)
    ensures var out' := out[t := (if t in out then out[t] else []) + [col]];
            NoRepeats(out') && forall u, c :: Has(out', u, c) <==> Has(out, u, c) || (u == t && c == col)
  {}

  lemma NamesAppend(cyc: seq<CyclicKey>, k: CyclicKey, t: Node, col: string)
    ensures Names(cyc + [k], t, col) <==> Names(cyc, t, col) || (k.fk.child == t && col in k.fk.cols)
  {
    if Names(cyc, t, col) {
      var c :| c in cyc && c.fk.child == t && col in c.fk.cols;
      assert c in cyc + [k];
    }
    if k.fk.child == t && col in k.fk.cols { assert k in cyc + [k]; }
  }

  /** Only NULL-then-fill keys: a deferred key's columns must keep their values. */
  ghost predicate NamesFill(cyc: seq<CyclicKey>, t: Node, col: string) {
    exists c :: c in cyc && c.strategy == NullThenFill && c.fk.child == t && col in c.fk.cols
  }

  method NullFillColsByTable(cyc: seq<CyclicKey>) returns (out: Columns)
    ensures NoRepeats(out) && forall t, col :: Has(out, t, col) <==> NamesFill(cyc, t, col)
  {
    var nf: seq<CyclicKey> := [];
    for i := 0 to |cyc|
      invariant forall c :: c in nf <==> c in cyc[..i] && c.strategy == NullThenFill
    {
      assert cyc[..i + 1] == cyc[..i] + [cyc[i]];
      if cyc[i].strategy == NullThenFill { nf := nf + [cyc[i]]; }
    }
    assert cyc[..|cyc|] == cyc;
    out := CyclicColsByTable(nf);
    forall t, col ensures Names(nf, t, col) <==> NamesFill(cyc, t, col) {
      if Names(nf, t, col) {
        var c :| c in nf && c.fk.child == t && col in c.fk.cols;
        assert c in cyc;
      }
      if NamesFill(cyc, t, col) {
        var c :| c in cyc && c.strategy == NullThenFill && c.fk.child == t && col in c.fk.cols;
        assert c in nf;
      }
    }
  }

  /** Some columns of the key are nullable and some are not. */
  predicate Mixed(fk: ForeignKey, byRef: map<Node, TableDef>) {
    AnyColumnNullable(fk, byRef) && exists col <- fk.cols :: !ColumnNullable(byRef, fk.child, col)
  }

  /** A key of the selection that is on a cycle, cannot be deferred, and is mixed. */
  ghost predicate BadKey(tables: seq<TableDef>, t: TableDef, fk: ForeignKey) {
    t in tables && fk in t.fks && KeyOnCycle(tables, fk) && !fk.deferrable && Mixed(fk, ByRef(tables))
  }

  lemma {:induction false} FilledIsNullable(tables: seq<TableDef>, cyc: seq<CyclicKey>, t: Node, col: string)
    requires Classified(tables, |tables|, cyc) && NamesFill(cyc, t, col)
    ensures ColumnNullable(ByRef(tables), t, col) || exists u, fk :: BadKey(tables, u, fk)
  {
    var c :| c in cyc && c.strategy == NullThenFill && c.fk.child == t && col in c.fk.cols;
    assert tables[..|tables|] == tables && OwnedBy(tables[..|tables|], c.fk);
    var u :| u in tables && c.fk in u.fks;
    if !ColumnNullable(ByRef(tables), t, col) { assert BadKey(tables, u, c.fk); }
  }

  /** Every column loaded NULL is nullable exactly when no on-cycle key that cannot be
      deferred has both nullable and NOT NULL columns. */
  lemma {:induction false} FilledAreNullableExactlyWhen(tables: seq<TableDef>, cyc: seq<CyclicKey>)
    requires Classified(tables, |tables|, cyc)
    ensures (forall t, col | NamesFill(cyc, t, col) :: ColumnNullable(ByRef(tables), t, col)) <==>
            forall u, fk :: !BadKey(tables, u, fk)
  {
    forall t, col | NamesFill(cyc, t, col)
      ensures ColumnNullable(ByRef(tables), t, col) || exists u, fk :: BadKey(tables, u, fk)
    {
      FilledIsNullable(tables, cyc, t, col);
    }
    forall u, fk | BadKey(tables, u, fk)
      ensures exists t, col :: NamesFill(cyc, t, col) && !ColumnNullable(ByRef(tables), t, col)
    {
      var i :| 0 <= i < |tables| && tables[i] == u;
      assert AllFound(tables, tables[i].fks, cyc);
      var c := ClassifyOne(fk, ByRef(tables));
      var col :| col in fk.cols && !ColumnNullable(ByRef(tables), fk.child, col);
      assert c in cyc && c.fk.child == fk.child && col in c.fk.cols;
      assert NamesFill(cyc, fk.child, col);
    }
  }

  /** A composite key with one nullable column puts its NOT NULL columns in the list too. */
  lemma CompositeKeyNullsRequiredColumn()
    ensures exists tables: seq<TableDef>, cyc: seq<CyclicKey>, t: Node, col: string ::
              && TablesOk(tables) && Classified(tables, |tables|, cyc)
              && NamesFill(cyc, t, col) && !ColumnNullable(ByRef(tables), t, col)
  {
    var fk := ForeignKey("self", "t", "t", ["a", "b"], false);
    var t := TableDef("t", map["a" := true, "b" := false], [fk]);
    var tables := [t];
    assert ByRef(tables) == map["t" := t];
    assert "a" in fk.cols && ColumnNullable(ByRef(tables), "t", "a");
    var c := ClassifyOne(fk, ByRef(tables));
    assert Refs(tables) == {"t"};
    ReachSelf(Edges(tables, Refs(tables)), "t");
    assert OwnedBy(tables[..1], fk) by { assert t in tables[..1]; }
    assert Classified(tables, 1, [c]);
    assert c in [c] && "b" in c.fk.cols;
    assert NamesFill([c], "t", "b") && !ColumnNullable(ByRef(tables), "t", "b");
  }

  // ---------- the order over the remaining keys ----------

  type KeyId = (Node, Node, string)

  function IdOf(fk: ForeignKey): KeyId {
    (fk.child, fk.parent, fk.name)
  }

  predicate Kept(fk: ForeignKey, sel: set<Node>, cyclic: set<KeyId>) {
    fk.parent in sel && IdOf(fk) !in cyclic && fk.child != fk.parent
  }

  function KeptKeyEdges(fks: seq<ForeignKey>, sel: set<Node>, cyclic: set<KeyId>): Kahn.EdgeList {
    if fks == [] then []
    else
      var fk := fks[|fks| - 1];
      KeptKeyEdges(fks[..|fks| - 1], sel, cyclic) + if Kept(fk, sel, cyclic) then [(fk.parent, fk.child)] else []
  }

  /** One edge per kept key, duplicates included. */
  function KeptEdges(tables: seq<TableDef>, sel: set<Node>, cyclic: set<KeyId>): Kahn.EdgeList {
    if tables == [] then []
    else KeptEdges(tables[..|tables| - 1], sel, cyclic) + KeptKeyEdges(tables[|tables| - 1].fks, sel, cyclic)
  }

  lemma {:induction false} KeptKeyEdgesHave(fks: seq<ForeignKey>, sel: set<Node>, cyclic: set<KeyId>, e: (Node, Node))
    ensures e in KeptKeyEdges(fks, sel, cyclic) <==>
            exists fk :: fk in fks && Kept(fk, sel, cyclic) && e == (fk.parent, fk.child)
  {
    if fks != [] {
      var n := |fks| - 1;
      KeptKeyEdgesHave(fks[..n], sel, cyclic, e);
      assert fks == fks[..n] + [fks[n]];
    }
  }

  lemma {:induction false} KeptEdgeHasKey(tables: seq<TableDef>, sel: set<Node>, cyclic: set<KeyId>, e: (Node, Node))
    returns (t: TableDef, fk: ForeignKey)
    requires e in KeptEdges(tables, sel, cyclic)
    ensures FromKey(tables, sel, e, t, fk) && Kept(fk, sel, cyclic)
  {
    var n := |tables| - 1;
    assert tables == tables[..n] + [tables[n]];
    if e in KeptKeyEdges(tables[n].fks, sel, cyclic) {
      t := tables[n];
      KeptKeyEdgesHave(t.fks, sel, cyclic, e);
      fk :| fk in t.fks && Kept(fk, sel, cyclic) && e == (fk.parent, fk.child);
    } else {
      t, fk := KeptEdgeHasKey(tables[..n], sel, cyclic, e);
    }
  }

  lemma {:induction false} KeptKeyHasEdge(tables: seq<TableDef>, sel: set<Node>, cyclic: set<KeyId>, t: TableDef, fk: ForeignKey)
    requires t in tables && fk in t.fks && Kept(fk, sel, cyclic)
    ensures (fk.parent, fk.child) in KeptEdges(tables, sel, cyclic)
  {
    var n := |tables| - 1;
    if t == tables[n] {
      KeptKeyEdgesHave(t.fks, sel, cyclic, (fk.parent, fk.child));
    } else {
      assert tables == tables[..n] + [tables[n]];
      KeptKeyHasEdge(tables[..n], sel, cyclic, t, fk);
    }
  }

  /** `cyclic` names every on-cycle key of the members. */
  ghost predicate NamesCyclic(members: seq<TableDef>, cyclic: set<KeyId>) {
    forall t, fk | t in members && fk in t.fks && KeyOnCycle(members, fk) :: IdOf(fk) in cyclic
  }

  /** Without the on-cycle keys there is no cycle left. */
  lemma {:induction false} KeptIsAcyclic(members: seq<TableDef>, cyclic: set<KeyId>, c: Node)
    requires TablesOk(members) && NamesCyclic(members, cyclic)
    ensures !OnCycle(Kahn.EdgeSet(KeptEdges(members, Refs(members), cyclic)), c)
  {
    var h := Kahn.EdgeSet(KeptEdges(members, Refs(members), cyclic));
    var g := Edges(members, Refs(members));
    if OnCycle(h, c) {
      var b :| (c, b) in h && Reach(h, b, c);
      KeptIsPart(members, cyclic);
      MoreEdges(h, g, b, c);
      var t, fk := KeptEdgeHasKey(members, Refs(members), cyclic, (c, b));
    }
  }

  lemma {:induction false} KeptIsPart(members: seq<TableDef>, cyclic: set<KeyId>)
    ensures Kahn.EdgeSet(KeptEdges(members, Refs(members), cyclic)) <= Edges(members, Refs(members))
  {
    forall e | e in KeptEdges(members, Refs(members), cyclic) ensures e in Edges(members, Refs(members)) {
      var t, fk := KeptEdgeHasKey(members, Refs(members), cyclic, e);
      KeyHasEdge(members, Refs(members), t, fk);
    }
  }

  lemma {:induction false} KeptEnds(members: seq<TableDef>, cyclic: set<KeyId>)
    requires TablesOk(members)
    ensures Kahn.EdgesOk(Refs(members), KeptEdges(members, Refs(members), cyclic))
  {
    forall e | e in KeptEdges(members, Refs(members), cyclic)
      ensures e.0 in Refs(members) && e.1 in Refs(members) && e.0 != e.1
    {
      var t, fk := KeptEdgeHasKey(members, Refs(members), cyclic, e);
      KeyHasEdge(members, Refs(members), t, fk);
      EdgeEnds(members, Refs(members), e);
    }
  }

  /** So Kahn's algorithm emits every member: the leftover branch is dead. */
  lemma {:induction false} NothingLeftOver(members: seq<TableDef>, cyclic: set<KeyId>, order: seq<Node>, x: Node)
    requires TablesOk(members) && NamesCyclic(members, cyclic) && x in Refs(members)
    requires Kahn.Sorted(Refs(members), KeptEdges(members, Refs(members), cyclic), {}, order)
    ensures x in order
  {
    var edges := KeptEdges(members, Refs(members), cyclic);
    var h := Kahn.EdgeSet(edges);
    if x !in order {
      var u := set y | y in Refs(members) && y !in order;
      KeptEnds(members, cyclic);
      forall y <- u ensures HasPredIn(h, u, y) {
        assert Kahn.Waits(edges, order, y);
        var p :| (p, y) in edges && p !in order;
        assert p in u && (p, y) in h;
      }
      var c := SourcelessHasCycle(h, u, x);
      KeptIsAcyclic(members, cyclic, c);
    }
  }

  /** The edge list as the two nested loops build it. */
  method CollectKept(members: seq<TableDef>, sel: set<Node>, cyclic: set<KeyId>) returns (edges: Kahn.EdgeList)
    ensures edges == KeptEdges(members, sel, cyclic)
  {
    edges := [];
    for i := 0 to |members|
      invariant edges == KeptEdges(members[..i], sel, cyclic)
    {
      var fks := members[i].fks;
      assert members[..i + 1][..i] == members[..i];
      for j := 0 to |fks|
        invariant edges == KeptEdges(members[..i], sel, cyclic) + KeptKeyEdges(fks[..j], sel, cyclic)
      {
        assert fks[..j + 1][..j] == fks[..j];
        if fks[j].parent !in sel || IdOf(fks[j]) in cyclic || fks[j].child == fks[j].parent { continue; }
        edges := edges + [(fks[j].parent, fks[j].child)];
      }
      assert fks[..|fks|] == fks;
    }
    assert members[..|members|] == members;
  }

  method NonCyclicTopoOrder(members: seq<TableDef>, cyclic: set<KeyId>) returns (order: seq<Node>)
    requires TablesOk(members) && NamesCyclic(members, cyclic)
    ensures PredsFirst(Kahn.EdgeSet(KeptEdges(members, Refs(members), cyclic)), order)
    ensures |order| == |members| && forall x :: x in order <==> x in Refs(members)
  {
    var inComp := Refs(members);
    var edges := CollectKept(members, inComp, cyclic);
    KeptEnds(members, cyclic);
    order := Kahn.Sort(inComp, edges, {});
    forall x | x in inComp ensures x in order { NothingLeftOver(members, cyclic, order, x); }
    RefsCount(members);
    DistinctCount(order, inComp);
  }

  lemma {:induction false} RefsCount(tables: seq<TableDef>)
    requires TablesOk(tables)
    ensures |Refs(tables)| == |tables|
  {
    if tables != [] {
      var n := |tables| - 1;
      RefsCount(tables[..n]);
      RefsHave(tables[..n], tables[n].ref);
    }
  }

  lemma {:induction false} DistinctCount(order: seq<Node>, nodes: set<Node>)
    requires Distinct(order) && forall x :: x in order <==> x in nodes
    ensures |order| == |nodes|
  {
    if order == [] {
      assert nodes == {};
    } else {
      var n := |order| - 1;
      assert order == order[..n] + [order[n]];
      DistinctCount(order[..n], nodes - {order[n]});
    }
  }

  // ---------- the Postgres apply order ----------

  /** x is an end of one of the on-cycle keys. */
  ghost predicate EndOf(cyc: seq<CyclicKey>, x: Node) {
    exists c :: c in cyc && (c.fk.child == x || c.fk.parent == x)
  }

  lemma {:induction false} KeyEndsOnCycle(tables: seq<TableDef>, t: TableDef, fk: ForeignKey)
    requires TablesOk(tables) && t in tables && fk in t.fks && KeyOnCycle(tables, fk)
    ensures OnCycle(Edges(tables, Refs(tables)), fk.parent) && OnCycle(Edges(tables, Refs(tables)), fk.child)
  {
    var g := Edges(tables, Refs(tables));
    KeyHasEdge(tables, Refs(tables), t, fk);
    if fk.child != fk.parent {
      var p :| WalkFrom(g, fk.child, fk.parent, p);
      assert WalkFrom(g, p[1], fk.parent, p[1..]);
      ReachEdge(g, fk.parent, fk.child);
      ReachTrans(g, p[1], fk.parent, fk.child);
      assert (fk.child, p[1]) in g;
    }
  }

  lemma {:induction false} FoundKey(tables: seq<TableDef>, cyc: seq<CyclicKey>, t: TableDef, fk: ForeignKey)
    requires Classified(tables, |tables|, cyc) && t in tables && fk in t.fks && KeyOnCycle(tables, fk)
    ensures ClassifyOne(fk, ByRef(tables)) in cyc
  {
    var i :| 0 <= i < |tables| && tables[i] == t;
    assert AllFound(tables, tables[i].fks, cyc);
  }

  lemma {:induction false} EndIsOnCycle(tables: seq<TableDef>, cyc: seq<CyclicKey>, x: Node)
    requires TablesOk(tables) && Classified(tables, |tables|, cyc) && EndOf(cyc, x)
    ensures OnCycle(Edges(tables, Refs(tables)), x)
  {
    assert tables[..|tables|] == tables;
    var c :| c in cyc && (c.fk.child == x || c.fk.parent == x);
    assert OwnedBy(tables, c.fk);
    var t :| t in tables && c.fk in t.fks;
    KeyEndsOnCycle(tables, t, c.fk);
  }

  lemma {:induction false} OnCycleIsEnd(tables: seq<TableDef>, cyc: seq<CyclicKey>, x: Node)
    requires TablesOk(tables) && Classified(tables, |tables|, cyc) && OnCycle(Edges(tables, Refs(tables)), x)
    ensures EndOf(cyc, x)
  {
    var g := Edges(tables, Refs(tables));
    var b :| (x, b) in g && Reach(g, b, x);
    var t, fk := EdgeHasKey(tables, Refs(tables), (x, b));
    FoundKey(tables, cyc, t, fk);
    var c := ClassifyOne(fk, ByRef(tables));
    assert c in cyc && c.fk.parent == x;
  }

  /** The reported cyclic members are exactly the tables on a cycle. */
  lemma {:induction false} EndsAreOnCycle(tables: seq<TableDef>, cyc: seq<CyclicKey>, x: Node)
    requires TablesOk(tables) && Classified(tables, |tables|, cyc)
    ensures EndOf(cyc, x) <==> OnCycle(Edges(tables, Refs(tables)), x)
  {
    if EndOf(cyc, x) { EndIsOnCycle(tables, cyc, x); }
    if OnCycle(Edges(tables, Refs(tables)), x) { OnCycleIsEnd(tables, cyc, x); }
  }

  lemma ClassifiedNames(members: seq<TableDef>, cyc: seq<CyclicKey>, cyclic: set<KeyId>)
    requires Classified(members, |members|, cyc)
    requires forall c <- cyc :: IdOf(c.fk) in cyclic
    ensures NamesCyclic(members, cyclic)
  {
    forall t, fk | t in members && fk in t.fks && KeyOnCycle(members, fk) ensures IdOf(fk) in cyclic {
      FoundKey(members, cyc, t, fk);
      assert ClassifyOne(fk, ByRef(members)) in cyc;
    }
  }

  /** An order of all members along every key that is on no cycle, and the members on a
      cycle. */
  method TopoOrder(members: seq<TableDef>) returns (order: seq<Node>, cyclic: set<Node>, ghost cyc: seq<CyclicKey>)
    requires TablesOk(members)
    ensures Classified(members, |members|, cyc) && OrderedBy(members, cyc, order)
    ensures forall x :: x in cyclic <==> OnCycle(Edges(members, Refs(members)), x)
  {
    var keys := ClassifyCyclicKeys(members);
    var ids: set<KeyId> := {};
    cyclic := {};
    for i := 0 to |keys|
      invariant forall c <- keys[..i] :: IdOf(c.fk) in ids
      invariant forall d <- ids :: exists c :: c in keys && IdOf(c.fk) == d
      invariant forall x :: x in cyclic <==> EndOf(keys[..i], x)
    {
      assert keys[..i + 1] == keys[..i] + [keys[i]];
      EndOfAppend(keys[..i], keys[i]);
      ids := ids + {IdOf(keys[i].fk)};
      cyclic := cyclic + {keys[i].fk.child} + {keys[i].fk.parent};
    }
    assert keys[..|keys|] == keys;
    ClassifiedNames(members, keys, ids);
    forall x ensures EndOf(keys, x) <==> OnCycle(Edges(members, Refs(members)), x) { EndsAreOnCycle(members, keys, x); }
    order := NonCyclicTopoOrder(members, ids);
    cyc := keys;
    OffCycleKept(members, keys, ids, order);
  }

  lemma EndOfAppend(cyc: seq<CyclicKey>, k: CyclicKey)
    ensures forall x :: EndOf(cyc + [k], x) <==> EndOf(cyc, x) || x == k.fk.child || x == k.fk.parent
  {
    forall x ensures EndOf(cyc + [k], x) <==> EndOf(cyc, x) || x == k.fk.child || x == k.fk.parent {
      if EndOf(cyc, x) {
        var c :| c in cyc && (c.fk.child == x || c.fk.parent == x);
        assert c in cyc + [k];
      }
      if x == k.fk.child || x == k.fk.parent { assert k in cyc + [k]; }
    }
  }

  /** Every member once; a key on no cycle has its parent before its child. */
  ghost predicate OrderedBy(members: seq<TableDef>, cyc: seq<CyclicKey>, order: seq<Node>) {
    && Distinct(order) && (forall x :: x in order <==> x in Refs(members))
    && (forall t, fk | t in members && fk in t.fks && fk.parent in Refs(members) && !KeyOnCycle(members, fk) ::
          Before(order, fk.parent, fk.child))
  }

  lemma {:induction false} OffCycleKept(members: seq<TableDef>, cyc: seq<CyclicKey>, cyclic: set<KeyId>, order: seq<Node>)
    requires TablesOk(members) && Classified(members, |members|, cyc)
    requires forall d <- cyclic :: exists c :: c in cyc && IdOf(c.fk) == d
    requires PredsFirst(Kahn.EdgeSet(KeptEdges(members, Refs(members), cyclic)), order)
    requires forall x :: x in order <==> x in Refs(members)
    ensures OrderedBy(members, cyc, order)
  {
    var g := Edges(members, Refs(members));
    forall t, fk | t in members && fk in t.fks && fk.parent in Refs(members) && !KeyOnCycle(members, fk)
      ensures Before(order, fk.parent, fk.child)
    {
      if fk.child == fk.parent { ReachSelf(g, fk.child); }
      assert IdOf(fk) !in cyclic;
      KeptKeyHasEdge(members, Refs(members), cyclic, t, fk);
      KeyHasEdge(members, Refs(members), t, fk);
      EdgeEnds(members, Refs(members), (fk.parent, fk.child));
      assert (fk.parent, fk.child) in Kahn.EdgeSet(KeptEdges(members, Refs(members), cyclic));
    }
  }

  /** Both analyses call a component cyclic on exactly the same components. */
  lemma {:induction false} AnalysesAgreeOnCycles(members: seq<TableDef>, order: seq<Node>, tainted: seq<Node>, onCycle: set<Node>)
    requires TablesOk(members) && IsApplyOrder(members, order, tainted)
    requires forall x :: x in onCycle <==> OnCycle(Edges(members, Refs(members)), x)
    ensures tainted != [] <==> onCycle != {}
    ensures forall x <- onCycle :: x in tainted
  {
    var g := Edges(members, Refs(members));
    HasCycleExactly(members, order, tainted);
    forall x <- onCycle ensures x in tainted {
      var b :| (x, b) in g && Reach(g, b, x);
      EdgeEnds(members, Refs(members), (x, b));
      ReachSelf(g, x);
      assert Tainted(g, x);
    }
  }
}
