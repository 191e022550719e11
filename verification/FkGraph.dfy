/** Foreign-key components of a selection and their apply order.

    Tables are named by their qualified name. Every foreign key belongs to its child
    table. Only foreign keys whose parent is selected connect tables. */
module FkGraph {
  import opened Graph
  import opened UnionFind
  import Kahn

  datatype ForeignKey = ForeignKey(name: string, child: Node, parent: Node, cols: seq<string>, deferrable: bool)

  /** `nullable` lists the table's columns with their nullability. */
  datatype TableDef = TableDef(ref: Node, nullable: map<string, bool>, fks: seq<ForeignKey>)

  ghost predicate TablesOk(tables: seq<TableDef>) {
    && (forall i, j | 0 <= i < j < |tables| :: tables[i].ref != tables[j].ref)
    && (forall i | 0 <= i < |tables| :: OwnKeys(tables[i]))
  }

  ghost predicate OwnKeys(t: TableDef) {
    forall fk <- t.fks :: fk.child == t.ref
  }

  function Refs(tables: seq<TableDef>): set<Node> {
    if tables == [] then {} else Refs(tables[..|tables| - 1]) + {tables[|tables| - 1].ref}
  }

  lemma {:induction false} RefsHave(tables: seq<TableDef>, x: Node)
    ensures x in Refs(tables) <==> exists i :: 0 <= i < |tables| && tables[i].ref == x
  {
    if tables != [] {
      var n := |tables| - 1;
      RefsHave(tables[..n], x);
      if x in Refs(tables[..n]) {
        var i :| 0 <= i < n && tables[..n][i].ref == x;
        assert tables[i].ref == x;
      }
      if i :| 0 <= i < |tables| && tables[i].ref == x {
        if i < n { assert tables[..n][i].ref == x; }
      }
    }
  }

  /** Edges parent -> child of one table's foreign keys with a selected parent. */
  function KeyEdges(fks: seq<ForeignKey>, sel: set<Node>): Graph {
    if fks == [] then {}
    else
      var fk := fks[|fks| - 1];
      KeyEdges(fks[..|fks| - 1], sel) + if fk.parent in sel then {(fk.parent, fk.child)} else {}
  }

  function Edges(tables: seq<TableDef>, sel: set<Node>): Graph {
    if tables == [] then {} else Edges(tables[..|tables| - 1], sel) + KeyEdges(tables[|tables| - 1].fks, sel)
  }

  lemma {:induction false} KeyEdgesAppend(fks: seq<ForeignKey>, sel: set<Node>, i: nat)
    requires i < |fks|
    ensures KeyEdges(fks[..i + 1], sel) ==
            KeyEdges(fks[..i], sel) + if fks[i].parent in sel then {(fks[i].parent, fks[i].child)} else {}
  {
    assert fks[..i + 1][..i] == fks[..i];
  }

  lemma {:induction false} EdgesAppend(tables: seq<TableDef>, sel: set<Node>, i: nat)
    requires i < |tables|
    ensures Edges(tables[..i + 1], sel) == Edges(tables[..i], sel) + KeyEdges(tables[i].fks, sel)
    ensures Refs(tables[..i + 1]) == Refs(tables[..i]) + {tables[i].ref}
  {
    assert tables[..i + 1][..i] == tables[..i];
  }

  lemma {:induction false} KeyEdgesHave(fks: seq<ForeignKey>, sel: set<Node>, e: (Node, Node))
    ensures e in KeyEdges(fks, sel) <==> exists fk :: fk in fks && fk.parent in sel && e == (fk.parent, fk.child)
  {
    if fks != [] {
      var n := |fks| - 1;
      KeyEdgesHave(fks[..n], sel, e);
      assert fks == fks[..n] + [fks[n]];
    }
  }

  /** e comes from a foreign key of one of the tables. */
  ghost predicate FromKey(tables: seq<TableDef>, sel: set<Node>, e: (Node, Node), t: TableDef, fk: ForeignKey) {
    t in tables && fk in t.fks && fk.parent in sel && e == (fk.parent, fk.child)
  }

  lemma {:induction false} EdgeHasKey(tables: seq<TableDef>, sel: set<Node>, e: (Node, Node))
    returns (t: TableDef, fk: ForeignKey)
    requires e in Edges(tables, sel)
    ensures FromKey(tables, sel, e, t, fk)
  {
    var n := |tables| - 1;
    assert tables == tables[..n] + [tables[n]];
    if e in KeyEdges(tables[n].fks, sel) {
      t := tables[n];
      KeyEdgesHave(t.fks, sel, e);
      fk :| fk in t.fks && fk.parent in sel && e == (fk.parent, fk.child);
    } else {
      t, fk := EdgeHasKey(tables[..n], sel, e);
    }
  }

  lemma {:induction false} KeyHasEdge(tables: seq<TableDef>, sel: set<Node>, t: TableDef, fk: ForeignKey)
    requires t in tables && fk in t.fks && fk.parent in sel
    ensures (fk.parent, fk.child) in Edges(tables, sel)
  {
    var n := |tables| - 1;
    if t == tables[n] {
      KeyEdgesHave(t.fks, sel, (fk.parent, fk.child));
    } else {
      assert tables == tables[..n] + [tables[n]];
      KeyHasEdge(tables[..n], sel, t, fk);
    }
  }

  lemma {:induction false} EdgeEnds(tables: seq<TableDef>, sel: set<Node>, e: (Node, Node))
    requires TablesOk(tables) && e in Edges(tables, sel)
    ensures e.0 in sel && e.1 in Refs(tables)
  {
    var t, fk := EdgeHasKey(tables, sel, e);
    var i :| 0 <= i < |tables| && tables[i] == t;
    assert OwnKeys(tables[i]);
    RefsHave(tables, t.ref);
  }

  // ---------- components ----------

  function Sym(g: Graph): Graph {
    g + (set e | e in g :: (e.1, e.0))
  }

  /** Connected, ignoring the direction of edges. */
  ghost predicate Conn(g: Graph, x: Node, y: Node) {
    Reach(Sym(g), x, y)
  }

  lemma {:induction false} ConnFlip(g: Graph, x: Node, y: Node, p: seq<Node>)
    requires WalkFrom(Sym(g), x, y, p)
    ensures Conn(g, y, x)
    decreases |p|
  {
    if |p| == 1 {
      ReachSelf(Sym(g), x);
    } else {
      assert WalkFrom(Sym(g), p[1], y, p[1..]);
      ConnFlip(g, p[1], y, p[1..]);
      ReachEdge(Sym(g), p[1], x);
      ReachTrans(Sym(g), y, p[1], x);
    }
  }

  lemma ConnSym(g: Graph, x: Node, y: Node)
    ensures Conn(g, x, y) <==> Conn(g, y, x)
  {
    if Conn(g, x, y) {
      var p :| WalkFrom(Sym(g), x, y, p);
      ConnFlip(g, x, y, p);
    }
    if Conn(g, y, x) {
      var p :| WalkFrom(Sym(g), y, x, p);
      ConnFlip(g, y, x, p);
    }
  }

  /** How one more edge changes connectivity. */
  ghost predicate ConnVia(g: Graph, a: Node, b: Node, x: Node, y: Node) {
    || Conn(g, x, y)
    || (Conn(g, x, a) && Conn(g, b, y))
    || (Conn(g, x, b) && Conn(g, a, y))
  }

  lemma {:induction false} WalkVia(g: Graph, a: Node, b: Node, x: Node, y: Node, p: seq<Node>)
    requires WalkFrom(Sym(g + {(a, b)}), x, y, p)
    ensures ConnVia(g, a, b, x, y)
    decreases |p|
  {
    var s := Sym(g);
    if |p| == 1 {
      ReachSelf(s, x);
    } else {
      var z := p[1];
      assert WalkFrom(Sym(g + {(a, b)}), z, y, p[1..]);
      WalkVia(g, a, b, z, y, p[1..]);
      if (x, z) in s {
        if Conn(g, z, y) { ReachStep(s, x, z, y); }
        else if Conn(g, z, a) && Conn(g, b, y) { ReachStep(s, x, z, a); }
        else { ReachStep(s, x, z, b); }
      } else {
        ReachSelf(s, a);
        ReachSelf(s, b);
      }
    }
  }

  lemma OneMoreConn(g: Graph, a: Node, b: Node, x: Node, y: Node)
    ensures Conn(g + {(a, b)}, x, y) <==> ConnVia(g, a, b, x, y)
  {
    var s, t := Sym(g), Sym(g + {(a, b)});
    if Conn(g + {(a, b)}, x, y) {
      var p :| WalkFrom(t, x, y, p);
      WalkVia(g, a, b, x, y, p);
    }
    if Conn(g, x, y) {
      MoreEdges(s, t, x, y);
    } else if Conn(g, x, a) && Conn(g, b, y) {
      MoreEdges(s, t, x, a);
      MoreEdges(s, t, b, y);
      ReachStep(t, a, b, y);
      ReachTrans(t, x, a, y);
    } else if Conn(g, x, b) && Conn(g, a, y) {
      MoreEdges(s, t, x, b);
      MoreEdges(s, t, a, y);
      ReachStep(t, b, a, y);
      ReachTrans(t, x, b, y);
    }
  }

  /** The partition is exactly connectivity. */
  ghost predicate Matches(p: Partition, nodes: set<Node>, g: Graph) {
    match p
    case Partition(c) =>
      && c.Keys == nodes
      && forall x, y | x in c && y in c :: c[x] == c[y] <==> Conn(g, x, y)
  }

  lemma ConnNone(x: Node, y: Node)
    ensures Conn({}, x, y) <==> x == y
  {
    ReachSelf(Sym({}), x);
    if Conn({}, x, y) { ClosedReach(Sym({}), {x}, x, y); }
  }

  lemma UnionMatches(p: Partition, nodes: set<Node>, g: Graph, a: Node, b: Node, q: Partition)
    requires Matches(p, nodes, g) && a in nodes && b in nodes && Joins(p, a, b, q)
    ensures Matches(q, nodes, g + {(a, b)})
  {
    forall x, y | x in nodes && y in nodes ensures q.class_[x] == q.class_[y] <==> Conn(g + {(a, b)}, x, y) {
      OneMoreConn(g, a, b, x, y);
      ConnSym(g, b, y);
      ConnSym(g, a, y);
      assert Joined(p.class_, a, b, x, y) <==> ConnVia(g, a, b, x, y);
    }
  }

  lemma JoinsFlip(p: Partition, a: Node, b: Node, q: Partition)
    requires Joins(p, a, b, q)
    ensures Joins(p, b, a, q)
  {}

  ghost predicate Isolated(p: Partition, nodes: set<Node>) {
    match p
    case Partition(c) => c.Keys == nodes && forall x | x in c :: c[x] == x
  }

  lemma IsolatedMatches(p: Partition, nodes: set<Node>)
    requires Isolated(p, nodes)
    ensures Matches(p, nodes, {})
  {
    forall x, y | x in p.class_ && y in p.class_ ensures p.class_[x] == p.class_[y] <==> Conn({}, x, y) {
      ConnNone(x, y);
    }
  }

  /** Every selected table in its own class. */
  method AddTables(tables: seq<TableDef>) returns (uf: UnionFind)
    ensures fresh(uf) && Valid(uf.Value()) && Isolated(Classes(uf.Value()), Refs(tables))
  {
    uf := new UnionFind();
    for i := 0 to |tables|
      invariant fresh(uf) && Valid(uf.Value()) && Isolated(Classes(uf.Value()), Refs(tables[..i]))
    {
      uf.Add(tables[i].ref);
      EdgesAppend(tables, {}, i);
    }
    assert tables[..|tables|] == tables;
  }

  /** Joins the tables of every foreign key with a selected parent. */
  method UnionKeys(uf: UnionFind, t: TableDef, sel: set<Node>, ghost nodes: set<Node>, ghost g: Graph)
    requires Valid(uf.Value()) && Matches(Classes(uf.Value()), nodes, g)
    requires sel <= nodes && t.ref in nodes && OwnKeys(t)
    modifies uf
    ensures Valid(uf.Value()) && Matches(Classes(uf.Value()), nodes, g + KeyEdges(t.fks, sel))
  {
    assert g + KeyEdges(t.fks[..0], sel) == g;
    for i := 0 to |t.fks|
      invariant Valid(uf.Value()) && Matches(Classes(uf.Value()), nodes, g + KeyEdges(t.fks[..i], sel))
    {
      var fk := t.fks[i];
      ghost var h := g + KeyEdges(t.fks[..i], sel);
      KeyEdgesAppend(t.fks, sel, i);
      if fk.parent in sel {
        ghost var p := Classes(uf.Value());
        uf.Union(fk.child, fk.parent);
        JoinsFlip(p, fk.child, fk.parent, Classes(uf.Value()));
        UnionMatches(p, nodes, h, fk.parent, fk.child, Classes(uf.Value()));
        assert h + {(fk.parent, fk.child)} == g + KeyEdges(t.fks[..i + 1], sel);
      } else {
        assert h == g + KeyEdges(t.fks[..i + 1], sel);
      }
    }
    assert t.fks[..|t.fks|] == t.fks;
  }

  method UnionTables(uf: UnionFind, tables: seq<TableDef>, sel: set<Node>)
    requires Valid(uf.Value()) && Isolated(Classes(uf.Value()), Refs(tables))
    requires TablesOk(tables) && sel == Refs(tables)
    modifies uf
    ensures Valid(uf.Value()) && Matches(Classes(uf.Value()), sel, Edges(tables, sel))
  {
    IsolatedMatches(Classes(uf.Value()), sel);
    for i := 0 to |tables|
      invariant Valid(uf.Value()) && Matches(Classes(uf.Value()), sel, Edges(tables[..i], sel))
    {
      EdgesAppend(tables, sel, i);
      RefsHave(tables, tables[i].ref);
      UnionKeys(uf, tables[i], sel, sel, Edges(tables[..i], sel));
    }
    assert tables[..|tables|] == tables;
  }

  type Groups = map<Node, seq<TableDef>>

  ghost predicate InGroup(groups: Groups, r: Node, t: TableDef) {
    r in groups && t in groups[r]
  }

  /** The tables by the root of their class. */
  ghost predicate GroupedBy(tables: seq<TableDef>, p: Partition, groups: Groups) {
    && (forall r, t | InGroup(groups, r, t) :: t in tables && t.ref in p.class_ && p.class_[t.ref] == r)
    && (forall t <- tables :: t.ref in p.class_ && InGroup(groups, p.class_[t.ref], t))
  }

  method GroupTables(uf: UnionFind, tables: seq<TableDef>) returns (groups: Groups)
    requires Valid(uf.Value()) && uf.Value().parent.Keys == Refs(tables)
    modifies uf
    ensures GroupedBy(tables, old(Classes(uf.Value())), groups)
  {
    groups := map[];
    ghost var p := Classes(uf.Value());
    for i := 0 to |tables|
      invariant Valid(uf.Value()) && Classes(uf.Value()) == p && uf.Value().parent.Keys == Refs(tables)
      invariant GroupedBy(tables[..i], p, groups)
    {
      var t := tables[i];
      RefsHave(tables, t.ref);
      var root := uf.Find(t.ref);
      SameClass(uf.Value(), uf.Value(), t.ref);
      assert root == p.class_[t.ref];
      GroupOne(tables, i, p, groups, root);
      groups := groups[root := (if root in groups then groups[root] else []) + [t]];
    }
    assert tables[..|tables|] == tables;
  }

  lemma GroupOne(tables: seq<TableDef>, i: nat, p: Partition, groups: Groups, root: Node)
    requires i < |tables| && GroupedBy(tables[..i], p, groups)
    requires tables[i].ref in p.class_ && root == p.class_[tables[i].ref]
    ensures GroupedBy(tables[..i + 1], p,
                      groups[root := (if root in groups then groups[root] else []) + [tables[i]]])
  {
    var t := tables[i];
    var groups' := groups[root := (if root in groups then groups[root] else []) + [t]];
    assert tables[..i + 1] == tables[..i] + [t];
    forall r, u | InGroup(groups', r, u) ensures u in tables[..i + 1] && u.ref in p.class_ && p.class_[u.ref] == r {
      if !(r == root && u == t) { assert InGroup(groups, r, u); }
    }
    forall u <- tables[..i + 1] ensures u.ref in p.class_ && InGroup(groups', p.class_[u.ref], u) {
      if u in tables[..i] { assert InGroup(groups, p.class_[u.ref], u); }
    }
  }

  /** Two tables are grouped together exactly when selected foreign keys connect them. */
  ghost predicate AreComponents(tables: seq<TableDef>, groups: Groups) {
    && (forall r, t | InGroup(groups, r, t) :: t in tables)
    && (forall t <- tables :: exists r :: InGroup(groups, r, t))
    && (forall r, s, t, u | InGroup(groups, r, t) && InGroup(groups, s, u) ::
          r == s <==> Conn(Edges(tables, Refs(tables)), t.ref, u.ref))
  }

  /** The connected components of the selection. */
  method Components(selected: seq<TableDef>) returns (groups: Groups)
    requires TablesOk(selected)
    ensures AreComponents(selected, groups)
  {
    var sel := Refs(selected);
    var uf := AddTables(selected);
    UnionTables(uf, selected, sel);
    ghost var p := Classes(uf.Value());
    groups := GroupTables(uf, selected);
    GroupsAreComponents(selected, p, groups);
  }

  lemma {:induction false} GroupsAreComponents(tables: seq<TableDef>, p: Partition, groups: Groups)
    requires GroupedBy(tables, p, groups) && Matches(p, Refs(tables), Edges(tables, Refs(tables)))
    ensures AreComponents(tables, groups)
  {
    forall t <- tables ensures exists r :: InGroup(groups, r, t) {
      assert InGroup(groups, p.class_[t.ref], t);
    }
  }

  /** No selected foreign key crosses a component boundary. */
  lemma NoKeyCrosses(tables: seq<TableDef>, groups: Groups, r: Node, s: Node, t: TableDef, u: TableDef, fk: ForeignKey)
    requires TablesOk(tables) && AreComponents(tables, groups)
    requires InGroup(groups, r, t) && InGroup(groups, s, u) && fk in t.fks && fk.parent == u.ref
    ensures r == s
  {
    var g := Edges(tables, Refs(tables));
    var i :| 0 <= i < |tables| && tables[i] == t;
    assert OwnKeys(tables[i]);
    var j :| 0 <= j < |tables| && tables[j] == u;
    RefsHave(tables, u.ref);
    KeyHasEdge(tables, Refs(tables), t, fk);
    ReachEdge(Sym(g), t.ref, u.ref);
  }

  // ---------- the apply order ----------

  /** x, or an ancestor of it, lies on a cycle or references itself. */
  ghost predicate Tainted(g: Graph, x: Node) {
    exists c :: OnCycle(g, c) && Reach(g, c, x)
  }

  ghost predicate NoSelfLoops(g: Graph, edges: Kahn.EdgeList) {
    forall e :: e in edges <==> e in g && e.0 != e.1
  }

  ghost predicate SelfLoops(g: Graph, selfs: set<Node>) {
    forall x :: x in selfs <==> (x, x) in g
  }

  /** What the sort emitted is a parents-first order of the whole graph. */
  lemma EmittedInOrder(nodes: set<Node>, g: Graph, edges: Kahn.EdgeList, selfs: set<Node>, order: seq<Node>)
    requires NoSelfLoops(g, edges) && SelfLoops(g, selfs) && Kahn.Sorted(nodes, edges, selfs, order)
    ensures PredsFirst(g, order)
  {
    forall e <- g | e.1 in order ensures Before(order, e.0, e.1) {
      assert (e.1, e.1) !in g && e == (e.0, e.1);
      assert e in Kahn.EdgeSet(edges);
    }
  }

  lemma LeftoverHasPred(nodes: set<Node>, g: Graph, edges: Kahn.EdgeList, selfs: set<Node>, order: seq<Node>,
                        u: set<Node>, y: Node)
    requires forall e <- g :: e.0 in nodes && e.1 in nodes
    requires NoSelfLoops(g, edges) && SelfLoops(g, selfs) && Kahn.Sorted(nodes, edges, selfs, order)
    requires u == (set x | x in nodes && x !in order) && y in u
    ensures HasPredIn(g, u, y)
  {
    if y in selfs {
      assert (y, y) in g;
    } else {
      assert Kahn.Waits(edges, order, y);
      var p :| (p, y) in edges && p !in order;
      assert (p, y) in g && p in u;
    }
  }

  /** What the sort leaves out is exactly the tainted tables. */
  lemma LeftoverIsTainted(nodes: set<Node>, g: Graph, edges: Kahn.EdgeList, selfs: set<Node>, order: seq<Node>, x: Node)
    requires forall e <- g :: e.0 in nodes && e.1 in nodes
    requires NoSelfLoops(g, edges) && SelfLoops(g, selfs) && Kahn.Sorted(nodes, edges, selfs, order)
    requires x in nodes
    ensures x !in order <==> Tainted(g, x)
  {
    EmittedInOrder(nodes, g, edges, selfs, order);
    if x in order {
      forall c | Reach(g, c, x) ensures !OnCycle(g, c) { OrderedIsAcyclic(g, order, c, x); }
    } else {
      var u := set y | y in nodes && y !in order;
      forall y <- u ensures HasPredIn(g, u, y) { LeftoverHasPred(nodes, g, edges, selfs, order, u, y); }
      assert x in u;
      var c := SourcelessHasCycle(g, u, x);
    }
  }

  /** Distinct parent-child pairs and self-references of the members' foreign keys. */
  method MemberEdges(members: seq<TableDef>, memberSet: set<Node>) returns (edges: Kahn.EdgeList, selfs: set<Node>)
    ensures NoSelfLoops(Edges(members, memberSet), edges) && SelfLoops(Edges(members, memberSet), selfs)
  {
    edges, selfs := [], {};
    for i := 0 to |members|
      invariant NoSelfLoops(Edges(members[..i], memberSet), edges)
      invariant SelfLoops(Edges(members[..i], memberSet), selfs)
    {
      ghost var g := Edges(members[..i], memberSet);
      var fks := members[i].fks;
      EdgesAppend(members, memberSet, i);
      assert g + KeyEdges(fks[..0], memberSet) == g;
      for j := 0 to |fks|
        invariant NoSelfLoops(g + KeyEdges(fks[..j], memberSet), edges)
        invariant SelfLoops(g + KeyEdges(fks[..j], memberSet), selfs)
      {
        var fk := fks[j];
        KeyEdgesAppend(fks, memberSet, j);
        if fk.parent !in memberSet { continue; }
        if fk.child == fk.parent {
          selfs := selfs + {fk.child};
          continue;
        }
        if (fk.parent, fk.child) !in edges {
          edges := edges + [(fk.parent, fk.child)];
        }
      }
      assert fks[..|fks|] == fks;
    }
    assert members[..|members|] == members;
  }

  /** The members not in `order`, in member order. */
  method Remaining(members: seq<TableDef>, order: seq<Node>) returns (rest: seq<Node>)
    requires TablesOk(members)
    ensures Distinct(rest) && forall x :: x in rest <==> x in Refs(members) && x !in order
  {
    rest := [];
    for i := 0 to |members|
      invariant Distinct(rest) && forall x :: x in rest <==> x in Refs(members[..i]) && x !in order
    {
      EdgesAppend(members, {}, i);
      assert members[i].ref !in Refs(members[..i]) by { RefsHave(members[..i], members[i].ref); }
      if members[i].ref !in order {
        rest := rest + [members[i].ref];
      }
    }
    assert members[..|members|] == members;
  }

  /** The apply order: every member once, the acyclic ones first with parents before
      children, then exactly the tainted ones. */
  ghost predicate IsApplyOrder(members: seq<TableDef>, order: seq<Node>, cyclic: seq<Node>) {
    var g := Edges(members, Refs(members));
    && Distinct(order) && (forall x :: x in order <==> x in Refs(members))
    && |cyclic| <= |order| && order[|order| - |cyclic|..] == cyclic
    && PredsFirst(g, order[..|order| - |cyclic|])
    && (forall x :: x in cyclic <==> x in Refs(members) && Tainted(g, x))
  }

  lemma {:induction false} AppendCyclic(members: seq<TableDef>, sorted: seq<Node>, cyclic: seq<Node>)
    requires PredsFirst(Edges(members, Refs(members)), sorted) && Distinct(cyclic)
    requires forall x <- sorted :: x in Refs(members)
    requires forall x :: x in cyclic <==> x in Refs(members) && x !in sorted
    requires forall x :: x in cyclic <==> x in Refs(members) && Tainted(Edges(members, Refs(members)), x)
    ensures IsApplyOrder(members, sorted + cyclic, cyclic)
  {
    var order := sorted + cyclic;
    assert order[..|order| - |cyclic|] == sorted && order[|order| - |cyclic|..] == cyclic;
    forall i, j | 0 <= i < j < |order| ensures order[i] != order[j] {
      assert i < |sorted| ==> sorted[i] in sorted;
      assert j >= |sorted| ==> cyclic[j - |sorted|] in cyclic;
    }
  }

  method TopoOrder(members: seq<TableDef>) returns (order: seq<Node>, cyclic: seq<Node>)
    requires TablesOk(members)
    ensures IsApplyOrder(members, order, cyclic)
  {
    var memberSet := Refs(members);
    var edges, selfs := MemberEdges(members, memberSet);
    SortInputs(members, edges);
    var sorted := Kahn.Sort(memberSet, edges, selfs);
    cyclic := Remaining(members, sorted);
    LeftoverTainted(members, edges, selfs, sorted, cyclic);
    AppendCyclic(members, sorted, cyclic);
    order := sorted + cyclic;
  }

  lemma {:induction false} SortInputs(members: seq<TableDef>, edges: Kahn.EdgeList)
    requires TablesOk(members) && NoSelfLoops(Edges(members, Refs(members)), edges)
    ensures Kahn.EdgesOk(Refs(members), edges)
  {
    forall e <- edges ensures e.0 in Refs(members) && e.1 in Refs(members) { EdgeEnds(members, Refs(members), e); }
  }

  lemma {:induction false} LeftoverTainted(members: seq<TableDef>, edges: Kahn.EdgeList, selfs: set<Node>, sorted: seq<Node>, cyclic: seq<Node>)
    requires TablesOk(members)
    requires NoSelfLoops(Edges(members, Refs(members)), edges) && SelfLoops(Edges(members, Refs(members)), selfs)
    requires Kahn.Sorted(Refs(members), edges, selfs, sorted)
    requires forall x :: x in cyclic <==> x in Refs(members) && x !in sorted
    ensures PredsFirst(Edges(members, Refs(members)), sorted)
    ensures forall x :: x in cyclic <==> x in Refs(members) && Tainted(Edges(members, Refs(members)), x)
  {
    var nodes, g := Refs(members), Edges(members, Refs(members));
    forall e <- g ensures e.0 in nodes && e.1 in nodes { EdgeEnds(members, nodes, e); }
    EmittedInOrder(nodes, g, edges, selfs, sorted);
    forall x ensures x in cyclic <==> x in nodes && Tainted(g, x) {
      if x in nodes { LeftoverIsTainted(nodes, g, edges, selfs, sorted, x); }
    }
  }

  /** The component is reported cyclic exactly when some member lies on a cycle. */
  lemma {:induction false} HasCycleExactly(members: seq<TableDef>, order: seq<Node>, cyclic: seq<Node>)
    requires TablesOk(members) && IsApplyOrder(members, order, cyclic)
    ensures cyclic != [] <==> exists c :: OnCycle(Edges(members, Refs(members)), c)
  {
    var g := Edges(members, Refs(members));
    if cyclic != [] {
      assert cyclic[0] in cyclic;
    }
    if c :| OnCycle(g, c) {
      var b :| (c, b) in g && Reach(g, b, c);
      EdgeEnds(members, Refs(members), (c, b));
      ReachSelf(g, c);
      assert Tainted(g, c);
      assert c in cyclic;
    }
  }
}
