/** Union-find with path halving and union by rank, and the FK components built on it. */
module UnionFind {
  import opened Graph

  datatype Forest = Forest(parent: map<Node, Node>, rank: map<Node, nat>)

  /** x's parent is in the forest, and ranks rise along parent links. */
  ghost predicate LinkOk(f: Forest, x: Node) {
    && x in f.parent && x in f.rank && f.parent[x] in f.parent && f.parent[x] in f.rank
    && (f.parent[x] != x ==> f.rank[x] < f.rank[f.parent[x]])
  }

  ghost predicate Valid(f: Forest) {
    match f
    case Forest(parent, rank) =>
      && parent.Keys == rank.Keys
      && forall x {:trigger LinkOk(f, x)} | x in parent :: LinkOk(f, x)
  }

  /** The rank measure: nodes ranked above x. */
  ghost function Above(f: Forest, x: Node): set<Node>
    requires x in f.rank
  {
    set y | y in f.rank && f.rank[y] > f.rank[x]
  }

  lemma ParentShrinksAbove(f: Forest, x: Node)
    requires LinkOk(f, x) && f.parent[x] != x
    ensures Above(f, f.parent[x]) < Above(f, x)
  {
    assert f.parent[x] in Above(f, x) && f.parent[x] !in Above(f, f.parent[x]);
  }

  ghost function Root(f: Forest, x: Node): (r: Node)
    requires Valid(f) && x in f.parent
    ensures r in f.parent && f.parent[r] == r
    decreases Above(f, x)
  {
    assert LinkOk(f, x);
    if f.parent[x] == x then x else ParentShrinksAbove(f, x); Root(f, f.parent[x])
  }

  // ---------- path halving ----------

  /** The state after one halving step: x now points at its grandparent. */
  function Halved(f: Forest, x: Node): Forest
    requires x in f.parent && f.parent[x] in f.parent
  {
    f.(parent := f.parent[x := f.parent[f.parent[x]]])
  }

  lemma HalvedValid(f: Forest, x: Node)
    requires Valid(f) && LinkOk(f, x)
    ensures Valid(Halved(f, x))
  {
    var h := Halved(f, x);
    assert LinkOk(f, f.parent[x]);
    forall y | y in h.parent ensures LinkOk(h, y) {
      assert LinkOk(f, y);
    }
  }

  /** Halving moves no node to another tree. */
  lemma {:induction false} HalvingKeepsRoots(f: Forest, x: Node, y: Node)
    requires Valid(f) && LinkOk(f, x) && y in f.parent && Valid(Halved(f, x))
    ensures Root(Halved(f, x), y) == Root(f, y)
    decreases Above(f, y)
  {
    var h, p := Halved(f, x), f.parent[y];
    assert LinkOk(f, y);
    if p != y {
      ParentShrinksAbove(f, y);
      HalvingKeepsRoots(f, x, p);
      if x == y {
        assert LinkOk(f, p);
        assert h.parent[y] == f.parent[p] == h.parent[p];
        assert f.parent[p] != y;
      }
    }
  }

  // ---------- linking ----------

  /** Linking the root `child` under the root `top`. */
  function Linked(f: Forest, child: Node, top: Node): Forest
    requires child in f.rank && top in f.rank
  {
    Forest(f.parent[child := top],
           if f.rank[top] == f.rank[child] then f.rank[top := f.rank[top] + 1] else f.rank)
  }

  /** Two different roots, the taller one last. */
  ghost predicate Linkable(f: Forest, child: Node, top: Node) {
    && LinkOk(f, child) && LinkOk(f, top) && child != top
    && f.parent[child] == child && f.parent[top] == top && f.rank[child] <= f.rank[top]
  }

  lemma LinkedValid(f: Forest, child: Node, top: Node)
    requires Valid(f) && Linkable(f, child, top)
    ensures Valid(Linked(f, child, top))
  {
    var l := Linked(f, child, top);
    forall y | y in l.parent ensures LinkOk(l, y) {
      assert LinkOk(f, y);
    }
  }

  /** Linking merges exactly the two trees. */
  lemma {:induction false} LinkMerges(f: Forest, child: Node, top: Node, y: Node)
    requires Valid(f) && Linkable(f, child, top) && y in f.parent && Valid(Linked(f, child, top))
    ensures Root(Linked(f, child, top), y) == if Root(f, y) == child then top else Root(f, y)
    decreases Above(f, y)
  {
    assert LinkOk(f, y);
    if f.parent[y] != y {
      ParentShrinksAbove(f, y);
      LinkMerges(f, child, top, f.parent[y]);
    } else if y == child {
      assert Root(Linked(f, child, top), top) == top;
    }
  }

  // ---------- new nodes ----------

  function Added(f: Forest, x: Node): Forest {
    Forest(f.parent[x := x], f.rank[x := 0])
  }

  lemma AddedValid(f: Forest, x: Node)
    requires Valid(f) && x !in f.parent
    ensures Valid(Added(f, x))
  {
    var g := Added(f, x);
    forall y | y in g.parent ensures LinkOk(g, y) {
      if y != x { assert LinkOk(f, y); }
    }
  }

  lemma {:induction false} AddKeepsRoots(f: Forest, x: Node, y: Node)
    requires Valid(f) && x !in f.parent && y in f.parent && Valid(Added(f, x))
    ensures Root(Added(f, x), y) == Root(f, y)
    decreases Above(f, y)
  {
    assert LinkOk(f, y);
    if f.parent[y] != y {
      ParentShrinksAbove(f, y);
      AddKeepsRoots(f, x, f.parent[y]);
    }
  }

  // ---------- the partition ----------

  /** A partition names each node's class by one of its nodes. */
  datatype Partition = Partition(class_: map<Node, Node>)

  ghost function Classes(f: Forest): Partition
    requires Valid(f)
  {
    Partition(map x | x in f.parent :: Root(f, x))
  }

  /** Class `child` renamed to `top`. */
  function Relabel(p: Partition, child: Node, top: Node): Partition {
    Partition(map x | x in p.class_ :: if p.class_[x] == child then top else p.class_[x])
  }

  lemma SamePartition(p: Partition, q: Partition)
    requires p.class_.Keys == q.class_.Keys && forall y | y in p.class_ :: p.class_[y] == q.class_[y]
    ensures p == q
  {}

  lemma HalvingKeepsClasses(f: Forest, x: Node)
    requires Valid(f) && LinkOk(f, x)
    ensures Valid(Halved(f, x)) && Classes(Halved(f, x)) == Classes(f)
  {
    HalvedValid(f, x);
    assert LinkOk(f, f.parent[x]);
    var p, q := Classes(f), Classes(Halved(f, x));
    forall y | y in p.class_ ensures p.class_[y] == q.class_[y] { HalvingKeepsRoots(f, x, y); }
    SamePartition(p, q);
  }

  lemma LinkRelabelsAt(f: Forest, child: Node, top: Node, y: Node)
    requires Valid(f) && Linkable(f, child, top) && y in f.parent && Valid(Linked(f, child, top))
    ensures Classes(Linked(f, child, top)).class_[y] == Relabel(Classes(f), child, top).class_[y]
  {
    LinkMerges(f, child, top, y);
  }

  lemma LinkRelabels(f: Forest, child: Node, top: Node)
    requires Valid(f) && Linkable(f, child, top)
    ensures Valid(Linked(f, child, top)) && Classes(Linked(f, child, top)) == Relabel(Classes(f), child, top)
  {
    LinkedValid(f, child, top);
    var p, q := Relabel(Classes(f), child, top), Classes(Linked(f, child, top));
    forall y | y in p.class_ ensures p.class_[y] == q.class_[y] { LinkRelabelsAt(f, child, top, y); }
    SamePartition(p, q);
  }

  lemma AddIsolates(f: Forest, x: Node)
    requires Valid(f) && x !in f.parent
    ensures Valid(Added(f, x)) && Classes(Added(f, x)) == With(Classes(f), x)
  {
    AddedValid(f, x);
    var p, q := With(Classes(f), x), Classes(Added(f, x));
    forall y | y in p.class_ ensures p.class_[y] == q.class_[y] {
      if y != x { AddKeepsRoots(f, x, y); }
    }
    SamePartition(p, q);
  }

  /** The partition with x in it, on its own if it is new. */
  function With(p: Partition, x: Node): Partition {
    if x in p.class_ then p else Partition(p.class_[x := x])
  }

  /** x and y were together already, or a and b bring their classes together. */
  ghost predicate Joined(c: map<Node, Node>, a: Node, b: Node, x: Node, y: Node)
    requires a in c && b in c && x in c && y in c
  {
    c[x] == c[y] || (c[x] == c[a] && c[y] == c[b]) || (c[x] == c[b] && c[y] == c[a])
  }

  /** q is p with the classes of a and b joined, and nothing else. */
  ghost predicate Joins(p: Partition, a: Node, b: Node, q: Partition) {
    match q
    case Partition(c) =>
      && p.class_.Keys == c.Keys && a in c && b in c
      && forall x, y | x in c && y in c :: c[x] == c[y] <==> Joined(p.class_, a, b, x, y)
  }

  lemma RelabelJoins(p: Partition, a: Node, b: Node)
    requires a in p.class_ && b in p.class_
    ensures p.class_[a] == p.class_[b] ==> Joins(p, a, b, p)
    ensures Joins(p, a, b, Relabel(p, p.class_[a], p.class_[b]))
    ensures Joins(p, a, b, Relabel(p, p.class_[b], p.class_[a]))
  {}

  /** Union by rank of two roots: the lower-ranked one goes under the other. */
  function LinkByRank(f: Forest, first: Node, second: Node): Forest
    requires first in f.rank && second in f.rank
  {
    if first == second then f
    else if f.rank[first] < f.rank[second] then Linked(f, first, second)
    else Linked(f, second, first)
  }

  lemma {:induction false} LinkJoins(f: Forest, a: Node, b: Node, ra: Node, rb: Node)
    requires Valid(f) && a in f.parent && b in f.parent && ra == Root(f, a) && rb == Root(f, b)
    ensures ra in f.rank && rb in f.rank && Valid(LinkByRank(f, ra, rb))
    ensures LinkByRank(f, ra, rb).parent.Keys == f.parent.Keys
    ensures Joins(Classes(f), a, b, Classes(LinkByRank(f, ra, rb)))
  {
    RelabelJoins(Classes(f), a, b);
    assert LinkOk(f, ra) && LinkOk(f, rb);
    if ra != rb {
      if f.rank[ra] < f.rank[rb] { LinkRelabels(f, ra, rb); } else { LinkRelabels(f, rb, ra); }
    }
  }

  // ---------- the structure ----------

  class UnionFind {
    var parent: map<Node, Node>
    var rank: map<Node, nat>

    constructor ()
      ensures Value() == Forest(map[], map[])
    {
      parent, rank := map[], map[];
    }

    function Value(): Forest
      reads this
    {
      Forest(parent, rank)
    }

    method Add(x: Node)
      requires Valid(Value())
      modifies this
      ensures Valid(Value()) && Classes(Value()) == With(old(Classes(Value())), x)
      ensures parent.Keys == old(parent).Keys + {x}
    {
      if x !in parent {
        AddIsolates(Value(), x);
        parent := parent[x := x];
        rank := rank[x := 0];
      }
    }

    /** Path halving: the forest changes, its partition does not. */
    method Find(start: Node) returns (x: Node)
      requires Valid(Value()) && start in parent
      modifies this`parent
      ensures Valid(Value()) && Classes(Value()) == old(Classes(Value()))
      ensures parent.Keys == old(parent).Keys
      ensures x == old(Root(Value(), start)) == Root(Value(), start)
    {
      x := start;
      ghost var p := Classes(Value());
      assert LinkOk(Value(), x);
      while parent[x] != x
        invariant Valid(Value()) && Classes(Value()) == p && parent.Keys == old(parent).Keys
        invariant LinkOk(Value(), x) && Root(Value(), x) == p.class_[start]
        decreases Above(Value(), x)
      {
        ghost var f := Value();
        assert LinkOk(f, f.parent[x]);
        GrandparentAbove(f, x);
        HalvingKeepsClasses(f, x);
        parent := parent[x := parent[parent[x]]];
        HalvedRoot(f, x);
        x := parent[x];
      }
      SameClass(old(Value()), Value(), start);
    }

    method Link(first: Node, second: Node)
      requires first in rank && second in rank
      modifies this
      ensures Value() == LinkByRank(old(Value()), first, second)
    {
      if first == second { return; }
      var ra, rb := first, second;
      if rank[ra] < rank[rb] { ra, rb := rb, ra; }
      parent := parent[rb := ra];
      if rank[ra] == rank[rb] { rank := rank[ra := rank[ra] + 1]; }
    }

    method FindBoth(a: Node, b: Node) returns (ra: Node, rb: Node)
      requires Valid(Value()) && a in parent && b in parent
      modifies this`parent
      ensures Valid(Value()) && Classes(Value()) == old(Classes(Value())) && parent.Keys == old(parent).Keys
      ensures ra == Root(Value(), a) && rb == Root(Value(), b)
    {
      ra := Find(a);
      ghost var f := Value();
      rb := Find(b);
      SameClass(f, Value(), a);
    }

    /** Union by rank: exactly the classes of a and b become one. */
    method Union(a: Node, b: Node)
      requires Valid(Value())
      modifies this
      ensures parent.Keys == old(parent).Keys + {a} + {b}
      ensures Valid(Value()) && Joins(With(With(old(Classes(Value())), a), b), a, b, Classes(Value()))
    {
      Add(a);
      Add(b);
      var ra, rb := FindBoth(a, b);
      LinkJoins(Value(), a, b, ra, rb);
      Link(ra, rb);
    }
  }

  lemma {:induction false} SameClass(f: Forest, g: Forest, x: Node)
    requires Valid(f) && Valid(g) && Classes(f) == Classes(g) && x in f.parent
    ensures x in g.parent && Root(g, x) == Root(f, x)
  {
    assert x in Classes(g).class_ && Classes(f).class_[x] == Classes(g).class_[x];
  }

  lemma {:induction false} HalvedRoot(f: Forest, x: Node)
    requires Valid(f) && LinkOk(f, x) && f.parent[x] != x && Valid(Halved(f, x))
    requires Classes(Halved(f, x)) == Classes(f)
    ensures LinkOk(Halved(f, x), Halved(f, x).parent[x])
    ensures Root(Halved(f, x), Halved(f, x).parent[x]) == Root(f, x)
  {
    var h := Halved(f, x);
    assert LinkOk(h, x);
    assert LinkOk(h, h.parent[x]);
    SameClass(f, h, x);
  }

  lemma GrandparentAbove(f: Forest, x: Node)
    requires LinkOk(f, x) && LinkOk(f, f.parent[x]) && f.parent[x] != x
    ensures Above(f, f.parent[f.parent[x]]) < Above(f, x)
  {
    ParentShrinksAbove(f, x);
    if f.parent[f.parent[x]] != f.parent[x] { ParentShrinksAbove(f, f.parent[x]); }
  }
}
