/** Directed graphs: walks, reachability, cycles. The references the graph algorithms
    are proved against. */
module Graph {

  type Node = string
  type Graph = set<(Node, Node)>

  predicate Walk(g: Graph, p: seq<Node>) {
    |p| > 0 && forall i | 0 <= i < |p| - 1 :: (p[i], p[i + 1]) in g
  }

  ghost predicate WalkFrom(g: Graph, a: Node, b: Node, p: seq<Node>) {
    Walk(g, p) && p[0] == a && p[|p| - 1] == b
  }

  /** b can be reached from a, in any number of steps. */
  ghost predicate Reach(g: Graph, a: Node, b: Node) {
    exists p :: WalkFrom(g, a, b, p)
  }

  /** a lies on a cycle, a self-loop included. */
  ghost predicate OnCycle(g: Graph, a: Node) {
    exists b :: (a, b) in g && Reach(g, b, a)
  }

  lemma ReachSelf(g: Graph, a: Node)
    ensures Reach(g, a, a)
  {
    assert WalkFrom(g, a, a, [a]);
  }

  lemma ReachStep(g: Graph, a: Node, b: Node, c: Node)
    requires (a, b) in g && Reach(g, b, c)
    ensures Reach(g, a, c)
  {
    var p :| WalkFrom(g, b, c, p);
    assert WalkFrom(g, a, c, [a] + p);
  }

  lemma {:induction false} WalkJoin(g: Graph, a: Node, b: Node, c: Node, p: seq<Node>)
    requires WalkFrom(g, a, b, p) && Reach(g, b, c)
    ensures Reach(g, a, c)
    decreases |p|
  {
    if |p| > 1 {
      assert WalkFrom(g, p[1], b, p[1..]);
      WalkJoin(g, p[1], b, c, p[1..]);
      ReachStep(g, a, p[1], c);
    }
  }

  lemma ReachTrans(g: Graph, a: Node, b: Node, c: Node)
    requires Reach(g, a, b) && Reach(g, b, c)
    ensures Reach(g, a, c)
  {
    var p :| WalkFrom(g, a, b, p);
    WalkJoin(g, a, b, c, p);
  }

  lemma ReachEdge(g: Graph, a: Node, b: Node)
    requires (a, b) in g
    ensures Reach(g, a, b)
  {
    ReachSelf(g, b);
    ReachStep(g, a, b, b);
  }

  lemma MoreEdges(g: Graph, h: Graph, a: Node, b: Node)
    requires g <= h && Reach(g, a, b)
    ensures Reach(h, a, b)
  {
    var p :| WalkFrom(g, a, b, p);
    assert WalkFrom(h, a, b, p);
  }

  /** A set closed under successors keeps every walk that starts in it. */
  lemma {:induction false} ClosedWalk(g: Graph, s: set<Node>, a: Node, b: Node, p: seq<Node>)
    requires forall e <- g :: e.0 in s ==> e.1 in s
    requires a in s && WalkFrom(g, a, b, p)
    ensures b in s
    decreases |p|
  {
    if |p| > 1 {
      assert (p[0], p[1]) in g;
      assert WalkFrom(g, p[1], b, p[1..]);
      ClosedWalk(g, s, p[1], b, p[1..]);
    }
  }

  lemma ClosedReach(g: Graph, s: set<Node>, a: Node, b: Node)
    requires forall e <- g :: e.0 in s ==> e.1 in s
    requires a in s && Reach(g, a, b)
    ensures b in s
  {
    var p :| WalkFrom(g, a, b, p);
    ClosedWalk(g, s, a, b, p);
  }

  // ---------- finite sets without a source ----------

  ghost predicate HasPredIn(g: Graph, u: set<Node>, x: Node) {
    exists q :: q in u && (q, x) in g
  }

  /** A set in which every node has a predecessor. */
  ghost predicate Sourceless(g: Graph, u: set<Node>) {
    u != {} && forall y {:trigger HasPredIn(g, u, y)} | y in u :: HasPredIn(g, u, y)
  }

  /** Walking backwards inside a finite set in which every node has a predecessor ends on
      a cycle. `seen` are the nodes passed so far, all reachable from x. */
  lemma {:induction false} BackToCycle(g: Graph, u: set<Node>, seen: set<Node>, x: Node) returns (c: Node)
    requires Sourceless(g, u)
    requires seen <= u && x in seen && forall s <- seen :: Reach(g, x, s)
    ensures c in u && OnCycle(g, c) && Reach(g, c, x)
    decreases u - seen
  {
    assert HasPredIn(g, u, x);
    var q :| q in u && (q, x) in g;
    if q in seen {
      c := q;
      assert Reach(g, x, q);
      ReachEdge(g, q, x);
    } else {
      ReachSelf(g, q);
      forall s <- seen + {q} ensures Reach(g, q, s) {
        if s in seen { ReachStep(g, q, x, s); }
      }
      c := BackToCycle(g, u, seen + {q}, q);
      ReachEdge(g, q, x);
      ReachTrans(g, c, q, x);
    }
  }

  /** Every node of such a set has an ancestor on a cycle. */
  lemma SourcelessHasCycle(g: Graph, u: set<Node>, x: Node) returns (c: Node)
    requires Sourceless(g, u) && x in u
    ensures c in u && OnCycle(g, c) && Reach(g, c, x)
  {
    ReachSelf(g, x);
    c := BackToCycle(g, u, {x}, x);
  }

  lemma SourcelessIn(g: Graph, h: Graph, u: set<Node>)
    requires Sourceless(g, u) && forall x, y | x in u && (x, y) in g :: (x, y) in h
    ensures Sourceless(h, u)
  {
    forall y <- u ensures HasPredIn(h, u, y) {
      assert HasPredIn(g, u, y);
      var q :| q in u && (q, y) in g;
      assert (q, y) in h;
    }
  }

  /** Conversely, on a cycle every node has a predecessor on it. */
  lemma CycleIsSourceless(g: Graph, a: Node) returns (u: set<Node>)
    requires OnCycle(g, a)
    ensures a in u && Sourceless(g, u)
  {
    var b :| (a, b) in g && Reach(g, b, a);
    var p :| WalkFrom(g, b, a, p);
    u := set x <- p;
    forall y <- u ensures HasPredIn(g, u, y) {
      var i :| 0 <= i < |p| && p[i] == y;
      var q := if i == 0 then a else p[i - 1];
      assert q in u && (q, y) in g;
    }
  }

  // ---------- orders ----------

  ghost predicate Before(order: seq<Node>, a: Node, b: Node) {
    exists i, j :: 0 <= i < j < |order| && order[i] == a && order[j] == b
  }

  predicate Distinct(order: seq<Node>) {
    forall i, j | 0 <= i < j < |order| :: order[i] != order[j]
  }

  function Index(order: seq<Node>, a: Node): (i: nat)
    requires a in order
    ensures i < |order| && order[i] == a
  {
    if order[0] == a then 0 else Index(order[1..], a) + 1
  }

  /** `order` lists every predecessor of each of its nodes before it. */
  ghost predicate PredsFirst(g: Graph, order: seq<Node>) {
    && Distinct(order)
    && forall e <- g :: e.1 in order ==> Before(order, e.0, e.1)
  }

  lemma {:induction false} IndexIs(order: seq<Node>, i: nat)
    requires Distinct(order) && i < |order|
    ensures Index(order, order[i]) == i
  {
    var k := Index(order, order[i]);
    assert order[k] == order[i];
  }

  lemma {:induction false} EdgeRises(g: Graph, order: seq<Node>, a: Node, b: Node)
    requires PredsFirst(g, order) && (a, b) in g && b in order
    ensures a in order && Index(order, a) < Index(order, b)
  {
    assert Before(order, a, b);
    var i, j :| 0 <= i < j < |order| && order[i] == a && order[j] == b;
    IndexIs(order, i);
    IndexIs(order, j);
  }

  /** Walks into such an order run forwards through it. */
  lemma {:induction false} WalkRises(g: Graph, order: seq<Node>, a: Node, b: Node, p: seq<Node>)
    requires PredsFirst(g, order) && b in order && WalkFrom(g, a, b, p)
    ensures a in order && Index(order, a) <= Index(order, b)
    decreases |p|
  {
    if |p| > 1 {
      assert WalkFrom(g, p[1], b, p[1..]);
      WalkRises(g, order, p[1], b, p[1..]);
      EdgeRises(g, order, a, p[1]);
    }
  }

  /** Nothing in such an order is, or descends from, a node on a cycle. */
  lemma OrderedIsAcyclic(g: Graph, order: seq<Node>, c: Node, x: Node)
    requires PredsFirst(g, order) && x in order && Reach(g, c, x)
    ensures !OnCycle(g, c)
  {
    var p :| WalkFrom(g, c, x, p);
    WalkRises(g, order, c, x, p);
    if OnCycle(g, c) {
      var b :| (c, b) in g && Reach(g, b, c);
      var q :| WalkFrom(g, b, c, q);
      WalkRises(g, order, b, c, q);
      EdgeRises(g, order, c, b);
    }
  }
}
