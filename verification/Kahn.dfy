/** Kahn's algorithm as both topological sorts run it: in-degrees and child lists from an
    edge list, then ready nodes taken one by one.

    The sources keep the ready queue sorted by table name so that the output is
    deterministic; here any ready node may be taken next, so the results hold for every
    tie-break. */
module Kahn {
  import opened Graph

  type EdgeList = seq<(Node, Node)>

  function EdgeSet(edges: EdgeList): Graph {
    set e | e in edges
  }

  /** Edges into c whose parent is not done yet. */
  function Count(edges: EdgeList, c: Node, done: set<Node>): nat {
    if edges == [] then 0
    else
      var e := edges[|edges| - 1];
      Count(edges[..|edges| - 1], c, done) + if e.1 == c && e.0 !in done then 1 else 0
  }

  /** The child list of n, one entry per edge. */
  function Kids(edges: EdgeList, n: Node): seq<Node> {
    if edges == [] then []
    else
      var e := edges[|edges| - 1];
      Kids(edges[..|edges| - 1], n) + if e.0 == n then [e.1] else []
  }

  lemma {:induction false} CountAppend(edges: EdgeList, e: (Node, Node), c: Node, done: set<Node>)
    ensures Count(edges + [e], c, done) == Count(edges, c, done) + if e.1 == c && e.0 !in done then 1 else 0
    ensures Kids(edges + [e], c) == Kids(edges, c) + if e.0 == c then [e.1] else []
  {
    assert (edges + [e])[..|edges|] == edges;
  }

  /** Finishing n takes its edges off the counts of its children. */
  lemma {:induction false} CountDrops(edges: EdgeList, c: Node, done: set<Node>, n: Node)
    requires n !in done
    ensures Count(edges, c, done + {n}) == Count(edges, c, done) - multiset(Kids(edges, n))[c]
  {
    if edges != [] { CountDrops(edges[..|edges| - 1], c, done, n); }
  }

  lemma {:induction false} CountZero(edges: EdgeList, c: Node, done: set<Node>)
    ensures Count(edges, c, done) == 0 <==> forall e | e in edges && e.1 == c :: e.0 in done
  {
    if edges != [] {
      var init, e := edges[..|edges| - 1], edges[|edges| - 1];
      CountZero(init, c, done);
      assert edges == init + [e];
    }
  }

  lemma {:induction false} KidsAreChildren(edges: EdgeList, n: Node, c: Node)
    ensures c in Kids(edges, n) <==> (n, c) in edges
  {
    if edges != [] {
      var init, e := edges[..|edges| - 1], edges[|edges| - 1];
      KidsAreChildren(init, n, c);
      assert edges == init + [e];
    }
  }

  /** Nodes that may be taken next. */
  ghost predicate Ready(nodes: set<Node>, indeg: map<Node, nat>, blocked: set<Node>, done: set<Node>, c: Node)
    requires nodes <= indeg.Keys
  {
    c in nodes && c !in blocked && c !in done && indeg[c] == 0
  }

  ghost predicate Counted(nodes: set<Node>, edges: EdgeList, done: set<Node>, indeg: map<Node, nat>) {
    indeg.Keys == nodes && forall c <- nodes :: indeg[c] == Count(edges, c, done)
  }

  ghost predicate EdgesOk(nodes: set<Node>, edges: EdgeList) {
    forall e <- edges :: e.0 in nodes && e.1 in nodes && e.0 != e.1
  }

  ghost predicate Listed(nodes: set<Node>, edges: EdgeList, children: map<Node, seq<Node>>) {
    children.Keys == nodes && forall c <- nodes :: children[c] == Kids(edges, c)
  }

  /** In-degrees and child lists of an edge list. */
  method Degrees(nodes: set<Node>, edges: EdgeList) returns (indeg: map<Node, nat>, children: map<Node, seq<Node>>)
    requires EdgesOk(nodes, edges)
    ensures Counted(nodes, edges, {}, indeg) && Listed(nodes, edges, children)
  {
    indeg, children := (map c | c in nodes :: 0), (map c | c in nodes :: []);
    for i := 0 to |edges|
      invariant Counted(nodes, edges[..i], {}, indeg) && Listed(nodes, edges[..i], children)
    {
      var e := edges[i];
      assert edges[..i + 1] == edges[..i] + [e];
      OneMoreEdge(nodes, edges[..i], e, indeg, children);
      children := children[e.0 := children[e.0] + [e.1]];
      indeg := indeg[e.1 := indeg[e.1] + 1];
    }
    assert edges[..|edges|] == edges;
  }

  lemma OneMoreEdge(nodes: set<Node>, edges: EdgeList, e: (Node, Node), indeg: map<Node, nat>, children: map<Node, seq<Node>>)
    requires Counted(nodes, edges, {}, indeg) && Listed(nodes, edges, children) && e.0 in nodes && e.1 in nodes
    ensures Counted(nodes, edges + [e], {}, indeg[e.1 := indeg[e.1] + 1])
    ensures Listed(nodes, edges + [e], children[e.0 := children[e.0] + [e.1]])
  {
    forall c <- nodes { CountAppend(edges, e, c, {}); }
  }

  /** What a finished sort says: parents precede children, and what is left out is
      blocked or waits for a parent that is left out too. */
  ghost predicate Sorted(nodes: set<Node>, edges: EdgeList, blocked: set<Node>, order: seq<Node>) {
    && PredsFirst(EdgeSet(edges), order)
    && (forall x <- order :: x in nodes && x !in blocked)
    && (forall x <- nodes :: x !in order ==> x in blocked || Waits(edges, order, x))
  }

  ghost predicate Waits(edges: EdgeList, order: seq<Node>, x: Node) {
    exists p :: (p, x) in edges && p !in order
  }

  lemma BeforeGrows(order: seq<Node>, n: Node, a: Node, b: Node)
    requires Before(order, a, b)
    ensures Before(order + [n], a, b)
  {
    var i, j :| 0 <= i < j < |order| && order[i] == a && order[j] == b;
    assert (order + [n])[i] == a && (order + [n])[j] == b;
  }

  /** Taking a node with no unfinished parent keeps parents first. */
  lemma {:induction false} TakeKeepsOrder(edges: EdgeList, order: seq<Node>, n: Node)
    requires PredsFirst(EdgeSet(edges), order) && n !in order
    requires Count(edges, n, (set x | x in order)) == 0
    requires (n, n) !in edges
    ensures PredsFirst(EdgeSet(edges), order + [n])
  {
    CountZero(edges, n, (set x | x in order));
    forall e <- EdgeSet(edges) | e.1 in order + [n] ensures Before(order + [n], e.0, e.1) {
      if e.1 in order {
        BeforeGrows(order, n, e.0, e.1);
      } else {
        var i :| 0 <= i < |order| && order[i] == e.0;
        assert (order + [n])[i] == e.0 && (order + [n])[|order|] == n;
      }
    }
  }

  lemma {:induction false} DoneAreFree(edges: EdgeList, order: seq<Node>)
    requires PredsFirst(EdgeSet(edges), order)
    ensures forall x <- order :: Count(edges, x, (set y | y in order)) == 0
  {
    forall x <- order ensures Count(edges, x, (set y | y in order)) == 0 {
      forall e | e in edges && e.1 == x ensures e.0 in order {
        assert e in EdgeSet(edges) && Before(order, e.0, e.1);
      }
      CountZero(edges, x, (set y | y in order));
    }
  }

  method Sort(nodes: set<Node>, edges: EdgeList, blocked: set<Node>) returns (order: seq<Node>)
    requires EdgesOk(nodes, edges)
    ensures Sorted(nodes, edges, blocked, order)
  {
    var indeg, children := Degrees(nodes, edges);
    var queue := set c | c in nodes && indeg[c] == 0 && c !in blocked;
    order := [];
    ghost var done: set<Node> := {};
    while queue != {}
      invariant done == (set x | x in order) && done <= nodes
      invariant QueueOk(nodes, indeg, blocked, done, queue)
      invariant Counted(nodes, edges, done, indeg)
      invariant PredsFirst(EdgeSet(edges), order)
      invariant forall x <- order :: x in nodes && x !in blocked
      decreases nodes - done
    {
      var n :| n in queue;
      queue := queue - {n};
      DoneAreFree(edges, order);
      TakeKeepsOrder(edges, order, n);
      order := order + [n];
      assert QueueOk(nodes, indeg, blocked, done + {n}, queue);
      indeg, queue := Release(nodes, edges, blocked, done, n, children[n], indeg, queue);
      done := done + {n};
    }
    forall x <- nodes | x !in order && x !in blocked ensures Waits(edges, order, x) {
      assert !Ready(nodes, indeg, blocked, done, x);
      StillWaits(edges, order, x);
    }
  }

  lemma {:induction false} StillWaits(edges: EdgeList, order: seq<Node>, x: Node)
    requires Count(edges, x, (set y | y in order)) != 0
    ensures Waits(edges, order, x)
  {
    CountZero(edges, x, (set y | y in order));
    var e :| e in edges && e.1 == x && e.0 !in order;
    assert (e.0, x) in edges;
  }

  /** Exactly the ready nodes are queued. */
  ghost predicate QueueOk(nodes: set<Node>, indeg: map<Node, nat>, blocked: set<Node>, done: set<Node>, queue: set<Node>) {
    indeg.Keys == nodes && forall c :: c in queue <==> Ready(nodes, indeg, blocked, done, c)
  }

  /** In-degrees with the first i child entries taken off. */
  ghost predicate Taken(nodes: set<Node>, indeg0: map<Node, nat>, indeg: map<Node, nat>, kids: seq<Node>) {
    && indeg0.Keys == indeg.Keys == nodes
    && forall c <- nodes :: indeg[c] + multiset(kids)[c] == indeg0[c]
  }

  lemma TakeOne(nodes: set<Node>, indeg0: map<Node, nat>, indeg: map<Node, nat>, kids: seq<Node>, c: Node)
    requires Taken(nodes, indeg0, indeg, kids) && c in nodes && indeg[c] >= 1
    ensures Taken(nodes, indeg0, indeg[c := indeg[c] - 1], kids + [c])
  {}

  lemma QueueOne(nodes: set<Node>, indeg: map<Node, nat>, blocked: set<Node>, done: set<Node>, queue: set<Node>, c: Node)
    requires QueueOk(nodes, indeg, blocked, done, queue) && c in nodes && c !in done && indeg[c] >= 1
    ensures QueueOk(nodes, indeg[c := indeg[c] - 1], blocked, done,
                    if indeg[c] == 1 && c !in blocked then queue + {c} else queue)
  {
    var indeg' := indeg[c := indeg[c] - 1];
    forall d | d != c ensures Ready(nodes, indeg', blocked, done, d) <==> Ready(nodes, indeg, blocked, done, d) {}
  }

  /** Takes n's edges off its children's in-degrees; those that reach zero become ready. */
  method Release(nodes: set<Node>, ghost edges: EdgeList, blocked: set<Node>, ghost done: set<Node>, n: Node,
                 kids: seq<Node>, indeg0: map<Node, nat>, queue0: set<Node>)
    returns (indeg: map<Node, nat>, queue: set<Node>)
    requires EdgesOk(nodes, edges) && n in nodes && n !in done && kids == Kids(edges, n)
    requires Counted(nodes, edges, done, indeg0) && forall c <- done :: Count(edges, c, done) == 0
    requires QueueOk(nodes, indeg0, blocked, done + {n}, queue0)
    ensures QueueOk(nodes, indeg, blocked, done + {n}, queue)
    ensures Counted(nodes, edges, done + {n}, indeg)
  {
    indeg, queue := indeg0, queue0;
    for i := 0 to |kids|
      invariant Taken(nodes, indeg0, indeg, kids[..i])
      invariant QueueOk(nodes, indeg, blocked, done + {n}, queue)
    {
      var c := kids[i];
      ChildFacts(nodes, edges, done, n, kids, i, indeg0, indeg);
      assert kids[..i + 1] == kids[..i] + [c];
      TakeOne(nodes, indeg0, indeg, kids[..i], c);
      QueueOne(nodes, indeg, blocked, done + {n}, queue, c);
      indeg := indeg[c := indeg[c] - 1];
      if indeg[c] == 0 && c !in blocked {
        queue := queue + {c};
      }
    }
    assert kids[..|kids|] == kids;
    AllTaken(nodes, edges, done, n, indeg0, indeg);
  }

  lemma {:induction false} AllTaken(nodes: set<Node>, edges: EdgeList, done: set<Node>, n: Node, indeg0: map<Node, nat>, indeg: map<Node, nat>)
    requires n !in done && Counted(nodes, edges, done, indeg0) && Taken(nodes, indeg0, indeg, Kids(edges, n))
    ensures Counted(nodes, edges, done + {n}, indeg)
  {
    forall c <- nodes ensures indeg[c] == Count(edges, c, done + {n}) { CountDrops(edges, c, done, n); }
  }

  /** The i-th child is unfinished and still counts the edge about to be taken off. */
  lemma {:induction false} ChildFacts(nodes: set<Node>, edges: EdgeList, done: set<Node>, n: Node, kids: seq<Node>, i: nat,
                   indeg0: map<Node, nat>, indeg: map<Node, nat>)
    requires EdgesOk(nodes, edges) && n !in done && kids == Kids(edges, n) && i < |kids|
    requires Counted(nodes, edges, done, indeg0) && Taken(nodes, indeg0, indeg, kids[..i])
    requires forall c <- done :: Count(edges, c, done) == 0
    ensures kids[i] in nodes && kids[i] !in done + {n} && indeg[kids[i]] >= 1
  {
    KidsAreChildren(edges, n, kids[i]);
    CountDrops(edges, kids[i], done, n);
    assert kids == kids[..i] + [kids[i]] + kids[i + 1..];
  }
}
