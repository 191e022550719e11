/** Cycle detection over the one-way syncs: a recursive three-colour depth-first search.

    Nodes are connection identities; a sync adds an edge from its source to each of its
    targets. */
module SyncCycles {
  import opened Graph
  import opened CyclicFk
  import Rows

  datatype Sync = Sync(source: Node, targets: seq<Node>)

  datatype Color = Gray | Black

  type Links = map<Node, set<Node>>

  ghost predicate IsLink(adj: Links, a: Node, b: Node) {
    a in adj && b in adj[a]
  }

  ghost predicate Closed(adj: Links) {
    forall a, b | IsLink(adj, a, b) :: b in adj
  }

  ghost function GraphOf(adj: Links): Graph {
    set a, b | a in adj && b in adj[a] :: (a, b)
  }

  /** A sync copies a to b. */
  ghost predicate Copies(syncs: seq<Sync>, a: Node, b: Node) {
    exists s :: s in syncs && s.source == a && b in s.targets
  }

  /** An edge for each source and target of a sync. */
  ghost function SyncGraph(syncs: seq<Sync>): Graph {
    set s, b | s in syncs && b in s.targets :: (s.source, b)
  }

  ghost predicate ClosedPath(g: Graph, c: seq<Node>) {
    |c| >= 2 && Walk(g, c) && c[0] == c[|c| - 1]
  }

  /** Every node of a closed path lies on a cycle. */
  lemma {:induction false} ClosedPathIsCycle(g: Graph, c: seq<Node>)
    requires ClosedPath(g, c)
    ensures OnCycle(g, c[0])
  {
    assert WalkFrom(g, c[1], c[0], c[1..]);
    assert (c[0], c[1]) in g;
  }

  // ---------- building the graph ----------

  function AddNode(adj: Links, id: Node): Links {
    if id in adj then adj else adj[id := {}]
  }

  lemma AddNodeLinks(adj: Links, id: Node)
    ensures id in AddNode(adj, id) && forall a, b :: IsLink(AddNode(adj, id), a, b) <==> IsLink(adj, a, b)
    ensures Closed(adj) ==> Closed(AddNode(adj, id))
  {
    forall a, b ensures IsLink(AddNode(adj, id), a, b) <==> IsLink(adj, a, b) {}
  }

  lemma AddLink(adj: Links, from: Node, to: Node)
    requires from in adj && to in adj && Closed(adj)
    ensures var adj' := adj[from := adj[from] + {to}];
            Closed(adj') && forall a, b :: IsLink(adj', a, b) <==> IsLink(adj, a, b) || (a == from && b == to)
  {
    var adj' := adj[from := adj[from] + {to}];
    forall a, b ensures IsLink(adj', a, b) <==> IsLink(adj, a, b) || (a == from && b == to) {}
  }

  lemma CopiesAppend(syncs: seq<Sync>, s: Sync, a: Node, b: Node)
    ensures Copies(syncs + [s], a, b) <==> Copies(syncs, a, b) || (s.source == a && b in s.targets)
  {
    if Copies(syncs, a, b) {
      var t :| t in syncs && t.source == a && b in t.targets;
      assert t in syncs + [s];
    }
    if s.source == a && b in s.targets { assert s in syncs + [s]; }
  }

  method BuildLinks(syncs: seq<Sync>) returns (adj: Links)
    ensures Closed(adj) && forall a, b :: IsLink(adj, a, b) <==> Copies(syncs, a, b)
  {
    adj := map[];
    for i := 0 to |syncs|
      invariant Closed(adj) && forall a, b :: IsLink(adj, a, b) <==> Copies(syncs[..i], a, b)
    {
      var s := syncs[i];
      ghost var before := adj;
      assert syncs[..i + 1] == syncs[..i] + [s];
      AddNodeLinks(adj, s.source);
      adj := AddNode(adj, s.source);
      for j := 0 to |s.targets|
        invariant Closed(adj) && s.source in adj
        invariant forall a, b :: IsLink(adj, a, b) <==> IsLink(before, a, b) || (a == s.source && b in s.targets[..j])
      {
        var to := s.targets[j];
        assert s.targets[..j + 1] == s.targets[..j] + [to];
        AddNodeLinks(adj, to);
        adj := AddNode(adj, to);
        AddLink(adj, s.source, to);
        adj := adj[s.source := adj[s.source] + {to}];
      }
      assert s.targets[..|s.targets|] == s.targets;
      forall a, b ensures IsLink(adj, a, b) <==> Copies(syncs[..i + 1], a, b) { CopiesAppend(syncs[..i], s, a, b); }
    }
    assert syncs[..|syncs|] == syncs;
  }

  // ---------- the search ----------

  /** Gray nodes are the stack, which is a walk; black nodes are finished, each after all
      its successors. */
  ghost predicate SearchOk(adj: Links, color: map<Node, Color>, stack: seq<Node>, finished: seq<Node>) {
    && color.Keys <= adj.Keys
    && (forall x :: x in color && color[x] == Gray <==> x in stack)
    && (forall x :: x in color && color[x] == Black <==> x in finished)
    && (stack != [] ==> Walk(GraphOf(adj), stack))
    && PredsFirst(Rev(GraphOf(adj)), finished)
  }

  lemma {:induction false} PushOk(adj: Links, color: map<Node, Color>, stack: seq<Node>, finished: seq<Node>, n: Node)
    requires SearchOk(adj, color, stack, finished) && n in adj && n !in color
    requires stack != [] ==> IsLink(adj, stack[|stack| - 1], n)
    ensures SearchOk(adj, color[n := Gray], stack + [n], finished)
  {
    var s := stack + [n];
    forall i | 0 <= i < |s| - 1 ensures (s[i], s[i + 1]) in GraphOf(adj) {
      if i < |stack| - 1 { assert (stack[i], stack[i + 1]) in GraphOf(adj); }
    }
  }

  lemma {:induction false} PopOk(adj: Links, color: map<Node, Color>, stack: seq<Node>, finished: seq<Node>, n: Node)
    requires SearchOk(adj, color, stack + [n], finished) && n in color && n in adj && n !in stack
    requires forall m <- adj[n] :: m in finished
    ensures SearchOk(adj, color[n := Black], stack, finished + [n])
  {
    var g := Rev(GraphOf(adj));
    var f := finished + [n];
    assert n in stack + [n];
    forall e <- g | e.1 in f ensures Before(f, e.0, e.1) {
      assert (e.1, e.0) in GraphOf(adj);
      if e.1 in finished {
        var i, j :| 0 <= i < j < |finished| && finished[i] == e.0 && finished[j] == e.1;
        assert f[i] == e.0 && f[j] == e.1;
      } else {
        assert e.0 in finished;
        var i :| 0 <= i < |finished| && finished[i] == e.0;
        assert f[i] == e.0 && f[|finished|] == n;
      }
    }
    if stack != [] {
      forall i | 0 <= i < |stack| - 1 ensures (stack[i], stack[i + 1]) in GraphOf(adj) {
        assert (stack + [n])[i] == stack[i] && (stack + [n])[i + 1] == stack[i + 1];
      }
    }
  }

  /** A link from the top of the stack back into it closes a cycle. */
  lemma {:induction false} BackEdge(adj: Links, stack: seq<Node>, start: nat, m: Node)
    requires stack != [] && Walk(GraphOf(adj), stack) && start < |stack| && stack[start] == m
    requires IsLink(adj, stack[|stack| - 1], m)
    ensures ClosedPath(GraphOf(adj), stack[start..] + [m])
  {
    var c := stack[start..] + [m];
    forall i | 0 <= i < |c| - 1 ensures (c[i], c[i + 1]) in GraphOf(adj) {
      if i < |c| - 2 { assert (stack[start + i], stack[start + i + 1]) in GraphOf(adj); }
    }
  }

  class Search {
    const adj: Links
    var color: map<Node, Color>
    var stack: seq<Node>
    var cycle: seq<Node>
    ghost var finished: seq<Node>

    constructor (adj: Links)
      ensures this.adj == adj && color == map[] && stack == [] && finished == []
    {
      this.adj, color, stack, cycle, finished := adj, map[], [], [], [];
    }

    ghost predicate Ok()
      reads this
    {
      Closed(adj) && SearchOk(adj, color, stack, finished)
    }

    /** Pushes a new node. */
    method Enter(n: Node)
      requires Ok() && n in adj && n !in color && (stack != [] ==> IsLink(adj, stack[|stack| - 1], n))
      modifies this`color, this`stack
      ensures Ok() && stack == old(stack) + [n] && color.Keys == old(color).Keys + {n} && n !in old(stack)
    {
      PushOk(adj, color, stack, finished, n);
      color := color[n := Gray];
      stack := stack + [n];
    }

    /** Pops a node all of whose successors are finished. */
    method Leave(n: Node, ghost base: seq<Node>)
      requires Ok() && stack == base + [n] && n !in base && n in adj && n in color
      requires forall m <- adj[n] :: m in finished
      modifies this`color, this`stack, this`finished
      ensures Ok() && stack == base && finished == old(finished) + [n] && color.Keys == old(color).Keys
    {
      PopOk(adj, color, base, finished, n);
      stack := stack[..|stack| - 1];
      assert stack == base;
      color := color[n := Black];
      finished := finished + [n];
    }

    /** The node on the stack that a link leads back to closes the reported cycle. */
    method Close(m: Node)
      requires Ok() && stack != [] && m in color && color[m] == Gray && IsLink(adj, stack[|stack| - 1], m)
      modifies this`cycle
      ensures ClosedPath(GraphOf(adj), cycle)
    {
      var start := FirstIndex(stack, m);
      BackEdge(adj, stack, start, m);
      cycle := stack[start..] + [m];
    }

    method Dfs(n: Node) returns (found: bool)
      requires Ok() && n in adj && n !in color && (stack != [] ==> IsLink(adj, stack[|stack| - 1], n))
      modifies this
      ensures found ==> ClosedPath(GraphOf(adj), cycle)
      ensures !found ==> Ok() && stack == old(stack) && n in finished && color.Keys >= old(color).Keys
      decreases adj.Keys - color.Keys
    {
      ghost var base := stack;
      Enter(n);
      var rest := adj[n];
      while rest != {}
        invariant Ok() && stack == base + [n] && rest <= adj[n] && color.Keys >= old(color).Keys + {n}
        invariant forall m <- adj[n] - rest :: m in finished
        decreases rest
      {
        var m :| m in rest;
        rest := rest - {m};
        assert IsLink(adj, n, m);
        if m in color && color[m] == Gray {
          Close(m);
          return true;
        } else if m !in color {
          var inner := Dfs(m);
          if inner { return true; }
        }
      }
      Leave(n, base);
      return false;
    }
  }

  method FirstIndex(stack: seq<Node>, m: Node) returns (start: nat)
    requires m in stack
    ensures start < |stack| && stack[start] == m
  {
    start := 0;
    while stack[start] != m
      invariant start < |stack| && m in stack[start..]
      decreases |stack| - start
    {
      start := start + 1;
    }
  }

  /** Once every node is finished there is no cycle. */
  lemma {:induction false} AllFinished(adj: Links, finished: seq<Node>, c: Node)
    requires PredsFirst(Rev(GraphOf(adj)), finished) && Closed(adj)
    requires forall x <- adj :: x in finished
    ensures !OnCycle(GraphOf(adj), c)
  {
    var g := GraphOf(adj);
    if OnCycle(g, c) {
      var b :| (c, b) in g && Reach(g, b, c);
      assert IsLink(adj, c, b);
      ReachRev(g, b, c);
      assert (b, c) in Rev(g);
      assert OnCycle(Rev(g), b);
      ReachSelf(Rev(g), b);
      OrderedIsAcyclic(Rev(g), finished, b, b);
    }
  }

  /** The links are the syncs. */
  lemma LinksAreSyncs(syncs: seq<Sync>, adj: Links)
    requires forall a, b :: IsLink(adj, a, b) <==> Copies(syncs, a, b)
    ensures GraphOf(adj) == SyncGraph(syncs)
  {
    forall a, b ensures (a, b) in GraphOf(adj) <==> (a, b) in SyncGraph(syncs) {
      assert (a, b) in GraphOf(adj) <==> IsLink(adj, a, b);
      assert (a, b) in SyncGraph(syncs) <==> Copies(syncs, a, b);
    }
  }

  /** An error exactly when the one-way syncs form a cycle or a self-loop; the reported
      list is a closed path of syncs. */
  method DetectSyncCycles(syncs: seq<Sync>) returns (r: Rows.Option<seq<Node>>)
    ensures r.None? <==> forall c :: !OnCycle(SyncGraph(syncs), c)
    ensures r.Some? ==> ClosedPath(SyncGraph(syncs), r.value)
  {
    var adj := BuildLinks(syncs);
    LinksAreSyncs(syncs, adj);
    var search := new Search(adj);
    var rest := adj.Keys;
    while rest != {}
      invariant search.Ok() && search.adj == adj && search.stack == [] && rest <= adj.Keys
      invariant forall x <- adj.Keys - rest :: x in search.finished
      decreases rest
    {
      var n :| n in rest;
      rest := rest - {n};
      if n !in search.color {
        var found := search.Dfs(n);
        if found {
          ClosedPathIsCycle(GraphOf(adj), search.cycle);
          return Rows.Some(search.cycle);
        }
      }
    }
    forall c ensures !OnCycle(GraphOf(adj), c) { AllFinished(adj, search.finished, c); }
    return Rows.None;
  }
}
