/** The tree-growing loop of benchmark/single-source/Prims.swift, over the indexed heap. */
module PrimsAlgorithm {
  import opened Options
  import opened SpanningTrees
  import opened IndexedHeap

  datatype GraphNode = GraphNode(id: int, adjList: seq<nat>)

  predicate WellFormed(graph: seq<GraphNode>) {
    |graph| > 0 && forall i, j :: 0 <= i < |graph| && j in graph[i].adjList ==> j < |graph|
  }

  /** The numbers below `n`: the nodes of a graph of `n` nodes. */
  function Below(n: nat): (nodes: set<nat>)
    ensures |nodes| == n && forall i :: i in nodes <==> 0 <= i < n
  {
    if n == 0 then {} else Below(n - 1) + {n - 1}
  }

  function EdgesOf(graph: seq<GraphNode>): set<Edge> {
    set i, k | 0 <= i < |graph| && 0 <= k < |graph[i].adjList| :: Edge(i, graph[i].adjList[k])
  }

  /** What the loop pays for an edge: `fun` of the node it stands on and the `id` of the neighbour. */
  function Weight(graph: seq<GraphNode>, fun: (int, int) -> real): Edge -> real {
    (e: Edge) => if e.end < |graph| then fun(e.start, graph[e.end].id) else 0.0
  }

  ghost predicate Undirected(graph: seq<GraphNode>, fun: (int, int) -> real) {
    forall e :: e in EdgesOf(graph) ==>
      var back := Edge(e.end, e.start);
      back in EdgesOf(graph) && Weight(graph, fun)(back) == Weight(graph, fun)(e)
  }

  function TreeNodes(tree: seq<Option<nat>>): set<nat> {
    set i | 0 <= i < |tree| && tree[i].Some?
  }

  /** One edge from the recorded parent to each node but the root. */
  function TreeEdges(tree: seq<Option<nat>>): set<Edge> {
    set i | 0 < i < |tree| && tree[i].Some? :: Edge(tree[i].value, i)
  }

  /** Following recorded parents from `node` arrives at node 0 after `steps` steps. */
  ghost predicate LeadsToRoot(tree: seq<Option<nat>>, node: nat, steps: nat)
    decreases steps
  {
    if steps == 0 then node == 0
    else node < |tree| && tree[node].Some? && LeadsToRoot(tree, tree[node].value, steps - 1)
  }

  ghost predicate Rooted(tree: seq<Option<nat>>) {
    forall i :: i in TreeNodes(tree) ==> exists steps: nat :: LeadsToRoot(tree, i, steps)
  }

  ghost predicate Closed(nodes: set<nat>, edges: set<Edge>) {
    forall e :: e in edges && e.start in nodes ==> e.end in nodes
  }

  ghost predicate MinimumSpanningTree(nodes: set<nat>, edges: set<Edge>, cost: Edge -> real, tree: set<Edge>) {
    && SpanningTree(nodes, edges, tree)
    && forall other :: SpanningTree(nodes, edges, other) ==> TotalCost(tree, cost) <= TotalCost(other, cost)
  }

  // ---- the invariant of the tree-growing loop

  /** The nodes reached so far are joined to node 0 by exactly one recorded graph edge each. */
  ghost predicate GrownTree(edges: set<Edge>, tree: seq<Option<nat>>) {
    && Rooted(tree)
    && TreeEdges(tree) <= edges
    && (forall e :: e in TreeEdges(tree) ==> Inside(e, TreeNodes(tree)))
    && |TreeEdges(tree)| + 1 == |TreeNodes(tree)|
    && Connected(TreeNodes(tree), TreeEdges(tree))
    && tree != [] && tree[0] == Some(0)
  }

  /** Whatever closed set of nodes is to be spanned, the recorded edges are part of a tree as cheap as any. */
  ghost predicate Extendable(edges: set<Edge>, cost: Edge -> real, nodes: set<nat>, chosen: set<Edge>) {
    forall all, other {:trigger HasCheapExtension(edges, cost, nodes, chosen, all, other)} ::
      0 in all && Closed(all, edges) && SpanningTree(all, edges, other) ==>
        HasCheapExtension(edges, cost, nodes, chosen, all, other)
  }

  ghost predicate HasCheapExtension(edges: set<Edge>, cost: Edge -> real, nodes: set<nat>, chosen: set<Edge>,
                                    all: set<nat>, other: set<Edge>) {
    && nodes <= all
    && exists better ::
         SpanningTree(all, edges, better) && chosen <= better && TotalCost(better, cost) <= TotalCost(other, cost)
  }

  /** Every queued edge leads out of the tree and carries its own weight. */
  ghost predicate QueueSound(edges: set<Edge>, cost: Edge -> real, tree: seq<Option<nat>>, heap: seq<EdgeCost>) {
    forall q :: q in heap ==>
      && q.to < |tree| && tree[q.to] == None
      && q.from in TreeNodes(tree) && Edge(q.from, q.to) in edges
      && q.cost == cost(Edge(q.from, q.to))
  }

  /** Some queued edge reaches `node` for at most `price`. */
  ghost predicate Offers(heap: seq<EdgeCost>, node: nat, price: real) {
    exists q :: q in heap && q.to == node && q.cost <= price
  }

  ghost predicate QueueComplete(edges: set<Edge>, cost: Edge -> real, tree: seq<Option<nat>>, heap: seq<EdgeCost>) {
    forall e :: e in edges && e.start in TreeNodes(tree) && e.end !in TreeNodes(tree) ==> Offers(heap, e.end, cost(e))
  }

  /** As `QueueComplete`, while only the first `k` neighbours of `node` have been looked at. */
  ghost predicate QueueCompleteUpTo(graph: seq<GraphNode>, cost: Edge -> real, tree: seq<Option<nat>>,
                                    heap: seq<EdgeCost>, node: nat, k: nat)
    requires node < |graph| && k <= |graph[node].adjList|
  {
    forall e :: e in EdgesOf(graph) && e.start in TreeNodes(tree) && e.end !in TreeNodes(tree) &&
                (e.start == node ==> e.end in graph[node].adjList[..k]) ==>
      Offers(heap, e.end, cost(e))
  }

  /** The tree part of the loop invariant. */
  ghost predicate TreeInvariant(graph: seq<GraphNode>, fun: (int, int) -> real, tree: seq<Option<nat>>) {
    && |tree| == |graph|
    && GrownTree(EdgesOf(graph), tree)
    && (Undirected(graph, fun) ==>
          Extendable(EdgesOf(graph), Weight(graph, fun), TreeNodes(tree), TreeEdges(tree)))
  }

  /** The loop invariant, from the moment node 0 has been popped. */
  ghost predicate LoopInvariant(graph: seq<GraphNode>, fun: (int, int) -> real, tree: seq<Option<nat>>, heap: seq<EdgeCost>) {
    && TreeInvariant(graph, fun, tree)
    && QueueSound(EdgesOf(graph), Weight(graph, fun), tree, heap)
    && QueueComplete(EdgesOf(graph), Weight(graph, fun), tree, heap)
  }

  /** The loop invariant before node 0 has been popped. */
  ghost predicate OnlyRootQueued(tree: seq<Option<nat>>, heap: seq<EdgeCost>) {
    TreeNodes(tree) == {} && multiset(heap) == multiset{EdgeCost(0, 0.0, 0)}
  }

  /** The invariant of the scan over the neighbours of `node`, `k` of which have been looked at. */
  ghost predicate ScanInvariant(graph: seq<GraphNode>, fun: (int, int) -> real, tree: seq<Option<nat>>,
                                heap: seq<EdgeCost>, node: nat, k: nat) {
    && node < |graph| && k <= |graph[node].adjList| && node in TreeNodes(tree) && |tree| == |graph|
    && QueueSound(EdgesOf(graph), Weight(graph, fun), tree, heap)
    && QueueCompleteUpTo(graph, Weight(graph, fun), tree, heap, node, k)
  }

  // ---- how the steps of the loop keep it

  /** The entries of the queue after `InsertOrUpdate`: those for other nodes as before, and for
      `n.to` the queued one if it is no dearer than `n`, and `n` otherwise. */
  lemma EntriesAfterUpdate(heap: seq<EdgeCost>, index: seq<Option<nat>>, n: EdgeCost, heap': seq<EdgeCost>, q: EdgeCost)
    requires IndexInverse(heap, index)
    requires (forall e :: e in heap ==> e.to != n.to) ==> multiset(heap') == multiset(heap) + multiset{n}
    requires forall e :: e in heap && e.to == n.to ==>
               multiset(heap') == if e.cost <= n.cost then multiset(heap) else multiset(heap) - multiset{e} + multiset{n}
    ensures q.to != n.to ==> (q in heap' <==> q in heap)
    ensures q.to == n.to && q in heap' ==> q in heap || q == n
    ensures q.to == n.to && q in heap && q.cost <= n.cost ==> q in heap'
    ensures q == n ==> q in heap' || exists e :: e in heap' && e.to == n.to && e.cost <= n.cost
  {
    assert (q in heap' <==> q in multiset(heap')) && (q in heap <==> q in multiset(heap));
    assert n in heap' <==> n in multiset(heap');
    if e :| e in heap && e.to == n.to {
      assert e in heap' <==> e in multiset(heap');
      assert e in heap <==> e in multiset(heap);
    }
  }

  /** What `InsertOrUpdate` means for the offers in the queue. */
  lemma OffersAfterUpdate(heap: seq<EdgeCost>, index: seq<Option<nat>>, n: EdgeCost, heap': seq<EdgeCost>)
    requires IndexInverse(heap, index)
    requires (forall e :: e in heap ==> e.to != n.to) ==> multiset(heap') == multiset(heap) + multiset{n}
    requires forall e :: e in heap && e.to == n.to ==>
               multiset(heap') == if e.cost <= n.cost then multiset(heap) else multiset(heap) - multiset{e} + multiset{n}
    ensures forall q :: q in heap' ==> q in heap || q == n
    ensures forall node, price :: Offers(heap, node, price) ==> Offers(heap', node, price)
    ensures Offers(heap', n.to, n.cost)
  {
    forall q
      ensures q in heap' ==> q in heap || q == n
      ensures q in heap ==> q in heap' || (q.to == n.to && q.cost > n.cost)
    {
      EntriesAfterUpdate(heap, index, n, heap', q);
    }
    EntriesAfterUpdate(heap, index, n, heap', n);
    forall node, price | Offers(heap, node, price)
      ensures Offers(heap', node, price)
    {
      var q :| q in heap && q.to == node && q.cost <= price;
    }
  }

  lemma {:induction false} LeadsToRootAfterGrowth(tree: seq<Option<nat>>, node: nat, parent: nat, i: nat, steps: nat)
    requires node < |tree| && tree[node] == None && LeadsToRoot(tree, i, steps)
    ensures LeadsToRoot(tree[node := Some(parent)], i, steps)
    decreases steps
  {
    if steps > 0 {
      LeadsToRootAfterGrowth(tree, node, parent, tree[i].value, steps - 1);
    }
  }

  lemma GrownNodesAndEdges(tree: seq<Option<nat>>, node: nat, parent: nat)
    requires 0 < node < |tree| && tree[node] == None
    ensures TreeNodes(tree[node := Some(parent)]) == TreeNodes(tree) + {node}
    ensures TreeEdges(tree[node := Some(parent)]) == TreeEdges(tree) + {Edge(parent, node)}
    ensures Edge(parent, node) !in TreeEdges(tree)
  {
    var tree' := tree[node := Some(parent)];
    forall e | e in TreeEdges(tree) + {Edge(parent, node)}
      ensures e in TreeEdges(tree')
    {
      assert tree'[e.end] == Some(e.start);
    }
  }

  lemma RootedAfterGrowth(tree: seq<Option<nat>>, node: nat, parent: nat)
    requires Rooted(tree) && node < |tree| && tree[node] == None && parent in TreeNodes(tree)
    ensures Rooted(tree[node := Some(parent)])
  {
    var tree' := tree[node := Some(parent)];
    forall i | i in TreeNodes(tree')
      ensures exists steps: nat :: LeadsToRoot(tree', i, steps)
    {
      var start := if i == node then parent else i;
      assert start in TreeNodes(tree);
      var steps: nat :| LeadsToRoot(tree, start, steps);
      LeadsToRootAfterGrowth(tree, node, parent, start, steps);
      if i == node {
        assert LeadsToRoot(tree', i, steps + 1);
      }
    }
  }

  /** Recording a parent inside the tree for a node outside it grows the tree. */
  lemma GrowTree(edges: set<Edge>, tree: seq<Option<nat>>, node: nat, parent: nat)
    requires GrownTree(edges, tree) && node < |tree| && tree[node] == None
    requires parent in TreeNodes(tree) && Edge(parent, node) in edges
    ensures GrownTree(edges, tree[node := Some(parent)])
    ensures TreeNodes(tree[node := Some(parent)]) == TreeNodes(tree) + {node}
    ensures TreeEdges(tree[node := Some(parent)]) == TreeEdges(tree) + {Edge(parent, node)}
  {
    GrownNodesAndEdges(tree, node, parent);
    RootedAfterGrowth(tree, node, parent);
    ConnectedExtend(TreeNodes(tree), TreeEdges(tree), Edge(parent, node), node);
  }

  /** The popped edge is a cheapest one out of the tree. */
  lemma PoppedEdgeIsLight(graph: seq<GraphNode>, fun: (int, int) -> real, tree: seq<Option<nat>>, heap: seq<EdgeCost>, r: EdgeCost)
    requires Undirected(graph, fun)
    requires QueueSound(EdgesOf(graph), Weight(graph, fun), tree, heap)
    requires QueueComplete(EdgesOf(graph), Weight(graph, fun), tree, heap)
    requires r in heap && forall q :: q in heap ==> r.cost <= q.cost
    ensures CheapestCrossing(EdgesOf(graph), Weight(graph, fun), TreeNodes(tree), Edge(r.from, r.to))
  {
    var edges, cost, nodes := EdgesOf(graph), Weight(graph, fun), TreeNodes(tree);
    forall f | f in edges && Crosses(f, nodes)
      ensures r.cost <= cost(f)
    {
      var out := if f.start in nodes then f else Edge(f.end, f.start);
      assert out in edges && cost(out) == cost(f);
      var q :| q in heap && q.to == out.end && q.cost <= cost(out);
    }
  }

  lemma ExtendableStep(edges: set<Edge>, cost: Edge -> real, nodes: set<nat>, chosen: set<Edge>, e: Edge)
    requires Extendable(edges, cost, nodes, chosen)
    requires Connected(nodes, chosen) && forall g :: g in chosen ==> Inside(g, nodes)
    requires CheapestCrossing(edges, cost, nodes, e) && e.start in nodes
    ensures Extendable(edges, cost, nodes + {e.end}, chosen + {e})
  {
    forall all, other | 0 in all && Closed(all, edges) && SpanningTree(all, edges, other)
      ensures HasCheapExtension(edges, cost, nodes + {e.end}, chosen + {e}, all, other)
    {
      assert HasCheapExtension(edges, cost, nodes, chosen, all, other);
      var better :| SpanningTree(all, edges, better) && chosen <= better && TotalCost(better, cost) <= TotalCost(other, cost);
      var best := LightEdgeExchange(all, edges, cost, nodes, chosen, e, better);
    }
  }

  /** A tree whose node set no edge leaves, and that extends to one as cheap as any, is itself as cheap as any. */
  lemma GrownTreeIsMinimum(edges: set<Edge>, cost: Edge -> real, tree: seq<Option<nat>>)
    requires GrownTree(edges, tree) && Closed(TreeNodes(tree), edges)
    requires Extendable(edges, cost, TreeNodes(tree), TreeEdges(tree))
    ensures MinimumSpanningTree(TreeNodes(tree), edges, cost, TreeEdges(tree))
  {
    var nodes, chosen := TreeNodes(tree), TreeEdges(tree);
    forall other | SpanningTree(nodes, edges, other)
      ensures TotalCost(chosen, cost) <= TotalCost(other, cost)
    {
      assert HasCheapExtension(edges, cost, nodes, chosen, nodes, other);
      var better :| SpanningTree(nodes, edges, better) && chosen <= better && TotalCost(better, cost) <= TotalCost(other, cost);
      assert better == chosen + (better - chosen);
      assert |better| == |chosen| + |better - chosen|;
      assert better == chosen;
    }
  }

  /** In a connected undirected graph the only closed node set with node 0 is the set of all nodes. */
  lemma ConnectedGraphIsCovered(graph: seq<GraphNode>, fun: (int, int) -> real, nodes: set<nat>)
    requires Undirected(graph, fun) && 0 in nodes && nodes <= Below(|graph|)
    requires Connected(Below(|graph|), EdgesOf(graph)) && Closed(nodes, EdgesOf(graph))
    ensures nodes == Below(|graph|)
  {
    var all := Below(|graph|);
    if nodes != all {
      assert ProperPart(nodes, all);
    }
  }

  lemma TreeNodesBound(tree: seq<Option<nat>>)
    ensures |TreeNodes(tree)| <= |tree|
  {
    var all := Below(|tree|);
    assert all == TreeNodes(tree) + (all - TreeNodes(tree));
    assert |all| == |TreeNodes(tree)| + |all - TreeNodes(tree)|;
  }

  /** One pop of the loop, whichever it is: one more node in the tree, and its neighbours still to be scanned. */
  lemma PopStep(graph: seq<GraphNode>, fun: (int, int) -> real, tree: seq<Option<nat>>, heap: seq<EdgeCost>,
                index: seq<Option<nat>>, r: EdgeCost, heap': seq<EdgeCost>)
    requires WellFormed(graph) && |tree| == |graph| && IndexInverse(heap, index)
    requires OnlyRootQueued(tree, heap) || LoopInvariant(graph, fun, tree, heap)
    requires r in heap && multiset(heap') == multiset(heap) - multiset{r} && forall q :: q in heap ==> r.cost <= q.cost
    ensures r.to < |tree|
    ensures TreeInvariant(graph, fun, tree[r.to := Some(r.from)])
    ensures ScanInvariant(graph, fun, tree[r.to := Some(r.from)], heap', r.to, 0)
    ensures |TreeNodes(tree)| < |TreeNodes(tree[r.to := Some(r.from)])| <= |graph|
  {
    hide EdgesOf, Weight, TreeInvariant, ScanInvariant, Undirected, Extendable;
    if OnlyRootQueued(tree, heap) {
      PopFirst(graph, fun, tree, heap, r, heap');
    } else {
      PopGrows(graph, fun, tree, heap, r);
      PoppedHeap(heap, index, r, heap');
      PopLeavesQueue(graph, fun, tree, heap, r, tree[r.to := Some(r.from)], heap');
    }
    TreeNodesBound(tree[r.to := Some(r.from)]);
  }

  // ---- the algorithm

  /** The inner loop of `Prims`: offers every neighbour of `newnode` outside the tree to the queue. */
  method OfferNeighbours(graph: seq<GraphNode>, fun: (int, int) -> real, treeEdges: seq<Option<nat>>,
                         queue: PriorityQueue, newnode: nat)
    requires WellFormed(graph) && queue.Valid() && |queue.graphIndexToHeapIndexMap| == |graph|
    requires ScanInvariant(graph, fun, treeEdges, queue.heap, newnode, 0)
    modifies queue
    ensures queue.Valid() && |queue.graphIndexToHeapIndexMap| == |graph|
    ensures QueueSound(EdgesOf(graph), Weight(graph, fun), treeEdges, queue.heap)
    ensures QueueComplete(EdgesOf(graph), Weight(graph, fun), treeEdges, queue.heap)
  {
    for k := 0 to |graph[newnode].adjList|
      invariant queue.Valid() && |queue.graphIndexToHeapIndexMap| == |graph|
      invariant ScanInvariant(graph, fun, treeEdges, queue.heap, newnode, k)
    {
      var adjNodeIndex := graph[newnode].adjList[k];
      assert adjNodeIndex in graph[newnode].adjList;
      if treeEdges[adjNodeIndex] != None {
        ScanSkips(graph, fun, treeEdges, queue.heap, newnode, k);
        continue;
      }
      var newcost := fun(newnode, graph[adjNodeIndex].id);
      ghost var was, wasIndex := queue.heap, queue.graphIndexToHeapIndexMap;
      var offer := EdgeCost(adjNodeIndex, newcost, newnode);
      queue.InsertOrUpdate(offer);
      OffersAfterUpdate(was, wasIndex, offer, queue.heap);
      ScanOffers(graph, fun, treeEdges, was, newnode, k, offer, queue.heap);
    }
    ScanEnds(graph, fun, treeEdges, queue.heap, newnode);
  }

  /** Grows a tree from node 0. The result maps each node it reached to its parent, and node 0 to itself. */
  method Prims(graph: seq<GraphNode>, fun: (int, int) -> real) returns (treeEdges: seq<Option<nat>>)
    requires WellFormed(graph)
    ensures |treeEdges| == |graph|
    ensures GrownTree(EdgesOf(graph), treeEdges) && Closed(TreeNodes(treeEdges), EdgesOf(graph))
    ensures Undirected(graph, fun) ==>
              MinimumSpanningTree(TreeNodes(treeEdges), EdgesOf(graph), Weight(graph, fun), TreeEdges(treeEdges))
    ensures Undirected(graph, fun) && Connected(Below(|graph|), EdgesOf(graph)) ==>
              TreeNodes(treeEdges) == Below(|graph|)
  {
    hide EdgesOf, Weight, ScanInvariant, Undirected, Extendable;
    treeEdges := seq(|graph|, _ => None);
    var queue := new PriorityQueue(|graph|);
    queue.Insert(EdgeCost(0, 0.0, 0));
    while !queue.IsEmpty()
      invariant queue.Valid() && fresh(queue)
      invariant |treeEdges| == |graph| == |queue.graphIndexToHeapIndexMap|
      invariant OnlyRootQueued(treeEdges, queue.heap) || LoopInvariant(graph, fun, treeEdges, queue.heap)
      decreases |graph| - |TreeNodes(treeEdges)|
    {
      ghost var tree, heap, index := treeEdges, queue.heap, queue.graphIndexToHeapIndexMap;
      var popped := queue.Pop();
      var e := popped.value;
      var newnode := e.to;
      PopStep(graph, fun, tree, heap, index, e, queue.heap);
      treeEdges := treeEdges[newnode := Some(e.from)];

      OfferNeighbours(graph, fun, treeEdges, queue, newnode);
    }
    LoopEnds(graph, fun, treeEdges, queue.heap);
  }

  /** A single node is its own tree. */
  method PrimsOfOneNode(id: int, fun: (int, int) -> real) returns (treeEdges: seq<Option<nat>>)
    ensures |treeEdges| == 1 && TreeNodes(treeEdges) == {0} && TreeEdges(treeEdges) == {}
  {
    treeEdges := Prims([GraphNode(id, [])], fun);
  }

  lemma LoopEnds(graph: seq<GraphNode>, fun: (int, int) -> real, tree: seq<Option<nat>>, heap: seq<EdgeCost>)
    requires heap == [] && LoopInvariant(graph, fun, tree, heap)
    ensures Closed(TreeNodes(tree), EdgesOf(graph))
    ensures Undirected(graph, fun) ==>
              MinimumSpanningTree(TreeNodes(tree), EdgesOf(graph), Weight(graph, fun), TreeEdges(tree))
    ensures Undirected(graph, fun) && Connected(Below(|graph|), EdgesOf(graph)) ==> TreeNodes(tree) == Below(|graph|)
  {
    assert Closed(TreeNodes(tree), EdgesOf(graph));
    if Undirected(graph, fun) {
      GrownTreeIsMinimum(EdgesOf(graph), Weight(graph, fun), tree);
      if Connected(Below(|graph|), EdgesOf(graph)) {
        ConnectedGraphIsCovered(graph, fun, TreeNodes(tree));
      }
    }
  }

  /** A neighbour that is in the tree already needs no offer. */
  lemma ScanSkips(graph: seq<GraphNode>, fun: (int, int) -> real, tree: seq<Option<nat>>, heap: seq<EdgeCost>, node: nat, k: nat)
    requires ScanInvariant(graph, fun, tree, heap, node, k) && k < |graph[node].adjList|
    requires graph[node].adjList[k] in TreeNodes(tree)
    ensures ScanInvariant(graph, fun, tree, heap, node, k + 1)
  {
    assert graph[node].adjList[..k + 1] == graph[node].adjList[..k] + [graph[node].adjList[k]];
  }

  lemma NeighbourEdge(graph: seq<GraphNode>, fun: (int, int) -> real, node: nat, k: nat)
    requires WellFormed(graph) && node < |graph| && k < |graph[node].adjList|
    ensures var to := graph[node].adjList[k];
            && to < |graph| && Edge(node, to) in EdgesOf(graph)
            && Weight(graph, fun)(Edge(node, to)) == fun(node, graph[to].id)
  {
    assert graph[node].adjList[k] in graph[node].adjList;
  }

  /** A neighbour outside the tree gets an offer at the weight of the edge to it. */
  lemma ScanOffers(graph: seq<GraphNode>, fun: (int, int) -> real, tree: seq<Option<nat>>, heap: seq<EdgeCost>,
                   node: nat, k: nat, n: EdgeCost, heap': seq<EdgeCost>)
    requires WellFormed(graph) && ScanInvariant(graph, fun, tree, heap, node, k) && k < |graph[node].adjList|
    requires n.to < |graph| && n.to == graph[node].adjList[k] && n.to !in TreeNodes(tree) && n.from == node
    requires n.cost == fun(node, graph[n.to].id)
    requires forall q :: q in heap' ==> q in heap || q == n
    requires forall t, price :: Offers(heap, t, price) ==> Offers(heap', t, price)
    requires Offers(heap', n.to, n.cost)
    ensures ScanInvariant(graph, fun, tree, heap', node, k + 1)
  {
    hide EdgesOf, Weight, Offers;
    NeighbourEdge(graph, fun, node, k);
    var edges, cost := EdgesOf(graph), Weight(graph, fun);
    var neighbours := graph[node].adjList;
    forall e | e in edges && e.start in TreeNodes(tree) && e.end !in TreeNodes(tree) &&
               (e.start == node ==> e.end in neighbours[..k + 1])
      ensures Offers(heap', e.end, cost(e))
    {
      assert neighbours[..k + 1] == neighbours[..k] + [n.to];
      if e != Edge(node, n.to) {
        assert Offers(heap, e.end, cost(e));
      }
    }
  }

  lemma ScanEnds(graph: seq<GraphNode>, fun: (int, int) -> real, tree: seq<Option<nat>>, heap: seq<EdgeCost>, node: nat)
    requires node < |graph| && ScanInvariant(graph, fun, tree, heap, node, |graph[node].adjList|)
    ensures QueueComplete(EdgesOf(graph), Weight(graph, fun), tree, heap)
  {
    var edges, cost := EdgesOf(graph), Weight(graph, fun);
    forall e | e in edges && e.start in TreeNodes(tree) && e.end !in TreeNodes(tree)
      ensures Offers(heap, e.end, cost(e))
    {
      assert graph[node].adjList[..|graph[node].adjList|] == graph[node].adjList;
    }
  }

  /** Popping a cheapest entry leaves the entries for all other nodes. */
  lemma PoppedHeap(heap: seq<EdgeCost>, index: seq<Option<nat>>, r: EdgeCost, heap': seq<EdgeCost>)
    requires IndexInverse(heap, index) && r in heap && multiset(heap') == multiset(heap) - multiset{r}
    ensures forall q :: q in heap' <==> q in heap && q.to != r.to
  {
    forall q
      ensures q in heap' <==> q in heap && q.to != r.to
    {
      assert (q in heap' <==> q in multiset(heap')) && (q in heap <==> q in multiset(heap));
      EntriesAreUnique(heap, index, r, r);
      if q in heap && q.to == r.to {
        EntriesAreUnique(heap, index, r, q);
      }
    }
  }

  /** Popping the entry of node 0. */
  lemma PopFirst(graph: seq<GraphNode>, fun: (int, int) -> real, tree: seq<Option<nat>>, heap: seq<EdgeCost>,
                 r: EdgeCost, heap': seq<EdgeCost>)
    requires WellFormed(graph) && |tree| == |graph| && OnlyRootQueued(tree, heap)
    requires r in heap && multiset(heap') == multiset(heap) - multiset{r}
    ensures r.to == r.from == 0 && TreeNodes(tree[0 := Some(0)]) == {0}
    ensures TreeInvariant(graph, fun, tree[0 := Some(0)])
    ensures ScanInvariant(graph, fun, tree[0 := Some(0)], heap', 0, 0)
  {
    assert r in multiset(heap);
    assert forall q :: q in heap' ==> q in multiset(heap');
    FirstNode(graph, Weight(graph, fun), tree);
  }

  /** Popping any later entry: the recorded edge keeps the tree part of the invariant. */
  lemma PopGrows(graph: seq<GraphNode>, fun: (int, int) -> real, tree: seq<Option<nat>>, heap: seq<EdgeCost>, r: EdgeCost)
    requires LoopInvariant(graph, fun, tree, heap)
    requires r in heap && forall q :: q in heap ==> r.cost <= q.cost
    ensures r.to < |tree| && r.to !in TreeNodes(tree)
    ensures TreeNodes(tree[r.to := Some(r.from)]) == TreeNodes(tree) + {r.to}
    ensures TreeInvariant(graph, fun, tree[r.to := Some(r.from)])
  {
    GrowTree(EdgesOf(graph), tree, r.to, r.from);
    if Undirected(graph, fun) {
      PoppedEdgeIsLight(graph, fun, tree, heap, r);
      ExtendableStep(EdgesOf(graph), Weight(graph, fun), TreeNodes(tree), TreeEdges(tree), Edge(r.from, r.to));
    }
  }

  lemma SoundAfterPop(edges: set<Edge>, cost: Edge -> real, tree: seq<Option<nat>>, heap: seq<EdgeCost>,
                      r: EdgeCost, tree': seq<Option<nat>>, heap': seq<EdgeCost>)
    requires QueueSound(edges, cost, tree, heap)
    requires forall q :: q in heap' <==> q in heap && q.to != r.to
    requires r.to < |tree| && tree' == tree[r.to := Some(r.from)] && TreeNodes(tree') == TreeNodes(tree) + {r.to}
    ensures QueueSound(edges, cost, tree', heap')
  {
    hide TreeNodes;
  }

  lemma CompleteAfterPop(edges: set<Edge>, cost: Edge -> real, nodes: set<nat>, heap: seq<EdgeCost>,
                         r: EdgeCost, heap': seq<EdgeCost>, e: Edge)
    requires e.start in nodes && e.end !in nodes && e.end != r.to && Offers(heap, e.end, cost(e))
    requires forall q :: q in heap' <==> q in heap && q.to != r.to
    ensures Offers(heap', e.end, cost(e))
  {
    var q :| q in heap && q.to == e.end && q.cost <= cost(e);
    assert q in heap';
  }

  /** Popping any later entry: the queue part of the invariant, before the neighbours are looked at. */
  lemma PopLeavesQueue(graph: seq<GraphNode>, fun: (int, int) -> real, tree: seq<Option<nat>>, heap: seq<EdgeCost>,
                       r: EdgeCost, tree': seq<Option<nat>>, heap': seq<EdgeCost>)
    requires LoopInvariant(graph, fun, tree, heap) && r in heap
    requires forall q :: q in heap' <==> q in heap && q.to != r.to
    requires r.to < |tree| && tree' == tree[r.to := Some(r.from)] && TreeNodes(tree') == TreeNodes(tree) + {r.to}
    ensures ScanInvariant(graph, fun, tree', heap', r.to, 0)
  {
    hide EdgesOf, Weight, Offers, TreeNodes, GrownTree, Extendable, QueueSound, Undirected;
    var edges, cost := EdgesOf(graph), Weight(graph, fun);
    SoundAfterPop(edges, cost, tree, heap, r, tree', heap');
    forall e | e in edges && e.start in TreeNodes(tree') && e.end !in TreeNodes(tree') && e.start != r.to
      ensures Offers(heap', e.end, cost(e))
    {
      CompleteAfterPop(edges, cost, TreeNodes(tree), heap, r, heap', e);
    }
  }

  /** Popping the root entry makes node 0 the whole tree. */
  lemma FirstNode(graph: seq<GraphNode>, cost: Edge -> real, tree: seq<Option<nat>>)
    requires WellFormed(graph) && |tree| == |graph| && TreeNodes(tree) == {}
    ensures var tree' := tree[0 := Some(0)];
            TreeNodes(tree') == {0} && GrownTree(EdgesOf(graph), tree') &&
            Extendable(EdgesOf(graph), cost, TreeNodes(tree'), TreeEdges(tree'))
  {
    var tree' := tree[0 := Some(0)];
    assert forall i :: 0 <= i < |tree| ==> tree[i] == None by {
      assert forall i :: 0 <= i < |tree| && tree[i].Some? ==> i in TreeNodes(tree);
    }
    assert TreeNodes(tree') == {0} && TreeEdges(tree') == {};
    assert LeadsToRoot(tree', 0, 0);
    assert forall part :: !ProperPart(part, {0});
    forall all, other | 0 in all && SpanningTree(all, EdgesOf(graph), other)
      ensures HasCheapExtension(EdgesOf(graph), cost, {0}, {}, all, other)
    {
    }
  }
}
