/** Spanning trees of a set of graph nodes, their cost, and the exchange argument for light edges. */
module SpanningTrees {

  datatype Edge = Edge(start: nat, end: nat)

  /** `e` has exactly one end in `part`. */
  predicate Crosses(e: Edge, part: set<nat>) {
    (e.start in part) != (e.end in part)
  }

  predicate Inside(e: Edge, nodes: set<nat>) {
    e.start in nodes && e.end in nodes
  }

  ghost predicate HasCrossing(nodes: set<nat>, edges: set<Edge>, part: set<nat>) {
    exists e :: e in edges && Inside(e, nodes) && Crosses(e, part)
  }

  ghost predicate ProperPart(part: set<nat>, nodes: set<nat>) {
    part <= nodes && part != {} && part != nodes
  }

  /** No way to split `nodes` in two without an edge between the two halves. */
  ghost predicate Connected(nodes: set<nat>, edges: set<Edge>) {
    forall part :: ProperPart(part, nodes) ==> HasCrossing(nodes, edges, part)
  }

  /** `tree` connects `nodes` using only `edges`, and with as few edges as that takes. */
  ghost predicate SpanningTree(nodes: set<nat>, edges: set<Edge>, tree: set<Edge>) {
    && tree <= edges
    && (forall e :: e in tree ==> Inside(e, nodes))
    && |tree| + 1 == |nodes|
    && Connected(nodes, tree)
  }

  ghost function TotalCost(edges: set<Edge>, cost: Edge -> real): real {
    if edges == {} then 0.0 else
      var e :| e in edges;
      cost(e) + TotalCost(edges - {e}, cost)
  }

  lemma {:induction false} TotalCostWithout(edges: set<Edge>, cost: Edge -> real, e: Edge)
    requires e in edges
    ensures TotalCost(edges, cost) == cost(e) + TotalCost(edges - {e}, cost)
  {
    var f :| f in edges && TotalCost(edges, cost) == cost(f) + TotalCost(edges - {f}, cost);
    if e != f {
      TotalCostWithout(edges - {f}, cost, e);
      TotalCostWithout(edges - {e}, cost, f);
      assert edges - {f} - {e} == edges - {e} - {f};
    }
  }

  /** A connected set stays connected when a node is added with an edge to it. */
  lemma ConnectedExtend(nodes: set<nat>, edges: set<Edge>, e: Edge, node: nat)
    requires Connected(nodes, edges) && node !in nodes && nodes != {}
    requires Inside(e, nodes + {node}) && Crosses(e, nodes)
    ensures Connected(nodes + {node}, edges + {e})
  {
    var nodes', edges' := nodes + {node}, edges + {e};
    forall part | ProperPart(part, nodes')
      ensures HasCrossing(nodes', edges', part)
    {
      var rest := part - {node};
      if ProperPart(rest, nodes) {
        var f :| f in edges && Inside(f, nodes) && Crosses(f, rest);
        assert f in edges' && Inside(f, nodes') && Crosses(f, part);
      } else {
        assert rest == {} || rest == nodes;
        assert e in edges' && Inside(e, nodes') && Crosses(e, part);
      }
    }
  }

  lemma ConnectedMonotone(nodes: set<nat>, edges: set<Edge>, more: set<Edge>)
    requires Connected(nodes, edges) && edges <= more
    ensures Connected(nodes, more)
  {
    forall part | ProperPart(part, nodes)
      ensures HasCrossing(nodes, more, part)
    {
      assert HasCrossing(nodes, edges, part);
    }
  }

  /** The edges of `tree` that run between two nodes of `region`. */
  function Within(tree: set<Edge>, region: set<nat>): set<Edge> {
    set e | e in tree && Inside(e, region)
  }

  /** Growing a connected region of `nodes - cut` from `region` until a tree edge leads from it into `cut`. */
  lemma {:induction false} EdgeBackIntoCut(nodes: set<nat>, tree: set<Edge>, cut: set<nat>, region: set<nat>)
      returns (grown: set<nat>, f: Edge)
    requires Connected(nodes, tree) && cut <= nodes && cut != {}
    requires region <= nodes - cut && region != {}
    requires Connected(region, Within(tree, region))
    ensures region <= grown <= nodes - cut && Connected(grown, Within(tree, grown))
    ensures f in tree && Inside(f, nodes) && Crosses(f, grown) && Crosses(f, cut)
    decreases |nodes - region|
  {
    assert ProperPart(region, nodes);
    assert HasCrossing(nodes, tree, region);
    f :| f in tree && Inside(f, nodes) && Crosses(f, region);
    if Crosses(f, cut) {
      grown := region;
    } else {
      var node := if f.start in region then f.end else f.start;
      ConnectedExtend(region, Within(tree, region), f, node);
      ConnectedMonotone(region + {node}, Within(tree, region) + {f}, Within(tree, region + {node}));
      assert nodes - region == (nodes - (region + {node})) + {node};
      grown, f := EdgeBackIntoCut(nodes, tree, cut, region + {node});
    }
  }

  /** Replacing `f` by `e` keeps a set connected when each end of `f` stays joined, without `f`, to an end of `e`. */
  lemma ConnectedExchange(nodes: set<nat>, tree: set<Edge>, f: Edge, e: Edge, cut: set<nat>, grown: set<nat>)
    requires Connected(nodes, tree) && cut <= nodes && grown <= nodes && cut !! grown
    requires Connected(cut, Within(tree, cut)) && Connected(grown, Within(tree, grown))
    requires f in tree && Crosses(f, cut) && Crosses(f, grown)
    requires Crosses(e, cut) && Crosses(e, grown) && Inside(e, nodes)
    ensures Connected(nodes, tree - {f} + {e})
  {
    var tree' := tree - {f} + {e};
    forall part | ProperPart(part, nodes)
      ensures HasCrossing(nodes, tree', part)
    {
      if ProperPart(part * cut, cut) {
        var g :| g in Within(tree, cut) && Inside(g, cut) && Crosses(g, part * cut);
        assert g in tree' && Inside(g, nodes) && Crosses(g, part);
      } else if ProperPart(part * grown, grown) {
        var g :| g in Within(tree, grown) && Inside(g, grown) && Crosses(g, part * grown);
        assert g in tree' && Inside(g, nodes) && Crosses(g, part);
      } else {
        assert HasCrossing(nodes, tree, part);
        var g :| g in tree && Inside(g, nodes) && Crosses(g, part);
        if g == f {
          assert part * cut == {} || part * cut == cut;
          assert part * grown == {} || part * grown == grown;
          assert forall n :: n in cut ==> (n in part <==> n in part * cut);
          assert forall n :: n in grown ==> (n in part <==> n in part * grown);
          assert e in tree' && Crosses(e, part);
        } else {
          assert g in tree';
        }
      }
    }
  }

  /** `e` leaves `cut`, and no edge that does is cheaper. */
  ghost predicate CheapestCrossing(edges: set<Edge>, cost: Edge -> real, cut: set<nat>, e: Edge) {
    e in edges && Crosses(e, cut) && forall f :: f in edges && Crosses(f, cut) ==> cost(e) <= cost(f)
  }

  /** The cut property: a tree that contains the chosen edges inside `cut` can be
      changed, at no extra cost, into one that also contains the cheapest edge out of `cut`. */
  lemma LightEdgeExchange(nodes: set<nat>, edges: set<Edge>, cost: Edge -> real,
                          cut: set<nat>, chosen: set<Edge>, e: Edge, tree: set<Edge>) returns (better: set<Edge>)
    requires SpanningTree(nodes, edges, tree) && chosen <= tree
    requires cut <= nodes && Connected(cut, chosen) && forall g :: g in chosen ==> Inside(g, cut)
    requires CheapestCrossing(edges, cost, cut, e) && Inside(e, nodes)
    ensures SpanningTree(nodes, edges, better) && chosen + {e} <= better
    ensures TotalCost(better, cost) <= TotalCost(tree, cost)
  {
    if e in tree {
      return tree;
    }
    var outer := if e.start in cut then e.end else e.start;
    assert Connected({outer}, Within(tree, {outer})) by {
      assert forall part :: !ProperPart(part, {outer});
    }
    var grown, f := EdgeBackIntoCut(nodes, tree, cut, {outer});
    assert chosen <= Within(tree, cut);
    ConnectedMonotone(cut, chosen, Within(tree, cut));
    ConnectedExchange(nodes, tree, f, e, cut, grown);
    better := tree - {f} + {e};
    assert |better| == |tree|;
    TotalCostWithout(tree, cost, f);
    TotalCostWithout(better, cost, e);
    assert better - {e} == tree - {f};
    assert f !in chosen;
  }
}
