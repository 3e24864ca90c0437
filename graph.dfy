/**
 * The part of a networkx MultiDiGraph that the polygon builder drives:
 * a node table whose entries hold the `x`/`y` attributes (None for a node
 * created without attributes), and the edge list in insertion order.
 */
module Graph {
  import opened Wrappers
  import opened Ring

  /** The node table after `add_edge` has created a missing endpoint. */
  function WithNode<N>(nodes: map<nat, Option<Coord<N>>>, n: nat): map<nat, Option<Coord<N>>>
  {
    if n in nodes then nodes else nodes[n := None]
  }

  class MultiDiGraph<N> {
    /** The graph attribute `crs` given at construction. */
    const crs: string
    var nodes: map<nat, Option<Coord<N>>>
    var edges: seq<Edge>

    constructor (crs: string)
      ensures this.crs == crs && nodes == map[] && edges == []
    {
      this.crs := crs;
      nodes := map[];
      edges := [];
    }

    /** `add_node(i, x=x, y=y)`: adds node `i`, or overwrites its `x` and `y`. */
    method AddNode(i: nat, x: N, y: N)
      modifies this
      ensures nodes == old(nodes)[i := Some(Coord(x, y))]
      ensures edges == old(edges)
    {
      nodes := nodes[i := Some(Coord(x, y))];
    }

    /** `add_edge(u, v)`: creates missing endpoints without attributes and
        appends a new edge whose key is the number of earlier `u -> v` edges. */
    method AddEdge(u: nat, v: nat) returns (key: nat)
      modifies this
      ensures key == Multiplicity(old(edges), u, v)
      ensures nodes == WithNode(WithNode(old(nodes), u), v)
      ensures edges == old(edges) + [Edge(u, v, key)]
    {
      key := Multiplicity(edges, u, v);
      nodes := WithNode(WithNode(nodes, u), v);
      edges := edges + [Edge(u, v, key)];
    }
  }
}
