/**
 * The ring graph that the polygon builder produces, stated as values:
 * node `i` carries position `i` of the boundary, and node `i` has one edge
 * to node `(i + 1) mod N`. The builder's method is proved against these
 * definitions; the lemmas say what the ring graph is as a graph
 * (node count, degrees, edge multiplicities, the degenerate small rings).
 */
module Ring {
  import opened Wrappers

  /** A boundary position as stored on a node: the attributes `x` and `y`.
      The coordinate values are only copied, so their type is a parameter. */
  datatype Coord<N> = Coord(x: N, y: N)

  /** A directed multigraph edge `src -> dst`; `key` tells parallel edges apart. */
  datatype Edge = Edge(src: nat, dst: nat, key: nat)

  /** The successor of node `i` on a ring of `n` nodes, `(i + 1) % n`. */
  function Succ(i: nat, n: nat): (j: nat)
    requires i < n
    ensures j < n
    ensures i + 1 < n ==> j == i + 1
    ensures i + 1 == n ==> j == 0
  {
    (i + 1) % n
  }

  /** The node table after the first `k` positions have been added. */
  function NodesUpTo<N>(ring: seq<Coord<N>>, k: nat): map<nat, Option<Coord<N>>>
    requires k <= |ring|
  {
    map i: nat | i < k :: Some(ring[i])
  }

  /** The node table of the ring graph: node `i` carries position `i`. */
  function RingNodes<N>(ring: seq<Coord<N>>): map<nat, Option<Coord<N>>>
  {
    NodesUpTo(ring, |ring|)
  }

  /** The edge list of the ring graph, in insertion order. */
  function RingEdges<N>(ring: seq<Coord<N>>): seq<Edge>
  {
    seq(|ring|, i requires 0 <= i < |ring| => Edge(i, Succ(i, |ring|), 0))
  }

  /** The positions in the list of the edges `u -> v`. */
  function Between(es: seq<Edge>, u: nat, v: nat): set<int>
  {
    set j | 0 <= j < |es| && es[j].src == u && es[j].dst == v
  }

  /** How many edges `u -> v` the list holds (parallel edges each count). */
  function Multiplicity(es: seq<Edge>, u: nat, v: nat): nat
  {
    |Between(es, u, v)|
  }

  function OutDegree(es: seq<Edge>, u: nat): nat
  {
    |set j | 0 <= j < |es| && es[j].src == u|
  }

  function InDegree(es: seq<Edge>, v: nat): nat
  {
    |set j | 0 <= j < |es| && es[j].dst == v|
  }

  lemma {:induction false} NodesUpToSize<N>(ring: seq<Coord<N>>, k: nat)
    requires k <= |ring|
    ensures |NodesUpTo(ring, k)| == k
  {
    if k > 0 {
      NodesUpToSize(ring, k - 1);
      assert k - 1 !in NodesUpTo(ring, k - 1);
      assert NodesUpTo(ring, k) == NodesUpTo(ring, k - 1)[k - 1 := Some(ring[k - 1])];
    }
  }

  /** The graph has exactly one node per position, keyed `0 .. N-1`,
      and node `i` carries position `i` unchanged. */
  lemma RingNodeTable<N>(ring: seq<Coord<N>>)
    ensures |RingNodes(ring)| == |ring|
    ensures forall i: nat :: i in RingNodes(ring) <==> i < |ring|
    ensures forall i: nat :: i < |ring| ==> RingNodes(ring)[i] == Some(ring[i])
  {
    NodesUpToSize(ring, |ring|);
  }

  /** A closed GeoJSON ring repeats its first position at the end; the two
      copies stay two distinct nodes with equal attributes. */
  lemma ClosingPositionKept<N>(ring: seq<Coord<N>>)
    requires |ring| >= 2 && ring[0] == ring[|ring| - 1]
    ensures 0 in RingNodes(ring) && |ring| - 1 in RingNodes(ring)
    ensures RingNodes(ring)[0] == RingNodes(ring)[|ring| - 1] == Some(ring[0])
    ensures |RingNodes(ring)| == |ring|
  {
    RingNodeTable(ring);
  }

  /** Every edge `u -> v` of the ring graph is present exactly once when
      `v` is the successor of `u`, and not at all otherwise. */
  lemma RingMultiplicity<N>(ring: seq<Coord<N>>, u: nat, v: nat)
    ensures Multiplicity(RingEdges(ring), u, v) == if u < |ring| && v == Succ(u, |ring|) then 1 else 0
  {
    var es := RingEdges(ring);
    if u < |ring| && v == Succ(u, |ring|) {
      assert Between(es, u, v) == {u};
    } else {
      assert Between(es, u, v) == {};
    }
  }

  /** The ring graph has exactly `N` edges. */
  lemma RingEdgeCount<N>(ring: seq<Coord<N>>)
    ensures |RingEdges(ring)| == |ring|
    ensures forall j :: 0 <= j < |ring| ==> RingEdges(ring)[j].key == 0
  {
  }

  /** Each node of the ring has out-degree 1; no other node has edges out. */
  lemma RingOutDegree<N>(ring: seq<Coord<N>>, u: nat)
    ensures OutDegree(RingEdges(ring), u) == if u < |ring| then 1 else 0
  {
    var es := RingEdges(ring);
    var s := set j | 0 <= j < |es| && es[j].src == u;
    if u < |ring| {
      assert s == {u};
    } else {
      assert s == {};
    }
  }

  /** Each node of the ring has in-degree 1; no other node has edges in. */
  lemma RingInDegree<N>(ring: seq<Coord<N>>, v: nat)
    ensures InDegree(RingEdges(ring), v) == if v < |ring| then 1 else 0
  {
    var n := |ring|;
    var es := RingEdges(ring);
    var s := set j | 0 <= j < |es| && es[j].dst == v;
    if v < n {
      var p := if v == 0 then n - 1 else v - 1;
      assert es[p].dst == v;
      assert s == {p};
    } else {
      assert s == {};
    }
  }

  /** The degenerate rings the builder accepts: no edges for an empty
      ring, a self-loop for one position, two opposite edges for two. */
  lemma SmallRings<N>(ring: seq<Coord<N>>)
    ensures |ring| == 0 ==> RingNodes(ring) == map[] && RingEdges(ring) == []
    ensures |ring| == 1 ==> RingEdges(ring) == [Edge(0, 0, 0)]
    ensures |ring| == 2 ==> RingEdges(ring) == [Edge(0, 1, 0), Edge(1, 0, 0)]
  {
  }

  /** While the edges are added in order, the edge about to be added from
      node `i` has no earlier parallel edge, so it receives key 0. */
  lemma RingKeyFresh<N>(ring: seq<Coord<N>>, i: nat)
    requires i < |ring|
    ensures Multiplicity(RingEdges(ring)[..i], i, Succ(i, |ring|)) == 0
  {
    assert Between(RingEdges(ring)[..i], i, Succ(i, |ring|)) == {};
  }
}
