/**
 * The window's session state: the loaded polygon (`self.poligonos`) and
 * the current graph (`self.G`), the loader that replaces the polygon, the
 * ring-graph builder, and the guard every calculation action runs first.
 * The file dialog and the JSON parser are abstracted into the value the
 * loader receives; plotting and the numeric stages are not modelled.
 */
module Session {
  import opened Wrappers
  import opened Ring
  import opened Graph
  import opened GeoJson

  /** The coordinate reference system given to every new graph. */
  const Crs: string := "EPSG:4326"

  /** What the file dialog and the parser delivered: no file chosen, a
      file that could not be opened or parsed, or the parsed document. */
  datatype FileChoice<N> = Cancelled | Unreadable | Read(data: Json<N>)

  /** The message the loader reports. */
  datatype LoadReport = NothingChosen | Loaded | LoadFailed

  /** How the builder ended: no polygon loaded (it returns None), the
      loaded value is not a position array (it raises), or a new graph. */
  datatype BuildOutcome = NoPolygon | BuildFailed | Built

  /** The four calculation buttons. */
  datatype Action = Centroid | PMedian | WeightedCentroid | Kruskal

  /** How an action's modelled prefix ended: refused for want of a
      polygon, failed while building the graph, or graph ready for the
      numeric stage. */
  datatype ActionOutcome = NeedsPolygon | GraphFailed | GraphReady

  class MainWindow<N> {
    /** `self.poligonos`: whatever the last successful load selected, with
        a JSON null read as Python's `None`. */
    var polygon: Option<Json<N>>
    /** `self.G`: the last graph built, null until then. */
    var graph: MultiDiGraph?<N>

    /** A loaded JSON null is Python's `None`, so it is never held as a value. */
    ghost predicate Valid()
      reads this
    {
      polygon.Some? ==> !polygon.value.JNull?
    }

    constructor ()
      ensures Valid()
      ensures polygon == None && graph == null
    {
      polygon := None;
      graph := null;
    }

    /** `cargar_json`: the polygon is replaced only when the whole key path
        resolves; a cancelled dialog, an unreadable file or a missing key
        or index keeps the previous polygon. A selected JSON null is stored
        as `None`, which unloads the polygon. */
    method LoadJson(choice: FileChoice<N>) returns (report: LoadReport)
      requires Valid()
      modifies this`polygon
      ensures Valid()
      ensures choice.Cancelled? ==> report == NothingChosen && polygon == old(polygon)
      ensures choice.Unreadable? ==> report == LoadFailed && polygon == old(polygon)
      ensures choice.Read? && SelectRing(choice.data).None? ==>
                report == LoadFailed && polygon == old(polygon)
      ensures choice.Read? && SelectRing(choice.data).Some? ==>
                report == Loaded &&
                polygon == (if SelectRing(choice.data).value.JNull? then None else SelectRing(choice.data))
    {
      match choice
      case Cancelled =>
        report := NothingChosen;
      case Unreadable =>
        report := LoadFailed;
      case Read(data) =>
        var selected := SelectRing(data);
        if selected.None? {
          report := LoadFailed;
        } else {
          polygon := if selected.value.JNull? then None else selected;
          report := Loaded;
        }
    }

    /** `crear_grafo_poligono`: builds a fresh graph with one node per
        position and the edges `i -> (i + 1) mod N`, then stores it in
        `graph`; without a polygon, or when the loaded value is not a
        position array, `graph` is left as it was. */
    method BuildPolygonGraph() returns (outcome: BuildOutcome, g: MultiDiGraph?<N>)
      requires Valid()
      modifies this`graph
      ensures polygon.None? ==> outcome == NoPolygon && g == null && graph == old(graph)
      ensures polygon.Some? && AsCoords(polygon.value).None? ==>
                outcome == BuildFailed && g == null && graph == old(graph)
      ensures polygon.Some? && AsCoords(polygon.value).Some? ==>
                && outcome == Built && g != null && fresh(g) && graph == g
                && g.crs == Crs
                && g.nodes == RingNodes(AsCoords(polygon.value).value)
                && g.edges == RingEdges(AsCoords(polygon.value).value)
    {
      if polygon.None? {
        return NoPolygon, null;
      }
      var G := new MultiDiGraph<N>(Crs);
      var coords := AsCoords(polygon.value);
      if coords.None? {
        return BuildFailed, null;
      }
      var ring := coords.value;
      var n := |ring|;

      var i := 0;
      while i < n
        invariant 0 <= i <= n
        invariant G.crs == Crs
        invariant G.nodes == NodesUpTo(ring, i)
        invariant G.edges == []
      {
        G.AddNode(i, ring[i].x, ring[i].y);
        assert NodesUpTo(ring, i + 1) == NodesUpTo(ring, i)[i := Some(ring[i])];
        i := i + 1;
      }

      i := 0;
      while i < n
        invariant 0 <= i <= n
        invariant G.crs == Crs
        invariant G.nodes == RingNodes(ring)
        invariant G.edges == RingEdges(ring)[..i]
      {
        RingKeyFresh(ring, i);
        var key := G.AddEdge(i, (i + 1) % n);
        assert key == 0;
        assert RingEdges(ring)[..i + 1] == RingEdges(ring)[..i] + [RingEdges(ring)[i]];
        i := i + 1;
      }

      graph := G;
      return Built, G;
    }

    /** The modelled prefix shared by `calcular_centroide`,
        `calcular_p_median`, `calcular_centroide_ponderado` and
        `calcular_kruskal`: without a loaded polygon the action returns
        before any graph is built; otherwise it rebuilds the graph. */
    method Calculate(action: Action) returns (outcome: ActionOutcome)
      requires Valid()
      modifies this`graph
      ensures polygon.None? ==> outcome == NeedsPolygon && graph == old(graph)
      ensures polygon.Some? && AsCoords(polygon.value).None? ==>
                outcome == GraphFailed && graph == old(graph)
      ensures polygon.Some? && AsCoords(polygon.value).Some? ==>
                && outcome == GraphReady && graph != null && fresh(graph)
                && graph.nodes == RingNodes(AsCoords(polygon.value).value)
                && graph.edges == RingEdges(AsCoords(polygon.value).value)
    {
      if polygon.None? {
        return NeedsPolygon;
      }
      var built, g := BuildPolygonGraph();
      // The builder's own guard cannot fire behind the action's.
      assert built != NoPolygon;
      outcome := if built == Built then GraphReady else GraphFailed;
    }
  }

  /** Building twice from the same polygon gives two distinct graphs with
      the same contents, and the second replaces the first. */
  method RebuildReplaces<N>(w: MainWindow<N>) returns (first: MultiDiGraph?<N>, second: MultiDiGraph?<N>)
    requires w.Valid() && w.polygon.Some? && AsCoords(w.polygon.value).Some?
    modifies w
    ensures first != null && second != null && first != second
    ensures w.graph == second
    ensures first.nodes == second.nodes && first.edges == second.edges
  {
    var o1, o2;
    o1, first := w.BuildPolygonGraph();
    o2, second := w.BuildPolygonGraph();
  }

  /** Loading a document whose ring is a JSON null leaves no polygon, so a
      calculation then stops at its guard instead of building a graph. */
  method NullRingUnloads<N>(w: MainWindow<N>) returns (report: LoadReport, outcome: ActionOutcome)
    requires w.Valid()
    modifies w
    ensures report == Loaded && w.polygon == None && outcome == NeedsPolygon
  {
    var geometry := JObj(map["coordinates" := JArr([JNull])]);
    var data := JObj(map["features" := JArr([JObj(map["geometry" := geometry])])]);
    SelectRingFollowsPath(data, [JObj(map["geometry" := geometry])], geometry, [JNull]);
    report := w.LoadJson(Read(data));
    outcome := w.Calculate(Centroid);
  }
}
