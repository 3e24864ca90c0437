# Polygon ring graph of the warehouse-location tool

The desktop tool loads a polygon from a GeoJSON file, turns its boundary
into a ring graph and runs facility-location calculations over it. This
project models the part of `test3.py` that is neither numeric library code
nor presentation:

- the loader (`cargar_json`), which selects
  `features[0].geometry.coordinates[0]` (the exterior linear ring of a
  GeoJSON Polygon, sections 3.1.6 and 3.3 of RFC 7946) from the parsed
  document with Python's indexing rules, and replaces the loaded polygon
  only when that whole lookup succeeds;
- the ring-graph builder (`crear_grafo_poligono`), which creates a fresh
  networkx `MultiDiGraph` with `crs="EPSG:4326"`, adds node `i` with the
  attributes `x`, `y` of position `i`, then adds the edge `i -> (i+1) mod N`
  for every `i`, and stores the graph in `self.G`;
- the guard at the head of the four calculation actions, which return
  before building anything when no polygon is loaded.

Layout: `wrappers.dfy` (Option), `ring.dfy` (the ring graph as values and
what is proved about it), `graph.dfy` (the `MultiDiGraph` operations the
builder calls), `geojson.dfy` (JSON values, the key path, the conversion
of the selected value into positions), `session.dfy` (the window's state
and its methods).

Coordinate values are a type parameter: the code only copies them. The
loaded polygon is kept as the JSON value the key path returned, as the
code keeps it, except that a JSON null is Python's `None`: loading it
unloads the polygon, and the actions then stop at their guard. Any other
value is stored even when it is not an array of numeric positions; the
builder then fails without touching the current graph, as the source
does for a scalar, an object, a single string, a flat list of numbers or
rows shorter than two (the shapes the source builds from anyway are
listed under "Left out"). The builder enforces no
minimum ring length: an empty ring gives an empty graph, one position a
self-loop, two positions two opposite edges. A polygon ring is usually
expected to have at least three positions, but the code rejects nothing
on that ground, and the model follows the code. Nor does the code drop the closing
position that repeats the first one: nodes `0` and `N-1` carry equal
coordinates.

## Model

| member | source | states |
|---|---|---|
| `Ring.Succ` | test3.py:73 | the successor `(i+1) mod N` is a node of the ring: `i+1` below the last node, `0` after it |
| `Ring.RingNodeTable` | test3.py:64-68 | the graph has exactly `N` nodes, keyed `0..N-1`, and node `i` carries position `i` unchanged |
| `Ring.ClosingPositionKept` | test3.py:64-68 | when the ring is closed (first position equals last), nodes `0` and `N-1` stay two nodes with equal `x`, `y`: no deduplication |
| `Ring.RingMultiplicity` | test3.py:71-73 | the edge `u -> v` occurs exactly once when `u < N` and `v = (u+1) mod N`, and never otherwise |
| `Ring.RingEdgeCount` | test3.py:71-73 | there are exactly `N` edges and every edge has key 0 (no parallel edges) |
| `Ring.RingOutDegree` | test3.py:71-73 | every node `0..N-1` has out-degree 1, any other node 0 (including the self-loop when `N = 1`) |
| `Ring.RingInDegree` | test3.py:71-73 | every node `0..N-1` has in-degree 1, any other node 0 |
| `Ring.SmallRings` | test3.py:71-73 | `N = 0` gives no nodes and no edges (no modulo by zero), `N = 1` the single edge `0 -> 0`, `N = 2` the edges `0 -> 1` and `1 -> 0` |
| `Ring.RingKeyFresh` | test3.py:72-73 | when the edge from node `i` is added, no earlier edge joins the same two nodes, so `add_edge` assigns key 0 |
| `Graph.MultiDiGraph.constructor` | test3.py:62 | a new graph has the given `crs` attribute, no nodes and no edges |
| `Graph.MultiDiGraph.AddNode` | test3.py:67-68 | `add_node(i, x=..., y=...)` sets node `i`'s attributes and leaves the other nodes and the edges as they were |
| `Graph.MultiDiGraph.AddEdge` | test3.py:72-73 | `add_edge(u, v)` creates missing endpoints without attributes, appends the edge `u -> v` and returns its key, the number of earlier `u -> v` edges |
| `GeoJson.Member` | test3.py:51 | `v[key]` answers exactly when `v` is an object holding `key`, with that member's value |
| `GeoJson.First` | test3.py:51 | `v[0]` answers exactly for a non-empty array (its first element) or a non-empty string (its first character); an object, whose keys are strings, or a scalar raises |
| `GeoJson.SelectRing` | test3.py:51 | a successful selection implies the document is an object with a `features` member that has a first element |
| `GeoJson.SelectRingFollowsPath` | test3.py:51 | any document whose `features` is a non-empty array, whose first feature has a `geometry` object with a non-empty `coordinates` array, selects `coordinates[0]`, whatever else it holds |
| `GeoJson.SelectRingStopsAtMissingStep` | test3.py:48-51 | a missing `features`, first feature, `geometry`, `coordinates` or first ring selects nothing; once `coordinates` resolves the selection is its first element |
| `GeoJson.RingJsonRoundTrip` | test3.py:64-68 | a ring written as GeoJSON two-number positions is read back by the builder position for position |
| `GeoJson.MissingFeaturesRejected` | test3.py:51 | a document without a top-level `features` member selects nothing |
| `GeoJson.Positions` | test3.py:64-68 | the rows are read iff every row is a numeric position of the common width, and then position `i` is `(row[i][0], row[i][1])` |
| `GeoJson.AsCoords` | test3.py:64-68 | the loaded value converts iff it is an array of numeric rows of one common length of at least two; then there is one position per row, `x = row[0]`, `y = row[1]` |
| `GeoJson.ExteriorRingRoundTrip` | test3.py:48-51 | for any document whose first feature's geometry has the ring as its first linear ring (other members and features allowed), the selection is that ring and the builder reads it back position for position |
| `Session.MainWindow.constructor` | test3.py:41-42 | a new window has no polygon and no graph |
| `Session.MainWindow.LoadJson` | test3.py:44-54 | the polygon is replaced by the selected ring only when the file was read and the whole key path resolved (a selected JSON null becomes no polygon); otherwise it is unchanged and the report says why |
| `Session.MainWindow.BuildPolygonGraph` | test3.py:56-76 | without a polygon (including after a JSON null was loaded): returns None, graph unchanged; a value that is not a position array: fails, graph unchanged; otherwise a fresh graph with `crs` `EPSG:4326`, exactly the ring's node table and edge list, stored as the current graph |
| `Session.MainWindow.Calculate` | test3.py:78-84 | any of the four actions (also lines 102-108, 127-133, 153-159) returns before building when no polygon is loaded, and otherwise rebuilds the graph with the builder's outcome |
| `Session.NullRingUnloads` | test3.py:51-59 | loading a document whose ring is a JSON null reports success, leaves no polygon, and a calculation then stops at its guard |
| `Session.RebuildReplaces` | test3.py:62-76 | two builds from the same polygon give two distinct graph objects with identical nodes and edges, the second replacing the first |

## Left out

- The numeric stages of the four actions: the centroid and weighted centroid (numpy floating-point means), the p-median (SciPy's L-BFGS-B minimiser), the nearest-node lookups (osmnx) and the minimum spanning tree (a single networkx call). They are library calls over floating point; `Session.MainWindow.Calculate` models only the guard and the graph build before them, so the four actions share one method and an `Action` value tells them apart.
- Plotting, the Qt window and buttons, the file dialog, opening and parsing the file, and the printed messages: the dialog and the parser are reduced to the `FileChoice` value the loader receives, and the message to a `LoadReport` result.
- `GeoJson.AsCoords`: the model converts only arrays of numeric rows of one width of at least two (GeoJSON positions are numbers, section 3.1.1 of RFC 7946). The source also builds a graph from other shapes that numpy turns into arrays, and the model refuses them: rows of one width of at least two that hold strings, booleans or nulls (alone or mixed with numbers), uniformly nested deeper arrays (a node then carries sub-arrays), a list of strings of at least two characters (such as `["ab","cd"]`, where node `i` gets the first two characters), and ragged rows under older numpy releases. Nor does it model numpy's conversion of JSON integers to floating point.
- `proy.py` is not part of this model: it reads a fixed file at import, downloads a road network and plots.
- The graph's node insertion order and the networkx internal adjacency structures are not modelled; nodes are a map keyed by index and edges a list in insertion order.
