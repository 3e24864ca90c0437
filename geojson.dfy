/**
 * The polygon loader's view of a parsed GeoJSON document: the lookup
 * `features[0].geometry.coordinates[0]` with Python's indexing rules, and
 * the conversion of the selected value into boundary positions that the
 * graph builder performs (an array of rows, each a numeric position).
 * Numbers are opaque: they are only copied.
 */
module GeoJson {
  import opened Wrappers
  import opened Ring

  /** A parsed JSON value. Objects are maps: the parser keeps the last of
      duplicated keys. */
  datatype Json<N> =
    | JNull
    | JBool(b: bool)
    | JNum(n: N)
    | JStr(s: string)
    | JArr(items: seq<Json<N>>)
    | JObj(fields: map<string, Json<N>>)

  /** `v[key]`: only an object holding `key` answers; anything else raises. */
  function Member<N>(v: Json<N>, key: string): (r: Option<Json<N>>)
    ensures r.Some? <==> v.JObj? && key in v.fields
    ensures r.Some? ==> r.value == v.fields[key]
  {
    if v.JObj? && key in v.fields then Some(v.fields[key]) else None
  }

  /** `v[0]`: the first element of a list or the first character of a
      string; an empty one, an object (its keys are strings) or a scalar
      raises. */
  function First<N>(v: Json<N>): (r: Option<Json<N>>)
    ensures r.Some? <==> (v.JArr? && |v.items| > 0) || (v.JStr? && |v.s| > 0)
    ensures r.Some? && v.JArr? ==> r.value == v.items[0]
    ensures r.Some? && v.JStr? ==> r.value == JStr([v.s[0]])
  {
    match v
    case JArr(items) => if |items| > 0 then Some(items[0]) else None
    case JStr(s) => if |s| > 0 then Some(JStr([s[0]])) else None
    case _ => None
  }

  /** `data['features'][0]['geometry']['coordinates'][0]`, None where a step raises. */
  function SelectRing<N>(data: Json<N>): (r: Option<Json<N>>)
    ensures r.Some? ==> data.JObj? && "features" in data.fields
    ensures r.Some? ==> First(data.fields["features"]).Some?
  {
    var features :- Member(data, "features");
    var feature :- First(features);
    var geometry :- Member(feature, "geometry");
    var coordinates :- Member(geometry, "coordinates");
    First(coordinates)
  }

  /** A position of the given width: an array of that many numbers. */
  predicate IsPosition<N>(v: Json<N>, width: nat)
  {
    v.JArr? && |v.items| == width && forall k :: 0 <= k < width ==> v.items[k].JNum?
  }

  /** The values the model converts: an array whose rows are all arrays
      of numbers of one common length of at least two. */
  predicate IsPositionArray<N>(v: Json<N>)
  {
    && v.JArr?
    && (forall i :: 0 <= i < |v.items| ==>
          v.items[i].JArr? && |v.items[i].items| >= 2
          && forall k :: 0 <= k < |v.items[i].items| ==> v.items[i].items[k].JNum?)
    && (forall i, j :: 0 <= i < |v.items| && 0 <= j < |v.items| ==>
          v.items[i].JArr? && v.items[j].JArr? && |v.items[i].items| == |v.items[j].items|)
  }

  /** Reads `coord[0]`, `coord[1]` of each row, row by row, checking that
      every row is a numeric position of the given width. */
  function Positions<N>(rows: seq<Json<N>>, width: nat): (r: Option<seq<Coord<N>>>)
    requires width >= 2
    ensures r.Some? <==> forall i :: 0 <= i < |rows| ==> IsPosition(rows[i], width)
    ensures r.Some? ==> |r.value| == |rows|
    ensures r.Some? ==> forall i :: 0 <= i < |rows| ==>
              rows[i].JArr? && |rows[i].items| >= 2 &&
              r.value[i] == Coord(rows[i].items[0].n, rows[i].items[1].n)
    decreases |rows|
  {
    if rows == [] then Some([])
    else if !IsPosition(rows[0], width) then None
    else
      match Positions(rows[1..], width)
      case None => None
      case Some(rest) => Some([Coord(rows[0].items[0].n, rows[0].items[1].n)] + rest)
  }

  /** `np.array(poligonos)` followed by `coord[0]`, `coord[1]` per row:
      the boundary positions, or None where the builder raises. */
  function AsCoords<N>(v: Json<N>): (r: Option<seq<Coord<N>>>)
    ensures r.Some? <==> IsPositionArray(v)
    ensures r.Some? ==> |r.value| == |v.items|
    ensures r.Some? ==> forall i :: 0 <= i < |v.items| ==>
              v.items[i].JArr? && |v.items[i].items| >= 2 &&
              r.value[i] == Coord(v.items[i].items[0].n, v.items[i].items[1].n)
  {
    match v
    case JArr(rows) =>
      if rows == [] then Some([])
      else if rows[0].JArr? && |rows[0].items| >= 2 then Positions(rows, |rows[0].items|)
      else None
    case _ => None
  }

  /** A two-number GeoJSON position. */
  function PositionJson<N>(c: Coord<N>): Json<N>
  {
    JArr([JNum(c.x), JNum(c.y)])
  }

  /** A linear ring as a GeoJSON array of positions. */
  function RingJson<N>(ring: seq<Coord<N>>): Json<N>
  {
    JArr(seq(|ring|, i requires 0 <= i < |ring| => PositionJson(ring[i])))
  }

  /** Any document in which `features` is a non-empty array whose first
      element holds a `geometry` object whose `coordinates` is a non-empty
      array selects the first element of `coordinates`, whatever other
      members or features the document carries. */
  lemma SelectRingFollowsPath<N>(data: Json<N>, fs: seq<Json<N>>, geometry: Json<N>, rs: seq<Json<N>>)
    requires data.JObj? && "features" in data.fields && data.fields["features"] == JArr(fs)
    requires |fs| >= 1 && fs[0].JObj? && "geometry" in fs[0].fields && fs[0].fields["geometry"] == geometry
    requires geometry.JObj? && "coordinates" in geometry.fields && geometry.fields["coordinates"] == JArr(rs)
    requires |rs| >= 1
    ensures SelectRing(data) == Some(rs[0])
  {
  }

  /** A key or index missing at any step of the path selects nothing;
      once `coordinates` is found, the selection is its first element. */
  lemma SelectRingStopsAtMissingStep<N>(data: Json<N>)
    ensures
      var features := Member(data, "features");
      var feature := if features.Some? then First(features.value) else None;
      var geometry := if feature.Some? then Member(feature.value, "geometry") else None;
      var coordinates := if geometry.Some? then Member(geometry.value, "coordinates") else None;
      && (features.None? ==> SelectRing(data) == None)
      && (features.Some? && feature.None? ==> SelectRing(data) == None)
      && (feature.Some? && geometry.None? ==> SelectRing(data) == None)
      && (geometry.Some? && coordinates.None? ==> SelectRing(data) == None)
      && (coordinates.Some? && First(coordinates.value).None? ==> SelectRing(data) == None)
      && (coordinates.Some? ==> SelectRing(data) == First(coordinates.value))
  {
  }

  /** The builder reads a ring written as GeoJSON positions back position
      for position. */
  lemma {:induction false} RingJsonRoundTrip<N>(ring: seq<Coord<N>>)
    ensures AsCoords(RingJson(ring)) == Some(ring)
  {
    var v := RingJson(ring);
    assert forall i :: 0 <= i < |ring| ==> IsPosition(v.items[i], 2);
    assert IsPositionArray(v);
    var r := AsCoords(v);
    forall i | 0 <= i < |ring|
      ensures r.value[i] == ring[i]
    {
      assert v.items[i] == PositionJson(ring[i]);
    }
    assert r.value == ring;
  }

  /** Loading any document whose first feature's geometry has the given
      ring as its first (exterior) linear ring, as in sections 3.1.6 and 3.3
      of RFC 7946, selects that ring, and the builder reads it back. */
  lemma ExteriorRingRoundTrip<N>(data: Json<N>, fs: seq<Json<N>>, geometry: Json<N>, rs: seq<Json<N>>, ring: seq<Coord<N>>)
    requires data.JObj? && "features" in data.fields && data.fields["features"] == JArr(fs)
    requires |fs| >= 1 && fs[0].JObj? && "geometry" in fs[0].fields && fs[0].fields["geometry"] == geometry
    requires geometry.JObj? && "coordinates" in geometry.fields && geometry.fields["coordinates"] == JArr(rs)
    requires |rs| >= 1 && rs[0] == RingJson(ring)
    ensures SelectRing(data) == Some(RingJson(ring))
    ensures AsCoords(SelectRing(data).value) == Some(ring)
  {
    SelectRingFollowsPath(data, fs, geometry, rs);
    RingJsonRoundTrip(ring);
  }

  /** A document without a top-level `features` member loads nothing. */
  lemma MissingFeaturesRejected<N>(data: Json<N>)
    requires !(data.JObj? && "features" in data.fields)
    ensures SelectRing(data) == None
  {
  }
}
