/**
 * `GraphHopperMapMatchingService.findNearestStreetName`: a name for an
 * unnamed edge, borrowed from a named edge near the middle vertex of its
 * geometry. The spatial index, the edge lookup and the geodesic distance
 * belong to the road network and are given as functions.
 */
module MatchNearestName {
  import opened Wrappers
  import opened Text
  import opened Domain
  import opened MatchTrajectory

  /** A search box in degrees (`BBox(minLon, maxLon, minLat, maxLat)`). */
  datatype BBox = BBox(minLon: real, maxLon: real, minLat: real, maxLat: real)

  /** About 20 metres, in degrees. */
  const SearchRadius: real := 0.0002

  /**
   * The road network as the search sees it: the ids the location index
   * reports for a box, in reporting order; the edge stored under an id
   * (`None` for null); and the distance between two coordinates in metres.
   */
  datatype RoadNetwork = RoadNetwork(
    query: BBox -> seq<int>,
    edgeAt: int -> Option<Edge>,
    dist: (Coord, Coord) -> real)

  /** The box reaching `SearchRadius` from `center` in each direction. */
  function SearchBox(center: Coord): (b: BBox)
    ensures b.minLon < center.x < b.maxLon && b.minLat < center.y < b.maxLat
    ensures b.maxLon - b.minLon == b.maxLat - b.minLat == 2.0 * SearchRadius
  {
    BBox(center.x - SearchRadius, center.x + SearchRadius, center.y - SearchRadius, center.y + SearchRadius)
  }

  /**
   * The score of a candidate: its shortest distance between consecutive
   * vertices; `None` (the `Double.MAX_VALUE` start value) below two vertices.
   */
  function MinSegmentLength(points: seq<Coord>, dist: (Coord, Coord) -> real): (r: Option<real>)
    ensures r.None? <==> |points| < 2
    decreases |points|
  {
    if |points| < 2 then None
    else
      var m := MinSegmentLength(points[..|points| - 1], dist);
      var d := dist(points[|points| - 2], points[|points| - 1]);
      if m.None? || d < m.value then Some(d) else m
  }

  /** The score is the distance of one consecutive pair, and no pair is closer. */
  lemma {:induction false} MinSegmentLengthIsMinimum(points: seq<Coord>, dist: (Coord, Coord) -> real)
    requires |points| >= 2
    ensures forall i :: 0 <= i < |points| - 1 ==> MinSegmentLength(points, dist).value <= dist(points[i], points[i + 1])
    ensures exists i :: 0 <= i < |points| - 1 && MinSegmentLength(points, dist).value == dist(points[i], points[i + 1])
    decreases |points|
  {
    var init := points[..|points| - 1];
    assert forall i :: 0 <= i < |init| ==> init[i] == points[i];
    var d := dist(points[|points| - 2], points[|points| - 1]);
    if |init| >= 2 {
      MinSegmentLengthIsMinimum(init, dist);
      var j :| 0 <= j < |init| - 1 && MinSegmentLength(init, dist).value == dist(init[j], init[j + 1]);
      if MinSegmentLength(init, dist).value <= d {
        assert MinSegmentLength(points, dist).value == dist(points[j], points[j + 1]);
      } else {
        assert MinSegmentLength(points, dist).value == dist(points[|points| - 2], points[|points| - 1]);
      }
    } else {
      assert MinSegmentLength(points, dist).value == dist(points[0], points[1]);
    }
  }

  /** The inner loop of the search: the running minimum over consecutive vertex pairs. */
  method ShortestSegment(points: seq<Coord>, dist: (Coord, Coord) -> real) returns (m: Option<real>)
    ensures m == MinSegmentLength(points, dist)
  {
    m := None;
    var i := 0;
    while i < |points| - 1
      invariant 0 <= i && (i == 0 || i <= |points| - 1)
      invariant |points| == 0 ==> m == None
      invariant |points| > 0 ==> m == MinSegmentLength(points[..i + 1], dist)
    {
      var d := dist(points[i], points[i + 1]);
      assert points[..i + 2][..i + 1] == points[..i + 1];
      if m.None? || d < m.value {
        m := Some(d);
      }
      i := i + 1;
    }
    if |points| > 0 {
      assert points[..i + 1] == points;
    }
  }

  /** A candidate the search may pick: another edge, present, with a non-blank name and at least two vertices. */
  predicate Eligible(source: Edge, net: RoadNetwork, id: int) {
    && id != source.id
    && net.edgeAt(id).Some?
    && !IsNullOrBlank(net.edgeAt(id).value.name)
    && |net.edgeAt(id).value.geometry| >= 2
  }

  function Score(net: RoadNetwork, id: int): real
    requires net.edgeAt(id).Some? && |net.edgeAt(id).value.geometry| >= 2
  {
    MinSegmentLength(net.edgeAt(id).value.geometry, net.dist).value
  }

  /** The position of the winner among the reported ids: a later candidate replaces it only with a strictly smaller score. */
  function BestIndex(source: Edge, net: RoadNetwork, ids: seq<int>): (r: Option<nat>)
    ensures r.Some? ==> r.value < |ids| && Eligible(source, net, ids[r.value])
    decreases |ids|
  {
    if ids == [] then None
    else
      var b := BestIndex(source, net, ids[..|ids| - 1]);
      var id := ids[|ids| - 1];
      if Eligible(source, net, id) && (b.None? || Score(net, id) < Score(net, ids[b.value])) then Some(|ids| - 1)
      else b
  }

  /**
   * The winner exists exactly when some reported id is eligible; its score is
   * the minimum, and every eligible id before it scores strictly more, so
   * the first of several equal minima wins.
   */
  lemma {:induction false} BestIndexIsFirstMinimum(source: Edge, net: RoadNetwork, ids: seq<int>)
    ensures BestIndex(source, net, ids).None? <==> forall k :: 0 <= k < |ids| ==> !Eligible(source, net, ids[k])
    ensures BestIndex(source, net, ids).Some? ==>
              var b := BestIndex(source, net, ids).value;
              && (forall k :: 0 <= k < |ids| && Eligible(source, net, ids[k]) ==> Score(net, ids[b]) <= Score(net, ids[k]))
              && (forall k :: 0 <= k < b && Eligible(source, net, ids[k]) ==> Score(net, ids[b]) < Score(net, ids[k]))
    decreases |ids|
  {
    if ids != [] {
      var init := ids[..|ids| - 1];
      BestIndexIsFirstMinimum(source, net, init);
      assert forall k :: 0 <= k < |init| ==> init[k] == ids[k];
    }
  }

  /** The name the search returns, `None` for null. */
  function NearestStreetName(source: Edge, net: RoadNetwork): (r: Option<string>)
    ensures r.Some? ==> !IsBlank(r.value)
  {
    if |source.geometry| == 0 then None
    else
      var ids := net.query(SearchBox(source.geometry[|source.geometry| / 2]));
      match BestIndex(source, net, ids)
      case None => None
      case Some(b) => net.edgeAt(ids[b]).value.name
  }

  /**
   * The search finds nothing for an empty geometry or when the box around the
   * middle vertex holds no eligible edge; otherwise it returns the name of
   * an eligible edge whose score no other eligible edge beats, the first
   * such edge in reporting order.
   */
  lemma NearestStreetNameIsArgmin(source: Edge, net: RoadNetwork)
    ensures |source.geometry| == 0 ==> NearestStreetName(source, net).None?
    ensures |source.geometry| > 0 ==>
              var ids := net.query(SearchBox(source.geometry[|source.geometry| / 2]));
              && (NearestStreetName(source, net).None? <==> forall k :: 0 <= k < |ids| ==> !Eligible(source, net, ids[k]))
              && (NearestStreetName(source, net).Some? ==>
                    exists b :: 0 <= b < |ids| && Eligible(source, net, ids[b])
                                && NearestStreetName(source, net) == net.edgeAt(ids[b]).value.name
                                && (forall k :: 0 <= k < |ids| && Eligible(source, net, ids[k]) ==> Score(net, ids[b]) <= Score(net, ids[k]))
                                && (forall k :: 0 <= k < b && Eligible(source, net, ids[k]) ==> Score(net, ids[b]) < Score(net, ids[k])))
  {
    if |source.geometry| > 0 {
      var ids := net.query(SearchBox(source.geometry[|source.geometry| / 2]));
      BestIndexIsFirstMinimum(source, net, ids);
    }
  }

  /** `findNearestStreetName`: the callback over the reported ids, keeping the best name and distance so far. */
  method FindNearestStreetName(source: Edge, net: RoadNetwork) returns (bestName: Option<string>)
    ensures bestName == NearestStreetName(source, net)
  {
    var points := source.geometry;
    if |points| == 0 {
      return None;
    }
    var mid := points[|points| / 2];
    var ids := net.query(SearchBox(mid));
    bestName := None;
    var minDistance: Option<real> := None;
    for i := 0 to |ids|
      invariant BestIndex(source, net, ids[..i]).None? ==> bestName == None && minDistance == None
      invariant BestIndex(source, net, ids[..i]).Some? ==>
                  var b := BestIndex(source, net, ids[..i]).value;
                  bestName == net.edgeAt(ids[b]).value.name && minDistance == Some(Score(net, ids[b]))
    {
      assert ids[..i + 1][..i] == ids[..i];
      var id := ids[i];
      if id == source.id {
        continue;
      }
      var candidate := net.edgeAt(id);
      if candidate.None? {
        continue;
      }
      var name := candidate.value.name;
      if IsNullOrBlank(name) {
        continue;
      }
      var currentMinDist := ShortestSegment(candidate.value.geometry, net.dist);
      if currentMinDist.Some? && (minDistance.None? || currentMinDist.value < minDistance.value) {
        minDistance := currentMinDist;
        bestName := name;
      }
    }
    assert ids[..|ids|] == ids;
  }
}
