/**
 * `GraphHopperMapMatchingService.mapMatch` around the matcher itself: the
 * two-point guard, the snapped trajectory, the traversed-edge list and the
 * per-edge street-segment upsert. The matcher is a given function from the
 * observation list to the matched edges or a failure.
 */
module MapMatching {
  import opened Wrappers
  import opened Text
  import opened Domain
  import opened Segments
  import opened MatchPoints
  import opened MatchTrajectory
  import opened MatchNearestName

  /** A GPS observation handed to the matcher (`GHPoint(lat, lon)`). */
  datatype Observation = Observation(lat: real, lon: real)

  /** What `MapMatching.match` gives back: the edge matches in order, or an exception. */
  datatype MatchResult = Matched(edges: seq<Edge>) | MatchFailed

  /** The name stored when neither the edge nor a neighbour has one. */
  const UnknownStreetName: string := "Unknown"

  // ------------------------------------------------------------ segment upsert

  /** The name of a new segment: the edge's own if non-blank, else the nearest street's if non-blank, else `"Unknown"`. */
  function SegmentName(edge: Edge, net: RoadNetwork): (r: string)
    ensures !IsNullOrBlank(edge.name) ==> r == edge.name.value
    ensures IsNullOrBlank(edge.name) && NearestStreetName(edge, net).Some? ==> r == NearestStreetName(edge, net).value
    ensures IsNullOrBlank(edge.name) && NearestStreetName(edge, net).None? ==> r == UnknownStreetName
    ensures !IsBlank(r)
  {
    var name := if IsNullOrBlank(edge.name) then NearestStreetName(edge, net) else edge.name;
    if !IsNullOrBlank(name) then name.value
    else
      assert !IsJavaWhitespace(UnknownStreetName[0]);
      UnknownStreetName
  }

  /** The record a first use of `edge` creates: its id and name, its geometry from two vertices on, used once. */
  function NewSegmentRow(edge: Edge, net: RoadNetwork): SegmentRow {
    SegmentRow(Some(edge.id), Some(SegmentName(edge, net)),
               if |edge.geometry| >= 2 then Some(edge.geometry) else None, 1, 0)
  }

  /** The table after one `updateSegmentUsage`. */
  function Upsert(rows: map<int, SegmentRow>, edge: Edge, net: RoadNetwork): map<int, SegmentRow> {
    if edge.id in rows then rows[edge.id := rows[edge.id].(usageCount := rows[edge.id].usageCount + 1)]
    else rows[edge.id := NewSegmentRow(edge, net)]
  }

  /**
   * One upsert touches only the edge's own key: an existing record gains
   * exactly one use and keeps its name and geometry, a missing one is
   * created with a single use, and the table stays keyed by id.
   */
  lemma UpsertChangesOnlyItsKey(rows: map<int, SegmentRow>, edge: Edge, net: RoadNetwork)
    requires WellKeyed(rows)
    ensures var r := Upsert(rows, edge, net);
            && r.Keys == rows.Keys + {edge.id}
            && (forall k :: k in rows && k != edge.id ==> r[k] == rows[k])
            && (edge.id in rows ==>
                  && r[edge.id].usageCount == rows[edge.id].usageCount + 1
                  && r[edge.id].streetName == rows[edge.id].streetName
                  && r[edge.id].geometry == rows[edge.id].geometry
                  && r[edge.id].avoidanceCount == rows[edge.id].avoidanceCount)
            && (edge.id !in rows ==> r[edge.id].usageCount == 1 && r[edge.id].avoidanceCount == 0)
            && WellKeyed(r)
  {
  }

  /** `updateSegmentUsage`: read the record, create it or keep it, count one use, write it back. */
  method UpdateSegmentUsage(repo: StreetSegmentRepository, edge: Edge, net: RoadNetwork)
    requires WellKeyed(repo.rows)
    modifies repo
    ensures repo.rows == Upsert(old(repo.rows), edge, net)
    ensures WellKeyed(repo.rows)
  {
    var segment := repo.FindById(edge.id);
    if segment == null {
      segment := new StreetSegment();
      segment.id := Some(edge.id);
      var streetName := edge.name;
      if IsNullOrBlank(streetName) {
        streetName := FindNearestStreetName(edge, net);
      }
      segment.streetName := Some(if !IsNullOrBlank(streetName) then streetName.value else UnknownStreetName);
      if |edge.geometry| >= 2 {
        segment.geometry := Some(edge.geometry);
      }
    }
    segment.IncrementUsage();
    repo.Save(segment);
  }

  // ------------------------------------------------------------ matched edges

  /** The traversed-edge list: one id per edge match, in match order, repeats kept. */
  function EdgeIds(edges: seq<Edge>): (r: seq<int>)
    ensures |r| == |edges|
    ensures forall i :: 0 <= i < |edges| ==> r[i] == edges[i].id
  {
    seq(|edges|, i requires 0 <= i < |edges| => edges[i].id)
  }

  /** The table after the upserts of all edge matches, in order. */
  function ApplyEdges(rows: map<int, SegmentRow>, edges: seq<Edge>, net: RoadNetwork): map<int, SegmentRow>
    decreases |edges|
  {
    if edges == [] then rows
    else Upsert(ApplyEdges(rows, edges[..|edges| - 1], net), edges[|edges| - 1], net)
  }

  /** How many edge matches have the given id. */
  function Occurrences(edges: seq<Edge>, id: int): nat
    decreases |edges|
  {
    if edges == [] then 0
    else Occurrences(edges[..|edges| - 1], id) + (if edges[|edges| - 1].id == id then 1 else 0)
  }

  /** An id with no occurrences is carried by no edge match. */
  lemma {:induction false} NoOccurrencesNoMatch(edges: seq<Edge>, id: int)
    requires Occurrences(edges, id) == 0
    ensures forall j :: 0 <= j < |edges| ==> edges[j].id != id
    decreases |edges|
  {
    if edges != [] {
      var init := edges[..|edges| - 1];
      NoOccurrencesNoMatch(init, id);
      assert forall j :: 0 <= j < |init| ==> init[j] == edges[j];
    }
  }

  /**
   * After the upserts, an edge id is stored exactly when it was stored before
   * or was matched; a stored record gains one use per match and keeps its
   * name and geometry; a new one takes name and geometry from the first match
   * with that id and counts them all; untouched records are unchanged.
   */
  lemma {:induction false} ApplyEdgesCountsUses(rows: map<int, SegmentRow>, edges: seq<Edge>, net: RoadNetwork, id: int)
    ensures var r := ApplyEdges(rows, edges, net);
            && (id in r <==> id in rows || Occurrences(edges, id) > 0)
            && (id in rows ==> r[id] == rows[id].(usageCount := rows[id].usageCount + Occurrences(edges, id)))
            && (id !in rows && Occurrences(edges, id) > 0 ==>
                  exists k :: 0 <= k < |edges| && edges[k].id == id
                              && (forall j :: 0 <= j < k ==> edges[j].id != id)
                              && r[id] == NewSegmentRow(edges[k], net).(usageCount := Occurrences(edges, id)))
    decreases |edges|
  {
    if edges != [] {
      var init := edges[..|edges| - 1];
      var last := edges[|edges| - 1];
      ApplyEdgesCountsUses(rows, init, net, id);
      var before := ApplyEdges(rows, init, net);
      if id !in rows && Occurrences(edges, id) > 0 {
        if Occurrences(init, id) > 0 {
          var k :| 0 <= k < |init| && init[k].id == id
                   && (forall j :: 0 <= j < k ==> init[j].id != id)
                   && before[id] == NewSegmentRow(init[k], net).(usageCount := Occurrences(init, id));
          assert forall j :: 0 <= j <= k ==> edges[j] == init[j];
        } else {
          NoOccurrencesNoMatch(init, id);
          assert forall j :: 0 <= j < |init| ==> edges[j] == init[j];
          assert edges[|edges| - 1].id == id;
        }
      }
    }
  }

  lemma {:induction false} ApplyEdgesKeepsKeyed(rows: map<int, SegmentRow>, edges: seq<Edge>, net: RoadNetwork)
    requires WellKeyed(rows)
    ensures WellKeyed(ApplyEdges(rows, edges, net))
    decreases |edges|
  {
    if edges != [] {
      ApplyEdgesKeepsKeyed(rows, edges[..|edges| - 1], net);
      UpsertChangesOnlyItsKey(ApplyEdges(rows, edges[..|edges| - 1], net), edges[|edges| - 1], net);
    }
  }

  /** `processMatchedEdges`: collect the edge ids and count one use per edge match. */
  method ProcessMatchedEdges(ride: Ride, repo: StreetSegmentRepository, edges: seq<Edge>, net: RoadNetwork)
    requires WellKeyed(repo.rows)
    modifies ride`traversedEdgeIds, repo
    ensures ride.traversedEdgeIds == Some(EdgeIds(edges))
    ensures repo.rows == ApplyEdges(old(repo.rows), edges, net)
    ensures WellKeyed(repo.rows)
  {
    var edgeIds: seq<int> := [];
    for i := 0 to |edges|
      invariant edgeIds == EdgeIds(edges[..i])
      invariant repo.rows == ApplyEdges(old(repo.rows), edges[..i], net)
      invariant WellKeyed(repo.rows)
    {
      assert edges[..i + 1][..i] == edges[..i];
      edgeIds := edgeIds + [edges[i].id];
      UpdateSegmentUsage(repo, edges[i], net);
    }
    assert edges[..|edges|] == edges;
    ride.traversedEdgeIds := Some(edgeIds);
  }

  // ------------------------------------------------------------ mapMatch

  /** The observation of a point: latitude from `y`, longitude from `x`. */
  function Observations(points: seq<RidePoint>): (r: seq<Observation>)
    requires forall k :: 0 <= k < |points| ==> points[k].location.Some?
    ensures |r| == |points|
    ensures forall k :: 0 <= k < |points| ==> r[k] == Observation(points[k].location.value.y, points[k].location.value.x)
  {
    seq(|points|, k requires 0 <= k < |points| => Observation(points[k].location.value.y, points[k].location.value.x))
  }

  /** The loop that turns the valid points into observations. */
  method ToObservations(points: seq<RidePoint>) returns (observations: seq<Observation>)
    requires forall k :: 0 <= k < |points| ==> points[k].location.Some?
    ensures observations == Observations(points)
  {
    observations := [];
    for i := 0 to |points|
      invariant observations == Observations(points[..i])
    {
      observations := observations + [Observation(points[i].location.value.y, points[i].location.value.x)];
    }
    assert points[..|points|] == points;
  }

  /** The points the matcher would see. */
  function ValidPoints(ride: Ride): (r: seq<RidePoint>)
    reads ride
    ensures forall k :: 0 <= k < |r| ==> r[k].location.Some?
  {
    FilterAndSortPoints(ride.ridePoints)
  }

  /**
   * `mapMatch`: with fewer than two valid points, or when the matcher fails,
   * nothing changes; otherwise the trajectory, the traversed edges and the
   * segment table are updated from the matched edges.
   */
  method MapMatch(ride: Ride, repo: StreetSegmentRepository, net: RoadNetwork, matcher: seq<Observation> -> MatchResult)
    requires WellKeyed(repo.rows)
    modifies ride`trajectory, ride`traversedEdgeIds, repo
    ensures WellKeyed(repo.rows)
    ensures var valid := ValidPoints(ride);
            var result := matcher(Observations(valid));
            if |valid| < 2 || result.MatchFailed? then
              && ride.trajectory == old(ride.trajectory)
              && ride.traversedEdgeIds == old(ride.traversedEdgeIds)
              && repo.rows == old(repo.rows)
            else
              && ride.trajectory == SnappedTrajectory(old(ride.trajectory), result.edges)
              && ride.traversedEdgeIds == Some(EdgeIds(result.edges))
              && repo.rows == ApplyEdges(old(repo.rows), result.edges, net)
  {
    var validPoints := FilterAndSortPoints(ride.ridePoints);
    if |validPoints| < 2 {
      return;
    }
    var observations := ToObservations(validPoints);
    var result := matcher(observations);
    if result.MatchFailed? {
      return;
    }
    SetSnappedTrajectory(ride, result.edges);
    ProcessMatchedEdges(ride, repo, result.edges, net);
  }
}
