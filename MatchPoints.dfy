/**
 * The input side of `GraphHopperMapMatchingService.mapMatch`: which ride
 * points are handed to the matcher (`filterAndSortPoints`,
 * `isValidCoordinate`) and in which order. The sort is Java's stable list
 * sort keyed on the timestamp alone.
 */
module MatchPoints {
  import opened Wrappers
  import opened Domain

  /** `isValidCoordinate`: inside the WGS84 ranges, and neither coordinate exactly zero. */
  predicate IsValidCoordinate(lat: real, lon: real) {
    -90.0 <= lat <= 90.0 && -180.0 <= lon <= 180.0 && lat != 0.0 && lon != 0.0
  }

  /** A point that survives both filters: located, timestamped, and at a valid coordinate (`y` is the latitude). */
  predicate IsMatchable(p: RidePoint) {
    p.location.Some? && p.timestamp.Some? && IsValidCoordinate(p.location.value.y, p.location.value.x)
  }

  /** The two `filter` stages, keeping list order. */
  function Matchable(points: seq<RidePoint>): (r: seq<RidePoint>)
    ensures |r| <= |points|
    ensures forall p :: p in r <==> p in points && IsMatchable(p)
    decreases |points|
  {
    if points == [] then []
    else (if IsMatchable(points[0]) then [points[0]] else []) + Matchable(points[1..])
  }

  /** The sort key, `Comparator.comparingLong(RidePoint::getTimestamp)`; every matchable point has a timestamp. */
  function Key(p: RidePoint): int {
    p.timestamp.GetOr(0)
  }

  predicate SortedByTimestamp(s: seq<RidePoint>) {
    forall i, j :: 0 <= i < j < |s| ==> Key(s[i]) <= Key(s[j])
  }

  /** Places `p` in front of every element whose key is not smaller, as a stable insertion does. */
  function Insert(p: RidePoint, s: seq<RidePoint>): (r: seq<RidePoint>)
    requires SortedByTimestamp(s)
    ensures SortedByTimestamp(r)
    ensures multiset(r) == multiset(s) + multiset{p}
    ensures |r| == |s| + 1
    ensures r[0] == p || (s != [] && r[0] == s[0])
    decreases |s|
  {
    if s == [] || Key(p) <= Key(s[0]) then [p] + s
    else
      var rest := Insert(p, s[1..]);
      assert s == [s[0]] + s[1..];
      assert Key(s[0]) <= Key(rest[0]);
      [s[0]] + rest
  }

  /** The stable sort by timestamp. */
  function SortByTimestamp(s: seq<RidePoint>): (r: seq<RidePoint>)
    ensures SortedByTimestamp(r)
    ensures multiset(r) == multiset(s)
    decreases |s|
  {
    if s == [] then []
    else
      assert s == [s[0]] + s[1..];
      Insert(s[0], SortByTimestamp(s[1..]))
  }

  /** The points of `s` with timestamp key `t`, in the order of `s`. */
  function WithKey(s: seq<RidePoint>, t: int): seq<RidePoint>
    decreases |s|
  {
    if s == [] then []
    else (if Key(s[0]) == t then [s[0]] else []) + WithKey(s[1..], t)
  }

  lemma {:induction false} InsertWithKey(p: RidePoint, s: seq<RidePoint>, t: int)
    requires SortedByTimestamp(s)
    ensures WithKey(Insert(p, s), t) == (if Key(p) == t then [p] else []) + WithKey(s, t)
    decreases |s|
  {
    if s == [] || Key(p) <= Key(s[0]) {
      assert ([p] + s)[1..] == s;
    } else {
      var rest := Insert(p, s[1..]);
      InsertWithKey(p, s[1..], t);
      assert ([s[0]] + rest)[1..] == rest;
    }
  }

  /** Stability: points with equal timestamps come out in the order they went in. */
  lemma {:induction false} SortIsStable(s: seq<RidePoint>, t: int)
    ensures WithKey(SortByTimestamp(s), t) == WithKey(s, t)
    decreases |s|
  {
    if s != [] {
      SortIsStable(s[1..], t);
      InsertWithKey(s[0], SortByTimestamp(s[1..]), t);
    }
  }

  /**
   * `filterAndSortPoints`: exactly the matchable points, sorted by timestamp,
   * each as often as in the ride.
   */
  function FilterAndSortPoints(points: seq<RidePoint>): (r: seq<RidePoint>)
    ensures SortedByTimestamp(r)
    ensures multiset(r) == multiset(Matchable(points))
    ensures forall p :: p in r <==> p in points && IsMatchable(p)
    ensures forall k :: 0 <= k < |r| ==> IsMatchable(r[k])
  {
    var r := SortByTimestamp(Matchable(points));
    assert forall p :: p in r <==> p in multiset(r);
    r
  }

  /** Points with equal timestamps keep their ride order; `sequenceIndex` plays no part. */
  lemma FilterAndSortIsStable(points: seq<RidePoint>, t: int)
    ensures WithKey(FilterAndSortPoints(points), t) == WithKey(Matchable(points), t)
  {
    SortIsStable(Matchable(points), t);
  }
}
