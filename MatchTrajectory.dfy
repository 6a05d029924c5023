/**
 * The snapped trajectory of `GraphHopperMapMatchingService.setSnappedTrajectory`:
 * the way geometries of the matched edges laid end to end, with runs of
 * equal consecutive coordinates collapsed to one.
 */
module MatchTrajectory {
  import opened Wrappers
  import opened Domain

  /** A matched or candidate road edge: its id, its name (null becomes `None`) and its full way geometry. */
  datatype Edge = Edge(id: int, name: Option<string>, geometry: seq<Coord>)

  /** Every edge's geometry, in match order. */
  function ConcatGeometries(edges: seq<Edge>): seq<Coord>
    decreases |edges|
  {
    if edges == [] then []
    else ConcatGeometries(edges[..|edges| - 1]) + edges[|edges| - 1].geometry
  }

  /** No two neighbours are equal. */
  predicate NoAdjacentDuplicates(s: seq<Coord>) {
    forall i :: 0 <= i < |s| - 1 ==> s[i] != s[i + 1]
  }

  /** The dedup loop over a prefix: a coordinate is kept unless it equals the last one kept. */
  function Dedup(s: seq<Coord>): (r: seq<Coord>)
    ensures |r| <= |s|
    ensures s == [] <==> r == []
    ensures s != [] ==> r[|r| - 1] == s[|s| - 1]
    ensures NoAdjacentDuplicates(r)
    decreases |s|
  {
    if s == [] then []
    else
      var d := Dedup(s[..|s| - 1]);
      var c := s[|s| - 1];
      if d == [] || c != d[|d| - 1] then d + [c] else d
  }

  /** `s` can be obtained from `t` by deleting elements. */
  predicate IsSubsequence(s: seq<Coord>, t: seq<Coord>)
    decreases |t|
  {
    if s == [] then true
    else if t == [] then false
    else if s[|s| - 1] == t[|t| - 1] then IsSubsequence(s[..|s| - 1], t[..|t| - 1])
    else IsSubsequence(s, t[..|t| - 1])
  }

  lemma {:induction false} SubsequenceExtend(s: seq<Coord>, t: seq<Coord>, c: Coord)
    requires IsSubsequence(s, t)
    ensures IsSubsequence(s, t + [c])
    decreases |t|, 1
  {
    if s != [] && s[|s| - 1] == c {
      assert (t + [c])[..|t|] == t;
      SubsequencePrefix(s, t);
    } else {
      assert (t + [c])[..|t|] == t;
    }
  }

  /** Dropping the last element of a subsequence keeps it a subsequence. */
  lemma {:induction false} SubsequencePrefix(s: seq<Coord>, t: seq<Coord>)
    requires s != [] && IsSubsequence(s, t)
    ensures IsSubsequence(s[..|s| - 1], t)
    decreases |t|, 0
  {
    if s[|s| - 1] == t[|t| - 1] {
      if s[..|s| - 1] != [] {
        SubsequenceExtend(s[..|s| - 1], t[..|t| - 1], t[|t| - 1]);
        assert t[..|t| - 1] + [t[|t| - 1]] == t;
      }
    } else {
      SubsequencePrefix(s, t[..|t| - 1]);
      if s[..|s| - 1] != [] {
        SubsequenceExtend(s[..|s| - 1], t[..|t| - 1], t[|t| - 1]);
        assert t[..|t| - 1] + [t[|t| - 1]] == t;
      }
    }
  }

  /** The output only deletes coordinates: it is a subsequence of the input. */
  lemma {:induction false} DedupIsSubsequence(s: seq<Coord>)
    ensures IsSubsequence(Dedup(s), s)
    decreases |s|
  {
    if s != [] {
      var init := s[..|s| - 1];
      var c := s[|s| - 1];
      DedupIsSubsequence(init);
      var d := Dedup(init);
      if d == [] || c != d[|d| - 1] {
        assert (d + [c])[..|d|] == d;
        assert init + [c] == s;
      } else {
        SubsequenceExtend(d, init, c);
        assert init + [c] == s;
      }
    }
  }

  /** The first coordinate always survives. */
  lemma {:induction false} DedupKeepsFirst(s: seq<Coord>)
    requires s != []
    ensures Dedup(s)[0] == s[0]
    decreases |s|
  {
    if |s| > 1 {
      var init := s[..|s| - 1];
      DedupKeepsFirst(init);
      assert init[0] == s[0];
    }
  }

  /** Input without equal neighbours passes through unchanged. */
  lemma {:induction false} DedupIdentity(s: seq<Coord>)
    requires NoAdjacentDuplicates(s)
    ensures Dedup(s) == s
    decreases |s|
  {
    if s != [] {
      var init := s[..|s| - 1];
      assert NoAdjacentDuplicates(init);
      DedupIdentity(init);
      assert init + [s[|s| - 1]] == s;
    }
  }

  /** Applying the dedup twice gives the same as applying it once. */
  lemma DedupIdempotent(s: seq<Coord>)
    ensures Dedup(Dedup(s)) == Dedup(s)
  {
    DedupIdentity(Dedup(s));
  }

  /** The number of positions where a coordinate differs from the one before it. */
  function Changes(s: seq<Coord>): nat
    decreases |s|
  {
    if |s| <= 1 then 0
    else Changes(s[..|s| - 1]) + (if s[|s| - 1] != s[|s| - 2] then 1 else 0)
  }

  /**
   * One coordinate survives per run of equal neighbours: a repeat that is not
   * adjacent is kept. With `DedupIsSubsequence` and `NoAdjacentDuplicates`
   * this pins the result down exactly.
   */
  lemma {:induction false} DedupKeepsOnePerRun(s: seq<Coord>)
    requires s != []
    ensures |Dedup(s)| == 1 + Changes(s)
    decreases |s|
  {
    if |s| > 1 {
      var init := s[..|s| - 1];
      DedupKeepsOnePerRun(init);
      assert init[|init| - 1] == s[|s| - 2];
    }
  }

  /** The loop that appends every edge's way geometry, point by point. */
  method CollectCoordinates(edges: seq<Edge>) returns (coords: seq<Coord>)
    ensures coords == ConcatGeometries(edges)
  {
    coords := [];
    for e := 0 to |edges|
      invariant coords == ConcatGeometries(edges[..e])
    {
      var points := edges[e].geometry;
      assert edges[..e + 1][..e] == edges[..e];
      for i := 0 to |points|
        invariant coords == ConcatGeometries(edges[..e]) + points[..i]
      {
        assert points[..i + 1] == points[..i] + [points[i]];
        coords := coords + [points[i]];
      }
      assert points[..|points|] == points;
    }
    assert edges[..|edges|] == edges;
  }

  /** The loop that drops a coordinate equal to the last one kept. */
  method RemoveConsecutiveDuplicates(coords: seq<Coord>) returns (deduped: seq<Coord>)
    ensures deduped == Dedup(coords)
  {
    deduped := [];
    for i := 0 to |coords|
      invariant deduped == Dedup(coords[..i])
    {
      assert coords[..i + 1][..i] == coords[..i];
      if deduped == [] || coords[i] != deduped[|deduped| - 1] {
        deduped := deduped + [coords[i]];
      }
    }
    assert coords[..|coords|] == coords;
  }

  /** The trajectory after matching: the deduplicated line when it has two coordinates, else the old one. */
  function SnappedTrajectory(previous: Option<seq<Coord>>, edges: seq<Edge>): Option<seq<Coord>> {
    var line := Dedup(ConcatGeometries(edges));
    if |line| >= 2 then Some(line) else previous
  }

  /** `setSnappedTrajectory`: overwrites the ride's trajectory only with a line of two or more coordinates. */
  method SetSnappedTrajectory(ride: Ride, edges: seq<Edge>)
    modifies ride`trajectory
    ensures ride.trajectory == SnappedTrajectory(old(ride.trajectory), edges)
    ensures ride.trajectory != old(ride.trajectory) ==>
              && ride.trajectory.Some? && |ride.trajectory.value| >= 2
              && NoAdjacentDuplicates(ride.trajectory.value)
  {
    var coords := CollectCoordinates(edges);
    var deduped := RemoveConsecutiveDuplicates(coords);
    if |deduped| >= 2 {
      ride.trajectory := Some(deduped);
    }
  }
}
