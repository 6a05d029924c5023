/**
 * The per-edge usage aggregate (`StreetSegment`) and the table that stores
 * it, keyed by the road network's own edge id.
 */
module Segments {
  import opened Wrappers
  import opened Domain

  /** A stored street-segment record, as the table holds it. */
  datatype SegmentRow = SegmentRow(
    id: Option<int>,
    streetName: Option<string>,
    geometry: Option<seq<Coord>>,
    usageCount: int,
    avoidanceCount: int)

  /** The in-memory entity. Its id is the edge id given to it; it is never generated. */
  class StreetSegment {
    var id: Option<int>
    var streetName: Option<string>
    var geometry: Option<seq<Coord>>
    var usageCount: int
    var avoidanceCount: int

    /** A fresh segment: no id, name or geometry yet, both counters zero. */
    constructor ()
      ensures id == None && streetName == None && geometry == None
      ensures usageCount == 0 && avoidanceCount == 0
    {
      id, streetName, geometry := None, None, None;
      usageCount, avoidanceCount := 0, 0;
    }

    /** An entity loaded from a stored record. */
    constructor FromRow(row: SegmentRow)
      ensures Row() == row
    {
      id, streetName, geometry := row.id, row.streetName, row.geometry;
      usageCount, avoidanceCount := row.usageCount, row.avoidanceCount;
    }

    function Row(): SegmentRow
      reads this
    {
      SegmentRow(id, streetName, geometry, usageCount, avoidanceCount)
    }

    /** `incrementUsage`: one more use, nothing else changes. */
    method IncrementUsage()
      modifies this
      ensures usageCount == old(usageCount) + 1
      ensures id == old(id) && streetName == old(streetName) && geometry == old(geometry)
      ensures avoidanceCount == old(avoidanceCount)
    {
      usageCount := usageCount + 1;
    }
  }

  /** Every record is stored under its own id. */
  ghost predicate WellKeyed(rows: map<int, SegmentRow>) {
    forall k :: k in rows ==> rows[k].id == Some(k)
  }

  /** The segment table (`StreetSegmentRepository`): find by id and save. */
  class StreetSegmentRepository {
    var rows: map<int, SegmentRow>

    constructor (rows: map<int, SegmentRow>)
      ensures this.rows == rows
    {
      this.rows := rows;
    }

    /** `findById(id).orElse(null)`: a fresh entity holding the stored record, or null. */
    method FindById(id: int) returns (segment: StreetSegment?)
      ensures segment == null <==> id !in rows
      ensures segment != null ==> fresh(segment) && segment.Row() == rows[id]
    {
      if id in rows {
        segment := new StreetSegment.FromRow(rows[id]);
      } else {
        segment := null;
      }
    }

    /** `save(segment)`: insert or overwrite the record under the segment's id. */
    method Save(segment: StreetSegment)
      requires segment.id.Some?
      modifies this
      ensures rows == old(rows)[segment.id.value := segment.Row()]
    {
      rows := rows[segment.id.value := segment.Row()];
    }
  }
}
