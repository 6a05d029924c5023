/**
 * Properties of the whole row loop of `SimRaFileParser.parse`, stated over
 * the fold `ParseRows`: what holds after any prefix of a file, and which
 * earlier rows must exist for a row to be read as an incident or a point.
 */
module ParserProperties {
  import opened Wrappers
  import opened Text
  import opened Enums
  import opened Domain
  import opened SimRaFileParser

  /** What one row does to the loop state. */
  lemma StepSpec(st: ParserState, row: seq<string>, parseDouble: DoubleParser)
    ensures var r := Step(st, row, parseDouble);
            // blank rows are skipped in every state and consume no sequence number
            && (IsBlankRow(row) ==> r == st)
            // the separator only leaves the incident section; version rows are skipped like blank ones
            && (IsSeparatorRow(row) ==> r == st.(processingIncidents := false))
            && (!IsSeparatorRow(row) && !IsContentRow(row) ==> r == st)
            // nothing returns to the incident section
            && r.processingIncidents == (st.processingIncidents && !IsSeparatorRow(row))
            // each header is recognised only in its own section, and once found stays found
            && r.incidentHeaderFound == (st.incidentHeaderFound || (st.processingIncidents && IsContentRow(row) && IsIncidentHeader(row)))
            && r.pointHeaderFound == (st.pointHeaderFound || (!st.processingIncidents && IsContentRow(row) && IsPointHeader(row)))
            // at most one incident per row, only from an incident data row
            && r.incidents == st.incidents + (if IsIncidentDataRow(st, row) then IncidentRow(st.meta, row, parseDouble).incident.ToSeq() else [])
            && (!IsIncidentDataRow(st, row) ==> r.meta == st.meta)
            // every point data row consumes one sequence number, whether or not it yields a point
            && r.sequence == st.sequence + (if IsPointDataRow(st, row) then 1 else 0)
            && r.points == st.points + (if IsPointDataRow(st, row) then ParseRidePointRow(row, st.sequence, parseDouble).ToSeq() else [])
  {
    BlankRowIsNotSeparator(row);
  }

  /** The number of rows read as point data rows. */
  function PointDataRowCount(rows: seq<seq<string>>, parseDouble: DoubleParser): nat
    decreases |rows|
  {
    if rows == [] then 0
    else
      var init := rows[..|rows| - 1];
      PointDataRowCount(init, parseDouble) + (if IsPointDataRow(ParseRows(init, parseDouble), rows[|rows| - 1]) then 1 else 0)
  }

  /**
   * The sequence counter counts the point data rows, accepted or dropped,
   * so the point of a row gets the number of point data rows before it.
   */
  lemma {:induction false} SequenceCountsPointDataRows(rows: seq<seq<string>>, parseDouble: DoubleParser)
    ensures ParseRows(rows, parseDouble).sequence == PointDataRowCount(rows, parseDouble)
    decreases |rows|
  {
    if rows != [] {
      var init := rows[..|rows| - 1];
      SequenceCountsPointDataRows(init, parseDouble);
      StepSpec(ParseRows(init, parseDouble), rows[|rows| - 1], parseDouble);
    }
  }

  /**
   * What the loop state always satisfies: the point header is only looked
   * for after the separator, sequence numbers are handed out from 0 upwards
   * and accepted points carry strictly increasing ones below the counter,
   * no placeholder incident is kept, and incidents follow the `key` header.
   */
  predicate Coherent(st: ParserState) {
    && (st.pointHeaderFound ==> !st.processingIncidents)
    && 0 <= st.sequence
    && (st.sequence > 0 ==> st.pointHeaderFound)
    && (forall k :: 0 <= k < |st.points| ==> 0 <= st.points[k].sequenceIndex < st.sequence)
    && (forall j, k :: 0 <= j < k < |st.points| ==> st.points[j].sequenceIndex < st.points[k].sequenceIndex)
    && (forall k :: 0 <= k < |st.incidents| ==> st.incidents[k].incidentType != IncidentType.Dummy)
    && (|st.incidents| > 0 ==> st.incidentHeaderFound)
  }

  /** An incident data row adds at most one incident, and never the placeholder. */
  lemma StepKeepsIncidentsReal(st: ParserState, row: seq<string>, parseDouble: DoubleParser)
    requires forall k :: 0 <= k < |st.incidents| ==> st.incidents[k].incidentType != IncidentType.Dummy
    ensures var r := Step(st, row, parseDouble);
            forall k :: 0 <= k < |r.incidents| ==> r.incidents[k].incidentType != IncidentType.Dummy
  {
    var r := Step(st, row, parseDouble);
    StepSpec(st, row, parseDouble);
    var added := if IsIncidentDataRow(st, row) then IncidentRow(st.meta, row, parseDouble).incident.ToSeq() else [];
    IncidentRowAdds(st.meta, row, parseDouble);
    if IncidentAccepted(st.meta, row, parseDouble) {
      IncidentRowFields(st.meta, row, parseDouble);
    }
    assert r.incidents == st.incidents + added;
    forall k | 0 <= k < |r.incidents|
      ensures r.incidents[k].incidentType != IncidentType.Dummy
    {
      if k >= |st.incidents| {
        assert r.incidents[k] == added[k - |st.incidents|];
      }
    }
  }

  /** A point data row appends at most one point, numbered with the counter before it is raised. */
  lemma StepKeepsPointsNumbered(st: ParserState, row: seq<string>, parseDouble: DoubleParser)
    requires 0 <= st.sequence
    requires forall k :: 0 <= k < |st.points| ==> 0 <= st.points[k].sequenceIndex < st.sequence
    requires forall j, k :: 0 <= j < k < |st.points| ==> st.points[j].sequenceIndex < st.points[k].sequenceIndex
    ensures var r := Step(st, row, parseDouble);
            && (forall k :: 0 <= k < |r.points| ==> 0 <= r.points[k].sequenceIndex < r.sequence)
            && (forall j, k :: 0 <= j < k < |r.points| ==> r.points[j].sequenceIndex < r.points[k].sequenceIndex)
  {
    var r := Step(st, row, parseDouble);
    StepSpec(st, row, parseDouble);
    if IsPointDataRow(st, row) {
      var added := ParseRidePointRow(row, st.sequence, parseDouble).ToSeq();
      assert r.points == st.points + added;
      assert forall k :: 0 <= k < |added| ==> added[k].sequenceIndex == st.sequence;
    }
  }

  lemma StepPreservesCoherent(st: ParserState, row: seq<string>, parseDouble: DoubleParser)
    requires Coherent(st)
    ensures Coherent(Step(st, row, parseDouble))
  {
    StepSpec(st, row, parseDouble);
    StepKeepsIncidentsReal(st, row, parseDouble);
    StepKeepsPointsNumbered(st, row, parseDouble);
  }

  lemma {:induction false} ParseRowsCoherent(rows: seq<seq<string>>, parseDouble: DoubleParser)
    ensures Coherent(ParseRows(rows, parseDouble))
    decreases |rows|
  {
    if rows != [] {
      ParseRowsCoherent(rows[..|rows| - 1], parseDouble);
      StepPreservesCoherent(ParseRows(rows[..|rows| - 1], parseDouble), rows[|rows| - 1], parseDouble);
    }
  }

  // ------------------------------------------------------------ sections

  /** Header rows are never skipped as blank, separator or version rows. */
  lemma HeadersAreContentRows(row: seq<string>)
    ensures IsIncidentHeader(row) || IsPointHeader(row) ==> IsContentRow(row)
  {
    if IsIncidentHeader(row) || IsPointHeader(row) {
      assert row[0][0] > ' ';
      if |row| == 1 {
        forall i | 0 <= i <= |row[0]|
          ensures !StartsWith(row[0][i..], "#")
        {
          if i < |row[0]| {
            assert row[0][i..][..1][0] == row[0][i];
          }
        }
      }
    }
  }

  /** The loop is in the incident section exactly until the first separator row. */
  lemma {:induction false} ProcessingUntilSeparator(rows: seq<seq<string>>, parseDouble: DoubleParser)
    ensures ParseRows(rows, parseDouble).processingIncidents <==> forall j :: 0 <= j < |rows| ==> !IsSeparatorRow(rows[j])
    decreases |rows|
  {
    if rows != [] {
      var init := rows[..|rows| - 1];
      ProcessingUntilSeparator(init, parseDouble);
      StepSpec(ParseRows(init, parseDouble), rows[|rows| - 1], parseDouble);
      assert forall j :: 0 <= j < |init| ==> init[j] == rows[j];
    }
  }

  /** The `key` header has been found exactly when some row before any separator is a `key` row. */
  lemma {:induction false} IncidentHeaderFoundIff(rows: seq<seq<string>>, parseDouble: DoubleParser)
    ensures ParseRows(rows, parseDouble).incidentHeaderFound <==>
              exists h :: 0 <= h < |rows| && IsIncidentHeader(rows[h]) && forall j :: 0 <= j < h ==> !IsSeparatorRow(rows[j])
    decreases |rows|
  {
    if rows != [] {
      var init := rows[..|rows| - 1];
      var last := rows[|rows| - 1];
      IncidentHeaderFoundIff(init, parseDouble);
      ProcessingUntilSeparator(init, parseDouble);
      HeadersAreContentRows(last);
      StepSpec(ParseRows(init, parseDouble), last, parseDouble);
      assert forall j :: 0 <= j < |init| ==> init[j] == rows[j];
    }
  }

  /** The `lat,lon` header has been found exactly when some row after a separator is a `lat,lon` row. */
  lemma {:induction false} PointHeaderFoundIff(rows: seq<seq<string>>, parseDouble: DoubleParser)
    ensures ParseRows(rows, parseDouble).pointHeaderFound <==>
              exists s, h :: 0 <= s < h < |rows| && IsSeparatorRow(rows[s]) && IsPointHeader(rows[h])
    decreases |rows|
  {
    if rows != [] {
      var init := rows[..|rows| - 1];
      var last := rows[|rows| - 1];
      PointHeaderFoundIff(init, parseDouble);
      ProcessingUntilSeparator(init, parseDouble);
      HeadersAreContentRows(last);
      StepSpec(ParseRows(init, parseDouble), last, parseDouble);
      assert forall j :: 0 <= j < |init| ==> init[j] == rows[j];
    }
  }

  /**
   * Row `i` is read as an incident exactly when it is a content row, no
   * separator precedes it, and a `key` row precedes it.
   */
  lemma IncidentDataRowIff(rows: seq<seq<string>>, parseDouble: DoubleParser, i: int)
    requires 0 <= i < |rows|
    ensures IsIncidentDataRow(ParseRows(rows[..i], parseDouble), rows[i]) <==>
              && IsContentRow(rows[i])
              && (forall j :: 0 <= j < i ==> !IsSeparatorRow(rows[j]))
              && (exists h :: 0 <= h < i && IsIncidentHeader(rows[h]))
  {
    var prefix := rows[..i];
    ProcessingUntilSeparator(prefix, parseDouble);
    IncidentHeaderFoundIff(prefix, parseDouble);
    assert forall j :: 0 <= j < i ==> prefix[j] == rows[j];
  }

  /**
   * Row `i` is read as a point exactly when it is a content row and a
   * `lat,lon` row precedes it that itself follows a separator.
   */
  lemma PointDataRowIff(rows: seq<seq<string>>, parseDouble: DoubleParser, i: int)
    requires 0 <= i < |rows|
    ensures IsPointDataRow(ParseRows(rows[..i], parseDouble), rows[i]) <==>
              && IsContentRow(rows[i])
              && (exists s, h :: 0 <= s < h < i && IsSeparatorRow(rows[s]) && IsPointHeader(rows[h]))
  {
    var prefix := rows[..i];
    ProcessingUntilSeparator(prefix, parseDouble);
    PointHeaderFoundIff(prefix, parseDouble);
    ParseRowsCoherent(prefix, parseDouble);
    assert forall j :: 0 <= j < i ==> prefix[j] == rows[j];
  }
}
