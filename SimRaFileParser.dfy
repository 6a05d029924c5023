/**
 * The SimRa trace parser (`SimRaFileParser`). A file is two comma-separated
 * sections: incident reports under a `key,...` header, then a `======` line,
 * then ride points under a `lat,lon,...` header. Rows arrive already split
 * into fields. Malformed rows are dropped one by one; they never fail the file.
 */
module SimRaFileParser {
  import opened Wrappers
  import opened Text
  import opened Enums
  import opened Domain

  /** `Double.parseDouble`, supplied by the caller; `None` is a `NumberFormatException`. */
  type DoubleParser = string -> Option<real>

  // ------------------------------------------------------------ row shapes

  /** No fields, or one field that `trim()` empties. */
  predicate IsBlankRow(row: seq<string>) {
    |row| == 0 || (|row| == 1 && TrimsToEmpty(row[0]))
  }

  /** The section separator: a single field starting with six `=`. */
  predicate IsSeparatorRow(row: seq<string>) {
    |row| == 1 && StartsWith(row[0], "======")
  }

  /** A single field holding `#`, such as the file version line `58#2`. */
  predicate IsVersionRow(row: seq<string>) {
    |row| == 1 && Contains(row[0], "#")
  }

  predicate IsIncidentHeader(row: seq<string>) {
    |row| > 0 && row[0] == "key"
  }

  predicate IsPointHeader(row: seq<string>) {
    |row| > 1 && row[0] == "lat" && row[1] == "lon"
  }

  /** The skip checks do not overlap: a separator field starts with `=`, which `trim()` keeps. */
  lemma BlankRowIsNotSeparator(row: seq<string>)
    ensures IsBlankRow(row) ==> !IsSeparatorRow(row)
  {
    if IsSeparatorRow(row) {
      assert row[0][0] == row[0][..6][0] == '=';
    }
  }

  /** A row that gets past the three skip checks at the top of the loop. */
  predicate IsContentRow(row: seq<string>) {
    !IsBlankRow(row) && !IsSeparatorRow(row) && !IsVersionRow(row)
  }

  // ------------------------------------------------------------ fields

  /** An optional numeric column: empty, a parsed value, or text that made the parser throw. */
  datatype Field<T> = Unset | Value(v: T) | Malformed {
    function ToOption(): Option<T>
      requires !Malformed?
    {
      if Value? then Some(v) else None
    }
  }

  function DoubleField(s: string, parseDouble: DoubleParser): (f: Field<real>)
    ensures f.Unset? <==> s == ""
    ensures f.Value? ==> parseDouble(s) == Some(f.v)
  {
    if s == "" then Unset
    else match parseDouble(s)
      case Some(v) => Value(v)
      case None => Malformed
  }

  function LongField(s: string): (f: Field<int>)
    ensures f.Unset? <==> s == ""
    ensures f.Value? ==> ParseLong(s) == Some(f.v)
  {
    if s == "" then Unset
    else match ParseLong(s)
      case Some(v) => Value(v)
      case None => Malformed
  }

  /**
   * A point from a latitude and a longitude column: unset unless both are
   * non-empty; the longitude is parsed first and becomes `x`.
   */
  function LocationField(lat: string, lon: string, parseDouble: DoubleParser): (f: Field<Coord>)
    ensures f.Unset? <==> lat == "" || lon == ""
    ensures f.Malformed? <==> lat != "" && lon != "" && (parseDouble(lon).None? || parseDouble(lat).None?)
    ensures f.Value? ==> f.v == Coord(parseDouble(lon).value, parseDouble(lat).value)
  {
    if lat == "" || lon == "" then Unset
    else match (parseDouble(lon), parseDouble(lat))
      case (Some(x), Some(y)) => Value(Coord(x, y))
      case _ => Malformed
  }

  // ------------------------------------------------------------ incident rows

  /** The column of each participant flag: 9-17 in declaration order, then the scooter at 20, past "scary" and the description. */
  function ParticipantColumn(t: ParticipantType): nat {
    match t
    case Bus => 9
    case Cyclist => 10
    case Pedestrian => 11
    case DeliveryVan => 12
    case Truck => 13
    case Motorcycle => 14
    case Car => 15
    case Taxi => 16
    case Other => 17
    case Scooter => 20
  }

  predicate FlagSet(parts: seq<string>, column: nat) {
    |parts| > column && parts[column] == "1"
  }

  /** The involved participants: exactly the types whose column exists and holds `"1"`. */
  function Participants(parts: seq<string>): (r: set<ParticipantType>)
    ensures forall t :: t in r <==> FlagSet(parts, ParticipantColumn(t))
  {
    set t | t in ParticipantTypeValues && FlagSet(parts, ParticipantColumn(t))
  }

  /** The outcome of one incident row: the ride metadata afterwards and the incident, if one is added. */
  datatype IncidentRowResult = IncidentRowResult(meta: RideMeta, incident: Option<Incident>)

  /**
   * The metadata block of `parseIncidentRow`, run while the bike type is
   * null. The flag is false when a code fails to parse; the writes made
   * before the failure stay.
   */
  function CaptureMeta(meta: RideMeta, parts: seq<string>): (RideMeta, bool)
    requires |parts| >= 9
  {
    if parts[4] != "" && ParseInt(parts[4]).None? then (meta, false)
    else
      var bike := if parts[4] == "" then meta.bikeType else Some(BikeTypeFromCode(ParseInt(parts[4]).value));
      var m := meta.(bikeType := bike, childTransport := Some(parts[5] == "1"), trailerAttached := Some(parts[6] == "1"));
      if parts[7] == "" then (m, true)
      else match ParseInt(parts[7])
        case Some(code) => (m.(phoneLocation := Some(PhoneLocationFromCode(code))), true)
        case None => (m, false)
  }

  /** The incident of an accepted non-dummy row, or `None` when a field fails to parse. */
  function BuildIncident(parts: seq<string>, code: int, parseDouble: DoubleParser): Option<Incident>
    requires |parts| >= 9
  {
    var location := LocationField(parts[1], parts[2], parseDouble);
    var timestamp := LongField(parts[3]);
    if ParseInt(parts[0]).None? || location.Malformed? || timestamp.Malformed? then None
    else Some(Incident(
      ParseInt(parts[0]).value,
      location.ToOption(),
      timestamp.ToOption(),
      IncidentTypeFromCode(code),
      if |parts| > 18 then Some(parts[18] == "1") else None,
      if |parts| > 19 then Some(parts[19]) else None,
      Participants(parts)))
  }

  /** The conditions under which an incident row adds an incident. */
  predicate IncidentAccepted(meta: RideMeta, parts: seq<string>, parseDouble: DoubleParser) {
    && |parts| >= 9
    && (meta.bikeType.Some? || CaptureMeta(meta, parts).1)
    && ParseInt(parts[8]).Some? && ParseInt(parts[8]).value != DummyIncidentCode
    && ParseInt(parts[0]).Some?
    && !LocationField(parts[1], parts[2], parseDouble).Malformed?
    && !LongField(parts[3]).Malformed?
  }

  /** What `parseIncidentRow` does to the ride's metadata and incident list. */
  function IncidentRow(meta: RideMeta, parts: seq<string>, parseDouble: DoubleParser): IncidentRowResult
  {
    if |parts| < 9 then IncidentRowResult(meta, None)
    else
      var (m, ok) := if meta.bikeType.None? then CaptureMeta(meta, parts) else (meta, true);
      if !ok then IncidentRowResult(m, None)
      else match ParseInt(parts[8])
        case None => IncidentRowResult(m, None)
        case Some(code) =>
          if code == DummyIncidentCode then IncidentRowResult(m, None)
          else IncidentRowResult(m, BuildIncident(parts, code, parseDouble))
  }

  /**
   * Metadata is written only while the bike type is still null, and then
   * whether or not the row goes on to yield an incident; an empty bike-type
   * column leaves it null, so the next row writes the metadata again. A
   * bike-type code that does not parse throws before any write; a phone code
   * that does not parse throws after the first three writes, which stay.
   */
  lemma IncidentRowMetadata(meta: RideMeta, parts: seq<string>, parseDouble: DoubleParser)
    ensures |parts| < 9 || meta.bikeType.Some? ==> IncidentRow(meta, parts, parseDouble).meta == meta
    ensures meta.bikeType.None? && |parts| >= 9 && parts[4] != "" && ParseInt(parts[4]).None? ==>
              IncidentRow(meta, parts, parseDouble).meta == meta
    ensures meta.bikeType.None? && |parts| >= 9 && (parts[4] == "" || ParseInt(parts[4]).Some?) ==>
              var m := IncidentRow(meta, parts, parseDouble).meta;
              && m.bikeType == (if parts[4] == "" then None else Some(BikeTypeFromCode(ParseInt(parts[4]).value)))
              && m.childTransport == Some(parts[5] == "1")
              && m.trailerAttached == Some(parts[6] == "1")
              && m.phoneLocation == (if parts[7] != "" && ParseInt(parts[7]).Some?
                                     then Some(PhoneLocationFromCode(ParseInt(parts[7]).value))
                                     else meta.phoneLocation)
  {
    if meta.bikeType.None? && |parts| >= 9 {
      assert IncidentRow(meta, parts, parseDouble).meta == CaptureMeta(meta, parts).0;
    }
  }

  /**
   * A row adds an incident exactly when it has nine fields, the metadata
   * block (if it runs) and every field the incident reads parse, and its
   * type code is not the dummy code.
   */
  lemma IncidentRowAdds(meta: RideMeta, parts: seq<string>, parseDouble: DoubleParser)
    ensures IncidentRow(meta, parts, parseDouble).incident.Some? <==> IncidentAccepted(meta, parts, parseDouble)
  {
  }

  /** The added incident takes each field from its fixed column, and is never the placeholder. */
  lemma IncidentRowFields(meta: RideMeta, parts: seq<string>, parseDouble: DoubleParser)
    requires IncidentAccepted(meta, parts, parseDouble)
    ensures var inc := IncidentRow(meta, parts, parseDouble).incident.value;
            && inc.incidentType == IncidentTypeFromCode(ParseInt(parts[8]).value)
            && inc.incidentType != IncidentType.Dummy
            && Some(inc.incidentKey) == ParseInt(parts[0])
            && inc.location == LocationField(parts[1], parts[2], parseDouble).ToOption()
            && inc.timestamp == (if parts[3] == "" then None else ParseLong(parts[3]))
            && inc.scary == (if |parts| > 18 then Some(parts[18] == "1") else None)
            && inc.description == (if |parts| > 19 then Some(parts[19]) else None)
            && inc.involvedParticipants == Participants(parts)
  {
    IncidentRowAdds(meta, parts, parseDouble);
    IncidentTypeDummyOnlyFromItsCode(ParseInt(parts[8]).value);
  }

  /**
   * The metadata block of `parseIncidentRow`, writing the ride's fields one
   * after the other; `ok` is false when a code throws part-way.
   */
  method CaptureRideMetadata(ride: Ride, parts: seq<string>) returns (ok: bool)
    requires |parts| >= 9
    modifies ride`bikeType, ride`childTransport, ride`trailerAttached, ride`phoneLocation
    ensures ride.Meta() == CaptureMeta(old(ride.Meta()), parts).0 && ok == CaptureMeta(old(ride.Meta()), parts).1
  {
    if parts[4] != "" {
      var bike := ParseInt(parts[4]);
      if bike.None? {
        return false;
      }
      ride.bikeType := Some(BikeTypeFromCode(bike.value));
    }
    ride.childTransport := Some(parts[5] == "1");
    ride.trailerAttached := Some(parts[6] == "1");
    ghost var written := ride.Meta();
    assert written.phoneLocation == old(ride.phoneLocation);
    if parts[7] != "" {
      var phone := ParseInt(parts[7]);
      if phone.None? {
        return false;
      }
      ride.phoneLocation := Some(PhoneLocationFromCode(phone.value));
    }
    return true;
  }

  /** The incident-building block of `parseIncidentRow`, for a row with a non-dummy code. */
  method ReadIncident(parts: seq<string>, code: int, parseDouble: DoubleParser) returns (incident: Option<Incident>)
    requires |parts| >= 9
    ensures incident == BuildIncident(parts, code, parseDouble)
  {
    var key := ParseInt(parts[0]);
    if key.None? {
      return None;
    }
    var location: Option<Coord> := None;
    if parts[1] != "" && parts[2] != "" {
      var lon := parseDouble(parts[2]);
      if lon.None? {
        return None;
      }
      var lat := parseDouble(parts[1]);
      if lat.None? {
        return None;
      }
      location := Some(Coord(lon.value, lat.value));
    }
    var timestamp: Option<int> := None;
    if parts[3] != "" {
      timestamp := ParseLong(parts[3]);
      if timestamp.None? {
        return None;
      }
    }
    var participants := Participants(parts);
    var scary := if |parts| > 18 then Some(parts[18] == "1") else None;
    var description := if |parts| > 19 then Some(parts[19]) else None;
    return Some(Incident(key.value, location, timestamp, IncidentTypeFromCode(code), scary, description, participants));
  }

  /** `parseIncidentRow`: updates the ride in place. */
  method ParseIncidentRow(ride: Ride, parts: seq<string>, parseDouble: DoubleParser)
    modifies ride`bikeType, ride`childTransport, ride`trailerAttached, ride`phoneLocation, ride`incidents
    ensures var r := IncidentRow(old(ride.Meta()), parts, parseDouble);
            ride.Meta() == r.meta && ride.incidents == old(ride.incidents) + r.incident.ToSeq()
  {
    if |parts| < 9 {
      return;
    }
    if ride.bikeType == None {
      var ok := CaptureRideMetadata(ride, parts);
      if !ok {
        return;
      }
    }
    var incidentTypeCode := ParseInt(parts[8]);
    if incidentTypeCode.None? || incidentTypeCode.value == DummyIncidentCode {
      return;
    }
    var incident := ReadIncident(parts, incidentTypeCode.value, parseDouble);
    if incident.Some? {
      ride.incidents := ride.incidents + [incident.value];
    }
  }

  // ------------------------------------------------------------ point rows

  /** `parseRidePointRow`: the point of a data row in the point section, or `None`. */
  function ParseRidePointRow(parts: seq<string>, sequence: int, parseDouble: DoubleParser): (r: Option<RidePoint>)
    ensures |parts| < 6 ==> r.None?
    ensures r.Some? <==>
              && |parts| >= 6
              && !LocationField(parts[0], parts[1], parseDouble).Malformed?
              && (forall k :: 2 <= k <= 4 ==> !DoubleField(parts[k], parseDouble).Malformed?)
              && !LongField(parts[5]).Malformed?
              && (|parts| > 6 ==> !DoubleField(parts[6], parseDouble).Malformed?)
              && (|parts| > 9 ==> forall k :: 7 <= k <= 9 ==> !DoubleField(parts[k], parseDouble).Malformed?)
    ensures r.Some? ==>
              var p := r.value;
              && p.sequenceIndex == sequence
              && p.location == LocationField(parts[0], parts[1], parseDouble).ToOption()
              // empty optional columns stay unset instead of becoming 0
              && p.x == (if parts[2] == "" then None else parseDouble(parts[2]))
              && p.y == (if parts[3] == "" then None else parseDouble(parts[3]))
              && p.z == (if parts[4] == "" then None else parseDouble(parts[4]))
              && p.timestamp == (if parts[5] == "" then None else ParseLong(parts[5]))
              && p.gpsAccuracy == (if |parts| > 6 && parts[6] != "" then parseDouble(parts[6]) else None)
              // the gyroscope is read only from rows of more than nine fields
              && (|parts| <= 9 ==> p.a == None && p.b == None && p.c == None)
              && (|parts| > 9 ==> p.a == (if parts[7] == "" then None else parseDouble(parts[7])))
              && (|parts| > 9 ==> p.b == (if parts[8] == "" then None else parseDouble(parts[8])))
              && (|parts| > 9 ==> p.c == (if parts[9] == "" then None else parseDouble(parts[9])))
  {
    if |parts| < 6 then None
    else
      var location := LocationField(parts[0], parts[1], parseDouble);
      var x := DoubleField(parts[2], parseDouble);
      var y := DoubleField(parts[3], parseDouble);
      var z := DoubleField(parts[4], parseDouble);
      var timestamp := LongField(parts[5]);
      var accuracy := if |parts| > 6 then DoubleField(parts[6], parseDouble) else Unset;
      var a := if |parts| > 9 then DoubleField(parts[7], parseDouble) else Unset;
      var b := if |parts| > 9 then DoubleField(parts[8], parseDouble) else Unset;
      var c := if |parts| > 9 then DoubleField(parts[9], parseDouble) else Unset;
      if || location.Malformed? || x.Malformed? || y.Malformed? || z.Malformed? || timestamp.Malformed?
         || accuracy.Malformed? || a.Malformed? || b.Malformed? || c.Malformed?
      then None
      else Some(RidePoint(location.ToOption(), timestamp.ToOption(), x.ToOption(), y.ToOption(), z.ToOption(),
                          accuracy.ToOption(), a.ToOption(), b.ToOption(), c.ToOption(), sequence))
  }

  // ------------------------------------------------------------ the row loop

  /** The loop state of `parse`: three flags, the sequence counter, and what has been collected. */
  datatype ParserState = ParserState(
    processingIncidents: bool,
    incidentHeaderFound: bool,
    pointHeaderFound: bool,
    sequence: int,
    points: seq<RidePoint>,
    meta: RideMeta,
    incidents: seq<Incident>)

  const Initial := ParserState(true, false, false, 0, [], NoMeta, [])

  /** A row that reaches `parseRidePointRow` and so consumes a sequence number. */
  predicate IsPointDataRow(st: ParserState, row: seq<string>) {
    IsContentRow(row) && !st.processingIncidents && st.pointHeaderFound
  }

  /** A row that reaches `parseIncidentRow`. */
  predicate IsIncidentDataRow(st: ParserState, row: seq<string>) {
    IsContentRow(row) && st.processingIncidents && st.incidentHeaderFound
  }

  /** One iteration of the loop in `parse`. */
  function Step(st: ParserState, row: seq<string>, parseDouble: DoubleParser): ParserState
  {
    if IsBlankRow(row) then st
    else if IsSeparatorRow(row) then st.(processingIncidents := false)
    else if IsVersionRow(row) then st
    else if st.processingIncidents then
      if !st.incidentHeaderFound then
        st.(incidentHeaderFound := IsIncidentHeader(row))
      else
        var r := IncidentRow(st.meta, row, parseDouble);
        st.(meta := r.meta, incidents := st.incidents + r.incident.ToSeq())
    else if !st.pointHeaderFound then
      st.(pointHeaderFound := IsPointHeader(row))
    else
      st.(sequence := st.sequence + 1,
          points := st.points + ParseRidePointRow(row, st.sequence, parseDouble).ToSeq())
  }

  /** The loop state after the given rows. */
  function ParseRows(rows: seq<seq<string>>, parseDouble: DoubleParser): ParserState
    decreases |rows|
  {
    if rows == [] then Initial
    else Step(ParseRows(rows[..|rows| - 1], parseDouble), rows[|rows| - 1], parseDouble)
  }

  // ------------------------------------------------------------ derived ride fields

  /** The coordinates of the points that have a location, in list order. */
  function Locations(points: seq<RidePoint>): (r: seq<Coord>)
    ensures |r| <= |points|
    decreases |points|
  {
    if points == [] then []
    else Locations(points[..|points| - 1])
         + (if points[|points| - 1].location.Some? then [points[|points| - 1].location.value] else [])
  }

  /** `addPointsToRide`: start and end time from the first and last point in file order, and the raw polyline. */
  method AddPointsToRide(ride: Ride, points: seq<RidePoint>)
    modifies ride`startTime, ride`endTime, ride`trajectory
    ensures points == [] ==> ride.startTime == old(ride.startTime) && ride.endTime == old(ride.endTime)
    ensures points != [] ==> ride.startTime == points[0].timestamp && ride.endTime == points[|points| - 1].timestamp
    ensures ride.trajectory == if points != [] && |Locations(points)| >= 2 then Some(Locations(points)) else old(ride.trajectory)
  {
    if points != [] {
      ride.startTime := points[0].timestamp;
      ride.endTime := points[|points| - 1].timestamp;
      var coordinates := Locations(points);
      if |coordinates| >= 2 {
        ride.trajectory := Some(coordinates);
      }
    }
  }

  function StartTime(points: seq<RidePoint>): Option<int> {
    if points == [] then None else points[0].timestamp
  }

  function EndTime(points: seq<RidePoint>): Option<int> {
    if points == [] then None else points[|points| - 1].timestamp
  }

  function RawTrajectory(points: seq<RidePoint>): Option<seq<Coord>> {
    if |Locations(points)| >= 2 then Some(Locations(points)) else None
  }

  /** `parse`: reads the rows of one file into a new ride named after the file. */
  method Parse(rows: seq<seq<string>>, filename: string, parseDouble: DoubleParser) returns (ride: Ride)
    ensures fresh(ride)
    ensures var st := ParseRows(rows, parseDouble);
            && ride.originalFilename == Some(filename)
            && ride.Meta() == st.meta && ride.incidents == st.incidents && ride.ridePoints == st.points
            && ride.startTime == StartTime(st.points) && ride.endTime == EndTime(st.points)
            && ride.trajectory == RawTrajectory(st.points)
            && ride.traversedEdgeIds == None
  {
    ride := new Ride();
    ride.originalFilename := Some(filename);

    var processingIncidents := true;
    var incidentHeaderFound := false;
    var pointHeaderFound := false;
    var points: seq<RidePoint> := [];
    var sequence := 0;

    for i := 0 to |rows|
      invariant ParseRows(rows[..i], parseDouble) == ParserState(processingIncidents, incidentHeaderFound,
                  pointHeaderFound, sequence, points, ride.Meta(), ride.incidents)
      invariant ride.originalFilename == Some(filename) && ride.ridePoints == []
      invariant ride.startTime == None && ride.endTime == None && ride.trajectory == None
      invariant ride.traversedEdgeIds == None
    {
      var line := rows[i];
      ghost var before := ParserState(processingIncidents, incidentHeaderFound, pointHeaderFound,
                                      sequence, points, ride.Meta(), ride.incidents);
      assert rows[..i + 1][..i] == rows[..i];
      assert ParseRows(rows[..i + 1], parseDouble) == Step(before, line, parseDouble);
      if IsBlankRow(line) {
        continue;
      }
      if IsSeparatorRow(line) {
        processingIncidents := false;
        continue;
      }
      if IsVersionRow(line) {
        continue;
      }
      if processingIncidents {
        if !incidentHeaderFound {
          if IsIncidentHeader(line) {
            incidentHeaderFound := true;
          }
          continue;
        }
        ParseIncidentRow(ride, line, parseDouble);
      } else {
        if !pointHeaderFound {
          if IsPointHeader(line) {
            pointHeaderFound := true;
          }
          continue;
        }
        var point := ParseRidePointRow(line, sequence, parseDouble);
        sequence := sequence + 1;
        if point.Some? {
          points := points + [point.value];
        }
      }
    }
    assert rows[..|rows|] == rows;

    ride.ridePoints := points;
    AddPointsToRide(ride, points);
  }
}
