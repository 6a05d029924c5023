/**
 * The ride aggregate: a ride, its telemetry samples and its incident reports.
 * Java's nullable fields become `Option`s; a JTS point is its coordinate and
 * a JTS line string is its coordinate sequence.
 */
module Domain {
  import opened Wrappers
  import opened Enums

  /** A JTS `Coordinate` in WGS84: `x` is the longitude, `y` the latitude. Equality is `equals2D`. */
  datatype Coord = Coord(x: real, y: real)

  /** One telemetry sample (`RidePoint`): position, accelerometer, GPS accuracy, gyroscope, file position. */
  datatype RidePoint = RidePoint(
    location: Option<Coord>,
    timestamp: Option<int>,
    x: Option<real>, y: Option<real>, z: Option<real>,
    gpsAccuracy: Option<real>,
    a: Option<real>, b: Option<real>, c: Option<real>,
    sequenceIndex: int)

  /** One self-reported event (`Incident`). */
  datatype Incident = Incident(
    incidentKey: int,
    location: Option<Coord>,
    timestamp: Option<int>,
    incidentType: IncidentType,
    scary: Option<bool>,
    description: Option<string>,
    involvedParticipants: set<ParticipantType>)

  /** The ride-level metadata that the first incident rows fill in. */
  datatype RideMeta = RideMeta(
    bikeType: Option<BikeType>,
    childTransport: Option<bool>,
    trailerAttached: Option<bool>,
    phoneLocation: Option<PhoneLocation>)

  const NoMeta := RideMeta(None, None, None, None)

  /**
   * One imported trip (`Ride`). `trajectory` holds the raw polyline after
   * parsing and is overwritten by the map-matched one; `traversedEdgeIds` is
   * the edge list the matcher stores on the ride.
   */
  class Ride {
    var bikeType: Option<BikeType>
    var childTransport: Option<bool>
    var trailerAttached: Option<bool>
    var phoneLocation: Option<PhoneLocation>
    var ridePoints: seq<RidePoint>
    var incidents: seq<Incident>
    var originalFilename: Option<string>
    var startTime: Option<int>
    var endTime: Option<int>
    var trajectory: Option<seq<Coord>>
    var traversedEdgeIds: Option<seq<int>>

    constructor ()
      ensures Meta() == NoMeta
      ensures ridePoints == [] && incidents == [] && originalFilename == None
      ensures startTime == None && endTime == None && trajectory == None && traversedEdgeIds == None
    {
      bikeType, childTransport, trailerAttached, phoneLocation := None, None, None, None;
      ridePoints, incidents, originalFilename := [], [], None;
      startTime, endTime, trajectory, traversedEdgeIds := None, None, None, None;
    }

    function Meta(): RideMeta
      reads this
    {
      RideMeta(bikeType, childTransport, trailerAttached, phoneLocation)
    }
  }
}
