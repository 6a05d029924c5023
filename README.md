# Ride ingestion of the cycling-infrastructure backend, in Dafny

This project models the ride-ingestion core of the cycling-infrastructure
backend, a Spring service that imports SimRa bicycle-trip recordings and
aggregates how often each road segment is used. It proves properties of that
model. Four parts are modelled:

- **The SimRa trace parser** (`SimRaFileParser.dfy`, `ParserProperties.dfy`).
  A SimRa file has two sections of comma-separated rows:
  - incident reports under a `key` header;
  - a `======` separator;
  - ride points under a `lat,lon` header.

  The parser is a row loop driven by three flags and a sequence counter. It
  fills a `Ride` in place: metadata from the first incident rows, the
  incidents, the points, the start and end time, and the raw trajectory.
  - `Parse` is the loop itself.
  - It is proved equal to the fold `ParseRows` of the one-row step `Step`.
  - The lemmas describe `ParseRows` after any prefix of the file.
- **Map-matching post-processing** (`MatchPoints.dfy`, `MatchTrajectory.dfy`,
  `MatchNearestName.dfy`, `MapMatching.dfy`). The parts of
  `GraphHopperMapMatchingService` that do not depend on the routing engine:
  - the point filter and the stable timestamp sort;
  - the two-point guard;
  - the snapped trajectory with consecutive duplicates removed;
  - the traversed-edge list;
  - the per-edge segment upsert;
  - the nearest-street-name search for unnamed edges.

  The matcher, the spatial index, the edge store and the geodesic distance
  are function-valued parameters.
- **The start-up import** (`SimRaDataLoader.dfy`):
  - the file filter chain, with resumability against the stored file names;
  - the per-file skip-or-save rule;
  - the per-file failure boundary;
  - the progress counter.
- **Domain behaviour** (`StreetSegment.dfy`, `Enums.dfy`, `Domain.dfy`):
  - the street-segment entity and its usage counter;
  - the segment table;
  - the four code enums, each decoded by a first-match search with a default.

Supporting modules:
- `Text.dfy` holds the Java string operations and `Integer.parseInt` and
  `Long.parseLong`, as decimal parsers with the 32- and 64-bit range checks.
- `Wrappers.dfy` holds `Option`.

Java `null` is `None` throughout. `Double.parseDouble` is a given partial
function `string -> Option<real>`. A file's contents arrive as rows that are
already split into fields. Whether the database refuses to save a ride is a given
predicate on the file it came from.

## Model

| member | source | states |
|---|---|---|
| Enums.FindFirst | src/main/java/berlin/tu/cyclinginfrastructurebackend/domain/enums/BikeType.java:24-27 | The search gives nothing exactly when no constant has the code. Otherwise it gives a constant with that code, and no earlier constant has it. |
| Enums.FindFirstFindsUniqueCode | src/main/java/berlin/tu/cyclinginfrastructurebackend/domain/enums/BikeType.java:24-27 | A listed constant whose code no other constant shares is what the search finds for that code. |
| Enums.BikeType.Code | src/main/java/berlin/tu/cyclinginfrastructurebackend/domain/enums/BikeType.java:11-21 | Bike-type codes lie in 0..8. |
| Enums.BikeTypeFromCode | src/main/java/berlin/tu/cyclinginfrastructurebackend/domain/enums/BikeType.java:23-28 | Decoding is total. It gives the constant with that code or `NOT_CHOSEN`, and `NOT_CHOSEN` for every code outside 0..8. |
| Enums.BikeTypeRoundTrip | src/main/java/berlin/tu/cyclinginfrastructurebackend/domain/enums/BikeType.java:11-28 | `fromCode(t.code) == t` for every bike type. |
| Enums.BikeTypeDecodesDeclaredCodes | src/main/java/berlin/tu/cyclinginfrastructurebackend/domain/enums/BikeType.java:11-28 | A code decodes to the constant declared with it exactly when it is in 0..8. |
| Enums.BikeTypeDefaultIsCodeZero | src/main/java/berlin/tu/cyclinginfrastructurebackend/domain/enums/BikeType.java:11-27 | An unknown code decodes exactly like code 0, to `NOT_CHOSEN`. |
| Enums.IncidentType.Code | src/main/java/berlin/tu/cyclinginfrastructurebackend/domain/enums/IncidentType.java:11-22 | Incident codes are 0..8 or -5. |
| Enums.IncidentTypeFromCode | src/main/java/berlin/tu/cyclinginfrastructurebackend/domain/enums/IncidentType.java:24-29 | Decoding is total. It gives the constant with that code or `NOTHING`, and `NOTHING` for every code that is neither in 0..8 nor -5. |
| Enums.IncidentTypeRoundTrip | src/main/java/berlin/tu/cyclinginfrastructurebackend/domain/enums/IncidentType.java:11-29 | `fromCode(t.code) == t` for every incident type, `DUMMY` included. |
| Enums.IncidentTypeDecodesDeclaredCodes | src/main/java/berlin/tu/cyclinginfrastructurebackend/domain/enums/IncidentType.java:11-29 | A code decodes to the constant declared with it exactly when it is in 0..8 or is -5. |
| Enums.IncidentTypeDummyOnlyFromItsCode | src/main/java/berlin/tu/cyclinginfrastructurebackend/domain/enums/IncidentType.java:20-29 | `fromCode(c) == DUMMY` exactly when `c == -5`. |
| Enums.ParticipantType.Code | src/main/java/berlin/tu/cyclinginfrastructurebackend/domain/enums/ParticipantType.java:11-22 | Participant codes lie in 1..10. |
| Enums.ParticipantTypeFromCode | src/main/java/berlin/tu/cyclinginfrastructurebackend/domain/enums/ParticipantType.java:24-29 | Decoding is total. It gives the constant with that code or `OTHER`, and `OTHER` for every code outside 1..10, 0 included. |
| Enums.ParticipantTypeRoundTrip | src/main/java/berlin/tu/cyclinginfrastructurebackend/domain/enums/ParticipantType.java:11-29 | `fromCode(t.code) == t` for every participant type. |
| Enums.ParticipantTypeDecodesDeclaredCodes | src/main/java/berlin/tu/cyclinginfrastructurebackend/domain/enums/ParticipantType.java:11-29 | A code decodes to the constant declared with it exactly when it is in 1..10. |
| Enums.ParticipantTypeDefaultIsCodeNine | src/main/java/berlin/tu/cyclinginfrastructurebackend/domain/enums/ParticipantType.java:19-28 | An unknown code decodes exactly like code 9, to `OTHER`. |
| Enums.PhoneLocation.Code | src/main/java/berlin/tu/cyclinginfrastructurebackend/domain/enums/PhoneLocation.java:8-15 | Phone-location codes lie in 0..6. |
| Enums.PhoneLocationFromCode | src/main/java/berlin/tu/cyclinginfrastructurebackend/domain/enums/PhoneLocation.java:16-21 | Decoding is total. It gives the constant with that code or `OTHER`, and `OTHER` for every code outside 0..6. |
| Enums.PhoneLocationRoundTrip | src/main/java/berlin/tu/cyclinginfrastructurebackend/domain/enums/PhoneLocation.java:8-21 | `fromCode(t.code) == t` for every phone location. |
| Enums.PhoneLocationDecodesDeclaredCodes | src/main/java/berlin/tu/cyclinginfrastructurebackend/domain/enums/PhoneLocation.java:8-21 | A code decodes to the constant declared with it exactly when it is in 0..6. |
| Enums.PhoneLocationDefaultIsCodeSix | src/main/java/berlin/tu/cyclinginfrastructurebackend/domain/enums/PhoneLocation.java:14-20 | An unknown code decodes exactly like code 6, to `OTHER`. |
| Domain.Ride.constructor | src/main/java/berlin/tu/cyclinginfrastructurebackend/domain/Ride.java:20-47 | A new ride has no metadata, no points, no incidents, no file name, no times, no trajectory and no edge list. |
| Segments.StreetSegment.constructor | src/main/java/berlin/tu/cyclinginfrastructurebackend/domain/StreetSegment.java:17-28 | A fresh segment has both counters at 0, and no id, name or geometry. |
| Segments.StreetSegment.IncrementUsage | src/main/java/berlin/tu/cyclinginfrastructurebackend/domain/StreetSegment.java:30-32 | The usage count rises by exactly 1. Id, name, geometry and avoidance count are unchanged. |
| Segments.StreetSegmentRepository.FindById | src/main/java/berlin/tu/cyclinginfrastructurebackend/service/GraphHopperMapMatchingService.java:237 | The result is null exactly when the id is not stored. Otherwise it is a fresh entity holding the stored record. |
| Segments.StreetSegmentRepository.Save | src/main/java/berlin/tu/cyclinginfrastructurebackend/service/GraphHopperMapMatchingService.java:261 | The record under the segment's id becomes the segment. Every other record stays. |
| Text.Contains | src/main/java/berlin/tu/cyclinginfrastructurebackend/service/SimRaFileParser.java:74 | `contains` holds exactly when the substring starts at some offset. |
| Text.ParseDecimal | src/main/java/berlin/tu/cyclinginfrastructurebackend/service/SimRaFileParser.java:147 | Parsing succeeds exactly on an optional sign followed by at least one digit. A negative result needs a leading `-`. |
| Text.ParseInt | src/main/java/berlin/tu/cyclinginfrastructurebackend/service/SimRaFileParser.java:147 | `Integer.parseInt` succeeds exactly on decimal syntax whose value fits 32 bits, and then gives that value. |
| Text.ParseLong | src/main/java/berlin/tu/cyclinginfrastructurebackend/service/SimRaFileParser.java:160 | `Long.parseLong` succeeds exactly on decimal syntax whose value fits 64 bits, and then gives that value. |
| Text.NatString | src/main/java/berlin/tu/cyclinginfrastructurebackend/service/SimRaFileParser.java:147 | The printed form of a natural number is a non-empty digit string whose value is that number. |
| Text.ParseDecimalRoundTrip | src/main/java/berlin/tu/cyclinginfrastructurebackend/service/SimRaFileParser.java:147 | Printing a number in decimal and parsing it back gives the number. |
| Text.ParseIntRoundTrip | src/main/java/berlin/tu/cyclinginfrastructurebackend/service/SimRaFileParser.java:147 | Every 32-bit value survives a print-and-parse round trip. |
| Text.ParseLongRoundTrip | src/main/java/berlin/tu/cyclinginfrastructurebackend/service/SimRaFileParser.java:200 | Every 64-bit value survives a print-and-parse round trip. |
| SimRaFileParser.BlankRowIsNotSeparator | src/main/java/berlin/tu/cyclinginfrastructurebackend/service/SimRaFileParser.java:63-71 | A blank row is never a separator, so the first two skip checks never compete. |
| SimRaFileParser.DoubleField | src/main/java/berlin/tu/cyclinginfrastructurebackend/service/SimRaFileParser.java:197-206 | An optional double column is unset exactly when it is empty. Its value is what `parseDouble` gives. |
| SimRaFileParser.LongField | src/main/java/berlin/tu/cyclinginfrastructurebackend/service/SimRaFileParser.java:200 | A timestamp column is unset exactly when it is empty. Its value is what `parseLong` gives. |
| SimRaFileParser.LocationField | src/main/java/berlin/tu/cyclinginfrastructurebackend/service/SimRaFileParser.java:192-195 | A location is unset exactly when either column is empty. It is malformed exactly when both columns are present and one fails to parse. Otherwise `x` comes from the longitude column and `y` from the latitude column. |
| SimRaFileParser.Participants | src/main/java/berlin/tu/cyclinginfrastructurebackend/service/SimRaFileParser.java:164-176 | A participant type is involved exactly when its column exists and holds `"1"`. The columns are 9-17 in declaration order and 20 for the scooter. |
| SimRaFileParser.IncidentRowMetadata | src/main/java/berlin/tu/cyclinginfrastructurebackend/service/SimRaFileParser.java:135-149 | Metadata changes only while the bike type is null. Then it is written whatever the rest of the row holds, dummy code or not. An empty bike-type column keeps the bike type null. A bike-type code that does not parse leaves all metadata unchanged. Otherwise child transport and trailer come from columns 5 and 6, and the phone location is decoded from column 7 when that is a number, and is kept when it is empty or does not parse. |
| SimRaFileParser.IncidentRowAdds | src/main/java/berlin/tu/cyclinginfrastructurebackend/service/SimRaFileParser.java:135-182 | An incident row adds an incident exactly when these all hold: it has 9 fields; the metadata block (if it runs) parses; the type code parses and is not -5; the key, location and timestamp parse. |
| SimRaFileParser.IncidentRowFields | src/main/java/berlin/tu/cyclinginfrastructurebackend/service/SimRaFileParser.java:147-179 | The added incident takes key, location, timestamp, type, scary flag, description and participants from their fixed columns. Its type is never `DUMMY`. |
| SimRaFileParser.CaptureRideMetadata | src/main/java/berlin/tu/cyclinginfrastructurebackend/service/SimRaFileParser.java:139-144 | The ride's metadata becomes what the metadata block computes, including the writes made before a code fails to parse. |
| SimRaFileParser.ReadIncident | src/main/java/berlin/tu/cyclinginfrastructurebackend/service/SimRaFileParser.java:151-179 | The incident built field by field equals the reference `BuildIncident`. |
| SimRaFileParser.ParseIncidentRow | src/main/java/berlin/tu/cyclinginfrastructurebackend/service/SimRaFileParser.java:134-183 | The ride's metadata and incident list become those of `IncidentRow`. At most one incident is appended. |
| SimRaFileParser.ParseRidePointRow | src/main/java/berlin/tu/cyclinginfrastructurebackend/service/SimRaFileParser.java:185-213 | A point row yields a point exactly when it has 6 fields and no non-empty column it reads fails to parse. The point carries the given sequence number. Empty columns stay unset. The gyroscope is read only from rows of more than 9 fields. |
| SimRaFileParser.AddPointsToRide | src/main/java/berlin/tu/cyclinginfrastructurebackend/service/SimRaFileParser.java:118-132 | Start and end time come from the first and last point in file order. The trajectory is set only when at least two points have a location. Without points, nothing changes. |
| SimRaFileParser.Parse | src/main/java/berlin/tu/cyclinginfrastructurebackend/service/SimRaFileParser.java:35-116 | The ride equals the state after all rows, as given by the fold `ParseRows`, and is named after the file. Without points, start time, end time and trajectory stay unset. |
| ParserProperties.StepSpec | src/main/java/berlin/tu/cyclinginfrastructurebackend/service/SimRaFileParser.java:61-106 | Per row: blank and version rows change nothing, and the separator only leaves the incident section. Headers are recognised only in their own section. Incidents come only from incident data rows. Exactly the point data rows consume a sequence number. |
| ParserProperties.SequenceCountsPointDataRows | src/main/java/berlin/tu/cyclinginfrastructurebackend/service/SimRaFileParser.java:58-104 | The sequence counter equals the number of point data rows read, whether or not they yielded a point. |
| ParserProperties.StepKeepsIncidentsReal | src/main/java/berlin/tu/cyclinginfrastructurebackend/service/SimRaFileParser.java:147-149 | No step adds a `DUMMY` incident. |
| ParserProperties.StepKeepsPointsNumbered | src/main/java/berlin/tu/cyclinginfrastructurebackend/service/SimRaFileParser.java:99-104 | Point sequence numbers stay below the counter and strictly increasing. |
| ParserProperties.StepPreservesCoherent | src/main/java/berlin/tu/cyclinginfrastructurebackend/service/SimRaFileParser.java:53-105 | Each step preserves the loop invariant `Coherent`. |
| ParserProperties.ParseRowsCoherent | src/main/java/berlin/tu/cyclinginfrastructurebackend/service/SimRaFileParser.java:53-106 | After any rows the invariant holds. The point header is only found after the separator. Points are numbered from 0 upwards, strictly increasing in file order. No `DUMMY` incident is kept. Incidents appear only after the `key` header. |
| ParserProperties.HeadersAreContentRows | src/main/java/berlin/tu/cyclinginfrastructurebackend/service/SimRaFileParser.java:63-93 | A `key` or `lat,lon` header row passes all three skip checks. |
| ParserProperties.ProcessingUntilSeparator | src/main/java/berlin/tu/cyclinginfrastructurebackend/service/SimRaFileParser.java:53-71 | The parser is in the incident section exactly when no separator row has been read. The switch never reverses. |
| ParserProperties.IncidentHeaderFoundIff | src/main/java/berlin/tu/cyclinginfrastructurebackend/service/SimRaFileParser.java:78-85 | The incident header counts as found exactly when some `key` row came before every separator. |
| ParserProperties.PointHeaderFoundIff | src/main/java/berlin/tu/cyclinginfrastructurebackend/service/SimRaFileParser.java:90-97 | The point header counts as found exactly when a `lat,lon` row came after some separator. |
| ParserProperties.IncidentDataRowIff | src/main/java/berlin/tu/cyclinginfrastructurebackend/service/SimRaFileParser.java:78-88 | A row is parsed as an incident exactly when it is a content row, a `key` row precedes it, and no separator precedes it. |
| ParserProperties.PointDataRowIff | src/main/java/berlin/tu/cyclinginfrastructurebackend/service/SimRaFileParser.java:90-104 | A row is parsed as a point exactly when it is a content row preceded by a separator and, after that, by a `lat,lon` row. |
| MatchPoints.Matchable | src/main/java/berlin/tu/cyclinginfrastructurebackend/service/GraphHopperMapMatchingService.java:157-170 | A point survives the filters exactly when it has a location and a timestamp, its latitude and longitude are in range, and neither coordinate is 0. |
| MatchPoints.Insert | src/main/java/berlin/tu/cyclinginfrastructurebackend/service/GraphHopperMapMatchingService.java:160 | Inserting into a sorted list keeps it sorted by timestamp and adds exactly that point. |
| MatchPoints.SortByTimestamp | src/main/java/berlin/tu/cyclinginfrastructurebackend/service/GraphHopperMapMatchingService.java:160 | The sort is ordered by timestamp and a permutation of its input. |
| MatchPoints.InsertWithKey | src/main/java/berlin/tu/cyclinginfrastructurebackend/service/GraphHopperMapMatchingService.java:160 | An insertion puts the new point in front of every point with the same timestamp. |
| MatchPoints.SortIsStable | src/main/java/berlin/tu/cyclinginfrastructurebackend/service/GraphHopperMapMatchingService.java:160 | Points with equal timestamps keep their input order. |
| MatchPoints.FilterAndSortPoints | src/main/java/berlin/tu/cyclinginfrastructurebackend/service/GraphHopperMapMatchingService.java:156-162 | The result is sorted by timestamp and holds exactly the matchable points, each as often as in the ride. |
| MatchPoints.FilterAndSortIsStable | src/main/java/berlin/tu/cyclinginfrastructurebackend/service/GraphHopperMapMatchingService.java:156-162 | Equal timestamps keep ride order. The sequence index plays no part. |
| MatchTrajectory.Dedup | src/main/java/berlin/tu/cyclinginfrastructurebackend/service/GraphHopperMapMatchingService.java:197-203 | The output has no two equal neighbours and is empty only for empty input. It keeps the last coordinate and is never longer than the input. |
| MatchTrajectory.DedupIsSubsequence | src/main/java/berlin/tu/cyclinginfrastructurebackend/service/GraphHopperMapMatchingService.java:197-203 | The output is a subsequence of the input. |
| MatchTrajectory.DedupKeepsFirst | src/main/java/berlin/tu/cyclinginfrastructurebackend/service/GraphHopperMapMatchingService.java:197-203 | The first coordinate survives. |
| MatchTrajectory.DedupIdentity | src/main/java/berlin/tu/cyclinginfrastructurebackend/service/GraphHopperMapMatchingService.java:197-203 | Input without equal neighbours passes through unchanged. |
| MatchTrajectory.DedupIdempotent | src/main/java/berlin/tu/cyclinginfrastructurebackend/service/GraphHopperMapMatchingService.java:197-203 | Deduplicating twice equals deduplicating once. |
| MatchTrajectory.DedupKeepsOnePerRun | src/main/java/berlin/tu/cyclinginfrastructurebackend/service/GraphHopperMapMatchingService.java:197-203 | Exactly one coordinate survives per run of equal neighbours: the length is one plus the number of positions that differ from their predecessor, so a repeat that is not adjacent is kept. With the subsequence and no-equal-neighbours facts this fixes the result. |
| MatchTrajectory.CollectCoordinates | src/main/java/berlin/tu/cyclinginfrastructurebackend/service/GraphHopperMapMatchingService.java:187-195 | The nested loops produce every edge's geometry end to end, in match order. |
| MatchTrajectory.RemoveConsecutiveDuplicates | src/main/java/berlin/tu/cyclinginfrastructurebackend/service/GraphHopperMapMatchingService.java:197-203 | The loop computes `Dedup` of its input. |
| MatchTrajectory.SetSnappedTrajectory | src/main/java/berlin/tu/cyclinginfrastructurebackend/service/GraphHopperMapMatchingService.java:186-210 | The trajectory is overwritten only by a deduplicated line of at least two coordinates with no equal neighbours. Otherwise it stays. |
| MatchNearestName.SearchBox | src/main/java/berlin/tu/cyclinginfrastructurebackend/service/GraphHopperMapMatchingService.java:269-275 | The box strictly contains its centre and is 0.0004 degrees wide in both directions. |
| MatchNearestName.MinSegmentLength | src/main/java/berlin/tu/cyclinginfrastructurebackend/service/GraphHopperMapMatchingService.java:292-300 | A candidate has no score (the `Double.MAX_VALUE` start value) exactly when it has fewer than two vertices. |
| MatchNearestName.MinSegmentLengthIsMinimum | src/main/java/berlin/tu/cyclinginfrastructurebackend/service/GraphHopperMapMatchingService.java:292-300 | The score is the length of one consecutive vertex pair, and no pair is shorter. |
| MatchNearestName.ShortestSegment | src/main/java/berlin/tu/cyclinginfrastructurebackend/service/GraphHopperMapMatchingService.java:291-300 | The running-minimum loop computes `MinSegmentLength`. |
| MatchNearestName.BestIndex | src/main/java/berlin/tu/cyclinginfrastructurebackend/service/GraphHopperMapMatchingService.java:281-306 | A winner is a reported id that is another edge, present, non-blank in name and has at least two vertices. |
| MatchNearestName.BestIndexIsFirstMinimum | src/main/java/berlin/tu/cyclinginfrastructurebackend/service/GraphHopperMapMatchingService.java:281-306 | There is no winner exactly when no reported id is eligible. Otherwise the winner's score is minimal, and every earlier eligible id scores strictly more, so the first minimum wins ties. |
| MatchNearestName.NearestStreetName | src/main/java/berlin/tu/cyclinginfrastructurebackend/service/GraphHopperMapMatchingService.java:264-308 | A found name is never blank. |
| MatchNearestName.NearestStreetNameIsArgmin | src/main/java/berlin/tu/cyclinginfrastructurebackend/service/GraphHopperMapMatchingService.java:264-308 | An empty geometry gives null. Otherwise the search centres on vertex `size/2`, gives null exactly when no eligible edge is reported, and returns the name of the first eligible edge of minimal score. |
| MatchNearestName.FindNearestStreetName | src/main/java/berlin/tu/cyclinginfrastructurebackend/service/GraphHopperMapMatchingService.java:264-309 | The callback loop, with its skips and its strict `<` replacement, computes `NearestStreetName`. |
| MapMatching.SegmentName | src/main/java/berlin/tu/cyclinginfrastructurebackend/service/GraphHopperMapMatchingService.java:243-247 | A new segment takes the edge's name if non-blank, else the nearest street's if non-blank, else `"Unknown"`. The name is never blank. |
| MapMatching.UpsertChangesOnlyItsKey | src/main/java/berlin/tu/cyclinginfrastructurebackend/service/GraphHopperMapMatchingService.java:234-261 | One upsert touches only its edge's key. An existing record gains exactly one use and keeps name, geometry and avoidance count. A new one starts at usage 1. The table stays keyed by id. |
| MapMatching.UpdateSegmentUsage | src/main/java/berlin/tu/cyclinginfrastructurebackend/service/GraphHopperMapMatchingService.java:234-262 | The read, the create-or-keep, the increment and the write produce the table given by `Upsert`. |
| MapMatching.EdgeIds | src/main/java/berlin/tu/cyclinginfrastructurebackend/service/GraphHopperMapMatchingService.java:217-228 | The edge list has one id per edge match, in match order, repeats kept. |
| MapMatching.ApplyEdgesCountsUses | src/main/java/berlin/tu/cyclinginfrastructurebackend/service/GraphHopperMapMatchingService.java:216-261 | An id is stored afterwards exactly when it was stored before or was matched. A stored record gains one use per occurrence. A new record takes name and geometry from the first match with its id, and its usage equals its number of occurrences. |
| MapMatching.ApplyEdgesKeepsKeyed | src/main/java/berlin/tu/cyclinginfrastructurebackend/service/GraphHopperMapMatchingService.java:234-261 | Any sequence of upserts keeps every record under its own id. |
| MapMatching.ProcessMatchedEdges | src/main/java/berlin/tu/cyclinginfrastructurebackend/service/GraphHopperMapMatchingService.java:216-229 | The ride gets the edge-id list, and the table gets one upsert per edge match, in order. |
| MapMatching.Observations | src/main/java/berlin/tu/cyclinginfrastructurebackend/service/GraphHopperMapMatchingService.java:119-125 | There is one observation per valid point, with latitude from `y` and longitude from `x`. |
| MapMatching.ToObservations | src/main/java/berlin/tu/cyclinginfrastructurebackend/service/GraphHopperMapMatchingService.java:119-125 | The conversion loop computes `Observations`. |
| MapMatching.ValidPoints | src/main/java/berlin/tu/cyclinginfrastructurebackend/service/GraphHopperMapMatchingService.java:105 | Every point handed to the matcher has a location. |
| MapMatching.MapMatch | src/main/java/berlin/tu/cyclinginfrastructurebackend/service/GraphHopperMapMatchingService.java:104-150 | With fewer than two valid points, or a failed match, ride and table are untouched. Otherwise they get the snapped trajectory, the edge list and the upserts. |
| SimRaDataLoader.SelectFiles | src/main/java/berlin/tu/cyclinginfrastructurebackend/service/SimRaDataLoader.java:58-64 | A walked file is selected exactly when all of these hold: it is regular; its name is not hidden; its path contains `Rides`; its name starts with `VM`; its name is not stored. |
| SimRaDataLoader.NothingSelectedWhenAllStored | src/main/java/berlin/tu/cyclinginfrastructurebackend/service/SimRaDataLoader.java:54-63 | When every walked name is stored, nothing is selected. |
| SimRaDataLoader.RideRepository.OriginalFilenames | src/main/java/berlin/tu/cyclinginfrastructurebackend/repository/RideRepository.java:15-16 | A name is among the stored file names exactly when a stored ride carries it. |
| SimRaDataLoader.RideRepository.Save | src/main/java/berlin/tu/cyclinginfrastructurebackend/service/SimRaDataLoader.java:110 | A save the database accepts appends exactly that ride's file name and reports success. A refused save reports failure and leaves the table unchanged. |
| SimRaDataLoader.ProcessFile | src/main/java/berlin/tu/cyclinginfrastructurebackend/service/SimRaDataLoader.java:99-115 | It fails exactly when the file cannot be read, or its ride has points and the save is refused. A ride with points whose save is accepted is saved exactly once. A ride with no points is never saved, and neither is a refused one. |
| SimRaDataLoader.ProgressMarksAreMultiples | src/main/java/berlin/tu/cyclinginfrastructurebackend/service/SimRaDataLoader.java:81-84 | Progress is logged exactly at the positive multiples of 500 up to the count, in order. |
| SimRaDataLoader.ReportAfterCounts | src/main/java/berlin/tu/cyclinginfrastructurebackend/service/SimRaDataLoader.java:78-88 | The counter counts the files processed without an exception, the 0-point skips included. Progress marks are its multiples of 500. Failures list, in order, the files that cannot be read and those whose save is refused. |
| SimRaDataLoader.EveryFileAttempted | src/main/java/berlin/tu/cyclinginfrastructurebackend/service/SimRaDataLoader.java:78-88 | Every selected file is either counted or listed as failed, so one failure stops nothing. |
| SimRaDataLoader.StoredNamesHavePoints | src/main/java/berlin/tu/cyclinginfrastructurebackend/service/SimRaDataLoader.java:99-110 | A name is stored exactly when it belongs to a processed, readable file whose ride has points and whose save is accepted. |
| SimRaDataLoader.NothingStoredWithoutPoints | src/main/java/berlin/tu/cyclinginfrastructurebackend/service/SimRaDataLoader.java:104-107 | Files none of which yields a ride with points that the database accepts store nothing: a 0-point ride and a refused save both leave the table as it was. |
| SimRaDataLoader.ImportFile | src/main/java/berlin/tu/cyclinginfrastructurebackend/service/SimRaDataLoader.java:79-87 | One file is processed, then counted (logging at multiples of 500) or listed as failed, as `Tally` says. |
| SimRaDataLoader.Run | src/main/java/berlin/tu/cyclinginfrastructurebackend/service/SimRaDataLoader.java:45-97 | Without the data directory, or when the walk fails, nothing is processed. Otherwise the selected files are processed in order: the report is `ReportAfter` of them and the stored names are `StoredNames` of them. |
| SimRaDataLoader.NoFailuresMeansAllComplete | src/main/java/berlin/tu/cyclinginfrastructurebackend/service/SimRaDataLoader.java:78-88 | An empty failure list means every processed file was read and, if its ride had points, saved. |
| SimRaDataLoader.SecondRunSkipsStoredNames | src/main/java/berlin/tu/cyclinginfrastructurebackend/service/SimRaDataLoader.java:54-63 | No file whose name the first run stored is selected by the next run. |
| SimRaDataLoader.FailedFilesAreRetried | src/main/java/berlin/tu/cyclinginfrastructurebackend/service/SimRaDataLoader.java:54-63 | A file that failed in the first run, and whose name no stored ride carries, is selected again by the next run, which is how a failed import is retried. |
| SimRaDataLoader.SecondRunStoresNothing | src/main/java/berlin/tu/cyclinginfrastructurebackend/service/SimRaDataLoader.java:54-63 | After a first run in which no file failed, a second run over the same files and contents stores nothing, whether or not the database would now refuse a save. |

## Left out

- Reading files, walking the directory (`Files.walk`) and logging. The walk is a given list, or `None` when it throws. Only an `IOException` from opening the walk is caught and logged by `run`; an error during the traversal surfaces from `collect` as an `UncheckedIOException`, which escapes `run`. The model folds both into `walk == None`: nothing is processed in either case. The file contents are a given function from path to rows, or `None` when opening or reading fails. Only the progress log is modelled, as the list of counter values at which it fires.
- OpenCSV tokenisation and `CsvValidationException`. Rows arrive already split. A file that cannot be tokenised counts as an unreadable file.
- `Double.parseDouble` is a given partial function into `real`. NaN, infinities, signed zero and rounding are not modelled.
- The routing engine. This covers `init`, `shutdown`, the bike profile, `MapMatching.match`, the thread-local matcher cache, `LocationIndex.query`, `fetchWayGeometry` and `DistanceCalcEarth`. Each is a given function.
- A failed match is modelled as a failure before any change. An exception thrown part-way through `setSnappedTrajectory` or `processMatchedEdges` is not modelled. This includes a persistence failure.
- `MatchNearestName.MinSegmentLength`: the `Double.MAX_VALUE` start value is `None`. A candidate whose real shortest segment is `Double.MAX_VALUE` or longer is not modelled.
- JTS geometry construction, SRID 4326 and precision models. Points and line strings are coordinate pairs and coordinate sequences, and coordinate equality is `equals2D`.
- Concurrency: the `ForkJoinPool`, `parallelStream`, `AtomicInteger`, `synchronized` and `ThreadLocal`. The import runs the files one after another in list order. The upsert is one sequential read-modify-write.
- JPA persistence: rides, points and incidents as stored rows, cascades, and generated ride ids. The ride table is the list of stored original file names, and `findAllOriginalFilenames` drops nulls. The segment table is a map from edge id to record.
- `Segments.StreetSegment.IncrementUsage` does not model 32-bit wrap-around of `usageCount`. Counts are unbounded integers. The parser's `int` sequence counter is unbounded in the same way.
- `Text.ParseInt` and `Text.ParseLong` accept ASCII digits only. The Java parsers also accept other Unicode decimal digits.
- The ride identifier of `mapMatch` (`src/main/java/berlin/tu/cyclinginfrastructurebackend/service/GraphHopperMapMatchingService.java:107-109`) is used only in log messages, and is not modelled. It is computed before the two-point guard, so a ride with neither an original file name nor an id makes `mapMatch` throw a `NullPointerException` before any change. That path is left out: the model's `MapMatch` always proceeds to the guard.
- The application bootstrap class is not part of this model.
- Whether the database refuses `rideRepository.save` for a file's ride is a given predicate per file. The schema constraints behind a refusal, such as the 1000-character incident description column, are not modelled.
- `Ride.java` declares no `traversedEdgeIds` field, although the service sets one. The model's `Ride` has it as an optional list of edge ids. `trajectory` is one field: parsing writes the raw polyline there, and matching overwrites it.

## Code and its own comments

In two places a comment in the source describes something other than what
the code next to it does. The model follows the code in both:

- At `src/main/java/berlin/tu/cyclinginfrastructurebackend/service/GraphHopperMapMatchingService.java:290` the comment speaks of the distance from the source edge's midpoint to the candidate geometry. The loop that follows (lines 291-300) scores a candidate by the shortest distance between its own consecutive vertices, and never uses the midpoint.
- At `src/main/java/berlin/tu/cyclinginfrastructurebackend/domain/RidePoint.java:43` the comment says the sequence index keeps the order of points with equal timestamps. The sort in `filterAndSortPoints` (`src/main/java/berlin/tu/cyclinginfrastructurebackend/service/GraphHopperMapMatchingService.java:160`) compares timestamps only. Ties keep list order because the stream sort is stable, and the index is never consulted.

One further behaviour of the code is kept as written: every point data row
consumes a sequence number (`src/main/java/berlin/tu/cyclinginfrastructurebackend/service/SimRaFileParser.java:100`), including
rows whose point is then dropped. Accepted points therefore have strictly
increasing, but not always consecutive, indices.
