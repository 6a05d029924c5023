/**
 * The four closed code tables of the SimRa format. Each enum constant carries
 * an integer wire code; `fromCode` searches the constants in declaration
 * order for the first one with the given code and falls back to a fixed
 * default, so decoding never fails.
 */
module Enums {
  import opened Wrappers

  /** `Arrays.stream(values).filter(t -> code(t) == c).findFirst()`. */
  function FindFirst<T(==)>(values: seq<T>, code: T -> int, c: int): (r: Option<T>)
    ensures r.None? <==> forall i :: 0 <= i < |values| ==> code(values[i]) != c
    ensures r.Some? ==> exists i :: 0 <= i < |values| && values[i] == r.value && code(values[i]) == c
                                    && forall j :: 0 <= j < i ==> code(values[j]) != c
    decreases |values|
  {
    if |values| == 0 then None
    else if code(values[0]) == c then Some(values[0])
    else
      var r := FindFirst(values[1..], code, c);
      assert forall j :: 1 <= j < |values| ==> values[j] == values[1..][j - 1];
      r
  }

  /** A constant whose code no other constant shares is the one found for that code. */
  lemma FindFirstFindsUniqueCode<T>(values: seq<T>, code: T -> int, t: T)
    requires t in values
    requires forall x :: x in values && x != t ==> code(x) != code(t)
    ensures FindFirst(values, code, code(t)) == Some(t)
  {
  }

  // ---------------------------------------------------------------- BikeType

  datatype BikeType =
    | NotChosen | CityTrekkingBike | RoadRacingBike | EBike | RecumbentBicycle
    | FreightBicycle | TandemBicycle | MountainBike | Other
  {
    function Code(): (c: int)
      ensures 0 <= c <= 8
    {
      match this
      case NotChosen => 0
      case CityTrekkingBike => 1
      case RoadRacingBike => 2
      case EBike => 3
      case RecumbentBicycle => 4
      case FreightBicycle => 5
      case TandemBicycle => 6
      case MountainBike => 7
      case Other => 8
    }
  }

  /** `BikeType.values()`, in declaration order. */
  const BikeTypeValues: seq<BikeType> := [
    BikeType.NotChosen, BikeType.CityTrekkingBike, BikeType.RoadRacingBike, BikeType.EBike,
    BikeType.RecumbentBicycle, BikeType.FreightBicycle, BikeType.TandemBicycle,
    BikeType.MountainBike, BikeType.Other]

  /** The code getter as a value, for the search. */
  function BikeCode(t: BikeType): int {
    t.Code()
  }

  /** `BikeType.fromCode`: the constant declared with `code`, `NOT_CHOSEN` for any other code. */
  function BikeTypeFromCode(code: int): (t: BikeType)
    ensures t.Code() == code || t == BikeType.NotChosen
    ensures !(0 <= code <= 8) ==> t == BikeType.NotChosen
  {
    FindFirst(BikeTypeValues, BikeCode, code).GetOr(BikeType.NotChosen)
  }

  /** Decoding the code of a constant gives that constant back. */
  lemma BikeTypeRoundTrip(t: BikeType)
    ensures BikeTypeFromCode(t.Code()) == t
  {
    FindFirstFindsUniqueCode(BikeTypeValues, BikeCode, t);
  }
  /** Exactly the codes 0 to 8 decode to the constant declared with them. */
  lemma BikeTypeDecodesDeclaredCodes(code: int)
    ensures BikeTypeFromCode(code).Code() == code <==> 0 <= code <= 8
  {
    match code
    case 0 => BikeTypeRoundTrip(BikeType.NotChosen);
    case 1 => BikeTypeRoundTrip(BikeType.CityTrekkingBike);
    case 2 => BikeTypeRoundTrip(BikeType.RoadRacingBike);
    case 3 => BikeTypeRoundTrip(BikeType.EBike);
    case 4 => BikeTypeRoundTrip(BikeType.RecumbentBicycle);
    case 5 => BikeTypeRoundTrip(BikeType.FreightBicycle);
    case 6 => BikeTypeRoundTrip(BikeType.TandemBicycle);
    case 7 => BikeTypeRoundTrip(BikeType.MountainBike);
    case 8 => BikeTypeRoundTrip(BikeType.Other);
    case _ =>
  }


  /** The default is the constant of code 0, so an unknown code decodes exactly like 0. */
  lemma BikeTypeDefaultIsCodeZero(code: int)
    requires !(0 <= code <= 8)
    ensures BikeTypeFromCode(code) == BikeTypeFromCode(0) == BikeType.NotChosen
  {
  }

  // ------------------------------------------------------------ IncidentType

  datatype IncidentType =
    | Nothing | ClosePass | PullingInOut | NearHook | HeadOn
    | Tailgating | NearDooring | Dodging | Other | Dummy
  {
    function Code(): (c: int)
      ensures IsIncidentCode(c)
    {
      match this
      case Nothing => 0
      case ClosePass => 1
      case PullingInOut => 2
      case NearHook => 3
      case HeadOn => 4
      case Tailgating => 5
      case NearDooring => 6
      case Dodging => 7
      case Other => 8
      case Dummy => -5
    }
  }

  /** The code of the placeholder incident that carries no report. */
  const DummyIncidentCode: int := -5

  const IncidentTypeValues: seq<IncidentType> := [
    IncidentType.Nothing, IncidentType.ClosePass, IncidentType.PullingInOut, IncidentType.NearHook,
    IncidentType.HeadOn, IncidentType.Tailgating, IncidentType.NearDooring, IncidentType.Dodging,
    IncidentType.Other, IncidentType.Dummy]

  /** The code getter as a value, for the search. */
  function IncidentCode(t: IncidentType): int {
    t.Code()
  }

  predicate IsIncidentCode(code: int) {
    0 <= code <= 8 || code == DummyIncidentCode
  }

  /** `IncidentType.fromCode`: the constant declared with `code`, `NOTHING` for any other code. */
  function IncidentTypeFromCode(code: int): (t: IncidentType)
    ensures t.Code() == code || t == IncidentType.Nothing
    ensures !IsIncidentCode(code) ==> t == IncidentType.Nothing
  {
    FindFirst(IncidentTypeValues, IncidentCode, code).GetOr(IncidentType.Nothing)
  }

  lemma IncidentTypeRoundTrip(t: IncidentType)
    ensures IncidentTypeFromCode(t.Code()) == t
  {
    FindFirstFindsUniqueCode(IncidentTypeValues, IncidentCode, t);
  }
  /** Exactly the codes 0 to 8 and -5 decode to the constant declared with them. */
  lemma IncidentTypeDecodesDeclaredCodes(code: int)
    ensures IncidentTypeFromCode(code).Code() == code <==> IsIncidentCode(code)
  {
    match code
    case 0 => IncidentTypeRoundTrip(IncidentType.Nothing);
    case 1 => IncidentTypeRoundTrip(IncidentType.ClosePass);
    case 2 => IncidentTypeRoundTrip(IncidentType.PullingInOut);
    case 3 => IncidentTypeRoundTrip(IncidentType.NearHook);
    case 4 => IncidentTypeRoundTrip(IncidentType.HeadOn);
    case 5 => IncidentTypeRoundTrip(IncidentType.Tailgating);
    case 6 => IncidentTypeRoundTrip(IncidentType.NearDooring);
    case 7 => IncidentTypeRoundTrip(IncidentType.Dodging);
    case 8 => IncidentTypeRoundTrip(IncidentType.Other);
    case -5 => IncidentTypeRoundTrip(IncidentType.Dummy);
    case _ =>
  }


  /** Only the reserved code decodes to the placeholder. */
  lemma IncidentTypeDummyOnlyFromItsCode(code: int)
    ensures IncidentTypeFromCode(code) == IncidentType.Dummy <==> code == DummyIncidentCode
  {
    IncidentTypeRoundTrip(IncidentType.Dummy);
  }

  // --------------------------------------------------------- ParticipantType

  datatype ParticipantType =
    | Bus | Cyclist | Pedestrian | DeliveryVan | Truck
    | Motorcycle | Car | Taxi | Other | Scooter
  {
    function Code(): (c: int)
      ensures 1 <= c <= 10
    {
      match this
      case Bus => 1
      case Cyclist => 2
      case Pedestrian => 3
      case DeliveryVan => 4
      case Truck => 5
      case Motorcycle => 6
      case Car => 7
      case Taxi => 8
      case Other => 9
      case Scooter => 10
    }
  }

  const ParticipantTypeValues: seq<ParticipantType> := [
    ParticipantType.Bus, ParticipantType.Cyclist, ParticipantType.Pedestrian,
    ParticipantType.DeliveryVan, ParticipantType.Truck, ParticipantType.Motorcycle,
    ParticipantType.Car, ParticipantType.Taxi, ParticipantType.Other, ParticipantType.Scooter]

  /** The code getter as a value, for the search. */
  function ParticipantCode(t: ParticipantType): int {
    t.Code()
  }

  /** `ParticipantType.fromCode`: the constant declared with `code`, `OTHER` for any other code (0 included). */
  function ParticipantTypeFromCode(code: int): (t: ParticipantType)
    ensures t.Code() == code || t == ParticipantType.Other
    ensures !(1 <= code <= 10) ==> t == ParticipantType.Other
  {
    FindFirst(ParticipantTypeValues, ParticipantCode, code).GetOr(ParticipantType.Other)
  }

  lemma ParticipantTypeRoundTrip(t: ParticipantType)
    ensures ParticipantTypeFromCode(t.Code()) == t
  {
    FindFirstFindsUniqueCode(ParticipantTypeValues, ParticipantCode, t);
  }
  /** Exactly the codes 1 to 10 decode to the constant declared with them. */
  lemma ParticipantTypeDecodesDeclaredCodes(code: int)
    ensures ParticipantTypeFromCode(code).Code() == code <==> 1 <= code <= 10
  {
    match code
    case 1 => ParticipantTypeRoundTrip(ParticipantType.Bus);
    case 2 => ParticipantTypeRoundTrip(ParticipantType.Cyclist);
    case 3 => ParticipantTypeRoundTrip(ParticipantType.Pedestrian);
    case 4 => ParticipantTypeRoundTrip(ParticipantType.DeliveryVan);
    case 5 => ParticipantTypeRoundTrip(ParticipantType.Truck);
    case 6 => ParticipantTypeRoundTrip(ParticipantType.Motorcycle);
    case 7 => ParticipantTypeRoundTrip(ParticipantType.Car);
    case 8 => ParticipantTypeRoundTrip(ParticipantType.Taxi);
    case 9 => ParticipantTypeRoundTrip(ParticipantType.Other);
    case 10 => ParticipantTypeRoundTrip(ParticipantType.Scooter);
    case _ =>
  }


  /** The default is the constant of code 9, so an unknown code decodes exactly like 9. */
  lemma ParticipantTypeDefaultIsCodeNine(code: int)
    requires !(1 <= code <= 10)
    ensures ParticipantTypeFromCode(code) == ParticipantTypeFromCode(9) == ParticipantType.Other
  {
  }

  // ----------------------------------------------------------- PhoneLocation

  datatype PhoneLocation =
    | Pocket | Handlebar | JacketPocket | Hand | Basket | Bag | Other
  {
    function Code(): (c: int)
      ensures 0 <= c <= 6
    {
      match this
      case Pocket => 0
      case Handlebar => 1
      case JacketPocket => 2
      case Hand => 3
      case Basket => 4
      case Bag => 5
      case Other => 6
    }
  }

  const PhoneLocationValues: seq<PhoneLocation> := [
    PhoneLocation.Pocket, PhoneLocation.Handlebar, PhoneLocation.JacketPocket,
    PhoneLocation.Hand, PhoneLocation.Basket, PhoneLocation.Bag, PhoneLocation.Other]

  /** The code getter as a value, for the search. */
  function PhoneLocationCode(t: PhoneLocation): int {
    t.Code()
  }

  /** `PhoneLocation.fromCode`: the constant declared with `code`, `OTHER` for any other code. */
  function PhoneLocationFromCode(code: int): (t: PhoneLocation)
    ensures t.Code() == code || t == PhoneLocation.Other
    ensures !(0 <= code <= 6) ==> t == PhoneLocation.Other
  {
    FindFirst(PhoneLocationValues, PhoneLocationCode, code).GetOr(PhoneLocation.Other)
  }

  lemma PhoneLocationRoundTrip(t: PhoneLocation)
    ensures PhoneLocationFromCode(t.Code()) == t
  {
    FindFirstFindsUniqueCode(PhoneLocationValues, PhoneLocationCode, t);
  }
  /** Exactly the codes 0 to 6 decode to the constant declared with them. */
  lemma PhoneLocationDecodesDeclaredCodes(code: int)
    ensures PhoneLocationFromCode(code).Code() == code <==> 0 <= code <= 6
  {
    match code
    case 0 => PhoneLocationRoundTrip(PhoneLocation.Pocket);
    case 1 => PhoneLocationRoundTrip(PhoneLocation.Handlebar);
    case 2 => PhoneLocationRoundTrip(PhoneLocation.JacketPocket);
    case 3 => PhoneLocationRoundTrip(PhoneLocation.Hand);
    case 4 => PhoneLocationRoundTrip(PhoneLocation.Basket);
    case 5 => PhoneLocationRoundTrip(PhoneLocation.Bag);
    case 6 => PhoneLocationRoundTrip(PhoneLocation.Other);
    case _ =>
  }


  /** The default is the constant of code 6, so an unknown code decodes exactly like 6. */
  lemma PhoneLocationDefaultIsCodeSix(code: int)
    requires !(0 <= code <= 6)
    ensures PhoneLocationFromCode(code) == PhoneLocationFromCode(6) == PhoneLocation.Other
  {
  }
}
