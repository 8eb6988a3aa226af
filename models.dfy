/** The domain entities of citybike/models.py and their validation rules.

    Python's class inheritance is modelled by composition: an object of a
    subclass holds its base-class part in the constant field `base`. Each
    class has a static `Create` method that does what the Python `__init__`
    does: it runs the checks in the order of the source and returns either the
    new object or the exception the source raises. The Dafny constructor runs
    only once those checks have passed, so every object satisfies `Valid()`.
    Validating property setters return `Fail` and leave the field as it was
    when they reject a value, because the source raises before it assigns.

    Datetimes are integer timestamps, floats are reals, and `datetime.now()`
    is the parameter `now`. */
module Models {
  import opened Common

  /** The exceptions raised by the models: every case is a `ValueError` of
      the source except `NoSetter`, the `AttributeError` raised by assigning
      to a property that has no setter. */
  datatype Error =
    | InvalidId
    | InvalidBikeType(bikeType: string)
    | InvalidStatus(status: string)
    | NonPositiveGearCount
    | BatteryOutOfRange
    | NonPositiveRange
    | NonPositiveCapacity
    | LatitudeOutOfRange
    | LongitudeOutOfRange
    | InvalidEmail
    | NegativeDayPassCount
    | MembershipNotAfterStart
    | InvalidTier(tier: string)
    | EndBeforeStart
    | NegativeDistance
    | InvalidMaintenanceType(maintenanceType: string)
    | NegativeCost
    | NoSetter(attribute: string)

  const ValidStatuses: set<string> := {"available", "in_use", "maintenance"}
  const BikeTypes: set<string> := {"classic", "electric"}
  const Tiers: set<string> := {"basic", "premium"}
  const MaintenanceTypes: set<string> :=
    {"tire_repair", "brake_adjustment", "battery_replacement", "chain_lubrication", "general_inspection"}

  /** Default argument values of the constructors. */
  const DefaultStatus: string := "available"
  const DefaultGearCount: int := 7
  const DefaultBatteryLevel: real := 100.0
  const DefaultMaxRangeKm: real := 50.0
  const DefaultTier: string := "basic"

  /** The `Entity` rule: an id is a non-empty string. */
  predicate ValidId(id: string) {
    id != ""
  }

  predicate ValidEmail(email: string) {
    '@' in email
  }

  // ---------------------------------------------------------------------------
  // Entity
  // ---------------------------------------------------------------------------

  /** The abstract base of bikes, stations and users. */
  class Entity {
    const id: string
    const createdAt: int

    ghost predicate Valid() {
      ValidId(id)
    }

    constructor (id: string, createdAt: int)
      requires ValidId(id)
      ensures Valid() && this.id == id && this.createdAt == createdAt
    {
      this.id := id;
      this.createdAt := createdAt;
    }

    /** `Entity.__init__`: reject an empty id; a missing creation time is the
        current time. */
    static method Create(id: string, createdAt: Option<int>, now: int) returns (r: Result<Entity, Error>)
      ensures r.Success? <==> ValidId(id)
      ensures !ValidId(id) ==> r == Failure(InvalidId)
      ensures r.Success? ==> fresh(r.value) && r.value.Valid()
      ensures r.Success? ==> r.value.id == id && r.value.createdAt == createdAt.GetOr(now)
    {
      if !ValidId(id) {
        return Failure(InvalidId);
      }
      var e := new Entity(id, createdAt.GetOr(now));
      return Success(e);
    }
  }

  // ---------------------------------------------------------------------------
  // Bikes
  // ---------------------------------------------------------------------------

  class Bike {
    const base: Entity
    const bikeType: string
    var status: string

    ghost predicate Valid()
      reads this
    {
      base.Valid() && bikeType in BikeTypes && status in ValidStatuses
    }

    constructor (base: Entity, bikeType: string, status: string)
      requires base.Valid() && bikeType in BikeTypes && status in ValidStatuses
      ensures Valid() && this.base == base && this.bikeType == bikeType && this.status == status
    {
      this.base := base;
      this.bikeType := bikeType;
      this.status := status;
    }

    /** `Bike.__init__`: the id, then the bike type, then the status. */
    static method Create(bikeId: string, bikeType: string, status: string, now: int) returns (r: Result<Bike, Error>)
      ensures r.Success? <==> ValidId(bikeId) && bikeType in BikeTypes && status in ValidStatuses
      ensures !ValidId(bikeId) ==> r == Failure(InvalidId)
      ensures ValidId(bikeId) && bikeType !in BikeTypes ==> r == Failure(InvalidBikeType(bikeType))
      ensures ValidId(bikeId) && bikeType in BikeTypes && status !in ValidStatuses ==>
                r == Failure(InvalidStatus(status))
      ensures r.Success? ==> fresh(r.value) && fresh(r.value.base) && r.value.Valid()
      ensures r.Success? ==> r.value.base.id == bikeId && r.value.base.createdAt == now
      ensures r.Success? ==> r.value.bikeType == bikeType && r.value.status == status
    {
      var e := Entity.Create(bikeId, None, now);
      if e.Failure? {
        return Failure(e.error);
      }
      if bikeType !in BikeTypes {
        return Failure(InvalidBikeType(bikeType));
      }
      if status !in ValidStatuses {
        return Failure(InvalidStatus(status));
      }
      var b := new Bike(e.value, bikeType, status);
      return Success(b);
    }

    /** The `status` setter. */
    method SetStatus(value: string) returns (o: Outcome<Error>)
      requires Valid()
      modifies this
      ensures Valid()
      ensures o == if value in ValidStatuses then Pass else Fail(InvalidStatus(value))
      ensures status == if o.Pass? then value else old(status)
    {
      if value !in ValidStatuses {
        return Fail(InvalidStatus(value));
      }
      status := value;
      return Pass;
    }
  }

  class ClassicBike {
    const base: Bike
    const gearCount: int

    ghost predicate Valid()
      reads this, base
    {
      base.Valid() && base.bikeType == "classic" && gearCount > 0
    }

    constructor (base: Bike, gearCount: int)
      requires base.Valid() && base.bikeType == "classic" && gearCount > 0
      ensures Valid() && this.base == base && this.gearCount == gearCount
    {
      this.base := base;
      this.gearCount := gearCount;
    }

    /** `ClassicBike.__init__`: the bike checks with type "classic", then the
        gear count. */
    static method Create(bikeId: string, gearCount: int, status: string, now: int) returns (r: Result<ClassicBike, Error>)
      ensures r.Success? <==> ValidId(bikeId) && status in ValidStatuses && gearCount > 0
      ensures !ValidId(bikeId) ==> r == Failure(InvalidId)
      ensures ValidId(bikeId) && status !in ValidStatuses ==> r == Failure(InvalidStatus(status))
      ensures ValidId(bikeId) && status in ValidStatuses && gearCount <= 0 ==> r == Failure(NonPositiveGearCount)
      ensures r.Success? ==> fresh(r.value) && fresh(r.value.base) && r.value.Valid()
      ensures r.Success? ==> r.value.base.base.id == bikeId && r.value.base.status == status
      ensures r.Success? ==> r.value.gearCount == gearCount
    {
      var b := Bike.Create(bikeId, "classic", status, now);
      if b.Failure? {
        return Failure(b.error);
      }
      if gearCount <= 0 {
        return Failure(NonPositiveGearCount);
      }
      var c := new ClassicBike(b.value, gearCount);
      return Success(c);
    }
  }

  class ElectricBike {
    const base: Bike
    var batteryLevel: real
    var maxRangeKm: real

    ghost predicate Valid()
      reads this, base
    {
      base.Valid() && base.bikeType == "electric" &&
      0.0 <= batteryLevel <= 100.0 && maxRangeKm > 0.0
    }

    constructor (base: Bike, batteryLevel: real, maxRangeKm: real)
      requires base.Valid() && base.bikeType == "electric"
      requires 0.0 <= batteryLevel <= 100.0 && maxRangeKm > 0.0
      ensures Valid() && this.base == base
      ensures this.batteryLevel == batteryLevel && this.maxRangeKm == maxRangeKm
    {
      this.base := base;
      this.batteryLevel := batteryLevel;
      this.maxRangeKm := maxRangeKm;
    }

    /** `ElectricBike.__init__`: the bike checks with type "electric", then
        the battery level, then the range. */
    static method Create(bikeId: string, batteryLevel: real, maxRangeKm: real, status: string, now: int)
      returns (r: Result<ElectricBike, Error>)
      ensures r.Success? <==>
                ValidId(bikeId) && status in ValidStatuses && 0.0 <= batteryLevel <= 100.0 && maxRangeKm > 0.0
      ensures !ValidId(bikeId) ==> r == Failure(InvalidId)
      ensures ValidId(bikeId) && status !in ValidStatuses ==> r == Failure(InvalidStatus(status))
      ensures ValidId(bikeId) && status in ValidStatuses && !(0.0 <= batteryLevel <= 100.0) ==>
                r == Failure(BatteryOutOfRange)
      ensures ValidId(bikeId) && status in ValidStatuses && 0.0 <= batteryLevel <= 100.0 && maxRangeKm <= 0.0 ==>
                r == Failure(NonPositiveRange)
      ensures r.Success? ==> fresh(r.value) && fresh(r.value.base) && r.value.Valid()
      ensures r.Success? ==> r.value.base.base.id == bikeId && r.value.base.status == status
      ensures r.Success? ==> r.value.batteryLevel == batteryLevel && r.value.maxRangeKm == maxRangeKm
    {
      var b := Bike.Create(bikeId, "electric", status, now);
      if b.Failure? {
        return Failure(b.error);
      }
      if !(0.0 <= batteryLevel <= 100.0) {
        return Failure(BatteryOutOfRange);
      }
      if maxRangeKm <= 0.0 {
        return Failure(NonPositiveRange);
      }
      var e := new ElectricBike(b.value, batteryLevel, maxRangeKm);
      return Success(e);
    }

    /** The `battery_level` setter. */
    method SetBatteryLevel(value: real) returns (o: Outcome<Error>)
      requires Valid()
      modifies this
      ensures Valid()
      ensures o == if 0.0 <= value <= 100.0 then Pass else Fail(BatteryOutOfRange)
      ensures batteryLevel == if o.Pass? then value else old(batteryLevel)
      ensures maxRangeKm == old(maxRangeKm)
    {
      if !(0.0 <= value <= 100.0) {
        return Fail(BatteryOutOfRange);
      }
      batteryLevel := value;
      return Pass;
    }

    /** The `max_range_km` setter. */
    method SetMaxRangeKm(value: real) returns (o: Outcome<Error>)
      requires Valid()
      modifies this
      ensures Valid()
      ensures o == if value > 0.0 then Pass else Fail(NonPositiveRange)
      ensures maxRangeKm == if o.Pass? then value else old(maxRangeKm)
      ensures batteryLevel == old(batteryLevel)
    {
      if value <= 0.0 {
        return Fail(NonPositiveRange);
      }
      maxRangeKm := value;
      return Pass;
    }
  }

  // ---------------------------------------------------------------------------
  // Station
  // ---------------------------------------------------------------------------

  predicate ValidLatitude(latitude: real) {
    -90.0 <= latitude <= 90.0
  }

  predicate ValidLongitude(longitude: real) {
    -180.0 <= longitude <= 180.0
  }

  class Station {
    const base: Entity
    const name: string
    const stationId: string
    var capacity: int
    var latitude: real
    var longitude: real

    ghost predicate Valid()
      reads this
    {
      base.Valid() && stationId == base.id &&
      capacity > 0 && ValidLatitude(latitude) && ValidLongitude(longitude)
    }

    constructor (base: Entity, name: string, capacity: int, latitude: real, longitude: real)
      requires base.Valid() && capacity > 0 && ValidLatitude(latitude) && ValidLongitude(longitude)
      ensures Valid() && this.base == base && this.name == name && this.stationId == base.id
      ensures this.capacity == capacity && this.latitude == latitude && this.longitude == longitude
    {
      this.base := base;
      this.name := name;
      this.stationId := base.id;
      this.capacity := capacity;
      this.latitude := latitude;
      this.longitude := longitude;
    }

    /** `Station.__init__`: the id, then capacity, latitude and longitude. */
    static method Create(stationId: string, name: string, capacity: int, latitude: real, longitude: real, now: int)
      returns (r: Result<Station, Error>)
      ensures r.Success? <==>
                ValidId(stationId) && capacity > 0 && ValidLatitude(latitude) && ValidLongitude(longitude)
      ensures !ValidId(stationId) ==> r == Failure(InvalidId)
      ensures ValidId(stationId) && capacity <= 0 ==> r == Failure(NonPositiveCapacity)
      ensures ValidId(stationId) && capacity > 0 && !ValidLatitude(latitude) ==> r == Failure(LatitudeOutOfRange)
      ensures ValidId(stationId) && capacity > 0 && ValidLatitude(latitude) && !ValidLongitude(longitude) ==>
                r == Failure(LongitudeOutOfRange)
      ensures r.Success? ==> fresh(r.value) && fresh(r.value.base) && r.value.Valid()
      ensures r.Success? ==> r.value.stationId == stationId && r.value.name == name && r.value.capacity == capacity
      ensures r.Success? ==> r.value.latitude == latitude && r.value.longitude == longitude
    {
      var e := Entity.Create(stationId, None, now);
      if e.Failure? {
        return Failure(e.error);
      }
      if capacity <= 0 {
        return Failure(NonPositiveCapacity);
      }
      if !ValidLatitude(latitude) {
        return Failure(LatitudeOutOfRange);
      }
      if !ValidLongitude(longitude) {
        return Failure(LongitudeOutOfRange);
      }
      var s := new Station(e.value, name, capacity, latitude, longitude);
      return Success(s);
    }

    /** The `capacity` setter. */
    method SetCapacity(value: int) returns (o: Outcome<Error>)
      requires Valid()
      modifies this
      ensures Valid()
      ensures o == if value > 0 then Pass else Fail(NonPositiveCapacity)
      ensures capacity == if o.Pass? then value else old(capacity)
      ensures latitude == old(latitude) && longitude == old(longitude)
    {
      if value <= 0 {
        return Fail(NonPositiveCapacity);
      }
      capacity := value;
      return Pass;
    }

    /** The `latitude` setter. */
    method SetLatitude(value: real) returns (o: Outcome<Error>)
      requires Valid()
      modifies this
      ensures Valid()
      ensures o == if ValidLatitude(value) then Pass else Fail(LatitudeOutOfRange)
      ensures latitude == if o.Pass? then value else old(latitude)
      ensures capacity == old(capacity) && longitude == old(longitude)
    {
      if !ValidLatitude(value) {
        return Fail(LatitudeOutOfRange);
      }
      latitude := value;
      return Pass;
    }

    /** The `longitude` setter. */
    method SetLongitude(value: real) returns (o: Outcome<Error>)
      requires Valid()
      modifies this
      ensures Valid()
      ensures o == if ValidLongitude(value) then Pass else Fail(LongitudeOutOfRange)
      ensures longitude == if o.Pass? then value else old(longitude)
      ensures capacity == old(capacity) && latitude == old(latitude)
    {
      if !ValidLongitude(value) {
        return Fail(LongitudeOutOfRange);
      }
      longitude := value;
      return Pass;
    }
  }

  // ---------------------------------------------------------------------------
  // Users
  // ---------------------------------------------------------------------------

  class User {
    const base: Entity
    const name: string
    const userType: string
    const email: string

    ghost predicate Valid() {
      base.Valid() && ValidEmail(email)
    }

    constructor (base: Entity, name: string, email: string, userType: string)
      requires base.Valid() && ValidEmail(email)
      ensures Valid() && this.base == base && this.name == name
      ensures this.email == email && this.userType == userType
    {
      this.base := base;
      this.name := name;
      this.email := email;
      this.userType := userType;
    }

    /** `User.__init__`: the id, then an email that contains "@". */
    static method Create(userId: string, name: string, email: string, userType: string, now: int)
      returns (r: Result<User, Error>)
      ensures r.Success? <==> ValidId(userId) && ValidEmail(email)
      ensures !ValidId(userId) ==> r == Failure(InvalidId)
      ensures ValidId(userId) && !ValidEmail(email) ==> r == Failure(InvalidEmail)
      ensures r.Success? ==> fresh(r.value) && fresh(r.value.base) && r.value.Valid()
      ensures r.Success? ==> r.value.base.id == userId && r.value.name == name
      ensures r.Success? ==> r.value.email == email && r.value.userType == userType
    {
      var e := Entity.Create(userId, None, now);
      if e.Failure? {
        return Failure(e.error);
      }
      if !ValidEmail(email) {
        return Failure(InvalidEmail);
      }
      var u := new User(e.value, name, email, userType);
      return Success(u);
    }
  }

  class CasualUser {
    const base: User
    var dayPassCount: int

    ghost predicate Valid()
      reads this
    {
      base.Valid() && base.userType == "casual" && dayPassCount >= 0
    }

    constructor (base: User, dayPassCount: int)
      requires base.Valid() && base.userType == "casual" && dayPassCount >= 0
      ensures Valid() && this.base == base && this.dayPassCount == dayPassCount
    {
      this.base := base;
      this.dayPassCount := dayPassCount;
    }

    /** `CasualUser.__init__`: the user checks with type "casual", then a
        non-negative day-pass count. */
    static method Create(userId: string, name: string, email: string, dayPassCount: int, now: int)
      returns (r: Result<CasualUser, Error>)
      ensures r.Success? <==> ValidId(userId) && ValidEmail(email) && dayPassCount >= 0
      ensures !ValidId(userId) ==> r == Failure(InvalidId)
      ensures ValidId(userId) && !ValidEmail(email) ==> r == Failure(InvalidEmail)
      ensures ValidId(userId) && ValidEmail(email) && dayPassCount < 0 ==> r == Failure(NegativeDayPassCount)
      ensures r.Success? ==> fresh(r.value) && fresh(r.value.base) && r.value.Valid()
      ensures r.Success? ==> r.value.base.base.id == userId && r.value.base.name == name
      ensures r.Success? ==> r.value.base.email == email && r.value.dayPassCount == dayPassCount
    {
      var u := User.Create(userId, name, email, "casual", now);
      if u.Failure? {
        return Failure(u.error);
      }
      if dayPassCount < 0 {
        return Failure(NegativeDayPassCount);
      }
      var c := new CasualUser(u.value, dayPassCount);
      return Success(c);
    }

    /** The `day_pass_count` setter. */
    method SetDayPassCount(value: int) returns (o: Outcome<Error>)
      requires Valid()
      modifies this
      ensures Valid()
      ensures o == if value >= 0 then Pass else Fail(NegativeDayPassCount)
      ensures dayPassCount == if o.Pass? then value else old(dayPassCount)
    {
      if value < 0 {
        return Fail(NegativeDayPassCount);
      }
      dayPassCount := value;
      return Pass;
    }
  }

  class MemberUser {
    const base: User
    const membershipStart: int
    const membershipEnd: int
    var tier: string

    ghost predicate Valid()
      reads this
    {
      base.Valid() && base.userType == "member" &&
      membershipStart < membershipEnd && tier in Tiers
    }

    constructor (base: User, membershipStart: int, membershipEnd: int, tier: string)
      requires base.Valid() && base.userType == "member"
      requires membershipStart < membershipEnd && tier in Tiers
      ensures Valid() && this.base == base && this.tier == tier
      ensures this.membershipStart == membershipStart && this.membershipEnd == membershipEnd
    {
      this.base := base;
      this.membershipStart := membershipStart;
      this.membershipEnd := membershipEnd;
      this.tier := tier;
    }

    /** `MemberUser.__init__`: the user checks with type "member"; a missing
        start is the current time and a missing end is the start; the end must
        be strictly after the start; then the tier. A member created without
        an end date is therefore always rejected. */
    static method Create(userId: string, name: string, email: string,
                         membershipStart: Option<int>, membershipEnd: Option<int>, tier: string, now: int)
      returns (r: Result<MemberUser, Error>)
      ensures var start := membershipStart.GetOr(now);
              var end := membershipEnd.GetOr(start);
              r.Success? <==> ValidId(userId) && ValidEmail(email) && start < end && tier in Tiers
      ensures !ValidId(userId) ==> r == Failure(InvalidId)
      ensures ValidId(userId) && !ValidEmail(email) ==> r == Failure(InvalidEmail)
      ensures ValidId(userId) && ValidEmail(email) && membershipEnd.None? ==> r == Failure(MembershipNotAfterStart)
      ensures var start := membershipStart.GetOr(now);
              var end := membershipEnd.GetOr(start);
              ValidId(userId) && ValidEmail(email) && end <= start ==> r == Failure(MembershipNotAfterStart)
      ensures var start := membershipStart.GetOr(now);
              var end := membershipEnd.GetOr(start);
              ValidId(userId) && ValidEmail(email) && start < end && tier !in Tiers ==> r == Failure(InvalidTier(tier))
      ensures r.Success? ==> fresh(r.value) && fresh(r.value.base) && r.value.Valid()
      ensures r.Success? ==> r.value.base.base.id == userId && r.value.base.name == name && r.value.base.email == email
      ensures r.Success? ==> r.value.membershipStart == membershipStart.GetOr(now)
      ensures r.Success? ==> r.value.membershipEnd == membershipEnd.value && r.value.tier == tier
    {
      var u := User.Create(userId, name, email, "member", now);
      if u.Failure? {
        return Failure(u.error);
      }
      var start := membershipStart.GetOr(now);
      var end := membershipEnd.GetOr(start);
      if end <= start {
        return Failure(MembershipNotAfterStart);
      }
      if tier !in Tiers {
        return Failure(InvalidTier(tier));
      }
      var m := new MemberUser(u.value, start, end, tier);
      return Success(m);
    }

    /** The `tier` setter. */
    method SetTier(value: string) returns (o: Outcome<Error>)
      requires Valid()
      modifies this
      ensures Valid()
      ensures o == if value in Tiers then Pass else Fail(InvalidTier(value))
      ensures tier == if o.Pass? then value else old(tier)
    {
      if value !in Tiers {
        return Fail(InvalidTier(value));
      }
      tier := value;
      return Pass;
    }
  }

  // ---------------------------------------------------------------------------
  // Trip
  // ---------------------------------------------------------------------------

  class Trip {
    const tripId: string
    const user: User
    const bike: Bike
    const startStation: Station
    const endStation: Station
    const startTime: int
    const endTime: int
    const distanceKm: real

    ghost predicate Valid() {
      startTime <= endTime && distanceKm >= 0.0
    }

    constructor (tripId: string, user: User, bike: Bike, startStation: Station, endStation: Station,
                 startTime: int, endTime: int, distanceKm: real)
      requires startTime <= endTime && distanceKm >= 0.0
      ensures Valid() && this.tripId == tripId && this.user == user && this.bike == bike
      ensures this.startStation == startStation && this.endStation == endStation
      ensures this.startTime == startTime && this.endTime == endTime && this.distanceKm == distanceKm
    {
      this.tripId := tripId;
      this.user := user;
      this.bike := bike;
      this.startStation := startStation;
      this.endStation := endStation;
      this.startTime := startTime;
      this.endTime := endTime;
      this.distanceKm := distanceKm;
    }

    /** `Trip.__init__`: the end may not be before the start (a zero-length
        trip is allowed), then the distance may not be negative. */
    static method Create(tripId: string, user: User, bike: Bike, startStation: Station, endStation: Station,
                         startTime: int, endTime: int, distanceKm: real)
      returns (r: Result<Trip, Error>)
      ensures r.Success? <==> startTime <= endTime && distanceKm >= 0.0
      ensures endTime < startTime ==> r == Failure(EndBeforeStart)
      ensures startTime <= endTime && distanceKm < 0.0 ==> r == Failure(NegativeDistance)
      ensures r.Success? ==> fresh(r.value) && r.value.Valid()
      ensures r.Success? ==> r.value.tripId == tripId && r.value.user == user && r.value.bike == bike
      ensures r.Success? ==> r.value.startStation == startStation && r.value.endStation == endStation
      ensures r.Success? ==> r.value.startTime == startTime && r.value.endTime == endTime
      ensures r.Success? ==> r.value.distanceKm == distanceKm
    {
      if endTime < startTime {
        return Failure(EndBeforeStart);
      }
      if distanceKm < 0.0 {
        return Failure(NegativeDistance);
      }
      var t := new Trip(tripId, user, bike, startStation, endStation, startTime, endTime, distanceKm);
      return Success(t);
    }
  }

  // ---------------------------------------------------------------------------
  // MaintenanceRecord
  // ---------------------------------------------------------------------------

  class MaintenanceRecord {
    const recordId: string
    const bike: Bike
    const date: int
    const maintenanceType: string
    const cost: real
    const description: string

    ghost predicate Valid() {
      maintenanceType in MaintenanceTypes && cost >= 0.0
    }

    constructor (recordId: string, bike: Bike, date: int, maintenanceType: string, cost: real, description: string)
      requires maintenanceType in MaintenanceTypes && cost >= 0.0
      ensures Valid() && this.recordId == recordId && this.bike == bike && this.date == date
      ensures this.maintenanceType == maintenanceType && this.cost == cost && this.description == description
    {
      this.recordId := recordId;
      this.bike := bike;
      this.date := date;
      this.maintenanceType := maintenanceType;
      this.cost := cost;
      this.description := description;
    }

    /** `MaintenanceRecord.__init__` as written: after the type check it
        assigns to `maintenance_type`, a property that has no setter, so every
        call raises and the cost check is never reached. The later assignment
        to `cost` has the same defect. */
    static method Create(recordId: string, bike: Bike, date: int, maintenanceType: string, cost: real, description: string)
      returns (r: Result<MaintenanceRecord, Error>)
      ensures r.Failure?
      ensures maintenanceType !in MaintenanceTypes ==> r == Failure(InvalidMaintenanceType(maintenanceType))
      ensures maintenanceType in MaintenanceTypes ==> r == Failure(NoSetter("maintenance_type"))
    {
      if maintenanceType !in MaintenanceTypes {
        return Failure(InvalidMaintenanceType(maintenanceType));
      }
      return Failure(NoSetter("maintenance_type"));
    }

    /** What `MaintenanceRecord.__init__` evidently intends: check the type,
        then that the cost is not negative, and keep both (neither property
        has a setter in the source, so both assignments are corrected). */
    static method CreateIntended(recordId: string, bike: Bike, date: int, maintenanceType: string, cost: real,
                                 description: string)
      returns (r: Result<MaintenanceRecord, Error>)
      ensures r.Success? <==> maintenanceType in MaintenanceTypes && cost >= 0.0
      ensures maintenanceType !in MaintenanceTypes ==> r == Failure(InvalidMaintenanceType(maintenanceType))
      ensures maintenanceType in MaintenanceTypes && cost < 0.0 ==> r == Failure(NegativeCost)
      ensures r.Success? ==> fresh(r.value) && r.value.Valid()
      ensures r.Success? ==> r.value.recordId == recordId && r.value.bike == bike && r.value.date == date
      ensures r.Success? ==> r.value.maintenanceType == maintenanceType && r.value.cost == cost
      ensures r.Success? ==> r.value.description == description
    {
      if maintenanceType !in MaintenanceTypes {
        return Failure(InvalidMaintenanceType(maintenanceType));
      }
      if cost < 0.0 {
        return Failure(NegativeCost);
      }
      var m := new MaintenanceRecord(recordId, bike, date, maintenanceType, cost, description);
      return Success(m);
    }
  }
}
