/** The factory functions of citybike/factories.py: build a bike or a user
    from a dictionary record. A record is modelled by the entries the
    factories read, each `None` when its key is absent; the values are
    already parsed, so the `int`, `float` and `fromisoformat` conversions of
    the source are not part of this model. */
module Factories {
  import opened Common
  import opened Models

  /** The exceptions the factories raise. `Invalid` carries, unchanged, the
      exception of the model constructor that was called. */
  datatype FactoryError =
    | MissingKey(key: string)
    | UnknownBikeType(bikeType: string)
    | UnknownUserType(userType: string)
    | Invalid(cause: Error)

  /** The entries of a bike record that `create_bike` reads. */
  datatype BikeData = BikeData(
    bikeType: Option<string>,
    bikeId: Option<string>,
    gearCount: Option<int>,
    batteryLevel: Option<real>,
    maxRangeKm: Option<real>)

  /** The entries of a user record that `create_user` reads. */
  datatype UserData = UserData(
    userType: Option<string>,
    userId: Option<string>,
    name: Option<string>,
    email: Option<string>,
    dayPassCount: Option<int>,
    membershipStart: Option<int>,
    membershipEnd: Option<int>,
    tier: Option<string>)

  /** A bike of either subclass. */
  datatype AnyBike = Classic(classic: ClassicBike) | Electric(electric: ElectricBike)

  /** A user of either subclass. */
  datatype AnyUser = Casual(casual: CasualUser) | Member(member: MemberUser)

  predicate IsUpper(c: char) {
    'A' <= c <= 'Z'
  }

  function LowerChar(c: char): char {
    if IsUpper(c) then (c as int - 'A' as int + 'a' as int) as char else c
  }

  /** `str.lower()` on ASCII letters. */
  function Lower(s: string): (r: string)
    ensures |r| == |s|
    ensures forall n :: 0 <= n < |s| ==> r[n] == LowerChar(s[n])
    ensures forall n :: 0 <= n < |r| ==> !IsUpper(r[n])
    decreases |s|
  {
    if s == [] then [] else [LowerChar(s[0])] + Lower(s[1..])
  }

  /** `create_bike`: lower-case the `bike_type` entry (missing means ""),
      build a `ClassicBike` or an `ElectricBike` with the record's values or
      the defaults, and raise for any other type. */
  method CreateBike(data: BikeData, now: int) returns (r: Result<AnyBike, FactoryError>)
    ensures var tag := Lower(data.bikeType.GetOr(""));
            tag != "classic" && tag != "electric" ==> r == Failure(UnknownBikeType(tag))
    ensures var tag := Lower(data.bikeType.GetOr(""));
            (tag == "classic" || tag == "electric") && data.bikeId.None? ==> r == Failure(MissingKey("bike_id"))
    ensures var tag := Lower(data.bikeType.GetOr(""));
            tag == "classic" && data.bikeId.Some? ==>
              var id, gears := data.bikeId.value, data.gearCount.GetOr(DefaultGearCount);
              && (r.Success? <==> ValidId(id) && gears > 0)
              && (!ValidId(id) ==> r == Failure(Invalid(InvalidId)))
              && (ValidId(id) && gears <= 0 ==> r == Failure(Invalid(NonPositiveGearCount)))
              && (r.Success? ==> r.value.Classic? && fresh(r.value.classic) && r.value.classic.Valid())
              && (r.Success? ==> r.value.classic.base.base.id == id && r.value.classic.gearCount == gears)
              && (r.Success? ==> r.value.classic.base.status == DefaultStatus)
    ensures var tag := Lower(data.bikeType.GetOr(""));
            tag == "electric" && data.bikeId.Some? ==>
              var id := data.bikeId.value;
              var battery := data.batteryLevel.GetOr(DefaultBatteryLevel);
              var range := data.maxRangeKm.GetOr(DefaultMaxRangeKm);
              && (r.Success? <==> ValidId(id) && 0.0 <= battery <= 100.0 && range > 0.0)
              && (!ValidId(id) ==> r == Failure(Invalid(InvalidId)))
              && (ValidId(id) && !(0.0 <= battery <= 100.0) ==> r == Failure(Invalid(BatteryOutOfRange)))
              && (ValidId(id) && 0.0 <= battery <= 100.0 && range <= 0.0 ==> r == Failure(Invalid(NonPositiveRange)))
              && (r.Success? ==> r.value.Electric? && fresh(r.value.electric) && r.value.electric.Valid())
              && (r.Success? ==> r.value.electric.base.base.id == id && r.value.electric.base.status == DefaultStatus)
              && (r.Success? ==> r.value.electric.batteryLevel == battery && r.value.electric.maxRangeKm == range)
  {
    var bikeType := Lower(data.bikeType.GetOr(""));
    if bikeType == "classic" {
      if data.bikeId.None? {
        return Failure(MissingKey("bike_id"));
      }
      var b := ClassicBike.Create(data.bikeId.value, data.gearCount.GetOr(DefaultGearCount), DefaultStatus, now);
      if b.Failure? {
        return Failure(Invalid(b.error));
      }
      return Success(Classic(b.value));
    } else if bikeType == "electric" {
      if data.bikeId.None? {
        return Failure(MissingKey("bike_id"));
      }
      var b := ElectricBike.Create(data.bikeId.value, data.batteryLevel.GetOr(DefaultBatteryLevel),
                                   data.maxRangeKm.GetOr(DefaultMaxRangeKm), DefaultStatus, now);
      if b.Failure? {
        return Failure(Invalid(b.error));
      }
      return Success(Electric(b.value));
    } else {
      return Failure(UnknownBikeType(bikeType));
    }
  }

  /** The first of the keys `user_id`, `name`, `email` that a user record
      lacks, in the order the source reads them. */
  function MissingUserKey(data: UserData): (r: Option<string>)
    ensures r.None? <==> data.userId.Some? && data.name.Some? && data.email.Some?
    ensures data.userId.None? ==> r == Some("user_id")
    ensures data.userId.Some? && data.name.None? ==> r == Some("name")
    ensures data.userId.Some? && data.name.Some? && data.email.None? ==> r == Some("email")
  {
    if data.userId.None? then Some("user_id")
    else if data.name.None? then Some("name")
    else if data.email.None? then Some("email")
    else None
  }

  /** `create_user`: lower-case the `user_type` entry (missing means
      "casual"); a casual user gets the record's day-pass count or 0; a member
      gets the lower-cased tier (missing means "basic") and the optional
      membership dates; any other type raises. */
  method CreateUser(data: UserData, now: int) returns (r: Result<AnyUser, FactoryError>)
    ensures var tag := Lower(data.userType.GetOr("casual"));
            tag != "casual" && tag != "member" ==> r == Failure(UnknownUserType(tag))
    ensures var tag := Lower(data.userType.GetOr("casual"));
            (tag == "casual" || tag == "member") && MissingUserKey(data).Some? ==>
              r == Failure(MissingKey(MissingUserKey(data).value))
    ensures var tag := Lower(data.userType.GetOr("casual"));
            tag == "casual" && MissingUserKey(data).None? ==>
              var id, email, passes := data.userId.value, data.email.value, data.dayPassCount.GetOr(0);
              && (r.Success? <==> ValidId(id) && ValidEmail(email) && passes >= 0)
              && (!ValidId(id) ==> r == Failure(Invalid(InvalidId)))
              && (ValidId(id) && !ValidEmail(email) ==> r == Failure(Invalid(InvalidEmail)))
              && (ValidId(id) && ValidEmail(email) && passes < 0 ==> r == Failure(Invalid(NegativeDayPassCount)))
              && (r.Success? ==> r.value.Casual? && fresh(r.value.casual) && r.value.casual.Valid())
              && (r.Success? ==> r.value.casual.base.base.id == id && r.value.casual.base.name == data.name.value)
              && (r.Success? ==> r.value.casual.base.email == email && r.value.casual.dayPassCount == passes)
    ensures var tag := Lower(data.userType.GetOr("casual"));
            tag == "member" && MissingUserKey(data).None? ==>
              var id, email := data.userId.value, data.email.value;
              var tier := Lower(data.tier.GetOr(DefaultTier));
              var start := data.membershipStart.GetOr(now);
              var end := data.membershipEnd.GetOr(start);
              && (r.Success? <==> ValidId(id) && ValidEmail(email) && start < end && tier in Tiers)
              && (!ValidId(id) ==> r == Failure(Invalid(InvalidId)))
              && (ValidId(id) && !ValidEmail(email) ==> r == Failure(Invalid(InvalidEmail)))
              && (ValidId(id) && ValidEmail(email) && end <= start ==> r == Failure(Invalid(MembershipNotAfterStart)))
              && (ValidId(id) && ValidEmail(email) && start < end && tier !in Tiers ==>
                    r == Failure(Invalid(InvalidTier(tier))))
              && (r.Success? ==> r.value.Member? && fresh(r.value.member) && r.value.member.Valid())
              && (r.Success? ==> r.value.member.base.base.id == id && r.value.member.base.name == data.name.value)
              && (r.Success? ==> r.value.member.base.email == email && r.value.member.tier == tier)
              && (r.Success? ==> r.value.member.membershipStart == start && r.value.member.membershipEnd == end)
  {
    var userType := Lower(data.userType.GetOr("casual"));
    if userType == "casual" {
      var missing := MissingUserKey(data);
      if missing.Some? {
        return Failure(MissingKey(missing.value));
      }
      var u := CasualUser.Create(data.userId.value, data.name.value, data.email.value,
                                 data.dayPassCount.GetOr(0), now);
      if u.Failure? {
        return Failure(Invalid(u.error));
      }
      return Success(Casual(u.value));
    } else if userType == "member" {
      var tier := Lower(data.tier.GetOr(DefaultTier));
      var missing := MissingUserKey(data);
      if missing.Some? {
        return Failure(MissingKey(missing.value));
      }
      var u := MemberUser.Create(data.userId.value, data.name.value, data.email.value,
                                 data.membershipStart, data.membershipEnd, tier, now);
      if u.Failure? {
        return Failure(Invalid(u.error));
      }
      return Success(Member(u.value));
    } else {
      return Failure(UnknownUserType(userType));
    }
  }
}
