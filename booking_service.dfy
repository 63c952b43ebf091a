/**
 * The booking service (backend/services/booking_service.py): the conflict
 * check, the validation chain, and the create / get / cancel / delete
 * operations on the bookings table.
 */
module BookingService {
  import opened Wrappers
  import opened Http
  import opened Timezone
  import opened Validators
  import opened Table
  import opened Models
  import opened Schemas
  import opened Conflict
  import opened Store

  const CANCELLED_MESSAGE := "预约已取消"
  const DELETED_MESSAGE := "预约已删除"

  /**
   * `check_time_conflict`: the conflict query run on the naive forms of the
   * candidate's endpoints, so a candidate is compared by its wall clock.
   */
  function CheckTimeConflict(rows: seq<Booking>, roomId: int, startTime: DateTime, endTime: DateTime,
                             excludeBookingId: Option<int>): (r: bool)
    ensures r <==> exists i :: 0 <= i < |rows| && Matches(rows[i], roomId, startTime.wall, endTime.wall, excludeBookingId)
  {
    var checkStart := MakeNaive(Some(startTime)).value;
    var checkEnd := MakeNaive(Some(endTime)).value;
    HasConflict(rows, roomId, checkStart.wall, checkEnd.wall, excludeBookingId)
  }

  /**
   * `validate_booking_data`: the first failing check decides the error, in the
   * order user, room, availability, range, past, conflict. The range and past
   * checks compare the aware endpoints by UTC instant; the conflict check
   * compares wall clocks.
   */
  function ValidateBookingData(users: seq<User>, rooms: seq<Room>, bookings: seq<Booking>, booking: BookingCreate,
                               startTime: DateTime, endTime: DateTime, now: int): (r: Result<(User, Room), HttpError>)
    requires IsAware(startTime) && IsAware(endTime)
    ensures var user := IndexOfKey(users, UserId, booking.userId);
            var room := IndexOfKey(rooms, RoomId, booking.roomId);
            && (r == Failure(USER_NOT_FOUND) <==> user.None?)
            && (r == Failure(ROOM_NOT_FOUND) <==> user.Some? && room.None?)
            && (r == Failure(ROOM_UNAVAILABLE) <==> user.Some? && room.Some? && !rooms[room.value].isAvailable)
            && (r == Failure(INVALID_TIME_RANGE) <==>
                  (user.Some? && room.Some? && rooms[room.value].isAvailable
                   && Instant(startTime) >= Instant(endTime)))
            && (r == Failure(PAST_TIME) <==>
                  (user.Some? && room.Some? && rooms[room.value].isAvailable
                   && Instant(startTime) < Instant(endTime) && Instant(startTime) < now))
            && (r == Failure(TIME_CONFLICT) <==>
                  (user.Some? && room.Some? && rooms[room.value].isAvailable
                   && Instant(startTime) < Instant(endTime) && now <= Instant(startTime)
                   && CheckTimeConflict(bookings, booking.roomId, startTime, endTime, None)))
            && (r.Success? ==> r.value == (users[user.value], rooms[room.value]))
    ensures r.Failure? ==> r.error in {USER_NOT_FOUND, ROOM_NOT_FOUND, ROOM_UNAVAILABLE, INVALID_TIME_RANGE, PAST_TIME, TIME_CONFLICT}
  {
    match IndexOfKey(users, UserId, booking.userId)
    case None => Failure(USER_NOT_FOUND)
    case Some(u) =>
      match IndexOfKey(rooms, RoomId, booking.roomId)
      case None => Failure(ROOM_NOT_FOUND)
      case Some(k) =>
        if !rooms[k].isAvailable then Failure(ROOM_UNAVAILABLE)
        else if ValidateTimeRange(Instant(startTime), Instant(endTime)).Fail? then
          Failure(ValidateTimeRange(Instant(startTime), Instant(endTime)).error)
        else if ValidateFutureTime(Instant(startTime), now).Fail? then
          Failure(ValidateFutureTime(Instant(startTime), now).error)
        else if CheckTimeConflict(bookings, booking.roomId, startTime, endTime, None) then
          Failure(TIME_CONFLICT)
        else
          Success((users[u], rooms[k]))
  }

  /** The aware form of a request endpoint, as `create_booking` computes it. */
  function Aware(dt: DateTime): (a: DateTime)
    ensures IsAware(a) && a.wall == dt.wall
    ensures !IsAware(dt) ==> Instant(a) == dt.wall
  {
    MakeAware(Some(dt)).value
  }

  /** The validation outcome `create_booking` acts on. */
  function Validate(users: seq<User>, rooms: seq<Room>, bookings: seq<Booking>, booking: BookingCreate, now: int): Result<(User, Room), HttpError> {
    ValidateBookingData(users, rooms, bookings, booking, Aware(booking.startTime), Aware(booking.endTime), now)
  }

  /**
   * With the user and an available room in place, equal endpoints are always
   * an invalid range, and a start exactly at `now` is never in the past.
   */
  lemma RangeAndPastBoundaries(users: seq<User>, rooms: seq<Room>, bookings: seq<Booking>, booking: BookingCreate, now: int)
    requires IndexOfKey(users, UserId, booking.userId).Some?
    requires IndexOfKey(rooms, RoomId, booking.roomId).Some?
    requires rooms[IndexOfKey(rooms, RoomId, booking.roomId).value].isAvailable
    ensures booking.startTime == booking.endTime ==>
      Validate(users, rooms, bookings, booking, now) == Failure(INVALID_TIME_RANGE)
    ensures Instant(Aware(booking.startTime)) == now ==>
      Validate(users, rooms, bookings, booking, now) != Failure(PAST_TIME)
  {
  }

  /**
   * When both endpoints carry the same offset (or none), an accepted request
   * has its stored wall-clock start before its stored end.
   */
  lemma SameOffsetStoresWellFormed(users: seq<User>, rooms: seq<Room>, bookings: seq<Booking>, booking: BookingCreate, now: int)
    requires booking.startTime.offset == booking.endTime.offset
    requires Validate(users, rooms, bookings, booking, now).Success?
    ensures booking.startTime.wall < booking.endTime.wall
  {
  }

  /**
   * The range check and the stored values use different time bases: a request
   * from 10:00 at UTC+8 to 03:00 at UTC is a valid one-hour booking by instant,
   * yet it is accepted and stored with wall-clock start 10:00 after its end 03:00.
   */
  lemma MixedOffsetsStoreReversedInterval()
    ensures var booking := BookingCreate(1, 1, DateTime(600, Some(480)), DateTime(180, Some(0)), None);
            var users := [NewUser(1, "alice", "alice@example.com", None, "h", 0)];
            var rooms := [NewRoom(1, "A101", "F1", 10, None, 0)];
            && Validate(users, rooms, [], booking, 0).Success?
            && MakeNaive(Some(Aware(booking.startTime))).value.wall > MakeNaive(Some(Aware(booking.endTime))).value.wall
  {
    var users := [NewUser(1, "alice", "alice@example.com", None, "h", 0)];
    var rooms := [NewRoom(1, "A101", "F1", 10, None, 0)];
    assert IndexOfKey(users, UserId, 1) == Some(0);
    assert IndexOfKey(rooms, RoomId, 1) == Some(0);
  }

  /**
   * `create_booking`: validates the aware endpoints, then appends one
   * "confirmed" booking holding `make_naive(make_aware(x))` of each endpoint.
   * On any validation failure the table is unchanged.
   */
  method CreateBooking(db: Database, booking: BookingCreate, now: int, clock: int) returns (r: Result<Booking, HttpError>)
    modifies db`bookings
    ensures var v := Validate(db.users, db.rooms, old(db.bookings), booking, now);
            && (v.Failure? ==> r == Failure(v.error) && db.bookings == old(db.bookings))
            && (v.Success? ==> r.Success? && db.bookings == old(db.bookings) + [r.value])
    ensures r.Success? ==>
      && r.value.userId == booking.userId && r.value.roomId == booking.roomId
      && r.value.purpose == booking.purpose && r.value.status == CONFIRMED
      && MakeNaive(MakeAware(Some(booking.startTime))) == Some(DateTime(r.value.startTime, None))
      && MakeNaive(MakeAware(Some(booking.endTime))) == Some(DateTime(r.value.endTime, None))
      && r.value.createdAt == Some(DateTime(clock, None))
      && forall i :: 0 <= i < |old(db.bookings)| ==> old(db.bookings)[i].id != r.value.id
    ensures NoLaterClash(old(db.bookings)) ==> NoLaterClash(db.bookings)
    ensures UniqueBy(old(db.bookings), BookingId) ==> UniqueBy(db.bookings, BookingId)
    ensures WellFormed(old(db.bookings)) && booking.startTime.offset == booking.endTime.offset ==> WellFormed(db.bookings)
    ensures BookingRoomsExist(old(db.bookings), db.rooms) ==> BookingRoomsExist(db.bookings, db.rooms)
    ensures BookingUsersExist(old(db.bookings), db.users) ==> BookingUsersExist(db.bookings, db.users)
  {
    var startTime := MakeAware(Some(booking.startTime)).value;
    var endTime := MakeAware(Some(booking.endTime)).value;
    var v := ValidateBookingData(db.users, db.rooms, db.bookings, booking, startTime, endTime, now);
    if v.Failure? {
      return Failure(v.error);
    }
    var id := NextId(db.bookings, BookingId);
    var b := NewBooking(id, booking.userId, booking.roomId,
                        MakeNaive(Some(startTime)).value.wall, MakeNaive(Some(endTime)).value.wall,
                        booking.purpose, Some(CONFIRMED), clock);
    FalsyExcludesNothing(db.bookings, b.roomId, b.startTime, b.endTime, None);
    if NoLaterClash(db.bookings) {
      AppendKeepsNoLaterClash(db.bookings, b, None);
    }
    if UniqueBy(db.bookings, BookingId) {
      UniqueAppend(db.bookings, b, BookingId);
    }
    AppendKeepsReferences(db.bookings, b, db.users, db.rooms);
    if booking.startTime.offset == booking.endTime.offset {
      SameOffsetStoresWellFormed(db.users, db.rooms, db.bookings, booking, now);
    }
    db.bookings := db.bookings + [b];
    return Success(b);
  }

  /** A new booking whose user and room are stored keeps every booking's user and room stored. */
  lemma AppendKeepsReferences(bookings: seq<Booking>, b: Booking, users: seq<User>, rooms: seq<Room>)
    requires IndexOfKey(users, UserId, b.userId).Some? && IndexOfKey(rooms, RoomId, b.roomId).Some?
    ensures BookingRoomsExist(bookings, rooms) ==> BookingRoomsExist(bookings + [b], rooms)
    ensures BookingUsersExist(bookings, users) ==> BookingUsersExist(bookings + [b], users)
  {
    assert HasRoom(rooms, b.roomId) && HasUser(users, b.userId);
    var r := bookings + [b];
    forall i | 0 <= i < |r| ensures r[i] == b || r[i] == bookings[i] {
    }
  }

  /** `get_booking_by_id`: the booking with that id, or 404. */
  function GetBookingById(rows: seq<Booking>, bookingId: int): (r: Result<Booking, HttpError>)
    ensures r.Success? ==> r.value in rows && r.value.id == bookingId
    ensures r.Failure? <==> forall i :: 0 <= i < |rows| ==> rows[i].id != bookingId
    ensures r.Failure? ==> r.error == BOOKING_NOT_FOUND
  {
    match IndexOfKey(rows, BookingId, bookingId)
    case None => Failure(BOOKING_NOT_FOUND)
    case Some(k) => Success(rows[k])
  }

  /**
   * `cancel_booking`: 404 for a missing id, 400 with nothing changed for a
   * booking already cancelled; otherwise only that booking's status changes.
   */
  method CancelBooking(db: Database, bookingId: int) returns (r: Result<string, HttpError>)
    modifies db`bookings
    ensures match IndexOfKey(old(db.bookings), BookingId, bookingId)
            case None => r == Failure(BOOKING_NOT_FOUND) && db.bookings == old(db.bookings)
            case Some(k) =>
              if old(db.bookings)[k].status == CANCELLED then
                r == Failure(ALREADY_CANCELLED) && db.bookings == old(db.bookings)
              else
                r == Success(CANCELLED_MESSAGE) && db.bookings == old(db.bookings)[k := Cancelled(old(db.bookings)[k])]
    ensures NoLaterClash(old(db.bookings)) ==> NoLaterClash(db.bookings)
    ensures WellFormed(old(db.bookings)) ==> WellFormed(db.bookings)
    ensures UniqueBy(old(db.bookings), BookingId) ==> UniqueBy(db.bookings, BookingId)
  {
    var found := IndexOfKey(db.bookings, BookingId, bookingId);
    if found.None? {
      return Failure(BOOKING_NOT_FOUND);
    }
    var k := found.value;
    if db.bookings[k].status == CANCELLED {
      return Failure(ALREADY_CANCELLED);
    }
    if NoLaterClash(db.bookings) {
      CancelKeepsNoLaterClash(db.bookings, k);
    }
    if UniqueBy(db.bookings, BookingId) {
      UniqueReplace(db.bookings, k, Cancelled(db.bookings[k]), BookingId);
    }
    db.bookings := db.bookings[k := Cancelled(db.bookings[k])];
    return Success(CANCELLED_MESSAGE);
  }

  /** `delete_booking`: 404 for a missing id; otherwise exactly that booking is removed, whatever its status. */
  method DeleteBooking(db: Database, bookingId: int) returns (r: Result<string, HttpError>)
    modifies db`bookings
    ensures match IndexOfKey(old(db.bookings), BookingId, bookingId)
            case None => r == Failure(BOOKING_NOT_FOUND) && db.bookings == old(db.bookings)
            case Some(k) => r == Success(DELETED_MESSAGE) && db.bookings == RemoveAt(old(db.bookings), k)
    ensures NoLaterClash(old(db.bookings)) ==> NoLaterClash(db.bookings)
    ensures WellFormed(old(db.bookings)) ==> WellFormed(db.bookings)
    ensures UniqueBy(old(db.bookings), BookingId) ==> UniqueBy(db.bookings, BookingId)
  {
    var found := IndexOfKey(db.bookings, BookingId, bookingId);
    if found.None? {
      return Failure(BOOKING_NOT_FOUND);
    }
    var k := found.value;
    if NoLaterClash(db.bookings) {
      RemoveKeepsNoLaterClash(db.bookings, k);
    }
    if UniqueBy(db.bookings, BookingId) {
      UniqueRemove(db.bookings, k, BookingId);
    }
    db.bookings := RemoveAt(db.bookings, k);
    return Success(DELETED_MESSAGE);
  }
}
