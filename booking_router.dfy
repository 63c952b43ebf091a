/**
 * The booking router (backend/routers/bookings.py), the older HTTP handlers
 * that do their own checks on the request's datetimes as given, without the
 * timezone conversions of the service.
 *
 * Its `get_booking`, `cancel_booking` and `delete_booking` perform exactly the
 * service's steps and are modelled by the members of `BookingService`.
 */
module BookingRouter {
  import opened Wrappers
  import opened Http
  import opened Timezone
  import opened Table
  import opened Models
  import opened Schemas
  import opened Conflict
  import opened Store
  import BookingService

  /**
   * `check_time_conflict` on naive datetimes: the same query as the
   * service's, which on naive input gives the same answer.
   */
  function CheckTimeConflict(rows: seq<Booking>, roomId: int, startTime: int, endTime: int, bookingId: Option<int>): (r: bool)
    ensures r <==> exists i :: 0 <= i < |rows| && Matches(rows[i], roomId, startTime, endTime, bookingId)
    ensures r == BookingService.CheckTimeConflict(rows, roomId, DateTime(startTime, None), DateTime(endTime, None), bookingId)
  {
    HasConflict(rows, roomId, startTime, endTime, bookingId)
  }

  /** Both endpoints of the request are naive, as the router's comparisons need. */
  predicate NaiveRequest(booking: BookingCreate) {
    !IsAware(booking.startTime) && !IsAware(booking.endTime)
  }

  /**
   * The router's checks, in its order, on the request's wall clocks against
   * the server's local `now`.
   */
  function ValidateRequest(users: seq<User>, rooms: seq<Room>, bookings: seq<Booking>, booking: BookingCreate, now: int): (r: Result<(User, Room), HttpError>)
    requires NaiveRequest(booking)
    ensures r.Success? <==>
      && IndexOfKey(users, UserId, booking.userId).Some?
      && IndexOfKey(rooms, RoomId, booking.roomId).Some?
      && rooms[IndexOfKey(rooms, RoomId, booking.roomId).value].isAvailable
      && now <= booking.startTime.wall < booking.endTime.wall
      && !CheckTimeConflict(bookings, booking.roomId, booking.startTime.wall, booking.endTime.wall, None)
    ensures r.Success? ==> r.value.0.id == booking.userId && r.value.1.id == booking.roomId
  {
    match IndexOfKey(users, UserId, booking.userId)
    case None => Failure(USER_NOT_FOUND)
    case Some(u) =>
      match IndexOfKey(rooms, RoomId, booking.roomId)
      case None => Failure(ROOM_NOT_FOUND)
      case Some(k) =>
        if !rooms[k].isAvailable then Failure(ROOM_UNAVAILABLE)
        else if booking.startTime.wall >= booking.endTime.wall then Failure(INVALID_TIME_RANGE)
        else if booking.startTime.wall < now then Failure(PAST_TIME)
        else if CheckTimeConflict(bookings, booking.roomId, booking.startTime.wall, booking.endTime.wall, None) then
          Failure(TIME_CONFLICT)
        else Success((users[u], rooms[k]))
  }

  /**
   * On naive input the router and the service decide alike, error for error,
   * when the router's local `now` reads the same as the service's UTC `now`.
   */
  lemma RouterAgreesWithService(users: seq<User>, rooms: seq<Room>, bookings: seq<Booking>, booking: BookingCreate, now: int)
    requires NaiveRequest(booking)
    ensures ValidateRequest(users, rooms, bookings, booking, now) == BookingService.Validate(users, rooms, bookings, booking, now)
  {
  }

  /**
   * `create_booking` (router): the checks above, then one "confirmed" booking
   * appended holding the request's wall clocks.
   */
  method CreateBooking(db: Database, booking: BookingCreate, now: int, clock: int) returns (r: Result<Booking, HttpError>)
    requires NaiveRequest(booking)
    modifies db`bookings
    ensures var v := ValidateRequest(db.users, db.rooms, old(db.bookings), booking, now);
            && (v.Failure? ==> r == Failure(v.error) && db.bookings == old(db.bookings))
            && (v.Success? ==> r.Success? && db.bookings == old(db.bookings) + [r.value])
    ensures r.Success? ==>
      && r.value.userId == booking.userId && r.value.roomId == booking.roomId
      && r.value.purpose == booking.purpose && r.value.status == CONFIRMED
      && r.value.startTime == booking.startTime.wall && r.value.endTime == booking.endTime.wall
      && r.value.createdAt == Some(DateTime(clock, None))
      && forall i :: 0 <= i < |old(db.bookings)| ==> old(db.bookings)[i].id != r.value.id
    ensures NoLaterClash(old(db.bookings)) ==> NoLaterClash(db.bookings)
    ensures WellFormed(old(db.bookings)) ==> WellFormed(db.bookings)
    ensures UniqueBy(old(db.bookings), BookingId) ==> UniqueBy(db.bookings, BookingId)
    ensures BookingRoomsExist(old(db.bookings), db.rooms) ==> BookingRoomsExist(db.bookings, db.rooms)
    ensures BookingUsersExist(old(db.bookings), db.users) ==> BookingUsersExist(db.bookings, db.users)
  {
    var v := ValidateRequest(db.users, db.rooms, db.bookings, booking, now);
    if v.Failure? {
      return Failure(v.error);
    }
    var id := NextId(db.bookings, BookingId);
    var b := NewBooking(id, booking.userId, booking.roomId, booking.startTime.wall, booking.endTime.wall,
                        booking.purpose, Some(CONFIRMED), clock);
    if NoLaterClash(db.bookings) {
      AppendKeepsNoLaterClash(db.bookings, b, None);
    }
    if UniqueBy(db.bookings, BookingId) {
      UniqueAppend(db.bookings, b, BookingId);
    }
    BookingService.AppendKeepsReferences(db.bookings, b, db.users, db.rooms);
    db.bookings := db.bookings + [b];
    return Success(b);
  }

  /**
   * A request for the same room shifted 30 minutes later than a live booking
   * longer than 30 minutes is refused as a conflict once the user, room and
   * time checks pass.
   */
  lemma ShiftedRequestConflicts(users: seq<User>, rooms: seq<Room>, bookings: seq<Booking>, k: nat,
                                booking: BookingCreate, now: int)
    requires NaiveRequest(booking)
    requires k < |bookings| && bookings[k].roomId == booking.roomId && bookings[k].status != CANCELLED
    requires bookings[k].endTime - bookings[k].startTime > 30
    requires booking.startTime.wall == bookings[k].startTime + 30 && booking.endTime.wall == bookings[k].endTime + 30
    requires IndexOfKey(users, UserId, booking.userId).Some?
    requires IndexOfKey(rooms, RoomId, booking.roomId).Some?
    requires rooms[IndexOfKey(rooms, RoomId, booking.roomId).value].isAvailable
    requires now <= booking.startTime.wall
    ensures ValidateRequest(users, rooms, bookings, booking, now) == Failure(TIME_CONFLICT)
  {
    assert Matches(bookings[k], booking.roomId, booking.startTime.wall, booking.endTime.wall, None);
  }
}
