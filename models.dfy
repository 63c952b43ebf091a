/**
 * The three tables of the backend (backend/models.py) as record types, with
 * their column defaults and unique constraints.
 */
module Models {
  import opened Wrappers
  import opened Timezone
  import opened Table

  /** The documented values of `Booking.status`. */
  const PENDING := "pending"
  const CONFIRMED := "confirmed"
  const CANCELLED := "cancelled"

  datatype User = User(
    id: int,
    username: string,
    email: string,
    phone: Option<string>,
    hashedPassword: string,
    isActive: bool,
    createdAt: Option<DateTime>)

  datatype Room = Room(
    id: int,
    name: string,
    location: string,
    capacity: int,
    description: Option<string>,
    isAvailable: bool,
    createdAt: Option<DateTime>)

  /**
   * A booking. User, room, start and end are required columns; the start and
   * end columns hold naive datetimes, so the model keeps their wall-clock reading.
   */
  datatype Booking = Booking(
    id: int,
    userId: int,
    roomId: int,
    startTime: int,
    endTime: int,
    purpose: Option<string>,
    status: string,
    createdAt: Option<DateTime>)

  // Keys of the indexed and unique columns.
  function UserId(u: User): int { u.id }
  function Username(u: User): string { u.username }
  function Email(u: User): string { u.email }
  function RoomId(r: Room): int { r.id }
  function RoomName(r: Room): string { r.name }
  function BookingId(b: Booking): int { b.id }

  /** A fresh `User` row: `is_active` defaults to true and `created_at` to the server's naive clock. */
  function NewUser(id: int, username: string, email: string, phone: Option<string>, hashedPassword: string, clock: int): (u: User)
    ensures u.isActive
    ensures u.createdAt == Some(DateTime(clock, None))
    ensures u.id == id && u.username == username && u.email == email && u.phone == phone
    ensures u.hashedPassword == hashedPassword
  {
    User(id, username, email, phone, hashedPassword, true, Some(DateTime(clock, None)))
  }

  /** A fresh `Room` row: `is_available` defaults to true and `created_at` to the server's naive clock. */
  function NewRoom(id: int, name: string, location: string, capacity: int, description: Option<string>, clock: int): (r: Room)
    ensures r.isAvailable
    ensures r.createdAt == Some(DateTime(clock, None))
    ensures r.id == id && r.name == name && r.location == location && r.capacity == capacity
    ensures r.description == description
  {
    Room(id, name, location, capacity, description, true, Some(DateTime(clock, None)))
  }

  /** A fresh `Booking` row: `status` defaults to "pending" when none is given. */
  function NewBooking(id: int, userId: int, roomId: int, startTime: int, endTime: int,
                      purpose: Option<string>, status: Option<string>, clock: int): (b: Booking)
    ensures status.None? ==> b.status == PENDING
    ensures status.Some? ==> b.status == status.value
    ensures b.createdAt == Some(DateTime(clock, None))
    ensures b.id == id && b.userId == userId && b.roomId == roomId
    ensures b.startTime == startTime && b.endTime == endTime && b.purpose == purpose
  {
    var s := match status case None => PENDING case Some(v) => v;
    Booking(id, userId, roomId, startTime, endTime, purpose, s, Some(DateTime(clock, None)))
  }

  /** The unique constraints of the users table: id, username and email. */
  predicate UsersConsistent(users: seq<User>) {
    UniqueBy(users, UserId) && UniqueBy(users, Username) && UniqueBy(users, Email)
  }

  /** The unique constraints of the rooms table: id and name. */
  predicate RoomsConsistent(rooms: seq<Room>) {
    UniqueBy(rooms, RoomId) && UniqueBy(rooms, RoomName)
  }

  /** Some booking refers to the room with this id: the room's `bookings` relationship is not empty. */
  predicate RoomInUse(bookings: seq<Booking>, roomId: int) {
    exists i :: 0 <= i < |bookings| && bookings[i].roomId == roomId
  }

  /** Some booking refers to the user with this id: the user's `bookings` relationship is not empty. */
  predicate UserInUse(bookings: seq<Booking>, userId: int) {
    exists i :: 0 <= i < |bookings| && bookings[i].userId == userId
  }

  predicate HasRoom(rooms: seq<Room>, id: int) {
    exists j :: 0 <= j < |rooms| && rooms[j].id == id
  }

  predicate HasUser(users: seq<User>, id: int) {
    exists j :: 0 <= j < |users| && users[j].id == id
  }

  /** The foreign key `bookings.room_id`: every booking names a stored room. */
  predicate BookingRoomsExist(bookings: seq<Booking>, rooms: seq<Room>) {
    forall i :: 0 <= i < |bookings| ==> HasRoom(rooms, bookings[i].roomId)
  }

  /** The foreign key `bookings.user_id`: every booking names a stored user. */
  predicate BookingUsersExist(bookings: seq<Booking>, users: seq<User>) {
    forall i :: 0 <= i < |bookings| ==> HasUser(users, bookings[i].userId)
  }

  /** The room after an update overwrites its name, location, capacity and description. */
  function Overwrite(room: Room, name: string, location: string, capacity: int, description: Option<string>): (r: Room)
    ensures r.id == room.id && r.isAvailable == room.isAvailable && r.createdAt == room.createdAt
    ensures r.name == name && r.location == location && r.capacity == capacity && r.description == description
  {
    room.(name := name, location := location, capacity := capacity, description := description)
  }
}

/** The request bodies the backend accepts (backend/schemas.py), without pydantic's own checks. */
module Schemas {
  import opened Wrappers
  import opened Timezone

  datatype UserCreate = UserCreate(username: string, email: string, phone: Option<string>, password: string)

  datatype RoomCreate = RoomCreate(name: string, location: string, capacity: int, description: Option<string>)

  datatype BookingCreate = BookingCreate(
    userId: int,
    roomId: int,
    startTime: DateTime,
    endTime: DateTime,
    purpose: Option<string>)
}

/** The database session: the three tables, each a sequence of rows in insertion order. */
module Store {
  import opened Models

  class Database {
    var users: seq<User>
    var rooms: seq<Room>
    var bookings: seq<Booking>

    constructor ()
      ensures users == [] && rooms == [] && bookings == []
    {
      users, rooms, bookings := [], [], [];
    }
  }
}
