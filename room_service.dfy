/**
 * The room service (backend/services/room_service.py): name uniqueness
 * checks and the create / get / list / update / delete operations on the
 * rooms table.
 */
module RoomService {
  import opened Wrappers
  import opened Http
  import opened Timezone
  import opened Table
  import opened Models
  import opened Schemas
  import opened Store

  const ROOM_DELETED_MESSAGE := "会议室已删除"

  /**
   * `check_room_name_exists`: some room has the name, other than the room
   * whose id is excluded (the exclusion applies only to a truthy id).
   */
  function CheckRoomNameExists(rooms: seq<Room>, name: string, excludeId: Option<int>): (r: bool)
    ensures r <==> exists i :: 0 <= i < |rooms| && rooms[i].name == name
                              && !(IsTruthy(excludeId) && rooms[i].id == excludeId.value)
  {
    if |rooms| == 0 then false
    else if rooms[0].name == name && !(IsTruthy(excludeId) && rooms[0].id == excludeId.value) then true
    else
      var rest := CheckRoomNameExists(rooms[1..], name, excludeId);
      assert rest ==> exists i :: 0 <= i < |rooms| && rooms[i].name == name
                                  && !(IsTruthy(excludeId) && rooms[i].id == excludeId.value) by {
        if rest {
          var i :| 0 <= i < |rooms[1..]| && rooms[1..][i].name == name
                   && !(IsTruthy(excludeId) && rooms[1..][i].id == excludeId.value);
          assert rooms[i + 1] == rooms[1..][i];
        }
      }
      rest
  }

  /**
   * With ids and names unique, a room's own name is taken, but not once the
   * room itself is excluded by its (nonzero) id.
   */
  lemma OwnNameExcluded(rooms: seq<Room>, k: nat)
    requires RoomsConsistent(rooms)
    requires k < |rooms| && rooms[k].id != 0
    ensures CheckRoomNameExists(rooms, rooms[k].name, None)
    ensures !CheckRoomNameExists(rooms, rooms[k].name, Some(rooms[k].id))
  {
    forall i | 0 <= i < |rooms| && RoomName(rooms[i]) == RoomName(rooms[k])
      ensures i == k
    {
    }
  }

  /** `create_room`: 400 when the name is taken, otherwise one new available room is appended. */
  method CreateRoom(db: Database, room: RoomCreate, clock: int) returns (r: Result<Room, HttpError>)
    modifies db`rooms
    ensures CheckRoomNameExists(old(db.rooms), room.name, None) ==>
      r == Failure(ROOM_NAME_EXISTS) && db.rooms == old(db.rooms)
    ensures !CheckRoomNameExists(old(db.rooms), room.name, None) ==>
      && r.Success? && db.rooms == old(db.rooms) + [r.value]
      && r.value.name == room.name && r.value.location == room.location
      && r.value.capacity == room.capacity && r.value.description == room.description
      && r.value.isAvailable && r.value.createdAt == Some(DateTime(clock, None))
      && forall i :: 0 <= i < |old(db.rooms)| ==> old(db.rooms)[i].id != r.value.id
    ensures RoomsConsistent(old(db.rooms)) ==> RoomsConsistent(db.rooms)
  {
    if CheckRoomNameExists(db.rooms, room.name, None) {
      return Failure(ROOM_NAME_EXISTS);
    }
    var created := NewRoom(NextId(db.rooms, RoomId), room.name, room.location, room.capacity, room.description, clock);
    if RoomsConsistent(db.rooms) {
      UniqueAppend(db.rooms, created, RoomId);
      UniqueAppend(db.rooms, created, RoomName);
    }
    db.rooms := db.rooms + [created];
    return Success(created);
  }

  /** `get_room_by_id`: the room with that id, or 404. */
  function GetRoomById(rooms: seq<Room>, roomId: int): (r: Result<Room, HttpError>)
    ensures r.Success? ==> r.value in rooms && r.value.id == roomId
    ensures r.Failure? <==> forall i :: 0 <= i < |rooms| ==> rooms[i].id != roomId
    ensures r.Failure? ==> r.error == ROOM_NOT_FOUND
  {
    match IndexOfKey(rooms, RoomId, roomId)
    case None => Failure(ROOM_NOT_FOUND)
    case Some(k) => Success(rooms[k])
  }

  /**
   * `update_room`: 404 for a missing id; 400 with nothing changed when the
   * name changes to one another room holds; otherwise the room's name,
   * location, capacity and description are overwritten in place.
   */
  method UpdateRoom(db: Database, roomId: int, room: RoomCreate) returns (r: Result<Room, HttpError>)
    modifies db`rooms
    ensures match IndexOfKey(old(db.rooms), RoomId, roomId)
            case None => r == Failure(ROOM_NOT_FOUND) && db.rooms == old(db.rooms)
            case Some(k) =>
              if room.name != old(db.rooms)[k].name && CheckRoomNameExists(old(db.rooms), room.name, Some(roomId)) then
                r == Failure(ROOM_NAME_EXISTS) && db.rooms == old(db.rooms)
              else
                var updated := Overwrite(old(db.rooms)[k], room.name, room.location, room.capacity, room.description);
                r == Success(updated) && db.rooms == old(db.rooms)[k := updated]
    ensures RoomsConsistent(old(db.rooms)) ==> RoomsConsistent(db.rooms)
  {
    var found := IndexOfKey(db.rooms, RoomId, roomId);
    if found.None? {
      return Failure(ROOM_NOT_FOUND);
    }
    var k := found.value;
    if room.name != db.rooms[k].name && CheckRoomNameExists(db.rooms, room.name, Some(roomId)) {
      return Failure(ROOM_NAME_EXISTS);
    }
    var updated := Overwrite(db.rooms[k], room.name, room.location, room.capacity, room.description);
    if RoomsConsistent(db.rooms) {
      UpdateKeepsNamesUnique(db.rooms, k, updated);
    }
    db.rooms := db.rooms[k := updated];
    return Success(updated);
  }

  /** The service's rename check is enough to keep ids and names unique. */
  lemma UpdateKeepsNamesUnique(rooms: seq<Room>, k: nat, updated: Room)
    requires RoomsConsistent(rooms) && k < |rooms|
    requires updated.id == rooms[k].id
    requires updated.name == rooms[k].name || !CheckRoomNameExists(rooms, updated.name, Some(rooms[k].id))
    ensures RoomsConsistent(rooms[k := updated])
  {
    forall j | 0 <= j < |rooms| && j != k ensures RoomId(rooms[j]) != RoomId(updated) {
      if j < k { assert RoomId(rooms[j]) != RoomId(rooms[k]); } else { assert RoomId(rooms[k]) != RoomId(rooms[j]); }
    }
    forall j | 0 <= j < |rooms| && j != k ensures RoomName(rooms[j]) != RoomName(updated) {
      if j < k { assert RoomName(rooms[j]) != RoomName(rooms[k]); } else { assert RoomName(rooms[k]) != RoomName(rooms[j]); }
    }
    UniqueReplace(rooms, k, updated, RoomId);
    UniqueReplace(rooms, k, updated, RoomName);
  }

  /**
   * `delete_room`: 404 for a missing id. A room that any booking refers to,
   * cancelled or not, cannot be deleted: the ORM sets those bookings'
   * `room_id` to NULL, the NOT NULL column rejects the commit, and the request
   * fails as an unhandled error with nothing removed. Otherwise exactly that
   * room is removed.
   */
  method DeleteRoom(db: Database, roomId: int) returns (r: Result<string, HttpError>)
    modifies db`rooms
    ensures match IndexOfKey(old(db.rooms), RoomId, roomId)
            case None => r == Failure(ROOM_NOT_FOUND) && db.rooms == old(db.rooms)
            case Some(k) =>
              if RoomInUse(db.bookings, roomId) then
                r == Failure(INTERNAL_ERROR) && db.rooms == old(db.rooms)
              else
                r == Success(ROOM_DELETED_MESSAGE) && db.rooms == RemoveAt(old(db.rooms), k)
    ensures RoomsConsistent(old(db.rooms)) ==> RoomsConsistent(db.rooms)
    ensures BookingRoomsExist(db.bookings, old(db.rooms)) ==> BookingRoomsExist(db.bookings, db.rooms)
  {
    var found := IndexOfKey(db.rooms, RoomId, roomId);
    if found.None? {
      return Failure(ROOM_NOT_FOUND);
    }
    var k := found.value;
    if RoomInUse(db.bookings, roomId) {
      // the commit of the nulled `bookings.room_id` fails on NOT NULL
      return Failure(INTERNAL_ERROR);
    }
    if RoomsConsistent(db.rooms) {
      UniqueRemove(db.rooms, k, RoomId);
      UniqueRemove(db.rooms, k, RoomName);
    }
    if BookingRoomsExist(db.bookings, db.rooms) {
      RemoveUnusedRoomKeepsReferences(db.bookings, db.rooms, k);
    }
    db.rooms := RemoveAt(db.rooms, k);
    return Success(ROOM_DELETED_MESSAGE);
  }

  /** Removing a room no booking refers to leaves every booking's room in place. */
  lemma RemoveUnusedRoomKeepsReferences(bookings: seq<Booking>, rooms: seq<Room>, k: nat)
    requires k < |rooms| && !RoomInUse(bookings, rooms[k].id)
    requires BookingRoomsExist(bookings, rooms)
    ensures BookingRoomsExist(bookings, RemoveAt(rooms, k))
  {
    forall i | 0 <= i < |bookings|
      ensures HasRoom(RemoveAt(rooms, k), bookings[i].roomId)
    {
      var r := RemoveAt(rooms, k);
      var j :| 0 <= j < |rooms| && rooms[j].id == bookings[i].roomId;
      assert j != k by { assert bookings[i].roomId != rooms[k].id; }
      var j' := if j < k then j else j - 1;
      assert 0 <= j' < |r| && r[j'] == rooms[j];
    }
  }
}
