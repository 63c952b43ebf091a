/**
 * The room router (backend/routers/rooms.py). Its `create_room`, `get_room`
 * and `delete_room` perform the service's steps and are modelled by the
 * members of `RoomService`; its `update_room` differs: it checks no name.
 */
module RoomRouter {
  import opened Wrappers
  import opened Http
  import opened Table
  import opened Models
  import opened Schemas
  import opened Store
  import RoomService

  /** Another row than `k` already holds `name`. */
  predicate NameHeldElsewhere(rooms: seq<Room>, k: nat, name: string) {
    exists j :: 0 <= j < |rooms| && j != k && rooms[j].name == name
  }

  /**
   * `update_room` (router): 404 for a missing id; otherwise the fields are
   * overwritten without any name check, so a rename onto another room's name
   * reaches the commit, where the unique index on `rooms.name` rejects it and
   * the request fails as an unhandled error with nothing changed.
   */
  method UpdateRoom(db: Database, roomId: int, room: RoomCreate) returns (r: Result<Room, HttpError>)
    modifies db`rooms
    ensures match IndexOfKey(old(db.rooms), RoomId, roomId)
            case None => r == Failure(ROOM_NOT_FOUND) && db.rooms == old(db.rooms)
            case Some(k) =>
              if NameHeldElsewhere(old(db.rooms), k, room.name) then
                r == Failure(INTERNAL_ERROR) && db.rooms == old(db.rooms)
              else
                var updated := Overwrite(old(db.rooms)[k], room.name, room.location, room.capacity, room.description);
                r == Success(updated) && db.rooms == old(db.rooms)[k := updated]
    ensures RoomsConsistent(old(db.rooms)) ==> RoomsConsistent(db.rooms)
  {
    var found := IndexOfKey(db.rooms, RoomId, roomId);
    if found.None? {
      return Failure(ROOM_NOT_FOUND);
    }
    var k := found.value;
    var updated := Overwrite(db.rooms[k], room.name, room.location, room.capacity, room.description);
    if NameHeldElsewhere(db.rooms, k, room.name) {
      // the commit of `db_room.name = room.name` fails on the unique index
      return Failure(INTERNAL_ERROR);
    }
    if RoomsConsistent(db.rooms) {
      UpdateKeepsConsistent(db.rooms, k, room);
    }
    db.rooms := db.rooms[k := updated];
    return Success(updated);
  }

  /**
   * On a consistent table the router's update and the service's update
   * decide alike except for a rename onto another room's name, which the
   * service answers with 400 and the router with 500.
   */
  lemma UpdateAgreesWithService(rooms: seq<Room>, k: nat, room: RoomCreate)
    requires RoomsConsistent(rooms)
    requires k < |rooms|
    ensures NameHeldElsewhere(rooms, k, room.name) <==>
      room.name != rooms[k].name && RoomService.CheckRoomNameExists(rooms, room.name, Some(rooms[k].id))
  {
    if NameHeldElsewhere(rooms, k, room.name) {
      var j :| 0 <= j < |rooms| && j != k && rooms[j].name == room.name;
      if j < k {
        assert RoomName(rooms[j]) != RoomName(rooms[k]);
        assert RoomId(rooms[j]) != RoomId(rooms[k]);
      } else {
        assert RoomName(rooms[k]) != RoomName(rooms[j]);
        assert RoomId(rooms[k]) != RoomId(rooms[j]);
      }
    }
    if room.name != rooms[k].name && RoomService.CheckRoomNameExists(rooms, room.name, Some(rooms[k].id)) {
      var j :| 0 <= j < |rooms| && rooms[j].name == room.name
               && !(IsTruthy(Some(rooms[k].id)) && rooms[j].id == rooms[k].id);
      assert j != k;
    }
  }

  /**
   * The router's update keeps ids and names unique too, because the unique
   * index rejects the rename the router does not check.
   */
  lemma UpdateKeepsConsistent(rooms: seq<Room>, k: nat, room: RoomCreate)
    requires RoomsConsistent(rooms) && k < |rooms|
    requires !NameHeldElsewhere(rooms, k, room.name)
    ensures RoomsConsistent(rooms[k := Overwrite(rooms[k], room.name, room.location, room.capacity, room.description)])
  {
    var updated := Overwrite(rooms[k], room.name, room.location, room.capacity, room.description);
    forall j | 0 <= j < |rooms| && j != k ensures RoomId(rooms[j]) != RoomId(updated) {
      if j < k { assert RoomId(rooms[j]) != RoomId(rooms[k]); } else { assert RoomId(rooms[k]) != RoomId(rooms[j]); }
    }
    UniqueReplace(rooms, k, updated, RoomId);
    UniqueReplace(rooms, k, updated, RoomName);
  }
}
