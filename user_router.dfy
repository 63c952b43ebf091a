/**
 * The user router (backend/routers/users.py). Its `create_user` and
 * `delete_user` perform the service's steps and are modelled by the members
 * of `UserService`; what it adds is the UTC tagging of `created_at` on the
 * users it returns.
 */
module UserRouter {
  import opened Wrappers
  import opened Http
  import opened Timezone
  import opened Table
  import opened Models
  import opened Store
  import UserService

  /** One user as `add_timezone_to_users` leaves it: a naive `created_at` tagged UTC, nothing else touched. */
  function TagCreatedAt(u: User): (t: User)
    ensures t.createdAt.None? <==> u.createdAt.None?
    ensures t.createdAt.Some? ==> IsAware(t.createdAt.value) && t.createdAt.value.wall == u.createdAt.value.wall
    ensures u.createdAt.Some? && !IsAware(u.createdAt.value) ==> t.createdAt.value.offset == Some(UTC)
    ensures u.createdAt.Some? && IsAware(u.createdAt.value) ==> t == u
    ensures t.(createdAt := u.createdAt) == u
  {
    match u.createdAt
    case None => u
    case Some(dt) => if dt.offset.None? then u.(createdAt := Some(DateTime(dt.wall, Some(UTC)))) else u
  }

  /** The router's tagging is the timezone utility's `make_aware`, and tagging twice is tagging once. */
  lemma TagIsMakeAware(u: User)
    ensures TagCreatedAt(u).createdAt == MakeAware(u.createdAt)
    ensures TagCreatedAt(TagCreatedAt(u)) == TagCreatedAt(u)
  {
  }

  /** `add_timezone_to_users`: every user in the list is tagged in place. */
  method AddTimezoneToUsers(users: array<User>)
    modifies users
    ensures forall i :: 0 <= i < users.Length ==> users[i] == TagCreatedAt(old(users[i]))
  {
    var i := 0;
    while i < users.Length
      invariant 0 <= i <= users.Length
      invariant forall j :: 0 <= j < i ==> users[j] == TagCreatedAt(old(users[j]))
      invariant forall j :: i <= j < users.Length ==> users[j] == old(users[j])
    {
      var user := users[i];
      if user.createdAt.Some? && user.createdAt.value.offset.None? {
        users[i] := user.(createdAt := Some(DateTime(user.createdAt.value.wall, Some(UTC))));
      }
      i := i + 1;
    }
  }

  /** `get_users` (router): the requested page, each user tagged. */
  method GetUsers(db: Database, skip: nat, limit: nat) returns (r: seq<User>)
    ensures |r| == |Page(db.users, skip, limit)|
    ensures forall j :: 0 <= j < |r| ==> r[j] == TagCreatedAt(db.users[skip + j])
  {
    var page := Page(db.users, skip, limit);
    var users := new User[|page|](j requires 0 <= j < |page| => page[j]);
    AddTimezoneToUsers(users);
    r := users[..];
  }

  /** `get_user` (router): 404 for a missing id, otherwise that user tagged. */
  method GetUser(db: Database, userId: int) returns (r: Result<User, HttpError>)
    ensures r.Failure? <==> UserService.GetUserById(db.users, userId).Failure?
    ensures r.Failure? ==> r.error == USER_NOT_FOUND
    ensures r.Success? ==> r.value == TagCreatedAt(UserService.GetUserById(db.users, userId).value)
  {
    var found := IndexOfKey(db.users, UserId, userId);
    if found.None? {
      return Failure(USER_NOT_FOUND);
    }
    var user := db.users[found.value];
    var users := new User[1](_ => user);
    AddTimezoneToUsers(users);
    return Success(users[0]);
  }
}
