/**
 * The user service (backend/services/user_service.py): uniqueness checks
 * on username and email and the create / get / list / delete operations on
 * the users table. Password hashing is a parameter.
 */
module UserService {
  import opened Wrappers
  import opened Http
  import opened Timezone
  import opened Table
  import opened Models
  import opened Schemas
  import opened Store

  const USER_DELETED_MESSAGE := "用户已删除"

  /** `check_username_exists`: some user has exactly this username. */
  function CheckUsernameExists(users: seq<User>, username: string): (r: bool)
    ensures r <==> exists i :: 0 <= i < |users| && users[i].username == username
  {
    IndexOfKey(users, Username, username).Some?
  }

  /** `check_email_exists`: some user has exactly this email. */
  function CheckEmailExists(users: seq<User>, email: string): (r: bool)
    ensures r <==> exists i :: 0 <= i < |users| && users[i].email == email
  {
    IndexOfKey(users, Email, email).Some?
  }

  /**
   * `create_user`: 400 when the username is taken, else 400 when the email is
   * taken, else one new active user is appended holding `hash(password)`.
   */
  method CreateUser(db: Database, user: UserCreate, hash: string -> string, clock: int) returns (r: Result<User, HttpError>)
    modifies db`users
    ensures CheckUsernameExists(old(db.users), user.username) ==>
      r == Failure(USERNAME_EXISTS) && db.users == old(db.users)
    ensures !CheckUsernameExists(old(db.users), user.username) && CheckEmailExists(old(db.users), user.email) ==>
      r == Failure(EMAIL_EXISTS) && db.users == old(db.users)
    ensures !CheckUsernameExists(old(db.users), user.username) && !CheckEmailExists(old(db.users), user.email) ==>
      && r.Success? && db.users == old(db.users) + [r.value]
      && r.value.username == user.username && r.value.email == user.email && r.value.phone == user.phone
      && r.value.hashedPassword == hash(user.password)
      && r.value.isActive && r.value.createdAt == Some(DateTime(clock, None))
      && forall i :: 0 <= i < |old(db.users)| ==> old(db.users)[i].id != r.value.id
    ensures UsersConsistent(old(db.users)) ==> UsersConsistent(db.users)
  {
    if CheckUsernameExists(db.users, user.username) {
      return Failure(USERNAME_EXISTS);
    }
    if CheckEmailExists(db.users, user.email) {
      return Failure(EMAIL_EXISTS);
    }
    var hashedPassword := hash(user.password);
    var created := NewUser(NextId(db.users, UserId), user.username, user.email, user.phone, hashedPassword, clock);
    if UsersConsistent(db.users) {
      UniqueAppend(db.users, created, UserId);
      UniqueAppend(db.users, created, Username);
      UniqueAppend(db.users, created, Email);
    }
    db.users := db.users + [created];
    return Success(created);
  }

  /** `get_user_by_id`: the user with that id, or 404. */
  function GetUserById(users: seq<User>, userId: int): (r: Result<User, HttpError>)
    ensures r.Success? ==> r.value in users && r.value.id == userId
    ensures r.Failure? <==> forall i :: 0 <= i < |users| ==> users[i].id != userId
    ensures r.Failure? ==> r.error == USER_NOT_FOUND
  {
    match IndexOfKey(users, UserId, userId)
    case None => Failure(USER_NOT_FOUND)
    case Some(k) => Success(users[k])
  }

  /**
   * `delete_user`: 404 for a missing id. A user that any booking refers to,
   * cancelled or not, cannot be deleted: the ORM sets those bookings'
   * `user_id` to NULL, the NOT NULL column rejects the commit, and the request
   * fails as an unhandled error with nothing removed. Otherwise exactly that
   * user is removed.
   */
  method DeleteUser(db: Database, userId: int) returns (r: Result<string, HttpError>)
    modifies db`users
    ensures match IndexOfKey(old(db.users), UserId, userId)
            case None => r == Failure(USER_NOT_FOUND) && db.users == old(db.users)
            case Some(k) =>
              if UserInUse(db.bookings, userId) then
                r == Failure(INTERNAL_ERROR) && db.users == old(db.users)
              else
                r == Success(USER_DELETED_MESSAGE) && db.users == RemoveAt(old(db.users), k)
    ensures UsersConsistent(old(db.users)) ==> UsersConsistent(db.users)
    ensures BookingUsersExist(db.bookings, old(db.users)) ==> BookingUsersExist(db.bookings, db.users)
  {
    var found := IndexOfKey(db.users, UserId, userId);
    if found.None? {
      return Failure(USER_NOT_FOUND);
    }
    var k := found.value;
    if UserInUse(db.bookings, userId) {
      // the commit of the nulled `bookings.user_id` fails on NOT NULL
      return Failure(INTERNAL_ERROR);
    }
    if BookingUsersExist(db.bookings, db.users) {
      RemoveUnusedUserKeepsReferences(db.bookings, db.users, k);
    }
    if UsersConsistent(db.users) {
      UniqueRemove(db.users, k, UserId);
      UniqueRemove(db.users, k, Username);
      UniqueRemove(db.users, k, Email);
    }
    db.users := RemoveAt(db.users, k);
    return Success(USER_DELETED_MESSAGE);
  }

  /** Removing a user no booking refers to leaves every booking's user in place. */
  lemma RemoveUnusedUserKeepsReferences(bookings: seq<Booking>, users: seq<User>, k: nat)
    requires k < |users| && !UserInUse(bookings, users[k].id)
    requires BookingUsersExist(bookings, users)
    ensures BookingUsersExist(bookings, RemoveAt(users, k))
  {
    forall i | 0 <= i < |bookings|
      ensures HasUser(RemoveAt(users, k), bookings[i].userId)
    {
      var r := RemoveAt(users, k);
      var j :| 0 <= j < |users| && users[j].id == bookings[i].userId;
      assert j != k by { assert bookings[i].userId != users[k].id; }
      var j' := if j < k then j else j - 1;
      assert 0 <= j' < |r| && r[j'] == users[j];
    }
  }
}
