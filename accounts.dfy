/**
 * Registration and login against the `users` table. The table is a sequence
 * of rows in insertion order; `.filter(...).first()` is the first row whose
 * column holds the value. SQL without `order_by` may return any matching
 * row; the choice is immaterial here because every lookup modelled is on a
 * unique column (username and email, database.py:21-22), where at most one
 * row matches.
 */
module Accounts {
  import opened Wrappers
  import opened Records
  import opened Passwords

  /**
   * The body of a registration request. `email` is the address after the
   * request schema's `EmailStr` validation and normalisation; the login form's
   * address is compared with it as given.
   */
  datatype Registration = Registration(username: string, email: string, password: string, fullName: string)

  /** The HTTP error a request fails with: status code and detail text. */
  datatype ApiError = ApiError(status: int, detail: string)

  const UsernameExists := ApiError(400, "Username already exists")
  const EmailExists := ApiError(400, "Email already exists")
  const InvalidCredentials := ApiError(401, "Invalid email or password")

  /** The two unique text columns of `users`. */
  datatype Column = Username | Email

  function ColumnOf(u: User, column: Column): string
  {
    match column
    case Username => u.username
    case Email => u.email
  }

  /** Some row holds `value` in `column`. */
  ghost predicate Taken(users: seq<User>, column: Column, value: string)
  {
    exists i :: 0 <= i < |users| && ColumnOf(users[i], column) == value
  }

  /** No two rows share a value in `column` (the column's unique constraint). */
  ghost predicate UniqueOn(users: seq<User>, column: Column)
  {
    forall i, j :: 0 <= i < |users| && 0 <= j < |users| && i != j ==>
      ColumnOf(users[i], column) != ColumnOf(users[j], column)
  }

  ghost predicate UniqueIds(users: seq<User>)
  {
    forall i, j :: 0 <= i < |users| && 0 <= j < |users| && i != j ==> users[i].id != users[j].id
  }

  /** `.filter(column == value).first()`, as the index of the row found. */
  function FindFirst(users: seq<User>, column: Column, value: string): (r: Option<nat>)
    ensures r.Some? ==> r.value < |users| && ColumnOf(users[r.value], column) == value
    ensures r.Some? ==> forall j :: 0 <= j < r.value ==> ColumnOf(users[j], column) != value
    ensures r.None? <==> !Taken(users, column, value)
  {
    if |users| == 0 then None
    else if ColumnOf(users[0], column) == value then Some(0)
    else match FindFirst(users[1..], column, value)
      case None =>
        assert forall j :: 1 <= j < |users| ==> users[j] == users[1..][j - 1];
        None
      case Some(k) => Some(k + 1)
  }

  /**
   * The row `register_user` inserts: active, with the submitted names and
   * email, and a stored password that the submitted one verifies against.
   */
  function NewUser(id: int, req: Registration, salt: string, digest: string -> string): (u: User)
    ensures u.id == id && u.username == req.username && u.email == req.email && u.fullName == req.fullName
    ensures u.isActive && u.hashedPassword == HashPassword(req.password, salt, digest)
    ensures Separator !in salt && Separator !in digest(req.password + salt) ==>
      VerifyPassword(req.password, u.hashedPassword, digest)
  {
    OwnHashVerifies(req.password, salt, digest);
    User(id, req.username, req.email, req.fullName, HashPassword(req.password, salt, digest), true)
  }

  /**
   * `login_user`: the id that the issued token names, or one and the same
   * error whether the email is unknown or the password wrong.
   */
  function Login(users: seq<User>, email: string, password: string, digest: string -> string): (r: Result<int, ApiError>)
    ensures r.Failure? ==> r.error == InvalidCredentials
    ensures r.Success? ==> exists i :: 0 <= i < |users| && users[i].email == email && users[i].id == r.value &&
                                        VerifyPassword(password, users[i].hashedPassword, digest)
    ensures UniqueOn(users, Email) ==> (r.Success? <==>
      exists i :: 0 <= i < |users| && users[i].email == email && VerifyPassword(password, users[i].hashedPassword, digest))
  {
    match FindFirst(users, Email, email)
    case None => Failure(InvalidCredentials)
    case Some(i) =>
      if VerifyPassword(password, users[i].hashedPassword, digest) then Success(users[i].id)
      else Failure(InvalidCredentials)
  }

  /**
   * A user just registered can log in with the password given at
   * registration, and with no password whose salted digest differs.
   */
  lemma RegisterThenLogin(users: seq<User>, id: int, req: Registration, candidate: string,
                          salt: string, digest: string -> string)
    requires !Taken(users, Email, req.email)
    requires Separator !in salt && Separator !in digest(req.password + salt)
    ensures Login(users + [NewUser(id, req, salt, digest)], req.email, req.password, digest) == Success(id)
    ensures Login(users + [NewUser(id, req, salt, digest)], req.email, candidate, digest).Success?
        <==> digest(candidate + salt) == digest(req.password + salt)
  {
    var extended := users + [NewUser(id, req, salt, digest)];
    assert forall j :: 0 <= j < |users| ==> extended[j] == users[j];
    assert ColumnOf(extended[|users|], Email) == req.email;
    assert FindFirst(extended, Email, req.email) == Some(|users|);
    VerifyHashed(req.password, req.password, salt, digest);
    VerifyHashed(req.password, candidate, salt, digest);
  }

  /** The `users` table; `nextId` stands for the database's key allocation. */
  class UserTable {
    var users: seq<User>
    var nextId: int

    /** The unique constraints on username and email, and distinct keys. */
    ghost predicate Valid()
      reads this
    {
      && UniqueOn(users, Username)
      && UniqueOn(users, Email)
      && UniqueIds(users)
      && forall i :: 0 <= i < |users| ==> users[i].id < nextId
    }

    constructor ()
      ensures Valid() && users == [] && nextId == 1
    {
      users := [];
      nextId := 1;
    }

    /**
     * `register_user`: a taken username is reported before the email is
     * looked at; otherwise a taken email is reported; otherwise exactly one
     * row is appended and no existing row changes.
     */
    method Register(req: Registration, salt: string, digest: string -> string) returns (r: Result<User, ApiError>)
      requires Valid()
      modifies this
      ensures Valid()
      ensures Taken(old(users), Username, req.username) ==>
        r == Failure(UsernameExists) && users == old(users) && nextId == old(nextId)
      ensures !Taken(old(users), Username, req.username) && Taken(old(users), Email, req.email) ==>
        r == Failure(EmailExists) && users == old(users) && nextId == old(nextId)
      ensures !Taken(old(users), Username, req.username) && !Taken(old(users), Email, req.email) ==>
        && r == Success(NewUser(old(nextId), req, salt, digest))
        && users == old(users) + [r.value]
        && nextId == old(nextId) + 1
    {
      if FindFirst(users, Username, req.username).Some? {
        return Failure(UsernameExists);
      }
      if FindFirst(users, Email, req.email).Some? {
        return Failure(EmailExists);
      }
      var u := NewUser(nextId, req, salt, digest);
      ghost var before := users;
      users := users + [u];
      nextId := nextId + 1;
      assert forall j :: 0 <= j < |before| ==> users[j] == before[j];
      r := Success(u);
    }
  }
}
