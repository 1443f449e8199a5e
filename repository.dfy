/**
 * The user store and bcrypt helpers of auth-service/internal/repository/user_repository.go,
 * as the service uses them. The SQL is replaced by a sequence of rows whose ids are
 * assigned by auto-increment; the hashing is an opaque pair of functions.
 */
module Repository {
  import opened Results
  import opened Model

  /** `HashPassword` (which can fail) and `CheckPassword(password, hash) == nil`. */
  datatype PasswordHasher = PasswordHasher(hash: string -> Result<string, string>, check: (string, string) -> bool)

  const UserNotFound := "user not found"

  /** The first row with this email, as `SELECT ... WHERE email = ?` returns it. */
  function FirstWithEmail(rows: seq<User>, email: string): (r: Option<User>)
    ensures r.Some? ==> r.value in rows && r.value.email == email
    ensures r.None? ==> forall i :: 0 <= i < |rows| ==> rows[i].email != email
  {
    if |rows| == 0 then None
    else if rows[0].email == email then Some(rows[0])
    else FirstWithEmail(rows[1..], email)
  }

  /** The first row with this id, as `SELECT ... WHERE id = ?` returns it. */
  function FirstWithId(rows: seq<User>, id: int): (r: Option<User>)
    ensures r.Some? ==> r.value in rows && r.value.id == id
    ensures r.None? ==> forall i :: 0 <= i < |rows| ==> rows[i].id != id
  {
    if |rows| == 0 then None
    else if rows[0].id == id then Some(rows[0])
    else FirstWithId(rows[1..], id)
  }

  class UserRepository {
    var rows: seq<User>

    /** The users table: ids 1, 2, ... in insertion order, and a UNIQUE email column. */
    ghost predicate Valid()
      reads this
    {
      && (forall i :: 0 <= i < |rows| ==> rows[i].id == i + 1)
      && (forall i, j :: 0 <= i < j < |rows| ==> rows[i].email != rows[j].email)
    }

    constructor ()
      ensures Valid() && rows == []
    {
      rows := [];
    }

    function FindByEmail(email: string): (r: Result<User, string>)
      reads this
      ensures r.Ok? ==> r.value in rows && r.value.email == email
      ensures r.Err? ==> r.error == UserNotFound && forall i :: 0 <= i < |rows| ==> rows[i].email != email
    {
      match FirstWithEmail(rows, email)
      case Some(u) => Ok(u)
      case None => Err(UserNotFound)
    }

    function FindByID(id: int): (r: Result<User, string>)
      reads this
      ensures r.Ok? ==> r.value in rows && r.value.id == id
      ensures r.Err? ==> r.error == UserNotFound && forall i :: 0 <= i < |rows| ==> rows[i].id != id
    {
      match FirstWithId(rows, id)
      case Some(u) => Ok(u)
      case None => Err(UserNotFound)
    }

    /**
     * `CreateUser`: inserts the row and reports the id the table assigned (Go writes it
     * back into `user.ID`); a second row with the same email violates the UNIQUE key.
     */
    method CreateUser(user: User) returns (r: Result<int, string>)
      requires Valid()
      modifies this
      ensures Valid()
      ensures old(FindByEmail(user.email)).Ok? ==> r == Err("duplicate entry for key 'email'") && rows == old(rows)
      ensures old(FindByEmail(user.email)).Err? ==>
                r == Ok(|old(rows)| + 1) && rows == old(rows) + [user.(id := |old(rows)| + 1)]
    {
      if FindByEmail(user.email).Ok? {
        return Err("duplicate entry for key 'email'");
      }
      var id := |rows| + 1;
      rows := rows + [user.(id := id)];
      r := Ok(id);
    }
  }
}
