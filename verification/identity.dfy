/** The users table of the banking app: registration and login. bcrypt is a
    foreign library, so hashing and checking are parameters: `hashpw` turns a
    password and a salt into a stored hash, `checkpw` tests a password against
    one, and the salt `gensalt` would draw is an input. */
module Identity {
  import opened Wrappers

  /** A row of the users table; `id` is the AUTOINCREMENT key. */
  datatype User = User(id: nat, username: string, passwordHash: string, email: string)

  /** The users table after a registration attempt, and whether it succeeded. */
  datatype Registration = Registration(users: seq<User>, ok: bool)

  /** The table as the schema keeps it: ids 1, 2, 3, ... in insertion order
      (no row is ever deleted), and usernames and emails UNIQUE. */
  ghost predicate WellFormed(users: seq<User>)
  {
    && (forall i :: 0 <= i < |users| ==> users[i].id == i + 1)
    && (forall i, j :: 0 <= i < j < |users| ==>
          users[i].username != users[j].username && users[i].email != users[j].email)
  }

  /** Some row already holds the username or the email. */
  predicate Taken(users: seq<User>, username: string, email: string)
  {
    exists i :: 0 <= i < |users| && (users[i].username == username || users[i].email == email)
  }

  /** register_user: the INSERT succeeds unless a UNIQUE constraint fires, in
      which case the table is left exactly as it was. */
  function RegisterUser(
    users: seq<User>, username: string, password: string, email: string,
    salt: string, hashpw: (string, string) -> string): (r: Registration)
    ensures r.ok <==> !Taken(users, username, email)
    ensures !r.ok ==> r.users == users
    ensures r.ok ==> |r.users| == |users| + 1 && r.users[..|users|] == users
    ensures r.ok ==> r.users[|users|] == User(|users| + 1, username, hashpw(password, salt), email)
    ensures WellFormed(users) ==> WellFormed(r.users)
  {
    if Taken(users, username, email) then Registration(users, false)
    else Registration(users + [User(|users| + 1, username, hashpw(password, salt), email)], true)
  }

  /** The row `fetchone` returns for `SELECT ... WHERE username = ?`: the first
      one holding the username. */
  function FindUser(users: seq<User>, username: string): (r: Option<nat>)
    ensures r.Some? ==> r.value < |users| && users[r.value].username == username
    ensures r.Some? ==> forall j :: 0 <= j < r.value ==> users[j].username != username
    ensures r.None? ==> forall j :: 0 <= j < |users| ==> users[j].username != username
  {
    if users == [] then None
    else if users[0].username == username then Some(0)
    else match FindUser(users[1..], username)
      case Some(k) => Some(k + 1)
      case None => None
  }

  /** authenticate_user: the id of the user with that username, provided the
      password checks against the stored hash. An unknown username and a wrong
      password give the same answer. */
  function AuthenticateUser(users: seq<User>, username: string, password: string, checkpw: (string, string) -> bool): (r: Option<nat>)
    ensures r.Some? ==> exists i :: 0 <= i < |users| && users[i].username == username
                                    && checkpw(password, users[i].passwordHash) && users[i].id == r.value
    ensures WellFormed(users) ==>
      (r.Some? <==> exists i :: 0 <= i < |users| && users[i].username == username
                                && checkpw(password, users[i].passwordHash))
  {
    match FindUser(users, username)
    case None => None
    case Some(i) => if checkpw(password, users[i].passwordHash) then Some(users[i].id) else None
  }

  /** A user who has just registered can log in with the same password (given
      that bcrypt accepts a password against its own hash), and gets the new id. */
  lemma RegisterThenAuthenticate(
    users: seq<User>, username: string, password: string, email: string,
    salt: string, hashpw: (string, string) -> string, checkpw: (string, string) -> bool)
    requires WellFormed(users)
    requires !Taken(users, username, email)
    requires checkpw(password, hashpw(password, salt))
    ensures AuthenticateUser(RegisterUser(users, username, password, email, salt, hashpw).users, username, password, checkpw)
            == Some(|users| + 1)
  {
  }

  /** Registering an already-taken username fails, whatever the email, and the
      existing user's row is untouched. */
  lemma DuplicateUsernameRejected(
    users: seq<User>, k: nat, password: string, email: string,
    salt: string, hashpw: (string, string) -> string)
    requires k < |users|
    ensures var r := RegisterUser(users, users[k].username, password, email, salt, hashpw);
      !r.ok && r.users[k] == users[k]
  {
  }
}
