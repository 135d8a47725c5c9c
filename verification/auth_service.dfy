/** `auth_service`: registration and password login over the `users` table.
    Password hashing, verification and token creation belong to modules that
    are not part of this model; they are opaque functions here. */
module AuthService {
  import opened Common

  /** A row of `users`. */
  datatype User = User(id: int, username: string, hashedPassword: string)

  /** `hash_password`, `verify_password` and `create_access_token`. */
  datatype Security = Security(
    hashPassword: string -> string,
    verifyPassword: (string, string) -> bool,
    createAccessToken: map<string, string> -> string)

  /** The result of `register_user` and the table after it. */
  datatype Registration = Registration(registered: bool, users: seq<User>)

  /** The `unique=True` constraint on `users.username`. */
  predicate UniqueUsernames(users: seq<User>) {
    forall i, j :: 0 <= i < j < |users| ==> users[i].username != users[j].username
  }

  /** `db.query(User).filter(User.username == username).first()`. */
  function FindUser(users: seq<User>, username: string): (r: Option<User>)
    ensures r.None? <==> forall u :: u in users ==> u.username != username
    ensures r.Some? ==> r.value in users && r.value.username == username
  {
    if users == [] then None
    else if users[0].username == username then Some(users[0])
    else FindUser(users[1..], username)
  }

  /** The key the table assigns to the next row. */
  function NextUserId(users: seq<User>): int {
    if users == [] then 1 else users[|users| - 1].id + 1
  }

  /** `register_user(db, username, password)`. */
  function RegisterUser(users: seq<User>, username: string, password: string, sec: Security): (r: Registration)
    ensures r.registered <==> FindUser(users, username).None?
    ensures !r.registered ==> r.users == users
    ensures r.registered ==> |r.users| == |users| + 1 && r.users[..|users|] == users
  {
    if FindUser(users, username).Some? then Registration(false, users)
    else
      var row := User(NextUserId(users), username, sec.hashPassword(password));
      assert (users + [row])[..|users|] == users;
      Registration(true, users + [row])
  }

  /** `authenticate_user(db, username, password)`: an access token, or `None`. */
  function AuthenticateUser(users: seq<User>, username: string, password: string, sec: Security): (r: Option<string>)
    ensures (forall u :: u in users ==> u.username != username) ==> r.None?
    ensures r.Some? <==> FindUser(users, username).Some?
                         && sec.verifyPassword(password, FindUser(users, username).value.hashedPassword)
    ensures r.Some? ==> r.value == sec.createAccessToken(map["sub" := username])
  {
    match FindUser(users, username)
    case None => None
    case Some(u) =>
      if !sec.verifyPassword(password, u.hashedPassword) then None
      else Some(sec.createAccessToken(map["sub" := u.username]))
  }

  /** Registers each `(username, password)` request in turn. */
  function RegisterAll(users: seq<User>, requests: seq<(string, string)>, sec: Security): seq<User>
    decreases |requests|
  {
    if requests == [] then users
    else RegisterAll(RegisterUser(users, requests[0].0, requests[0].1, sec).users, requests[1..], sec)
  }

  // ---------------------------------------------------------------------------
  // Properties

  lemma {:induction false} FindInAppend(users: seq<User>, row: User, name: string)
    ensures FindUser(users + [row], name) ==
            if FindUser(users, name).Some? then FindUser(users, name)
            else if row.username == name then Some(row) else None
  {
    if users != [] {
      assert (users + [row])[1..] == users[1..] + [row];
      FindInAppend(users[1..], row, name);
    } else {
      assert [row][1..] == [];
    }
  }

  /** Registering a taken username fails and leaves the table as it was. */
  lemma RegisterTakenRejected(users: seq<User>, username: string, password: string, sec: Security)
    requires exists u :: u in users && u.username == username
    ensures RegisterUser(users, username, password, sec) == Registration(false, users)
  {
  }

  /** Registering a fresh username succeeds and adds exactly one row, which
      maps the username to the hash of the password; every other username
      is looked up as before. */
  lemma RegisterFreshAdds(users: seq<User>, username: string, password: string, sec: Security)
    requires forall u :: u in users ==> u.username != username
    ensures var r := RegisterUser(users, username, password, sec);
            && r.registered
            && |r.users| == |users| + 1
            && FindUser(r.users, username).Some?
            && FindUser(r.users, username).value.hashedPassword == sec.hashPassword(password)
            && forall other :: other != username ==> FindUser(r.users, other) == FindUser(users, other)
  {
    var row := User(NextUserId(users), username, sec.hashPassword(password));
    FindInAppend(users, row, username);
    forall other | other != username ensures FindUser(users + [row], other) == FindUser(users, other) {
      FindInAppend(users, row, other);
    }
  }

  /** A registration keeps usernames unique. */
  lemma RegisterKeepsUnique(users: seq<User>, username: string, password: string, sec: Security)
    requires UniqueUsernames(users)
    ensures UniqueUsernames(RegisterUser(users, username, password, sec).users)
  {
  }

  /** Usernames stay unique across any sequence of registrations. */
  lemma {:induction false} RegisterAllKeepsUnique(users: seq<User>, requests: seq<(string, string)>, sec: Security)
    requires UniqueUsernames(users)
    ensures UniqueUsernames(RegisterAll(users, requests, sec))
    decreases |requests|
  {
    if requests != [] {
      RegisterKeepsUnique(users, requests[0].0, requests[0].1, sec);
      RegisterAllKeepsUnique(RegisterUser(users, requests[0].0, requests[0].1, sec).users, requests[1..], sec);
    }
  }

  /** Login yields `None` for an unknown username and for a password the
      stored hash does not verify, and otherwise the token created for the
      claims `{"sub": username}`. */
  lemma AuthenticateOutcomes(users: seq<User>, username: string, password: string, sec: Security)
    ensures var r := AuthenticateUser(users, username, password, sec);
            && ((forall u :: u in users ==> u.username != username) ==> r.None?)
            && (r.Some? <==>
                  FindUser(users, username).Some?
                  && sec.verifyPassword(password, FindUser(users, username).value.hashedPassword))
            && (r.Some? ==> r.value == sec.createAccessToken(map["sub" := username]))
  {
  }

  /** A freshly registered user can log in with the password given at
      registration, whenever the hash verifies against its own password. */
  lemma RegisterThenAuthenticate(users: seq<User>, username: string, password: string, sec: Security)
    requires forall u :: u in users ==> u.username != username
    requires sec.verifyPassword(password, sec.hashPassword(password))
    ensures AuthenticateUser(RegisterUser(users, username, password, sec).users, username, password, sec)
            == Some(sec.createAccessToken(map["sub" := username]))
  {
    RegisterFreshAdds(users, username, password, sec);
  }
}
