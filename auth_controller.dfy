/** The account handlers. `register` appends to the shared `users` array; `login` only
    reads it. Password hashing and comparison (bcrypt) and token signing (JWT) are
    parameters: `hash`, `compare` and `sign`. */
module AuthController {
  import opened Js
  import opened Http
  import opened Data
  import opened Validation

  const EmailExists := "Email already exists"
  const UserRegistered := "User registered successfully"
  const UserNotFound := "User not found"
  const InvalidPassword := "Invalid password"

  /** The user as the login reply shows it: every field but the password. */
  datatype PublicUser = PublicUser(id: string, name: string, email: string, role: string)

  /** The login reply's body: the signed token and the public user. */
  datatype Session = Session(token: string, user: PublicUser)

  /** `const { role = "attendee" } = req.body`: the default replaces a missing role only, so
      an empty role is kept as it is. */
  function RoleOrDefault(role: Option<string>): (stored: string) {
    match role
    case None => Attendee
    case Some(r) => r
  }

  /** The role a successful registration stores: the default when none was sent, and
      otherwise one of the two roles or the empty string, which validation lets through. */
  lemma RegisteredRole(body: RegistrationBody)
    requires ValidateRegistration(body).None?
    ensures body.role.None? ==> RoleOrDefault(body.role) == Attendee
    ensures RoleOrDefault(body.role) in {Attendee, Organizer, ""}
  {
  }

  /** `register`: validation, then the duplicate-email check, then the append of one user
      holding the hash of the password. */
  method Register(db: Store, body: RegistrationBody, freshId: string, hash: string -> string)
    returns (r: Reply<()>)
    requires db.Valid()
    modifies db`users
    ensures db.Valid()
    ensures ValidateRegistration(body).Some? ==>
      r == Reply(400, ValidateRegistration(body).value, None) && db.users == old(db.users)
    ensures ValidateRegistration(body).None? && UserIndexByEmail(old(db.users), body.email.value) != -1 ==>
      r == Reply(400, EmailExists, None) && db.users == old(db.users)
    ensures ValidateRegistration(body).None? && UserIndexByEmail(old(db.users), body.email.value) == -1 ==>
      && r == Reply(201, UserRegistered, None)
      && db.users == old(db.users) + [User(freshId, body.name.value, body.email.value,
                                          hash(body.password.value), RoleOrDefault(body.role))]
    ensures r.status == 201 ==> UserIndexByEmail(db.users, body.email.value) != -1
  {
    var err := ValidateRegistration(body);
    if err.Some? {
      return Reply(400, err.value, None);
    }
    var email := body.email.value;
    if UserIndexByEmail(db.users, email) != -1 {
      return Reply(400, EmailExists, None);
    }
    var user := User(freshId, body.name.value, email, hash(body.password.value), RoleOrDefault(body.role));
    db.users := db.users + [user];
    assert db.users[|db.users| - 1].email == email;
    r := Reply(201, UserRegistered, None);
  }

  /** Two registrations with the same email: the second is refused and stores nothing. */
  method RegisterTwice(db: Store, body: RegistrationBody, id1: string, id2: string, hash: string -> string)
    returns (first: Reply<()>, second: Reply<()>)
    requires db.Valid()
    modifies db`users
    ensures db.Valid()
    ensures first.status == 201 ==> second == Reply(400, EmailExists, None)
    ensures |db.users| <= |old(db.users)| + 1
  {
    first := Register(db, body, id1, hash);
    second := Register(db, body, id2, hash);
  }

  /** `login`: validation (400), then the user with this email (404), then the password
      (401); on success a token signed over exactly `{id, role}` of that user. */
  function Login(users: seq<User>, body: LoginBody, compare: (string, string) -> bool,
                 sign: Claims -> string): (r: Reply<Session>)
    ensures r.status in {200, 400, 401, 404}
    ensures r.status == 400 <==> ValidateLogin(body).Some?
    ensures r.status == 400 ==> r == Reply(400, ValidateLogin(body).value, None)
    ensures r.status == 404 <==>
      ValidateLogin(body).None? && forall k :: 0 <= k < |users| ==> users[k].email != body.email.value
    ensures r.status == 404 ==> r == Reply(404, UserNotFound, None)
    ensures r.status == 401 ==>
      && r == Reply(401, InvalidPassword, None)
      && exists k :: 0 <= k < |users| && users[k].email == body.email.value
                     && !compare(body.password.value, users[k].password)
    ensures r.status == 200 ==>
      && ValidateLogin(body).None?
      && exists k :: 0 <= k < |users| && users[k].email == body.email.value
                     && compare(body.password.value, users[k].password)
                     && r == Reply(200, "", Some(Session(sign(Claims(users[k].id, users[k].role)),
                                                 PublicUser(users[k].id, users[k].name, users[k].email, users[k].role))))
    ensures EmailsUnique(users) && ValidateLogin(body).None? ==>
      (r.status == 200 <==>
         exists k :: 0 <= k < |users| && users[k].email == body.email.value
                     && compare(body.password.value, users[k].password))
  {
    var err := ValidateLogin(body);
    if err.Some? then Reply(400, err.value, None)
    else
      var i := UserIndexByEmail(users, body.email.value);
      if i == -1 then Reply(404, UserNotFound, None)
      else
        var user := users[i];
        if !compare(body.password.value, user.password) then Reply(401, InvalidPassword, None)
        else
          Reply(200, "", Some(Session(sign(Claims(user.id, user.role)),
                                      PublicUser(user.id, user.name, user.email, user.role))))
  }
}
