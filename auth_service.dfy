/** AuthService: registering a user, logging in by username or email, and
    checking a password.  SHA-256 with Base64 is a function the caller
    supplies; token issuing is outside the model. */
module AuthService {
  import opened Common
  import opened Entities
  import opened Data

  datatype RegisterDto = RegisterDto(username: string, email: string, password: string, role: string)

  /** `Username` holds either a username or an email. */
  datatype LoginDto = LoginDto(username: string, password: string)

  datatype AuthError =
    | UsernameTaken       // ArgumentException, AuthService.cs:69
    | EmailTaken          // ArgumentException, AuthService.cs:74
    | InvalidCredentials  // UnauthorizedAccessException, AuthService.cs:40
    | AccountInactive     // UnauthorizedAccessException, AuthService.cs:45

  /** HashPassword: SHA-256 of the UTF-8 bytes, as Base64. */
  type Hash = string -> string

  /** SHA-256 is taken to be collision-free on passwords. */
  ghost predicate Injective(hash: Hash) {
    forall a, b :: hash(a) == hash(b) ==> a == b
  }

  /** VerifyPassword: hash the candidate and compare the text. */
  predicate VerifyPassword(hash: Hash, password: string, storedHash: string) {
    hash(password) == storedHash
  }

  /** A stored hash accepts the password it was made from, whatever the hash. */
  lemma VerifyAcceptsItsOwnPassword(hash: Hash, password: string)
    ensures VerifyPassword(hash, password, hash(password))
  {
  }

  /** Under a collision-free hash, a stored hash accepts exactly the password
      it was made from. */
  lemma VerifyAcceptsExactlyItsPassword(hash: Hash, password: string, other: string)
    requires Injective(hash)
    ensures VerifyPassword(hash, password, hash(password))
    ensures VerifyPassword(hash, other, hash(password)) <==> other == password
  {
  }

  // ---------------------------------------------------------------------------
  // Register

  /** Why RegisterAsync refuses a request: the username is checked first,
      then the email. */
  function RegisterRejection(users: seq<User>, dto: RegisterDto): (r: Option<AuthError>)
    ensures r == Some(UsernameTaken) <==> exists i :: 0 <= i < |users| && users[i].username == dto.username
    ensures r == Some(EmailTaken) <==> && (forall i :: 0 <= i < |users| ==> users[i].username != dto.username)
                                       && exists i :: 0 <= i < |users| && users[i].email == dto.email
    ensures r.None? <==> forall i :: 0 <= i < |users| ==>
                           users[i].username != dto.username && users[i].email != dto.email
  {
    if Any(users, (u: User) => u.username == dto.username) then Some(UsernameTaken)
    else if Any(users, (u: User) => u.email == dto.email) then Some(EmailTaken)
    else None
  }

  /** A user whose username and email are both new keeps usernames and emails
      unique. */
  lemma AppendFreshKeepsUniqueLogins(users: seq<User>, u: User)
    requires UniqueLogins(users)
    requires forall i :: 0 <= i < |users| ==> users[i].username != u.username && users[i].email != u.email
    ensures UniqueLogins(users + [u])
  {
    var all := users + [u];
    forall i, j | 0 <= i < j < |all|
      ensures all[i].username != all[j].username && all[i].email != all[j].email
    {
      if j < |users| {
        assert all[i] == users[i] && all[j] == users[j];
      } else {
        assert all[i] == users[i] && all[j] == u;
      }
    }
  }

  /** RegisterAsync: refused with no write when the username or the email is
      taken; otherwise an active user with the hashed password is added. */
  method Register(db: Database, dto: RegisterDto, hash: Hash, now: Instant) returns (r: Result<User, AuthError>)
    requires db.Valid()
    modifies db`users, db`nextUserId
    ensures db.Valid()
    ensures r.Failure? <==> RegisterRejection(old(db.users), dto).Some?
    ensures r.Failure? ==> && r.error == RegisterRejection(old(db.users), dto).value
                           && db.users == old(db.users)
    ensures r.Success? ==> && r.value == User(old(db.nextUserId), dto.username, dto.email, hash(dto.password),
                                              dto.role, now, None, true, None)
                           && db.users == old(db.users) + [r.value]
  {
    if Any(db.users, (u: User) => u.username == dto.username) {
      return Failure(UsernameTaken);
    }
    if Any(db.users, (u: User) => u.email == dto.email) {
      return Failure(EmailTaken);
    }

    var user := User(0, dto.username, dto.email, hash(dto.password), dto.role, now, None, true, None);
    user := user.(id := db.nextUserId);
    AppendFreshKeepsUniqueLogins(db.users, user);
    db.users := db.users + [user];
    db.nextUserId := db.nextUserId + 1;
    return Success(user);
  }

  // ---------------------------------------------------------------------------
  // Login and validation

  /** `FirstOrDefaultAsync(u => u.Username == name || u.Email == name)` with
      no `OrderBy`.  SQLite answers the OR from the two unique indexes, the
      Username index first, so a username match is taken over an email
      match; in a table with unique logins each is at most one row. */
  function LoginIndex(users: seq<User>, name: string): (r: Option<nat>)
    ensures r.Some? ==> r.value < |users| && (users[r.value].username == name || users[r.value].email == name)
    ensures r.Some? && users[r.value].username != name ==> forall j :: 0 <= j < |users| ==> users[j].username != name
    ensures (exists j :: 0 <= j < |users| && users[j].username == name) ==> r.Some? && users[r.value].username == name
    ensures r.None? ==> forall j :: 0 <= j < |users| ==> users[j].username != name && users[j].email != name
  {
    match FirstIndex(users, (u: User) => u.username == name)
    case Some(i) => Some(i)
    case None => FirstIndex(users, (u: User) => u.email == name)
  }

  /** LoginAsync's decision: an unknown name and a wrong password fail
      alike; an inactive account fails only once the password is right. */
  function LoginOutcome(users: seq<User>, dto: LoginDto, hash: Hash): (r: Result<nat, AuthError>)
    ensures var found := LoginIndex(users, dto.username);
            && (r == Failure(InvalidCredentials) <==>
                  found.None? || !VerifyPassword(hash, dto.password, users[found.value].passwordHash))
            && (r == Failure(AccountInactive) <==>
                  && found.Some? && VerifyPassword(hash, dto.password, users[found.value].passwordHash)
                  && !users[found.value].isActive)
            && (r.Success? <==>
                  && found.Some? && VerifyPassword(hash, dto.password, users[found.value].passwordHash)
                  && users[found.value].isActive)
            && (r.Success? ==> r.value == found.value)
  {
    match LoginIndex(users, dto.username)
    case None => Failure(InvalidCredentials)
    case Some(i) =>
      if !VerifyPassword(hash, dto.password, users[i].passwordHash) then Failure(InvalidCredentials)
      else if !users[i].isActive then Failure(AccountInactive)
      else Success(i)
  }

  /** LoginAsync: on success the user's LastLoginAt is stamped; every failure
      leaves the Users table unchanged. */
  method Login(db: Database, dto: LoginDto, hash: Hash, now: Instant) returns (r: Result<User, AuthError>)
    requires db.Valid()
    modifies db`users
    ensures db.Valid()
    ensures r.Failure? <==> LoginOutcome(old(db.users), dto, hash).Failure?
    ensures r.Failure? ==> && r.error == LoginOutcome(old(db.users), dto, hash).error
                           && db.users == old(db.users)
    ensures r.Success? ==> && LoginOutcome(old(db.users), dto, hash).Success?
                           && var i := LoginOutcome(old(db.users), dto, hash).value;
                              && r.value == old(db.users)[i].(lastLoginAt := Some(now))
                              && db.users == old(db.users)[i := r.value]
  {
    var found := LoginIndex(db.users, dto.username);
    if found.None? || !VerifyPassword(hash, dto.password, db.users[found.value].passwordHash) {
      return Failure(InvalidCredentials);
    }
    var i := found.value;
    if !db.users[i].isActive {
      return Failure(AccountInactive);
    }

    var user := db.users[i].(lastLoginAt := Some(now));
    db.users := db.users[i := user];
    return Success(user);
  }

  /** ValidateUserAsync: a matching user exists, is active and the password
      matches. */
  predicate ValidateUser(users: seq<User>, username: string, password: string, hash: Hash) {
    var found := LoginIndex(users, username);
    found.Some? && users[found.value].isActive && VerifyPassword(hash, password, users[found.value].passwordHash)
  }

  /** ValidateUserAsync answers true exactly when LoginAsync would succeed. */
  lemma ValidateAgreesWithLogin(users: seq<User>, username: string, password: string, hash: Hash)
    ensures ValidateUser(users, username, password, hash)
            <==> LoginOutcome(users, LoginDto(username, password), hash).Success?
  {
  }

  /** A newly registered user logs in with their username and password: the
      username check RegisterAsync makes is all it takes, because a username
      match wins over an email match. */
  lemma RegisteredUserLogsIn(users: seq<User>, u: User, password: string, hash: Hash)
    requires u.passwordHash == hash(password) && u.isActive
    requires forall i :: 0 <= i < |users| ==> users[i].username != u.username
    ensures LoginOutcome(users + [u], LoginDto(u.username, password), hash) == Success(|users|)
  {
    var all := users + [u];
    assert all[|users|] == u;
    assert forall j :: 0 <= j < |users| ==> all[j] == users[j];
    var found := FirstIndex(all, (v: User) => v.username == u.username);
    assert found == Some(|users|);
  }

  /** Register checks a new username only against usernames, while login also
      matches emails: a user whose username equals an older user's email is
      accepted, logs in, and from then on the older user can no longer log in
      with that email. */
  lemma UsernameShadowsEmail()
    ensures var alice := User(1, "alice", "bob", "pw-a", "User", 0, None, true, None);
            var dto := RegisterDto("bob", "bob@example.com", "pw-b", "User");
            var bob := User(2, dto.username, dto.email, dto.password, dto.role, 0, None, true, None);
            && RegisterRejection([alice], dto).None?
            && LoginOutcome([alice], LoginDto("bob", "pw-a"), s => s) == Success(0)
            && LoginOutcome([alice, bob], LoginDto("bob", "pw-b"), s => s) == Success(1)
            && LoginOutcome([alice, bob], LoginDto("bob", "pw-a"), s => s) == Failure(InvalidCredentials)
  {
    var alice := User(1, "alice", "bob", "pw-a", "User", 0, None, true, None);
    var bob := User(2, "bob", "bob@example.com", "pw-b", "User", 0, None, true, None);
    var p := (u: User) => u.username == "bob";
    assert "alice" != "bob";
    assert [alice, bob][1..] == [bob] && FirstIndex([bob], p) == Some(0);
    assert FirstIndex([alice, bob], p) == Some(1);
    assert LoginIndex([alice], "bob") == Some(0);
    assert LoginIndex([alice, bob], "bob") == Some(1);
  }
}
