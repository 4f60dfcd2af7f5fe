/** The route handlers of the FarmInvest API over an in-memory stand-in for
    the two database tables. Each request runs alone, from start to finish. */
module Api {
  import opened Wrappers
  import opened JsText
  import opened JsValues
  import opened Email
  import opened Validators
  import opened Auth

  const InternalErrorMessage := "Internal server error"
  const EmailTakenMessage := "Email already registered"
  const RegisteredMessage := "Registration successful"
  const CredentialsRequiredMessage := "Email and password are required"
  const BadCredentialsMessage := "Invalid email or password"
  const LoggedInMessage := "Login successful"
  const UserNotFoundMessage := "User not found"
  const TokenRequiredMessage := "Access token required"
  const BadTokenMessage := "Invalid or expired token"

  /** A row of `users`; `password` holds the hash, never the plaintext. */
  datatype User = User(id: int, name: string, email: string, password: string, createdAt: int)

  /** A row of `investments`. */
  datatype Investment = Investment(id: int, farmerName: string, amount: real, crop: string, createdAt: int)

  /** The user as the auth routes return it: there is no password field. */
  datatype PublicUser = PublicUser(id: int, name: string, email: string)

  /** The user as GET /api/auth/me returns it. */
  datatype Profile = Profile(id: int, name: string, email: string, createdAt: int)

  /** The JSON bodies the handlers answer with. */
  datatype Payload =
    | ErrorList(errors: seq<string>)
    | ErrorMessage(error: string)
    | Session(message: string, user: PublicUser, token: string)
    | CurrentUser(profile: Profile)
    | Investments(rows: seq<Investment>)
    | CreatedInvestment(row: Investment)
    | HealthReport(status: string, timestamp: int, database: string)

  datatype Response = Response(status: int, payload: Payload)

  /** What every `catch` block answers. */
  const ServerError := Response(500, ErrorMessage(InternalErrorMessage))

  /** The fields of a POST /api/auth/login body. */
  datatype LoginBody = LoginBody(email: JsValue, password: JsValue)

  /** The library calls the handlers make, left uninterpreted:
      `parseNumber` is `Number` on strings; `hash` is `bcrypt.hash(p, 10)`
      with the salt it draws; `compare` is `bcrypt.compare(candidate,
      stored)`; `sign` is `jwt.sign` with the server secret and a 7-day
      expiry, issued at a time; `verify` is `jwt.verify` with the server
      secret at a time, `None` when it throws. */
  datatype Collaborators = Collaborators(
    parseNumber: string -> Numeric,
    hash: (string, string) -> string,
    compare: (string, string) -> bool,
    sign: (Claims, int) -> string,
    verify: (string, int) -> Option<Claims>)

  function ClaimsOf(u: User): Claims {
    Claims(u.id, u.email, u.name)
  }

  function PublicView(u: User): PublicUser {
    PublicUser(u.id, u.name, u.email)
  }

  function ProfileOf(u: User): Profile {
    Profile(u.id, u.name, u.email, u.createdAt)
  }

  /** The login body names both an email and a password (`!email || !password`). */
  predicate CredentialsPresent(body: LoginBody) {
    Truthy(body.email) && Truthy(body.password)
  }

  // ------------------------------------------------------------ lookups

  /** `SELECT ... FROM users WHERE email = ?`: the first row holding the
      email, if any. */
  function UserWithEmail(users: seq<User>, email: string): (r: Option<nat>)
    ensures r.Some? ==> r.value < |users| && users[r.value].email == email
    ensures r.Some? ==> forall k :: 0 <= k < r.value ==> users[k].email != email
    ensures r.None? <==> forall k :: 0 <= k < |users| ==> users[k].email != email
  {
    if users == [] then None
    else if users[0].email == email then Some(0)
    else
      match UserWithEmail(users[1..], email)
      case None => None
      case Some(k) => Some(k + 1)
  }

  /** `SELECT ... FROM users WHERE id = ?`: the first row with the id, if any. */
  function UserWithId(users: seq<User>, id: int): (r: Option<nat>)
    ensures r.Some? ==> r.value < |users| && users[r.value].id == id
    ensures r.Some? ==> forall k :: 0 <= k < r.value ==> users[k].id != id
    ensures r.None? <==> forall k :: 0 <= k < |users| ==> users[k].id != id
  {
    if users == [] then None
    else if users[0].id == id then Some(0)
    else
      match UserWithId(users[1..], id)
      case None => None
      case Some(k) => Some(k + 1)
  }

  /** `SELECT ... FROM investments WHERE id = ?`: the first row with the id,
      if any. */
  function InvestmentWithId(rows: seq<Investment>, id: int): (r: Option<nat>)
    ensures r.Some? ==> r.value < |rows| && rows[r.value].id == id
    ensures r.Some? ==> forall k :: 0 <= k < r.value ==> rows[k].id != id
    ensures r.None? <==> forall k :: 0 <= k < |rows| ==> rows[k].id != id
  {
    if rows == [] then None
    else if rows[0].id == id then Some(0)
    else
      match InvestmentWithId(rows[1..], id)
      case None => None
      case Some(k) => Some(k + 1)
  }

  // ------------------------------------------------------------ ordering

  /** The rows in the opposite order. */
  function Reversed<T>(s: seq<T>): (r: seq<T>)
    ensures |r| == |s|
    ensures forall k :: 0 <= k < |s| ==> r[k] == s[|s| - 1 - k]
  {
    if s == [] then [] else Reversed(s[1..]) + [s[0]]
  }

  /** Reversing keeps every row, as many times as it was there. */
  lemma {:induction false} ReversedPermutes<T>(s: seq<T>)
    ensures multiset(Reversed(s)) == multiset(s)
  {
    if s != [] {
      ReversedPermutes(s[1..]);
      assert s == [s[0]] + s[1..];
    }
  }

  /** `ORDER BY created_at DESC`. */
  ghost predicate NewestFirst(rows: seq<Investment>) {
    forall i, j :: 0 <= i < j < |rows| ==> rows[i].createdAt >= rows[j].createdAt
  }

  /** Rows kept in insertion order under a clock that never goes back, read
      backwards, are newest first. */
  lemma ReversedIsNewestFirst(rows: seq<Investment>)
    requires forall i, j :: 0 <= i < j < |rows| ==> rows[i].createdAt <= rows[j].createdAt
    ensures NewestFirst(Reversed(rows))
  {
    var r := Reversed(rows);
    forall i, j | 0 <= i < j < |r| ensures r[i].createdAt >= r[j].createdAt {
      assert r[i] == rows[|rows| - 1 - i] && r[j] == rows[|rows| - 1 - j];
    }
  }

  // ------------------------------------------------------------ rows

  /** A user row as registration writes it: trimmed name of at least two
      UTF-16 code units, lower-cased email of the validated shape. */
  ghost predicate WellFormedUser(u: User) {
    && IsTrimmed(u.name) && Utf16Length(u.name) >= 2
    && IsLowerCase(u.email) && IsValidEmail(u.email)
  }

  /** An investment row as the create route writes it: trimmed non-empty
      names and a positive amount. */
  ghost predicate WellFormedInvestment(r: Investment) {
    && IsTrimmed(r.farmerName) && r.farmerName != []
    && IsTrimmed(r.crop) && r.crop != []
    && r.amount > 0.0
  }

  /** User ids are assigned in increasing order below the counter, emails are
      unique, no row is stamped after the clock and every row is well formed. */
  ghost predicate UsersValid(users: seq<User>, nextId: int, clock: int) {
    && 1 <= nextId
    && (forall i, j :: 0 <= i < j < |users| ==> users[i].id < users[j].id && users[i].email != users[j].email)
    && (forall i :: 0 <= i < |users| ==>
          1 <= users[i].id < nextId && users[i].createdAt <= clock && WellFormedUser(users[i]))
  }

  /** Investment ids are assigned in increasing order below the counter, rows
      are stamped in insertion order and never after the clock, and every row
      is well formed. */
  ghost predicate InvestmentsValid(rows: seq<Investment>, nextId: int, clock: int) {
    && 1 <= nextId
    && (forall i, j :: 0 <= i < j < |rows| ==> rows[i].id < rows[j].id && rows[i].createdAt <= rows[j].createdAt)
    && (forall i :: 0 <= i < |rows| ==>
          1 <= rows[i].id < nextId && rows[i].createdAt <= clock && WellFormedInvestment(rows[i]))
  }

  /** Appending a well-formed user with a fresh email, the next id and the
      current time keeps the user table valid. */
  lemma AppendUserKeepsValid(users: seq<User>, nextId: int, clock: int, u: User)
    requires UsersValid(users, nextId, clock)
    requires u.id == nextId && u.createdAt == clock && WellFormedUser(u)
    requires forall k :: 0 <= k < |users| ==> users[k].email != u.email
    ensures UsersValid(users + [u], nextId + 1, clock)
  {
  }

  /** Appending a well-formed row with the next id and the current time keeps
      the investment table valid. */
  lemma AppendInvestmentKeepsValid(rows: seq<Investment>, nextId: int, clock: int, r: Investment)
    requires InvestmentsValid(rows, nextId, clock)
    requires r.id == nextId && r.createdAt == clock && WellFormedInvestment(r)
    ensures InvestmentsValid(rows + [r], nextId + 1, clock)
  {
  }

  /** The row `INSERT INTO users` writes for an accepted body: trimmed name,
      lower-cased email, the password hash, the assigned id and the current
      time. It is well formed, and its email is the one looked up for
      duplicates. */
  function NewUser(body: RegistrationBody, hashed: string, id: int, now: int): (u: User)
    requires RegistrationAccepted(body) && body.email.Str?
    ensures WellFormedUser(u) && u.id == id && u.createdAt == now
    ensures u.email == ToLower(body.email.s) && u.password == hashed
  {
    TrimIdempotent(body.name.s);
    ToLowerIdempotent(body.email.s);
    LowerKeepsEmailShape(body.email.s);
    User(id, Trim(body.name.s), ToLower(body.email.s), hashed, now)
  }

  /** The row `INSERT INTO investments` writes for an accepted body: trimmed
      names, `Number(amount)`, the assigned id and the current time. It is
      well formed. */
  function NewInvestment(body: InvestmentBody, parse: string -> Numeric, id: int, now: int): (r: Investment)
    requires !InvestmentRejected(body, parse)
    ensures WellFormedInvestment(r) && r.id == id && r.createdAt == now
  {
    TrimIdempotent(body.farmerName.s);
    TrimIdempotent(body.crop.s);
    TrimEmpty(body.farmerName.s);
    TrimEmpty(body.crop.s);
    Investment(id, Trim(body.farmerName.s), ToNumber(body.amount, parse).value, Trim(body.crop.s), now)
  }

  /** Reading back by the id just assigned finds the row just appended. */
  lemma NewestInvestmentFound(rows: seq<Investment>, nextId: int, clock: int)
    requires InvestmentsValid(rows, nextId, clock) && rows != []
    ensures InvestmentWithId(rows, rows[|rows| - 1].id) == Some(|rows| - 1)
  {
    var last := |rows| - 1;
    assert forall k :: 0 <= k < last ==> rows[k].id < rows[last].id;
  }

  // ------------------------------------------------------------ writes

  /** What POST /api/auth/register answers, with the users table and its id
      counter as the request leaves them. */
  datatype Registration = Registration(resp: Response, users: seq<User>, nextId: int)

  /** POST /api/auth/register against the table `users` with counter
      `nextId`, at database time `clock`, the database reachable or not. */
  function RegisterOutcome(body: RegistrationBody, env: Collaborators, salt: string, now: int,
                           users: seq<User>, nextId: int, clock: int, online: bool): Registration
  {
    if NameThrows(body.name) then Registration(ServerError, users, nextId)
    // The error list is non-empty exactly when the body is not accepted
    // (`RegistrationErrorsListed`).
    else if !RegistrationAccepted(body) then
      Registration(Response(400, ErrorList(RegistrationErrors(body))), users, nextId)
    // `email.toLowerCase()` throws on an array that passed the pattern test.
    else if !body.email.Str? || !online then Registration(ServerError, users, nextId)
    else if UserWithEmail(users, ToLower(body.email.s)).Some? then
      Registration(Response(400, ErrorMessage(EmailTakenMessage)), users, nextId)
    // bcrypt refuses a password that is not a string.
    else if !body.password.Str? then Registration(ServerError, users, nextId)
    else
      var user := NewUser(body, env.hash(body.password.s, salt), nextId, clock);
      Registration(Response(201, Session(RegisteredMessage, PublicView(user), env.sign(ClaimsOf(user), now))),
                   users + [user], nextId + 1)
  }

  /** Registration answers 201, 400 or 500; only a 201 touches the table, and
      a 201 comes exactly for an accepted body with a string email and
      password, a reachable database and an address no row holds yet. */
  lemma RegisterAnswers(body: RegistrationBody, env: Collaborators, salt: string, now: int,
                        users: seq<User>, nextId: int, clock: int, online: bool)
    ensures var r := RegisterOutcome(body, env, salt, now, users, nextId, clock, online);
      && (r.resp.status == 201 || r.resp.status == 400 || r.resp.status == 500)
      && (r.resp.status != 201 ==> r.users == users && r.nextId == nextId)
      && (r.resp.status == 201 <==>
            RegistrationAccepted(body) && body.email.Str? && body.password.Str? && online
            && UserWithEmail(users, ToLower(body.email.s)).None?)
  {
    RegistrationErrorsListed(body);
  }

  /** A name that is truthy but not a string is a 500; any other body that
      fails a check is a 400 listing exactly the failed checks. */
  lemma RegisterReportsErrors(body: RegistrationBody, env: Collaborators, salt: string, now: int,
                              users: seq<User>, nextId: int, clock: int, online: bool)
    ensures var r := RegisterOutcome(body, env, salt, now, users, nextId, clock, online);
      && (NameThrows(body.name) ==> r.resp == ServerError)
      && (!NameThrows(body.name) && !RegistrationAccepted(body) ==>
            r.resp.status == 400 && r.resp.payload.ErrorList? && r.resp.payload.errors != []
            && ListsRegistrationErrors(body, r.resp.payload.errors))
  {
    RegistrationErrorsListed(body);
  }

  /** An address some row already holds, once lower-cased, is refused and the
      table stays as it was. */
  lemma RegisterRefusesTakenEmail(body: RegistrationBody, env: Collaborators, salt: string, now: int,
                                  users: seq<User>, nextId: int, clock: int)
    requires RegistrationAccepted(body) && body.email.Str?
    requires exists k :: 0 <= k < |users| && users[k].email == ToLower(body.email.s)
    ensures RegisterOutcome(body, env, salt, now, users, nextId, clock, true)
            == Registration(Response(400, ErrorMessage(EmailTakenMessage)), users, nextId)
  {
    RegistrationErrorsListed(body);
  }

  /** A successful registration appends one row: the trimmed name, the
      lower-cased email, the hash of the password, the next id and the
      database time. The session answered is that row's, with no password,
      and its address is now held by exactly one row. */
  lemma RegisterAddsUser(body: RegistrationBody, env: Collaborators, salt: string, now: int,
                         users: seq<User>, nextId: int, clock: int)
    requires RegistrationAccepted(body) && body.email.Str? && body.password.Str?
    requires UserWithEmail(users, ToLower(body.email.s)).None?
    ensures var r := RegisterOutcome(body, env, salt, now, users, nextId, clock, true);
      && |r.users| == |users| + 1 && r.users[..|users|] == users && r.nextId == nextId + 1
      && r.users[|users|] == User(nextId, Trim(body.name.s), ToLower(body.email.s),
                                  env.hash(body.password.s, salt), clock)
      && r.resp == Response(201, Session(RegisteredMessage, PublicView(r.users[|users|]),
                                         env.sign(ClaimsOf(r.users[|users|]), now)))
      && HoldsEmailOnce(r.users, ToLower(body.email.s))
      && UserWithEmail(r.users, ToLower(body.email.s)) == Some(|users|)
  {
    RegistrationErrorsListed(body);
    var user := NewUser(body, env.hash(body.password.s, salt), nextId, clock);
    AppendedEmailUnique(users, user);
    assert (users + [user])[..|users|] == users;
  }

  /** A successful registration appends exactly the row built from the body. */
  lemma RegisterStoresNewUser(body: RegistrationBody, env: Collaborators, salt: string, now: int,
                              users: seq<User>, nextId: int, clock: int)
    requires RegistrationAccepted(body) && body.email.Str? && body.password.Str?
    requires UserWithEmail(users, ToLower(body.email.s)).None?
    ensures var u := NewUser(body, env.hash(body.password.s, salt), nextId, clock);
      RegisterOutcome(body, env, salt, now, users, nextId, clock, true)
      == Registration(Response(201, Session(RegisteredMessage, PublicView(u), env.sign(ClaimsOf(u), now))),
                      users + [u], nextId + 1)
  {
    RegistrationErrorsListed(body);
  }

  /** Registration keeps the users table valid, whatever it answers. */
  lemma RegisterKeepsValid(body: RegistrationBody, env: Collaborators, salt: string, now: int,
                           users: seq<User>, nextId: int, clock: int, online: bool)
    requires UsersValid(users, nextId, clock)
    ensures var r := RegisterOutcome(body, env, salt, now, users, nextId, clock, online);
      UsersValid(r.users, r.nextId, clock)
  {
    RegisterAnswers(body, env, salt, now, users, nextId, clock, online);
    if RegistrationAccepted(body) && body.email.Str? && body.password.Str? && online
       && UserWithEmail(users, ToLower(body.email.s)).None? {
      RegisterAppendsWellFormed(body, env, salt, now, users, nextId, clock);
    }
  }

  /** The row a successful registration appends keeps the table valid. */
  lemma RegisterAppendsWellFormed(body: RegistrationBody, env: Collaborators, salt: string, now: int,
                                  users: seq<User>, nextId: int, clock: int)
    requires UsersValid(users, nextId, clock)
    requires RegistrationAccepted(body) && body.email.Str? && body.password.Str?
    requires UserWithEmail(users, ToLower(body.email.s)).None?
    ensures var r := RegisterOutcome(body, env, salt, now, users, nextId, clock, true);
      UsersValid(r.users, r.nextId, clock)
  {
    var user := NewUser(body, env.hash(body.password.s, salt), nextId, clock);
    var r := RegisterOutcome(body, env, salt, now, users, nextId, clock, true);
    assert r.users == users + [user] && r.nextId == nextId + 1;
    AppendUserKeepsValid(users, nextId, clock, user);
  }

  /** Exactly one row of `users` holds `email`. */
  ghost predicate HoldsEmailOnce(users: seq<User>, email: string) {
    exists i :: 0 <= i < |users| && users[i].email == email
                && forall k :: 0 <= k < |users| && k != i ==> users[k].email != email
  }

  /** Appending a row whose email is not yet taken leaves exactly one row
      holding that email, and a lookup by that email finds the new row. */
  lemma AppendedEmailUnique(users: seq<User>, user: User)
    requires UserWithEmail(users, user.email).None?
    ensures HoldsEmailOnce(users + [user], user.email)
    ensures UserWithEmail(users + [user], user.email) == Some(|users|)
  {
    var all := users + [user];
    var i := |users|;
    forall k | 0 <= k < |all| && k != i
      ensures all[k].email != user.email
    {
      assert all[k] == users[k];
    }
    assert all[i] == user;
    var found := UserWithEmail(all, user.email);
    assert found.Some?;
    assert forall k :: 0 <= k < i ==> all[k].email != user.email;
  }

  /** Registering twice with addresses that lower-case to the same one: once
      the first succeeds, the second is refused and the address is held by
      exactly one row. */
  lemma RegisterTwice(first: RegistrationBody, second: RegistrationBody, env: Collaborators, salt: string,
                      now: int, users: seq<User>, nextId: int, clock: int)
    requires first.email.Str? && second.email.Str? && ToLower(first.email.s) == ToLower(second.email.s)
    requires RegistrationAccepted(second)
    ensures var r1 := RegisterOutcome(first, env, salt, now, users, nextId, clock, true);
            var r2 := RegisterOutcome(second, env, salt, now, r1.users, r1.nextId, clock, true);
            r1.resp.status == 201 ==>
              && r2 == Registration(Response(400, ErrorMessage(EmailTakenMessage)), r1.users, r1.nextId)
              && HoldsEmailOnce(r2.users, ToLower(second.email.s))
  {
    var r1 := RegisterOutcome(first, env, salt, now, users, nextId, clock, true);
    if r1.resp.status == 201 {
      RegisterAnswers(first, env, salt, now, users, nextId, clock, true);
      RegisterAddsUser(first, env, salt, now, users, nextId, clock);
      assert r1.users[|users|].email == ToLower(second.email.s);
      RegisterRefusesTakenEmail(second, env, salt, now, r1.users, r1.nextId, clock);
    }
  }

  /** POST /api/auth/login against the table `users`. */
  function LoginOutcome(body: LoginBody, env: Collaborators, now: int, users: seq<User>, online: bool): Response {
    if !CredentialsPresent(body) then Response(400, ErrorMessage(CredentialsRequiredMessage))
    // `email.toLowerCase()` is a TypeError on anything but a string.
    else if !body.email.Str? || !online then ServerError
    else
      match UserWithEmail(users, ToLower(body.email.s))
      case None => Response(401, ErrorMessage(BadCredentialsMessage))
      case Some(i) =>
        // bcrypt refuses a candidate password that is not a string.
        if !body.password.Str? then ServerError
        else if !env.compare(body.password.s, users[i].password) then
          Response(401, ErrorMessage(BadCredentialsMessage))
        else
          Response(200, Session(LoggedInMessage, PublicView(users[i]), env.sign(ClaimsOf(users[i]), now)))
  }

  /** Login answers 200, 400, 401 or 500. An unknown address and a wrong
      password get the same 401, so the answer does not tell which. A 200
      comes only for a stored row with the lower-cased address whose hash the
      password matches, and carries that row without its password. */
  lemma LoginAnswers(body: LoginBody, env: Collaborators, now: int, users: seq<User>, online: bool)
    ensures var resp := LoginOutcome(body, env, now, users, online);
      && (resp.status == 200 || resp.status == 400 || resp.status == 401 || resp.status == 500)
      && (resp.status == 400 <==> !CredentialsPresent(body))
      && (resp.status == 400 ==> resp.payload == ErrorMessage(CredentialsRequiredMessage))
      && (resp.status == 401 ==> resp.payload == ErrorMessage(BadCredentialsMessage))
      && (resp.status == 401 <==>
            CredentialsPresent(body) && body.email.Str? && online
            && (UserWithEmail(users, ToLower(body.email.s)).None?
                || (body.password.Str?
                    && !env.compare(body.password.s, users[UserWithEmail(users, ToLower(body.email.s)).value].password))))
      && (resp.status == 200 ==>
            body.email.Str? && body.password.Str? && online &&
            exists i :: 0 <= i < |users| && users[i].email == ToLower(body.email.s)
                        && env.compare(body.password.s, users[i].password)
                        && resp.payload == Session(LoggedInMessage, PublicView(users[i]),
                                                   env.sign(ClaimsOf(users[i]), now)))
  {
    var resp := LoginOutcome(body, env, now, users, online);
    if resp.status == 200 {
      var i := UserWithEmail(users, ToLower(body.email.s)).value;
      assert users[i].email == ToLower(body.email.s);
    }
  }

  /** Registering at time `now1` and then logging in at time `now2` with the
      same email and password succeeds. Both answers carry the same user, and
      both tokens are signed over the new row's claims, each at its own time,
      provided the hash verifies against its own plaintext, as bcrypt
      promises. */
  lemma RegisterThenLogin(body: RegistrationBody, env: Collaborators, salt: string, now1: int, now2: int,
                          users: seq<User>, nextId: int, clock: int)
    requires RegistrationAccepted(body) && body.email.Str? && body.password.Str?
    requires UserWithEmail(users, ToLower(body.email.s)).None?
    requires env.compare(body.password.s, env.hash(body.password.s, salt))
    ensures var r := RegisterOutcome(body, env, salt, now1, users, nextId, clock, true);
            var l := LoginOutcome(LoginBody(body.email, body.password), env, now2, r.users, true);
            && r.resp.status == 201 && l.status == 200
            && r.resp.payload.Session? && l.payload.Session?
            && l.payload.user == r.resp.payload.user
            && r.resp.payload.token == env.sign(ClaimsOf(r.users[|users|]), now1)
            && l.payload.token == env.sign(ClaimsOf(r.users[|users|]), now2)
  {
    RegisterAddsUser(body, env, salt, now1, users, nextId, clock);
  }

  /** What POST /api/investments answers, with the investments table and its
      id counter as the request leaves them. */
  datatype Creation = Creation(resp: Response, rows: seq<Investment>, nextId: int)

  /** POST /api/investments against the table `rows` with counter `nextId`,
      at database time `clock`. The row read back by its new id is the row
      just written. */
  function CreateOutcome(body: InvestmentBody, parse: string -> Numeric,
                         rows: seq<Investment>, nextId: int, clock: int, online: bool): Creation
  {
    // The error list is non-empty exactly when the body is rejected
    // (`InvestmentErrorsListed`).
    if InvestmentRejected(body, parse) then
      Creation(Response(400, ErrorList(InvestmentErrors(body, parse))), rows, nextId)
    else if !online then Creation(ServerError, rows, nextId)
    else
      var row := NewInvestment(body, parse, nextId, clock);
      Creation(Response(201, CreatedInvestment(row)), rows + [row], nextId + 1)
  }

  /** Creation answers 400 exactly for a rejected body, listing the failed
      checks; 500 exactly for an accepted body when the database is down;
      201 otherwise; and only a 201 touches the table. */
  lemma CreateAnswers(body: InvestmentBody, parse: string -> Numeric,
                      rows: seq<Investment>, nextId: int, clock: int, online: bool)
    ensures var c := CreateOutcome(body, parse, rows, nextId, clock, online);
      && (c.resp.status == 201 || c.resp.status == 400 || c.resp.status == 500)
      && (c.resp.status != 201 ==> c.rows == rows && c.nextId == nextId)
      && (c.resp.status == 400 <==> InvestmentRejected(body, parse))
      && (c.resp.status == 400 ==>
            c.resp.payload.ErrorList? && c.resp.payload.errors != []
            && ListsInvestmentErrors(body, parse, c.resp.payload.errors))
      && (c.resp.status == 500 <==> !InvestmentRejected(body, parse) && !online)
  {
    InvestmentErrorsListed(body, parse);
  }

  /** A successful creation appends one row, answers with it, and keeps the
      table valid: trimmed names, `Number(amount)`, the next id and the
      database time. No stored row is newer than it. */
  lemma CreateAddsRow(body: InvestmentBody, parse: string -> Numeric,
                      rows: seq<Investment>, nextId: int, clock: int)
    requires InvestmentsValid(rows, nextId, clock)
    requires !InvestmentRejected(body, parse)
    ensures var c := CreateOutcome(body, parse, rows, nextId, clock, true);
      && c.resp.status == 201 && c.resp.payload.CreatedInvestment?
      && c.rows == rows + [c.resp.payload.row] && c.nextId == nextId + 1
      && c.resp.payload.row == Investment(nextId, Trim(body.farmerName.s), ToNumber(body.amount, parse).value,
                                          Trim(body.crop.s), clock)
      && c.resp.payload.row.amount > 0.0
      && InvestmentsValid(c.rows, c.nextId, clock)
      && forall k :: 0 <= k < |c.rows| ==> c.rows[k].createdAt <= c.resp.payload.row.createdAt
  {
    InvestmentErrorsListed(body, parse);
    var row := NewInvestment(body, parse, nextId, clock);
    assert CreateOutcome(body, parse, rows, nextId, clock, true)
           == Creation(Response(201, CreatedInvestment(row)), rows + [row], nextId + 1);
    AppendInvestmentKeepsValid(rows, nextId, clock, row);
  }

  /** The two tables, their auto-increment counters, the database clock
      (`CURRENT_TIMESTAMP`, which stamps `created_at`) and whether the
      database answers at all. */
  class Database {
    var users: seq<User>
    var investments: seq<Investment>
    var nextUserId: int
    var nextInvestmentId: int
    var clock: int
    var online: bool

    ghost predicate Valid()
      reads this
    {
      UsersValid(users, nextUserId, clock) && InvestmentsValid(investments, nextInvestmentId, clock)
    }

    /** Empty, reachable tables whose clock reads `now`. */
    constructor (now: int)
      ensures Valid()
      ensures users == [] && investments == [] && nextUserId == 1 && nextInvestmentId == 1
      ensures clock == now && online
    {
      users, investments := [], [];
      nextUserId, nextInvestmentId := 1, 1;
      clock, online := now, true;
    }

    /** `INSERT INTO users`: the row takes the next id and the current time. */
    method InsertUser(user: User)
      requires UsersValid(users, nextUserId, clock)
      requires user.id == nextUserId && user.createdAt == clock && WellFormedUser(user)
      requires forall k :: 0 <= k < |users| ==> users[k].email != user.email
      modifies this`users, this`nextUserId
      ensures UsersValid(users, nextUserId, clock)
      ensures users == old(users) + [user] && nextUserId == old(nextUserId) + 1
    {
      AppendUserKeepsValid(users, nextUserId, clock, user);
      users := users + [user];
      nextUserId := nextUserId + 1;
    }

    /** `INSERT INTO investments` followed by `SELECT * FROM investments
        WHERE id = ?` with the id just assigned: the row takes the next id and
        the current time, and the read finds it. */
    method InsertInvestment(row: Investment) returns (stored: Investment)
      requires Valid()
      requires row.id == nextInvestmentId && row.createdAt == clock && WellFormedInvestment(row)
      modifies this`investments, this`nextInvestmentId
      ensures Valid()
      ensures investments == old(investments) + [row] && nextInvestmentId == old(nextInvestmentId) + 1
      ensures stored == row
    {
      AppendInvestmentKeepsValid(investments, nextInvestmentId, clock, row);
      investments := investments + [row];
      nextInvestmentId := nextInvestmentId + 1;
      NewestInvestmentFound(investments, nextInvestmentId, clock);
      var found := InvestmentWithId(investments, row.id);
      stored := investments[found.value];
    }

    /** POST /api/auth/register. */
    method Register(body: RegistrationBody, env: Collaborators, salt: string, now: int) returns (resp: Response)
      requires Valid()
      modifies this`users, this`nextUserId
      ensures Valid()
      ensures Registration(resp, users, nextUserId)
              == RegisterOutcome(body, env, salt, now, old(users), old(nextUserId), clock, online)
    {
      var v := ValidateRegistration(body);
      if v.ThrewTypeError? {
        return ServerError;
      }
      RegistrationErrorsListed(body);
      if v.errors != [] {
        return Response(400, ErrorList(v.errors));
      }
      resp := RegisterValidated(body, env, salt, now);
      RegisterKeepsValid(body, env, salt, now, old(users), old(nextUserId), clock, online);
    }

    /** The register route once the body has passed validation: look the
        lower-cased address up, hash the password, insert the row, sign a
        token for it. */
    method RegisterValidated(body: RegistrationBody, env: Collaborators, salt: string, now: int)
      returns (resp: Response)
      requires UsersValid(users, nextUserId, clock) && RegistrationAccepted(body)
      modifies this`users, this`nextUserId
      ensures var r := RegisterOutcome(body, env, salt, now, old(users), old(nextUserId), clock, online);
        resp == r.resp && users == r.users && nextUserId == r.nextId
    {
      // `email.toLowerCase()` is a TypeError on an array that passed the pattern test.
      if !body.email.Str? || !online {
        return ServerError;
      }
      var email := ToLower(body.email.s);
      if UserWithEmail(users, email).Some? {
        return Response(400, ErrorMessage(EmailTakenMessage));
      }
      // bcrypt refuses a password that is not a string.
      if !body.password.Str? {
        return ServerError;
      }
      var user := NewUser(body, env.hash(body.password.s, salt), nextUserId, clock);
      RegisterStoresNewUser(body, env, salt, now, users, nextUserId, clock);
      InsertUser(user);
      resp := Response(201, Session(RegisteredMessage, PublicView(user), env.sign(ClaimsOf(user), now)));
    }

    /** POST /api/auth/login. Reads the tables and changes nothing. */
    method Login(body: LoginBody, env: Collaborators, now: int) returns (resp: Response)
      requires Valid()
      ensures resp == LoginOutcome(body, env, now, users, online)
    {
      if !CredentialsPresent(body) {
        return Response(400, ErrorMessage(CredentialsRequiredMessage));
      }
      if !body.email.Str? || !online {
        return ServerError;
      }
      var found := UserWithEmail(users, ToLower(body.email.s));
      if found.None? {
        return Response(401, ErrorMessage(BadCredentialsMessage));
      }
      var user := users[found.value];
      if !body.password.Str? {
        return ServerError;
      }
      if !env.compare(body.password.s, user.password) {
        return Response(401, ErrorMessage(BadCredentialsMessage));
      }
      resp := Response(200, Session(LoggedInMessage, PublicView(user), env.sign(ClaimsOf(user), now)));
    }

    /** GET /api/auth/me, behind the bearer-token gate. */
    method Me(header: Option<string>, env: Collaborators, now: int) returns (resp: Response)
      requires Valid()
      ensures resp.status == 200 || resp.status == 401 || resp.status == 403 || resp.status == 404 || resp.status == 500
      ensures resp.status == 401 <==> ExtractToken(header).None?
      ensures resp.status == 401 ==> resp.payload == ErrorMessage(TokenRequiredMessage)
      ensures resp.status == 403 <==> ExtractToken(header).Some? && env.verify(ExtractToken(header).value, now).None?
      ensures resp.status == 403 ==> resp.payload == ErrorMessage(BadTokenMessage)
      ensures Authenticate(header, env.verify, now).Admitted? ==>
        var id := Authenticate(header, env.verify, now).claims.id;
        && (!online ==> resp == ServerError)
        && (online && UserWithId(users, id).None? ==> resp == Response(404, ErrorMessage(UserNotFoundMessage)))
        && (online && UserWithId(users, id).Some? ==>
              resp == Response(200, CurrentUser(ProfileOf(users[UserWithId(users, id).value]))))
      ensures resp.status == 200 ==>
        exists i :: 0 <= i < |users| && resp.payload == CurrentUser(ProfileOf(users[i]))
                    && Authenticate(header, env.verify, now) == Admitted(env.verify(ExtractToken(header).value, now).value)
                    && users[i].id == Authenticate(header, env.verify, now).claims.id
    {
      var gate := Authenticate(header, env.verify, now);
      match gate
      case MissingToken =>
        return Response(401, ErrorMessage(TokenRequiredMessage));
      case BadToken =>
        return Response(403, ErrorMessage(BadTokenMessage));
      case Admitted(claims) =>
        if !online {
          return ServerError;
        }
        var found := UserWithId(users, claims.id);
        if found.None? {
          return Response(404, ErrorMessage(UserNotFoundMessage));
        }
        resp := Response(200, CurrentUser(ProfileOf(users[found.value])));
    }

    /** GET /api/investments: every row, newest first. */
    method ListInvestments() returns (resp: Response)
      requires Valid()
      ensures !online ==> resp == ServerError
      ensures online ==>
        && resp.status == 200 && resp.payload.Investments?
        && multiset(resp.payload.rows) == multiset(investments)
        && NewestFirst(resp.payload.rows)
    {
      if !online {
        return ServerError;
      }
      var rows := Reversed(investments);
      ReversedPermutes(investments);
      ReversedIsNewestFirst(investments);
      resp := Response(200, Investments(rows));
    }

    /** POST /api/investments: validate, insert, read the row back. */
    method CreateInvestment(body: InvestmentBody, env: Collaborators) returns (resp: Response)
      requires Valid()
      modifies this`investments, this`nextInvestmentId
      ensures Valid()
      ensures Creation(resp, investments, nextInvestmentId)
              == CreateOutcome(body, env.parseNumber, old(investments), old(nextInvestmentId), clock, online)
    {
      var errors := ValidateInvestment(body, env.parseNumber);
      InvestmentErrorsListed(body, env.parseNumber);
      if errors != [] {
        return Response(400, ErrorList(errors));
      }
      if !online {
        return ServerError;
      }
      var row := NewInvestment(body, env.parseNumber, nextInvestmentId, clock);
      var stored := InsertInvestment(row);
      resp := Response(201, CreatedInvestment(stored));
    }

    /** GET /api/health: always 200; the database state is reported as data. */
    method Health(now: int) returns (resp: Response)
      ensures resp.status == 200 && resp.payload.HealthReport? && resp.payload.timestamp == now
      ensures resp.payload.status == "ok" <==> online
      ensures resp.payload.database == "connected" <==> online
      ensures resp.payload.database == "connected" || resp.payload.database == "disconnected"
    {
      if online {
        resp := Response(200, HealthReport("ok", now, "connected"));
      } else {
        resp := Response(200, HealthReport("error", now, "disconnected"));
      }
    }
  }
}
