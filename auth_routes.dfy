/**
 * The account endpoints: registration with its field checks and uniqueness checks, and login
 * by email and password. bcrypt is not modelled: the hash of the new password is a parameter
 * of `Register` and the comparison a function parameter of `Login`.
 */
module AuthRoutes {
  import opened Wrappers
  import opened Text
  import opened Schema
  import opened Db

  /** `[^\s@]`: neither whitespace nor an at sign. */
  predicate Plain(c: char) {
    !IsSpace(c) && c != '@'
  }

  predicate AllPlain(s: string) {
    forall i :: 0 <= i < |s| ==> Plain(s[i])
  }

  /** The test `/^[^\s@]+@[^\s@]+\.[^\s@]+$/`: a non-empty local part, one at sign, and a domain
      with a dot that has a character on either side, no whitespace anywhere. */
  predicate EmailShaped(s: string)
    ensures EmailShaped(s) ==> 5 <= |s| && '@' in s
  {
    exists a :: 0 < a < |s| && s[a] == '@' && AllPlain(s[..a]) && AllPlain(s[a + 1..])
                && exists d :: a + 1 < d < |s| - 1 && s[d] == '.'
  }

  /** The test `/^[a-z0-9_]{3,30}$/`. A name that passes it is its own normal form, so it can
      be stored as the account's key as it is. */
  predicate UsernameShaped(s: string)
    ensures UsernameShaped(s) ==> Normalized(s)
  {
    3 <= |s| <= 30 && forall i :: 0 <= i < |s| ==> 'a' <= s[i] <= 'z' || '0' <= s[i] <= '9' || s[i] == '_'
  }

  /** A shaped email holds exactly one at sign. */
  lemma EmailShapedOneAt(s: string)
    requires EmailShaped(s)
    ensures exists a :: 0 <= a < |s| && s[a] == '@' && forall b :: 0 <= b < |s| && s[b] == '@' ==> b == a
  {
    var a :| 0 < a < |s| && s[a] == '@' && AllPlain(s[..a]) && AllPlain(s[a + 1..])
             && exists d :: a + 1 < d < |s| - 1 && s[d] == '.';
    forall b | 0 <= b < a ensures s[b] != '@' {
      assert s[..a][b] == s[b];
    }
    forall b | a < b < |s| ensures s[b] != '@' {
      assert s[a + 1..][b - a - 1] == s[b];
    }
  }

  /** Examples of the email test: a plain address passes; a missing dot, a space or a second
      at sign fails it. */
  lemma EmailShapedExamples()
    ensures EmailShaped("ann@x.io")
    ensures !EmailShaped("ann@xio")
    ensures !EmailShaped("a n@x.io")
    ensures !EmailShaped("a@b@x.io")
  {
    var s := "ann@x.io";
    assert s[3] == '@' && s[5] == '.' && s[..3] == "ann" && s[4..] == "x.io";
    var t := "ann@xio";
    forall a | 0 < a < |t| && t[a] == '@' ensures !exists d :: a + 1 < d < |t| - 1 && t[d] == '.' {
      assert a == 3;
    }
    var u := "a n@x.io";
    forall a | 0 < a < |u| && u[a] == '@' ensures !AllPlain(u[..a]) {
      assert a == 3 && u[..a][1] == ' ';
    }
    var v := "a@b@x.io";
    EmailNotShapedTwoAts(v, 1, 3);
  }

  lemma EmailNotShapedTwoAts(s: string, a: int, b: int)
    requires 0 <= a < b < |s| && s[a] == '@' && s[b] == '@'
    ensures !EmailShaped(s)
  {
    if EmailShaped(s) {
      EmailShapedOneAt(s);
    }
  }

  /** No account has the email (likewise the username): the `SELECT id ... LIMIT 1` is empty. */
  predicate EmailFree(users: map<int, User>, email: string) {
    forall id :: id in users ==> users[id].email != email
  }

  predicate UsernameFree(users: map<int, User>, username: string) {
    forall id :: id in users ==> users[id].username != username
  }

  /** The new row: the trimmed name, the username and email trimmed and lower-cased, the hash,
      and the column defaults. */
  function NewAccount(fullName: string, username: string, email: string, hashed: string, now: int): (r: User)
    ensures Trimmed(r.fullName) && Normalized(r.username) && Normalized(r.email)
    ensures !IsBlank(fullName) ==> r.fullName != []
    ensures r.passwordHash == hashed && r.bio == "" && r.website == "" && r.createdAt == now
  {
    TrimTrimmed(fullName);
    NormalizeNormalized(username);
    NormalizeNormalized(email);
    User(Trim(fullName), Normalize(username), Normalize(email), hashed, "", "", now)
  }

  /** The first test of POST /auth/register: a name, username and email that are not blank
      once trimmed, and a non-empty password. */
  predicate Missing(fullName: string, username: string, email: string, password: string)
    ensures Missing(fullName, username, email, password)
            <==> AllSpace(fullName) || AllSpace(username) || AllSpace(email) || password == []
  {
    BlankIffAllSpace(fullName);
    BlankIffAllSpace(username);
    BlankIffAllSpace(email);
    IsBlank(fullName) || IsBlank(username) || IsBlank(email) || password == []
  }

  /** The checks of POST /auth/register in the handler's order, on the trimmed and
      lower-cased username and email: the first that fails, if any. The format checks (400)
      all come before the uniqueness checks (409). */
  function RegisterChecks(users: map<int, User>, missing: bool, cleanUser: string, cleanEmail: string,
                          passwordLength: nat): (r: Option<Failure>)
    ensures r.None? <==> && !missing && EmailShaped(cleanEmail) && UsernameShaped(cleanUser) && passwordLength >= 6
                         && EmailFree(users, cleanEmail) && UsernameFree(users, cleanUser)
    ensures r.Some? ==> r.value.status == 400 || r.value.status == 409
    ensures !missing && EmailShaped(cleanEmail) && UsernameShaped(cleanUser) && passwordLength >= 6
            && !EmailFree(users, cleanEmail)
            ==> r == Some(Failure(409, "An account with this email already exists. Please login instead."))
  {
    if missing then
      Some(Failure(400, "All fields are required (fullName, username, email, password)"))
    else if !EmailShaped(cleanEmail) then
      Some(Failure(400, "Please enter a valid email address"))
    else if !UsernameShaped(cleanUser) then
      Some(Failure(400, "Username must be 3-30 characters (lowercase letters, numbers, underscores only)"))
    else if passwordLength < 6 then
      Some(Failure(400, "Password must be at least 6 characters long"))
    else if !EmailFree(users, cleanEmail) then
      Some(Failure(409, "An account with this email already exists. Please login instead."))
    else if !UsernameFree(users, cleanUser) then
      Some(Failure(409, "This username is already taken. Please choose a different one."))
    else
      None
  }

  function RegisterError(users: map<int, User>, fullName: string, username: string, email: string,
                         password: string): Option<Failure> {
    RegisterChecks(users, Missing(fullName, username, email, password), Normalize(username), Normalize(email), |password|)
  }

  /** POST /auth/register: the checks in order, then the row under the next id; the answer
      is the new row without its hash. `hashed` is what bcrypt returned for `password`. */
  method Register(db: Database, fullName: string, username: string, email: string, password: string,
                  hashed: string, now: int) returns (r: Result<PublicUser, Failure>)
    requires db.Valid()
    modifies db`users, db`nextUserId
    ensures db.Valid()
    ensures r.Err? <==> RegisterError(old(db.users), fullName, username, email, password).Some?
    ensures r.Err? ==> && r.error == RegisterError(old(db.users), fullName, username, email, password).value
                       && db.users == old(db.users) && db.nextUserId == old(db.nextUserId)
    ensures r.Ok? ==> var id := old(db.nextUserId);
                      && id !in old(db.users)
                      && db.users == old(db.users)[id := NewAccount(fullName, username, email, hashed, now)]
                      && db.nextUserId == id + 1
                      && r.value == PublicUserOf(id, db.users[id])
  {
    var error := RegisterError(db.users, fullName, username, email, password);
    if error.Some? {
      return Err(error.value);
    }
    var account := NewAccount(fullName, username, email, hashed, now);
    var id := db.InsertUser(account);
    r := Ok(PublicUserOf(id, account));
  }

  /** The accounts login accepts: the email's normal form is an account's email and the
      password matches that account's hash. */
  predicate LoginAccepts(users: map<int, User>, email: string, password: string, verify: (string, string) -> bool) {
    !IsBlank(email) && password != []
    && exists id :: id in users && users[id].email == Normalize(email) && verify(password, users[id].passwordHash)
  }

  /** POST /auth/login: the email and password must be sent, the email's normal form must
      belong to an account, and `verify` (bcrypt's compare) must accept the password against
      its hash; the answer is the row without its hash. */
  method Login(db: Database, email: string, password: string, verify: (string, string) -> bool)
    returns (r: Result<PublicUser, Failure>)
    requires db.Valid()
    ensures IsBlank(email) ==> r == Err(Failure(400, "Email is required"))
    ensures !IsBlank(email) && password == [] ==> r == Err(Failure(400, "Password is required"))
    ensures !IsBlank(email) && password != [] && EmailFree(db.users, Normalize(email))
            ==> r == Err(Failure(404, "No account found with this email. Please sign up first."))
    ensures r.Ok? <==> LoginAccepts(db.users, email, password, verify)
    ensures r.Ok? ==> && r.value.id in db.users && r.value == PublicUserOf(r.value.id, db.users[r.value.id])
                      && r.value.email == Normalize(email)
    ensures r.Err? && !IsBlank(email) && password != [] && !EmailFree(db.users, Normalize(email))
            ==> r == Err(Failure(401, "Incorrect password. Please try again."))
  {
    if IsBlank(email) {
      return Err(Failure(400, "Email is required"));
    }
    if password == [] {
      return Err(Failure(400, "Password is required"));
    }
    var clean := Normalize(email);
    if EmailFree(db.users, clean) {
      return Err(Failure(404, "No account found with this email. Please sign up first."));
    }
    var id :| id in db.users && db.users[id].email == clean;
    assert forall other :: other in db.users && db.users[other].email == clean ==> other == id;
    if !verify(password, db.users[id].passwordHash) {
      return Err(Failure(401, "Incorrect password. Please try again."));
    }
    r := Ok(PublicUserOf(id, db.users[id]));
  }

  /** Registering and then logging in with the same password and the email in any case and
      with any surrounding whitespace finds the new account and only it, provided bcrypt's
      compare accepts the password against the hash it produced. */
  lemma RegisterThenLogin(users: map<int, User>, nextId: int, fullName: string, username: string, email: string,
                          password: string, hashed: string, now: int, verify: (string, string) -> bool,
                          loginEmail: string)
    requires UsersOk(users, nextId)
    requires RegisterError(users, fullName, username, email, password).None?
    requires verify(password, hashed) && Normalize(loginEmail) == Normalize(email)
    ensures var after := users[nextId := NewAccount(fullName, username, email, hashed, now)];
            && LoginAccepts(after, loginEmail, password, verify)
            && forall id :: id in after && after[id].email == Normalize(loginEmail) ==> id == nextId
  {
    var clean := Normalize(email);
    var account := NewAccount(fullName, username, email, hashed, now);
    assert EmailShaped(clean) && EmailFree(users, clean);
    assert |Trim(loginEmail)| == |Normalize(loginEmail)| == |clean| > 0;
    var after := users[nextId := account];
    OnlyAccountWithEmail(users, nextId, account, clean, after);
    assert after[nextId].email == Normalize(loginEmail) && verify(password, after[nextId].passwordHash);
  }

  /** An account inserted under an email no other account has is the only one with it. */
  lemma OnlyAccountWithEmail(users: map<int, User>, nextId: int, account: User, email: string,
                             after: map<int, User>)
    requires EmailFree(users, email) && account.email == email && after == users[nextId := account]
    ensures forall id :: id in after && after[id].email == email ==> id == nextId
  {
    forall id | id in after && id != nextId ensures after[id].email != email {
      assert after[id] == users[id];
    }
  }
}
