/** The auth controller: `register`, `login`, the token it signs and the cookie it sets.
    The user collection is the sequence of stored users in their natural order, so that
    `findOne` is the first match. bcrypt's `hash`/`compare` and `jwt.sign` are not
    modelled: they are the fields of a `Crypto` value. */
module AuthController {
  import opened Wrappers
  import opened Strings
  import opened UserModel

  /** What `generateToken` signs: the subject and the expiry. */
  datatype TokenPayload = TokenPayload(userId: string, role: Role, expiresInSeconds: int)

  /** The foreign functions: password hashing (cost 12), hash comparison and token signing. */
  datatype Crypto = Crypto(
    hash: string -> string,
    compare: (string, string) -> bool,
    sign: TokenPayload -> string)

  /** A password matches its own hash: all the model assumes of bcrypt. */
  ghost predicate Sound(c: Crypto)
  {
    forall p :: c.compare(p, c.hash(p))
  }

  /** `"7d"`. */
  const SevenDaysInSeconds := 7 * 24 * 60 * 60

  /** `generateToken(userId, role)`. */
  function GenerateToken(c: Crypto, userId: string, role: Role): (r: string)
    ensures r == c.sign(TokenPayload(userId, role, 604800))
  {
    c.sign(TokenPayload(userId, role, SevenDaysInSeconds))
  }

  /** The deployment environment: `NODE_ENV` and `COOKIE_DOMAIN`. */
  datatype Env = Env(nodeEnv: string, cookieDomain: Option<string>)

  predicate IsProduction(env: Env)
  {
    env.nodeEnv == "production"
  }

  datatype SameSite = SameSiteNone | SameSiteLax

  /** The options of the `token` cookie. */
  datatype CookieOptions = CookieOptions(
    httpOnly: bool,
    secure: bool,
    sameSite: SameSite,
    maxAgeMillis: int,
    domain: Option<string>,
    path: string)

  /** The cookie options login uses in an environment. */
  function TokenCookie(env: Env): (r: CookieOptions)
    ensures r.secure <==> IsProduction(env)
    ensures r.sameSite == SameSiteNone <==> IsProduction(env)
    ensures r.domain == if IsProduction(env) then env.cookieDomain else None
    ensures !r.httpOnly && r.path == "/"
    ensures r.maxAgeMillis == 1000 * SevenDaysInSeconds
  {
    var production := IsProduction(env);
    CookieOptions(
      false,
      production,
      if production then SameSiteNone else SameSiteLax,
      7 * 24 * 60 * 60 * 1000,
      if production then env.cookieDomain else None,
      "/")
  }

  /** A cross-site cookie is always a secure one, and the cookie lives exactly as long as
      the token it carries. */
  lemma CrossSiteCookieIsSecure(env: Env)
    ensures TokenCookie(env).sameSite == SameSiteNone ==> TokenCookie(env).secure
    ensures TokenCookie(env).maxAgeMillis == 604800000
    ensures !IsProduction(env) ==> TokenCookie(env).domain.None? && TokenCookie(env).sameSite == SameSiteLax
  {
  }

  datatype AuthError =
    | Conflict(message: string, field: string, value: string)
    | Authentication(message: string)
    | Validation(paths: seq<string>)
    | IllegalArguments

  const EmailRegistered := "email already registered"
  const CredentialsRequired := "Email and password are required"
  const InvalidCredentials := "Invalid credentials"

  /** The body of a register response: no password among its fields. */
  datatype RegisterResponse = RegisterResponse(id: string, name: Option<string>, role: Role, email: Option<string>)

  /** What login returns and sets. */
  datatype LoginSuccess = LoginSuccess(token: string, cookie: CookieOptions, user: map<string, Value>)

  /** `User.findOne({ email })`: the position of the first user with that email. */
  function FindByEmail(users: seq<User>, email: string): (r: Option<nat>)
    ensures r.Some? ==> r.value < |users| && users[r.value].email == Some(email) &&
                        forall k :: 0 <= k < r.value ==> users[k].email != Some(email)
    ensures r.None? ==> forall k :: 0 <= k < |users| ==> users[k].email != Some(email)
  {
    if users == [] then None
    else if users[0].email == Some(email) then Some(0)
    else
      var rest := FindByEmail(users[1..], email);
      assert forall k :: 1 <= k < |users| ==> users[k] == users[1..][k - 1];
      if rest.None? then None else Some(rest.value + 1)
  }

  /** A search that fails in a collection finds the user appended after it. */
  lemma FindAppended(users: seq<User>, u: User, email: string)
    requires FindByEmail(users, email).None? && u.email == Some(email)
    ensures FindByEmail(users + [u], email) == Some(|users|)
  {
    assert forall k :: 0 <= k < |users| ==> (users + [u])[k] == users[k];
    assert (users + [u])[|users|] == u;
  }

  /** No two stored users share an email. */
  ghost predicate EmailsUnique(users: seq<User>)
  {
    forall i, j :: 0 <= i < j < |users| && users[i].email.Some? ==> users[i].email != users[j].email
  }

  /** The user `register` builds: role USER, the hash and never the plain password, and
      the email exactly as given, only when it is not empty. */
  function NewRegisteredUser(c: Crypto, id: string, name: string, email: string, password: string)
    : (r: Result<User, seq<string>>)
    ensures r.Ok? <==>
      UserIssues(UserInput(Some(name), if email != "" then Some(email) else None, Some(c.hash(password)), Some("USER"))) == []
    ensures r.Ok? ==>
      r.value == User(id, Some(name), if email != "" then Some(email) else None, Some(c.hash(password)), USER, false, false, 0)
  {
    NewUser(id, UserInput(Some(name), if email != "" then Some(email) else None, Some(c.hash(password)), Some("USER")))
  }

  /** The outcome of `register`. */
  function RegisterResult(users: seq<User>, c: Crypto, id: string, name: string, email: string, password: string)
    : (r: Result<Reply<RegisterResponse>, AuthError>)
    ensures r.Err? && r.error.Conflict? <==> FindByEmail(users, email).Some?
    ensures r.Err? && r.error.Conflict? ==> r.error == Conflict(EmailRegistered, "email", email)
    ensures r.Ok? <==> FindByEmail(users, email).None? && NewRegisteredUser(c, id, name, email, password).Ok?
    ensures r.Err? ==> r.error.Conflict? || r.error.Validation?
    ensures r.Err? && r.error.Validation? ==> r.error.paths == NewRegisteredUser(c, id, name, email, password).error
    ensures r.Ok? ==>
      var u := NewRegisteredUser(c, id, name, email, password);
      u.Ok? && u.value.role == USER && u.value.password == Some(c.hash(password)) &&
      u.value.email == (if email != "" then Some(email) else None) &&
      r.value == Reply(201, RegisterResponse(id, Some(name), USER, u.value.email))
  {
    if FindByEmail(users, email).Some? then Err(Conflict(EmailRegistered, "email", email))
    else
      var u := NewRegisteredUser(c, id, name, email, password);
      if u.Err? then Err(Validation(u.error))
      else Ok(Reply(201, RegisterResponse(id, u.value.name, u.value.role, u.value.email)))
  }

  /** Appending a user whose email no stored user has keeps emails unique. */
  lemma AppendKeepsEmailsUnique(users: seq<User>, u: User)
    requires EmailsUnique(users)
    requires u.email.Some? ==> FindByEmail(users, u.email.value).None?
    ensures EmailsUnique(users + [u])
  {
    var s := users + [u];
    forall i, j | 0 <= i < j < |s| && s[i].email.Some? ensures s[i].email != s[j].email {
      if j == |users| {
        assert s[i] == users[i];
      } else {
        assert s[i] == users[i] && s[j] == users[j];
      }
    }
  }

  /** `login`'s answer once a user is found: bcrypt refuses a user without a password,
      then the password is compared, then the token is issued with the cookie options and
      the user's object without its password and version. */
  function LoginAs(u: User, c: Crypto, env: Env, password: string): (r: Result<Reply<LoginSuccess>, AuthError>)
    ensures r.Ok? <==> u.password.Some? && c.compare(password, u.password.value)
    ensures r.Err? ==> r.error == if u.password.None? then IllegalArguments else Authentication(InvalidCredentials)
    ensures r.Ok? ==>
      r.value.status == 200 && r.value.body.token == GenerateToken(c, u.id, u.role) &&
      r.value.body.cookie == TokenCookie(env) &&
      "password" !in r.value.body.user && "__v" !in r.value.body.user &&
      "_id" in r.value.body.user && r.value.body.user["_id"] == Str(u.id)
  {
    if u.password.None? then Err(IllegalArguments)
    else if !c.compare(password, u.password.value) then Err(Authentication(InvalidCredentials))
    else Ok(Reply(200, LoginSuccess(GenerateToken(c, u.id, u.role), TokenCookie(env),
                                    WithoutSecrets(ToObject(u, true)))))
  }

  /** The outcome of `login`. */
  function LoginResult(users: seq<User>, c: Crypto, env: Env, email: string, password: string)
    : (r: Result<Reply<LoginSuccess>, AuthError>)
    ensures email == "" || password == "" ==> r == Err(Authentication(CredentialsRequired))
    ensures email != "" && password != "" && FindByEmail(users, Lower(email)).None? ==>
      r == Err(Authentication(InvalidCredentials))
    ensures var f := FindByEmail(users, Lower(email));
      email != "" && password != "" && f.Some? && users[f.value].password.None? ==>
        r == Err(IllegalArguments)
    ensures var f := FindByEmail(users, Lower(email));
      email != "" && password != "" && f.Some? && users[f.value].password.Some? &&
      !c.compare(password, users[f.value].password.value) ==>
        r == Err(Authentication(InvalidCredentials))
    ensures var f := FindByEmail(users, Lower(email));
      email != "" && password != "" && f.Some? && users[f.value].password.Some? &&
      c.compare(password, users[f.value].password.value) ==>
        r.Ok?
    ensures r.Ok? ==>
      var found := FindByEmail(users, Lower(email));
      found.Some? && var u := users[found.value];
      u.password.Some? && c.compare(password, u.password.value) &&
      r.value.status == 200 &&
      r.value.body.token == c.sign(TokenPayload(u.id, u.role, SevenDaysInSeconds)) &&
      r.value.body.cookie == TokenCookie(env) &&
      "password" !in r.value.body.user && "__v" !in r.value.body.user &&
      "_id" in r.value.body.user && r.value.body.user["_id"] == Str(u.id)
  {
    if email == "" || password == "" then Err(Authentication(CredentialsRequired))
    else
      var found := FindByEmail(users, Lower(email));
      if found.None? then Err(Authentication(InvalidCredentials))
      else LoginAs(users[found.value], c, env, password)
  }

  /** An unknown email and a wrong password give the very same answer. */
  lemma LoginHidesWhichCheckFailed(users: seq<User>, c: Crypto, env: Env, email: string, password: string,
                                   other: string)
    requires email != "" && password != "" && other != ""
    requires FindByEmail(users, Lower(other)).None?
    requires var f := FindByEmail(users, Lower(email));
      f.Some? && users[f.value].password.Some? && !c.compare(password, users[f.value].password.value)
    ensures LoginResult(users, c, env, email, password) == LoginResult(users, c, env, other, password)
    ensures LoginResult(users, c, env, email, password) == Err(Authentication(InvalidCredentials))
  {
  }

  /** The email as written in a register request is stored verbatim, but login looks it
      up lowercased: a user who registers with an upper-case letter in the email can
      never log in, even with the right password. */
  lemma MixedCaseEmailCannotLogIn(users: seq<User>, c: Crypto, env: Env, id: string, name: string,
                                  email: string, password: string)
    requires RegisterResult(users, c, id, name, email, password).Ok?
    requires Lower(email) != email && password != ""
    requires FindByEmail(users, Lower(email)).None?
    ensures var users' := users + [NewRegisteredUser(c, id, name, email, password).value];
      LoginResult(users', c, env, email, password) == Err(Authentication(InvalidCredentials))
  {
    var u := NewRegisteredUser(c, id, name, email, password).value;
    var users' := users + [u];
    assert email != "";
    assert forall k :: 0 <= k < |users| ==> users'[k] == users[k];
    assert users'[|users|] == u;
  }

  /** The three parts of "Alice@example.com" hold no white space and no '@'. */
  lemma AlicePartsPlain()
    ensures AllPlain("Alice") && AllPlain("example") && AllPlain("com")
  {
  }

  /** "Alice@example.com" passes the email validator. */
  lemma AliceEmailValid()
    ensures EmailValid("Alice@example.com")
  {
    var s := "Alice@example.com";
    AlicePartsPlain();
    assert s[..5] == "Alice" && s[6..13] == "example" && s[14..] == "com";
    assert EmailSplit(s, 5, 13);
    PatternToEmailValid("Alice@example.com", 5, 13);
  }

  /** The concrete case: "Alice@example.com" registers and cannot log in. */
  lemma AliceCannotLogIn(c: Crypto, env: Env)
    requires Sound(c) && |c.hash("Secret#123")| >= 8
    ensures var email := "Alice@example.com";
      RegisterResult([], c, "u1", "Alice", email, "Secret#123").Ok? &&
      LoginResult([NewRegisteredUser(c, "u1", "Alice", email, "Secret#123").value], c, env, email, "Secret#123")
        == Err(Authentication(InvalidCredentials))
  {
    var email := "Alice@example.com";
    AliceEmailValid();
    assert Lower(email)[0] == 'a';
    MixedCaseEmailCannotLogIn([], c, env, "u1", "Alice", email, "Secret#123");
  }

  // ---- the corrected register: the email is stored, and looked up, lowercased ----

  function NewNormalizedUser(c: Crypto, id: string, name: string, email: string, password: string)
    : Result<User, seq<string>>
  {
    NewUser(id, UserInput(Some(name), if email != "" then Some(Lower(email)) else None, Some(c.hash(password)), Some("USER")))
  }

  /** `register` as evidently intended: the same steps, with the email lowercased as login
      lowercases it. */
  function RegisterNormalizedResult(users: seq<User>, c: Crypto, id: string, name: string, email: string, password: string)
    : (r: Result<Reply<RegisterResponse>, AuthError>)
    ensures r.Err? && r.error.Conflict? <==> FindByEmail(users, Lower(email)).Some?
    ensures r.Err? && r.error.Conflict? ==> r.error == Conflict(EmailRegistered, "email", email)
    ensures r.Ok? <==> FindByEmail(users, Lower(email)).None? && NewNormalizedUser(c, id, name, email, password).Ok?
    ensures r.Err? ==> r.error.Conflict? || r.error.Validation?
    ensures r.Err? && r.error.Validation? ==> r.error.paths == NewNormalizedUser(c, id, name, email, password).error
    ensures r.Ok? ==>
      var u := NewNormalizedUser(c, id, name, email, password);
      u.Ok? && u.value.role == USER && u.value.password == Some(c.hash(password)) &&
      u.value.email == (if email != "" then Some(Lower(email)) else None) &&
      r.value == Reply(201, RegisterResponse(id, Some(name), USER, u.value.email))
  {
    if FindByEmail(users, Lower(email)).Some? then Err(Conflict(EmailRegistered, "email", email))
    else
      var u := NewNormalizedUser(c, id, name, email, password);
      if u.Err? then Err(Validation(u.error))
      else Ok(Reply(201, RegisterResponse(id, u.value.name, u.value.role, u.value.email)))
  }

  /** With the corrected register, whoever registers logs in with the same email and
      password, gets a token for their own id and role USER, and sees no password. */
  lemma RegisterThenLogIn(users: seq<User>, c: Crypto, env: Env, id: string, name: string,
                          email: string, password: string)
    requires Sound(c)
    requires RegisterNormalizedResult(users, c, id, name, email, password).Ok?
    requires email != "" && password != ""
    ensures var users' := users + [NewNormalizedUser(c, id, name, email, password).value];
      var r := LoginResult(users', c, env, email, password);
      r.Ok? && r.value.body.token == c.sign(TokenPayload(id, USER, SevenDaysInSeconds)) &&
      "password" !in r.value.body.user && "_id" in r.value.body.user && r.value.body.user["_id"] == Str(id)
  {
    var u := NewNormalizedUser(c, id, name, email, password).value;
    FindAppended(users, u, Lower(email));
    assert (users + [u])[|users|] == u;
    assert c.compare(password, c.hash(password));
  }

  /** The user collection. */
  class UserCollection {
    var users: seq<User>

    ghost predicate Valid()
      reads this
    {
      EmailsUnique(users)
    }

    constructor ()
      ensures users == [] && Valid()
    {
      users := [];
    }

    /** `register`, as written: on success appends the new user; on any error saves nothing. */
    method Register(c: Crypto, id: string, name: string, email: string, password: string)
      returns (r: Result<Reply<RegisterResponse>, AuthError>)
      requires Valid()
      modifies this
      ensures Valid()
      ensures r == RegisterResult(old(users), c, id, name, email, password)
      ensures r.Ok? ==> users == old(users) + [NewRegisteredUser(c, id, name, email, password).value]
      ensures r.Err? ==> users == old(users)
    {
      if FindByEmail(users, email).Some? {
        return Err(Conflict(EmailRegistered, "email", email));
      }
      var hashed := c.hash(password);
      var built := NewUser(id, UserInput(Some(name), if email != "" then Some(email) else None, Some(hashed), Some("USER")));
      if built.Err? {
        return Err(Validation(built.error));
      }
      AppendKeepsEmailsUnique(users, built.value);
      users := users + [built.value];
      r := Ok(Reply(201, RegisterResponse(id, built.value.name, built.value.role, built.value.email)));
    }

    /** `register` with the email lowercased, which is what login expects. */
    method RegisterNormalized(c: Crypto, id: string, name: string, email: string, password: string)
      returns (r: Result<Reply<RegisterResponse>, AuthError>)
      requires Valid()
      modifies this
      ensures Valid()
      ensures r == RegisterNormalizedResult(old(users), c, id, name, email, password)
      ensures r.Ok? ==> users == old(users) + [NewNormalizedUser(c, id, name, email, password).value]
      ensures r.Err? ==> users == old(users)
    {
      var normalized := Lower(email);
      if FindByEmail(users, normalized).Some? {
        return Err(Conflict(EmailRegistered, "email", email));
      }
      var built := NewUser(id, UserInput(Some(name), if email != "" then Some(normalized) else None, Some(c.hash(password)), Some("USER")));
      if built.Err? {
        return Err(Validation(built.error));
      }
      AppendKeepsEmailsUnique(users, built.value);
      users := users + [built.value];
      r := Ok(Reply(201, RegisterResponse(id, built.value.name, built.value.role, built.value.email)));
    }

    /** `login`: reads the collection and writes nothing to it. The user's object has its
        secret keys deleted in place before it is returned. */
    method Login(c: Crypto, env: Env, email: string, password: string)
      returns (r: Result<Reply<LoginSuccess>, AuthError>)
      ensures r == LoginResult(users, c, env, email, password)
    {
      if email == "" || password == "" {
        return Err(Authentication(CredentialsRequired));
      }
      var found := FindByEmail(users, Lower(email));
      if found.None? {
        return Err(Authentication(InvalidCredentials));
      }
      var u := users[found.value];
      if u.password.None? {
        return Err(IllegalArguments);
      }
      if !c.compare(password, u.password.value) {
        return Err(Authentication(InvalidCredentials));
      }
      var token := GenerateToken(c, u.id, u.role);
      var userObject := new DocObject(ToObject(u, true));
      userObject.Delete("password");
      userObject.Delete("__v");
      assert userObject.fields == WithoutSecrets(ToObject(u, true));
      r := Ok(Reply(200, LoginSuccess(token, TokenCookie(env), userObject.fields)));
    }
  }
}
