/** The account routes: signup stores a new user with a hashed password, and login checks
    a password against the stored hash and hands out a signed token that the access gate
    in front of the employee routes accepts for one hour. */
module UserRoutes {
  import opened Common
  import opened Validation
  import opened UserModel
  import opened UserStore
  import opened Crypto
  import AuthMiddleware

  /** The fields of a signup or login request. */
  datatype UserBody = UserBody(username: Option<string>, email: Option<string>, password: Option<string>)

  /** What a successful reply carries: the new user's id, or the signed token. */
  datatype UserData = UserCreated(user_id: Id) | Token(token: string)

  type Reply = Response<UserData>

  /** A reply together with the users the store holds afterwards. */
  datatype Effect = Effect(reply: Reply, after: map<Id, User>)

  const UserExistsMessage := "User already exists"
  const CreatedMessage := "User created successfully"
  const MissingIdentifierMessage := "Please provide either username or email to log in"
  const NoSuchUserMessage := "User does not exist"
  const WrongPasswordMessage := "Incorrect password"
  const LoginSuccessMessage := "Login successful"

  /** The text of a thrown store error (the wording of the store's own messages is not modelled). */
  function SaveErrorMessage(err: SaveError): string
  {
    match err
    case ValidationError => "User validation failed"
    case DuplicateKey => "E11000 duplicate key error"
  }

  // ------------------------------------------------------------ POST /user/signup

  /** The signup route's validation chains, in declaration order; every validator of a
      chain runs, so a missing username is reported twice. */
  function SignupErrors(v: Validators, b: UserBody): (errs: seq<FieldError>)
    ensures errs == [] <==>
      NotEmpty(b.username) && MinLength(b.username, 3) && v.isEmail(ValueOf(b.email)) && MinLength(b.password, 6)
    ensures b.username.None? ==>
      |errs| >= 2 && errs[..2] == [FieldError("username", "Username is required"),
                    FieldError("username", "Username must be at least 3 characters long")]
    ensures FieldError("email", "Invalid email format") in errs <==> !v.isEmail(ValueOf(b.email))
    ensures FieldError("password", "Password must be at least 6 characters long") in errs <==> !MinLength(b.password, 6)
  {
    Check("username", NotEmpty(b.username), "Username is required")
    + Check("username", MinLength(b.username, 3), "Username must be at least 3 characters long")
    + Check("email", v.isEmail(ValueOf(b.email)), "Invalid email format")
    + Check("password", MinLength(b.password, 6), "Password must be at least 6 characters long")
  }

  /** The user the signup route builds: the setters normalise username and email, the
      password field holds the hash, and both timestamps are the creation time. */
  function NewUser(id: Id, b: UserBody, hashed: string, now: Time): (u: User)
    ensures IsNormalized(u) && u.id == id && u.password == hashed
    ensures u.username == NormalizeUsername(ValueOf(b.username))
    ensures u.email == NormalizeEmail(ValueOf(b.email))
    ensures u.created_at == now && u.updated_at == now
  {
    User(id, NormalizeUsername(ValueOf(b.username)), NormalizeEmail(ValueOf(b.email)), hashed, now, now)
  }

  /** POST /user/signup. Validation errors answer 400 with the error list; a user already
      holding the email or the username answers 400; a save the schema or an index refuses
      answers 500. Otherwise exactly one user is added under the fresh id, with the
      password's hash and never the password itself, and 201 returns the id. */
  function SignupSpec(m: map<Id, User>, b: UserBody, v: Validators, c: Primitives,
                      newId: Id, salt: nat, now: Time): (o: Effect)
    ensures o.reply.code in {201, 400, 500}
    ensures o.reply.code == 400 <==> SignupErrors(v, b) != [] || AnyMatch(m, b.email, b.username)
    ensures SignupErrors(v, b) != [] ==> o.reply == Invalid("", SignupErrors(v, b))
    ensures SignupErrors(v, b) == [] && AnyMatch(m, b.email, b.username) ==>
      o.reply == Failure(400, UserExistsMessage)
    ensures o.reply.code == 500 <==>
      && SignupErrors(v, b) == [] && !AnyMatch(m, b.email, b.username)
      && InsertError(m, NewUser(newId, b, c.hash(ValueOf(b.password), salt), now)).Some?
    ensures o.reply.code != 201 ==> o.after == m && !o.reply.ok
    ensures o.reply.code == 201 ==>
      && newId !in m
      && o.after == m[newId := NewUser(newId, b, c.hash(ValueOf(b.password), salt), now)]
      && o.reply == Success(201, CreatedMessage, UserCreated(newId))
  {
    var errs := SignupErrors(v, b);
    if errs != [] then
      Effect(Invalid("", errs), m)
    else if AnyMatch(m, b.email, b.username) then
      Effect(Failure(400, UserExistsMessage), m)
    else
      var u := NewUser(newId, b, c.hash(ValueOf(b.password), salt), now);
      match InsertError(m, u)
      case Some(err) => Effect(Failure(500, SaveErrorMessage(err)), m)
      case None => Effect(Success(201, CreatedMessage, UserCreated(newId)), m[newId := u])
  }

  /** Signup keeps usernames and emails unique. */
  lemma {:induction false} SignupKeepsUnique(m: map<Id, User>, b: UserBody, v: Validators, c: Primitives,
                                             newId: Id, salt: nat, now: Time)
    requires UniqueUsers(m)
    ensures UniqueUsers(SignupSpec(m, b, v, c, newId, salt, now).after)
  {
    var o := SignupSpec(m, b, v, c, newId, salt, now);
    if o.reply.code == 201 {
      var u := NewUser(newId, b, c.hash(ValueOf(b.password), salt), now);
      assert InsertError(m, u).None?;
      assert forall id :: id in m ==> m[id].username != u.username && m[id].email != u.email;
    }
  }

  /** Because the existence check looks up both the username and the email, the unique
      indexes can refuse a signup's insert only over its id: with a fresh id every 500 is
      a username or email that trims to nothing, or an empty hash. */
  lemma {:induction false} SignupServerErrorCause(m: map<Id, User>, b: UserBody, v: Validators, c: Primitives,
                                                  newId: Id, salt: nat, now: Time)
    requires SignupSpec(m, b, v, c, newId, salt, now).reply.code == 500 && newId !in m
    ensures !HasRequired(NewUser(newId, b, c.hash(ValueOf(b.password), salt), now))
  {
    var u := NewUser(newId, b, c.hash(ValueOf(b.password), salt), now);
    assert SignupErrors(v, b) == [] && !AnyMatch(m, b.email, b.username);
    assert b.username.Some?;
    assert forall id :: id in m ==> m[id].username != u.username;
    assert b.email.Some? ==> forall id :: id in m ==> m[id].email != u.email;
    assert b.email.None? ==> u.email == "";
  }

  /** Signing up twice with the same body: the second request answers 400 `User already
      exists` and stores nothing, whatever id it would have been given. */
  lemma {:induction false} SignupTwice(m: map<Id, User>, b: UserBody, v: Validators, c: Primitives,
                                       id1: Id, id2: Id, salt1: nat, salt2: nat, now1: Time, now2: Time)
    requires SignupSpec(m, b, v, c, id1, salt1, now1).reply.code == 201
    ensures var after := SignupSpec(m, b, v, c, id1, salt1, now1).after;
      SignupSpec(after, b, v, c, id2, salt2, now2) == Effect(Failure(400, UserExistsMessage), after)
  {
    var after := SignupSpec(m, b, v, c, id1, salt1, now1).after;
    assert Matches(after[id1], b.email, b.username);
  }

  /** The signup handler on the collection: validates the body, looks for an existing
      user, then hashes the password and saves the new user. */
  method Signup(store: UserCollection, b: UserBody, v: Validators, c: Primitives,
                newId: Id, salt: nat, now: Time) returns (r: Reply)
    requires store.Valid()
    modifies store
    ensures store.Valid()
    ensures Effect(r, store.users) == SignupSpec(old(store.users), b, v, c, newId, salt, now)
  {
    var errs := SignupErrors(v, b);
    if errs != [] {
      return Invalid("", errs);
    }
    var existing := store.FindOne(b.email, b.username);
    if existing.Some? {
      return Failure(400, UserExistsMessage);
    }
    var hashed := c.hash(ValueOf(b.password), salt);
    r := SaveNewUser(store, b, hashed, newId, now);
  }

  /** The signup handler once no user holds the username or email: builds the document
      (its setters normalise username and email), saves it and answers 201 with the new
      id, or 500 when the save fails. */
  method SaveNewUser(store: UserCollection, b: UserBody, hashed: string, newId: Id, now: Time)
    returns (r: Reply)
    requires store.Valid()
    modifies store
    ensures store.Valid()
    ensures var u := NewUser(newId, b, hashed, now);
      match InsertError(old(store.users), u)
      case Some(err) => r == Failure(500, SaveErrorMessage(err)) && store.users == old(store.users)
      case None => r == Success(201, CreatedMessage, UserCreated(newId)) && store.users == old(store.users)[newId := u]
  {
    var user := new UserDocument(newId, ValueOf(b.username), ValueOf(b.email), hashed, now);
    assert user.Value() == NewUser(newId, b, hashed, now);
    var err := store.Save(user, now);
    if err.Some? {
      return Failure(500, SaveErrorMessage(err.value));
    }
    return Success(201, CreatedMessage, UserCreated(user.id));
  }

  // ------------------------------------------------------------- POST /user/login

  /** The login route's validation chains: a present email must be an email, and the
      password must not be empty. */
  function LoginErrors(v: Validators, b: UserBody): (errs: seq<FieldError>)
    ensures errs == [] <==> (b.email.Some? ==> v.isEmail(b.email.value)) && NotEmpty(b.password)
    ensures FieldError("password", "Password is required") in errs <==> !NotEmpty(b.password)
  {
    CheckIfPresent("email", b.email, v.isEmail, "Provide a valid email")
    + Check("password", NotEmpty(b.password), "Password is required")
  }

  /** The last step of login, once a user `u` was found: 401 unless the password matches
      the stored hash; otherwise 200 with a token for `u`'s id and username that expires
      one hour after `now`. */
  function LoginVerdict(u: User, password: string, c: Primitives, now: Time): (r: Reply)
    ensures r.code == 200 <==> c.compare(password, u.password)
    ensures r.code != 200 ==> r == Failure(401, WrongPasswordMessage)
    ensures r.code == 200 ==>
      r.ok && r.message == LoginSuccessMessage
      && r.data == Some(Token(c.sign(Issue(Claims(u.id, u.username), now))))
  {
    if !c.compare(password, u.password) then Failure(401, WrongPasswordMessage)
    else Success(200, LoginSuccessMessage, Token(c.sign(Issue(Claims(u.id, u.username), now))))
  }

  /** POST /user/login. It never writes the store. 400 for body errors or when neither a
      username nor an email is supplied; 404 when no user holds the (normalised) email or
      username; otherwise the verdict for one of the users that do. */
  method Login(store: UserCollection, b: UserBody, v: Validators, c: Primitives, now: Time)
    returns (r: Reply)
    requires store.Valid()
    ensures r.code in {200, 400, 401, 404}
    ensures r.code == 400 <==> LoginErrors(v, b) != [] || (!Supplied(b.username) && !Supplied(b.email))
    ensures LoginErrors(v, b) != [] ==> r == Invalid("", LoginErrors(v, b))
    ensures LoginErrors(v, b) == [] && !Supplied(b.username) && !Supplied(b.email) ==>
      r == Failure(400, MissingIdentifierMessage)
    ensures r.code == 404 <==>
      && LoginErrors(v, b) == [] && (Supplied(b.username) || Supplied(b.email))
      && !AnyMatch(store.users, b.email, b.username)
    ensures r.code == 404 ==> r == Failure(404, NoSuchUserMessage)
    ensures r.code == 200 || r.code == 401 ==>
      exists id :: id in store.users && Matches(store.users[id], b.email, b.username)
        && r == LoginVerdict(store.users[id], ValueOf(b.password), c, now)
  {
    var errs := LoginErrors(v, b);
    if errs != [] {
      return Invalid("", errs);
    }
    if !Supplied(b.username) && !Supplied(b.email) {
      return Failure(400, MissingIdentifierMessage);
    }
    var user := store.FindOne(b.email, b.username);
    if user.None? {
      return Failure(404, NoSuchUserMessage);
    }
    r := LoginVerdict(user.value, ValueOf(b.password), c, now);
  }

  /** Right after a signup succeeds, the new user is the only one its username or email
      finds, the same body passes login's checks, and with sound primitives the password
      matches: login answers 200 with a token for the new id and its stored username. */
  lemma {:induction false} SignupThenLogin(m: map<Id, User>, b: UserBody, v: Validators, c: Primitives,
                                           newId: Id, salt: nat, now: Time, later: Time)
    requires Sound(c)
    requires SignupSpec(m, b, v, c, newId, salt, now).reply.code == 201
    ensures var after := SignupSpec(m, b, v, c, newId, salt, now).after;
      && newId in after
      && (forall id :: id in after && Matches(after[id], b.email, b.username) <==> id == newId)
      && LoginErrors(v, b) == [] && Supplied(b.username)
      && LoginVerdict(after[newId], ValueOf(b.password), c, later)
         == Success(200, LoginSuccessMessage,
                    Token(c.sign(Issue(Claims(newId, NormalizeUsername(ValueOf(b.username))), later))))
  {
    var after := SignupSpec(m, b, v, c, newId, salt, now).after;
    assert SignupErrors(v, b) == [] && !AnyMatch(m, b.email, b.username);
    assert forall id :: id in m ==> !Matches(m[id], b.email, b.username);
    assert Matches(after[newId], b.email, b.username);
    var pw := ValueOf(b.password);
    assert c.compare(pw, c.hash(pw, salt));
  }

  /** The token login hands out, sent back as `Bearer <token>`, passes the access gate
      with the signed claims for as long as the clock stays within the hour after the
      login second, and is refused from then on. */
  lemma {:induction false} LoginTokenLifetime(c: Primitives, cl: Claims, now: Time, later: Time)
    requires Sound(c)
    ensures var p := Issue(cl, now);
      AuthMiddleware.Decide(Some(AuthMiddleware.BearerPrefix + c.sign(p)), c, later)
        == if Seconds(later) < Seconds(now) + TokenLifetime
           then AuthMiddleware.Admit(p)
           else AuthMiddleware.Deny(AuthMiddleware.InvalidTokenMessage)
  {
    var p := Issue(cl, now);
    var token := c.sign(p);
    assert ' ' !in token;
    AuthMiddleware.BearerTokenOfHeader(token, "");
    assert AuthMiddleware.BearerPrefix + token + "" == AuthMiddleware.BearerPrefix + token;
    assert c.verify(token, Seconds(later)) == if Seconds(later) < p.exp then Some(p) else None;
  }

  /** A client that signs up and then logs in with the same body is answered 200 with a
      token for the new account, whenever the signup was answered 201. */
  method SignupThenLoginClient(store: UserCollection, b: UserBody, v: Validators, c: Primitives,
                               newId: Id, salt: nat, now: Time, later: Time)
    returns (signup: Reply, login: Reply)
    requires store.Valid() && Sound(c)
    modifies store
    ensures store.Valid()
    ensures signup.code == 201 ==>
      login == Success(200, LoginSuccessMessage,
                       Token(c.sign(Issue(Claims(newId, NormalizeUsername(ValueOf(b.username))), later))))
  {
    ghost var before := store.users;
    signup := Signup(store, b, v, c, newId, salt, now);
    login := Login(store, b, v, c, later);
    if signup.code == 201 {
      SignupThenLogin(before, b, v, c, newId, salt, now, later);
    }
  }
}
