/** The authentication controller: register, login, the current-user lookup
    and logout, over the User collection. Request body fields are strings, an
    absent field being the empty string (both are falsy). `hash` stands for
    bcrypt and `sign` for token generation. */
module AuthController {
  import opened Wrappers
  import opened Jwt
  import opened Users
  import AuthMiddleware

  const UserExistsMessage: string := "User already exists"
  const MissingCredentialsMessage: string := "Please provide an email and password"
  const InvalidCredentialsMessage: string := "Invalid credentials"

  /** The user as the auth replies show it; the password is not part of it. */
  datatype PublicUser = PublicUser(id: UserId, name: string, email: string, role: Role, createdAt: int)

  datatype AuthData = AuthData(user: PublicUser, token: string)

  function Public(u: User): (p: PublicUser)
    ensures p.id == u.id && p.name == u.name && p.email == u.email
    ensures p.role == u.role && p.createdAt == u.createdAt
  {
    PublicUser(u.id, u.name, u.email, u.role, u.createdAt)
  }

  /** The token handed out for a user: signed over its id and stored e-mail. */
  function TokenFor(u: User, sign: Payload -> string): string {
    sign(Payload(u.id, u.email))
  }

  /** The record `User.create` builds from the body: setters applied, default
      role, both timestamps at creation time; the hook then hashes the password. */
  function NewUser(id: UserId, name: string, email: string, password: string, now: int): (u: User)
    ensures u.id == id && u.name == NormalizeName(name) && u.email == NormalizeEmail(email)
    ensures u.role == DefaultRole && u.createdAt == now
  {
    User(id, NormalizeName(name), NormalizeEmail(email), password, DefaultRole, now, now)
  }

  /** `register`. `id` is the fresh ObjectId of the new record. */
  function Register(users: seq<User>, name: string, email: string, password: string, id: UserId, now: int,
                    hash: string -> string, sign: Payload -> string)
    : (r: Step<seq<User>, Reply<AuthData>>)
    requires forall i :: 0 <= i < |users| ==> users[i].id != id
    ensures FindByEmail(users, email).Some? ==> r == Step(users, Err(Http(400, UserExistsMessage)))
    ensures r.result.Err? ==> r.state == users
    ensures r.result.Ok? <==>
      FindByEmail(users, email).None? && SchemaErrors(NormalizeName(name), NormalizeEmail(email), Some(password)) == {}
    ensures FindByEmail(users, email).None? && r.result.Err? ==>
      r.result.error == Invalid(SchemaErrors(NormalizeName(name), NormalizeEmail(email), Some(password)))
    ensures r.result.Ok? ==>
      var saved := NewUser(id, name, email, hash(password), now);
      && r.state == users + [saved]
      && r.result.value == Reply(201, AuthData(Public(saved), sign(Payload(id, NormalizeEmail(email)))))
  {
    if FindByEmail(users, email).Some? then Step(users, Err(Http(400, UserExistsMessage)))
    else
      var u := NewUser(id, name, email, password, now);
      NoOtherHolder(users, email, id);
      match Save(users, u, Some(password), hash, now)
      case Err(e) => Step(users, Err(e))
      case Ok(after) =>
        var saved := u.(password := hash(password));
        assert IndexOfId(users, id).None?;
        Step(after, Ok(Reply(201, AuthData(Public(saved), TokenFor(saved, sign)))))
  }

  /** When the lookup by e-mail finds nobody, the unique index cannot refuse the
      new record either. */
  lemma NoOtherHolder(users: seq<User>, email: string, id: UserId)
    requires FindByEmail(users, email).None?
    ensures !EmailTaken(users, NormalizeEmail(email), id)
  {
  }

  /** Registration keeps the collection well formed. */
  lemma RegisterPreservesWellFormed(users: seq<User>, name: string, email: string, password: string, id: UserId,
                                    now: int, hash: string -> string, sign: Payload -> string)
    requires WellFormed(users)
    requires forall i :: 0 <= i < |users| ==> users[i].id != id
    ensures WellFormed(Register(users, name, email, password, id, now, hash, sign).state)
  {
    var u := NewUser(id, name, email, password, now);
    NormalizeNameIdempotent(name);
    NormalizeEmailIdempotent(email);
    if FindByEmail(users, email).None? {
      NoOtherHolder(users, email, id);
      SavePreservesWellFormed(users, u, Some(password), hash, now);
    }
  }

  /** `login`: both fields are required before anything is looked up; an
      unknown address and a wrong password get the same 401. */
  function Login(users: seq<User>, email: string, password: string, hash: string -> string, sign: Payload -> string)
    : (r: Result<Reply<AuthData>>)
    ensures email == "" || password == "" ==> r == Err(Http(400, MissingCredentialsMessage))
    ensures email != "" && password != "" && r.Err? ==> r.error == Http(401, InvalidCredentialsMessage)
    ensures r.Ok? <==>
      && email != "" && password != ""
      && FindByEmail(users, email).Some? && MatchPassword(FindByEmail(users, email).value, password, hash)
    ensures r.Ok? ==>
      var u := FindByEmail(users, email).value;
      r.value == Reply(200, AuthData(Public(u), TokenFor(u, sign)))
  {
    if email == "" || password == "" then Err(Http(400, MissingCredentialsMessage))
    else match FindByEmail(users, email)
      case None => Err(Http(401, InvalidCredentialsMessage))
      case Some(u) =>
        if !MatchPassword(u, password, hash) then Err(Http(401, InvalidCredentialsMessage))
        else Ok(Reply(200, AuthData(Public(u), TokenFor(u, sign))))
  }

  /** Once the address finds a record, a login with a non-empty password
      succeeds exactly when the password matches that record. */
  lemma LoginFinds(users: seq<User>, email: string, password: string, hash: string -> string,
                   sign: Payload -> string, u: User)
    requires FindByEmail(users, email) == Some(u) && email != ""
    ensures Login(users, email, password, hash, sign).Ok? <==> password != "" && hash(password) == u.password
  {
  }

  /** Someone who has just registered can log in with the same address and
      password, and is shown the same user. */
  lemma RegisterThenLogin(users: seq<User>, name: string, email: string, password: string, id: UserId,
                          now: int, hash: string -> string, sign: Payload -> string)
    requires forall i :: 0 <= i < |users| ==> users[i].id != id
    requires email != "" && password != ""
    requires Register(users, name, email, password, id, now, hash, sign).result.Ok?
    ensures var reg := Register(users, name, email, password, id, now, hash, sign);
      Login(reg.state, email, password, hash, sign) == Ok(Reply(200, reg.result.value.data))
  {
    var reg := Register(users, name, email, password, id, now, hash, sign);
    var saved := NewUser(id, name, email, hash(password), now);
    assert reg.state == users + [saved];
    assert reg.result.value.data == AuthData(Public(saved), TokenFor(saved, sign));
    FindAppended(users, saved, email);
  }

  /** A record appended with an address nobody held is what a lookup by that
      address finds. */
  lemma FindAppended(users: seq<User>, u: User, email: string)
    requires FindByEmail(users, email).None?
    requires u.email == NormalizeEmail(email)
    ensures FindByEmail(users + [u], email) == Some(u)
  {
    var after := users + [u];
    var k := IndexOfEmail(after, NormalizeEmail(email));
    assert after[|users|] == u;
    assert k.Some?;
  }

  /** The token handed out at registration lets the new user through the
      `protect` middleware, provided the token verifies to what it was signed
      over and holds no space. */
  lemma RegisterThenProtect(users: seq<User>, name: string, email: string, password: string, id: UserId,
                            now: int, hash: string -> string, sign: Payload -> string,
                            verify: string -> Option<Payload>)
    requires WellFormed(users)
    requires forall i :: 0 <= i < |users| ==> users[i].id != id
    requires Register(users, name, email, password, id, now, hash, sign).result.Ok?
    requires Agree(sign, verify, Payload(id, NormalizeEmail(email)))
    requires ' ' !in sign(Payload(id, NormalizeEmail(email))) && sign(Payload(id, NormalizeEmail(email))) != ""
    ensures var reg := Register(users, name, email, password, id, now, hash, sign);
      var header := Some("Bearer " + reg.result.value.data.token);
      AuthMiddleware.Protect(header, verify, reg.state).Ok?
      && AuthMiddleware.Protect(header, verify, reg.state).value.id == id
  {
    var saved := NewUser(id, name, email, hash(password), now);
    var after := users + [saved];
    RegisterPreservesWellFormed(users, name, email, password, id, now, hash, sign);
    assert after[|users|] == saved;
    AuthMiddleware.ProtectAcceptsSignedToken(sign, verify, after, |users|);
  }

  /** `getMe`: the stored record without its password, or null. */
  datatype Account = Account(id: UserId, name: string, email: string, role: Role, createdAt: int, updatedAt: int)

  function GetMe(users: seq<User>, caller: Option<UserId>): (r: Reply<Option<Account>>)
    ensures r.status == 200
    ensures r.data.Some? <==> caller.Some? && FindById(users, caller.value).Some?
    ensures r.data.Some? ==>
      var u := FindById(users, caller.value).value;
      r.data.value == Account(u.id, u.name, u.email, u.role, u.createdAt, u.updatedAt)
  {
    match caller
    case None => Reply(200, None)
    case Some(id) =>
      match FindById(users, id)
      case None => Reply(200, None)
      case Some(u) => Reply(200, Some(Account(u.id, u.name, u.email, u.role, u.createdAt, u.updatedAt)))
  }

  /** `logout`: always a 200 with an empty payload; nothing is stored or revoked. */
  function Logout(users: seq<User>): (r: Step<seq<User>, Reply<()>>)
    ensures r.state == users
    ensures r.result == Ok(Reply(200, ()))
  {
    Step(users, Ok(Reply(200, ())))
  }
}
