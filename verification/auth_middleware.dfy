/** The `protect` middleware: reading the bearer token from the Authorization
    header, verifying it, loading the user, and the `req.user` projection.
    Token verification is the parameter `verify`, which yields the payload of
    a token it accepts. */
module AuthMiddleware {
  import opened Wrappers
  import opened Text
  import opened Jwt
  import Users

  const NotAuthorizedMessage: string := "Not authorized to access this route"

  /** `req.user`: the fields the middleware copies from the stored user; the
      password is not among them. */
  datatype RequestUser = RequestUser(id: string, email: string, name: string, role: string)

  /** The token is the second space-separated field of a header that starts
      with "Bearer"; an absent, empty or non-Bearer header, or an empty or
      missing second field, gives no token. */
  function ExtractToken(header: Option<string>): (r: Option<string>)
    ensures r.Some? ==> header.Some? && StartsWith(header.value, "Bearer")
    ensures r.Some? ==> r.value != "" && ' ' !in r.value
    ensures header.Some? && !StartsWith(header.value, "Bearer") ==> r.None?
  {
    match header
    case None => None
    case Some(h) =>
      if h == "" || !StartsWith(h, "Bearer") then None
      else
        var parts := Split(h, ' ');
        if |parts| < 2 || parts[1] == "" then None else Some(parts[1])
  }

  /** A header written as "Bearer <token>", optionally followed by a space and
      more text, yields exactly that token, provided it is non-empty and holds
      no space. */
  lemma ExtractTokenOfBearer(t: string, rest: seq<string>)
    requires t != "" && ' ' !in t
    requires forall i :: 0 <= i < |rest| ==> ' ' !in rest[i]
    ensures ExtractToken(Some(Join(["Bearer", t] + rest, ' '))) == Some(t)
  {
    var parts := ["Bearer", t] + rest;
    assert parts[0] == "Bearer" && parts[1] == t;
    NoSpacePieces(t, rest);
    SplitJoin(parts, ' ');
    JoinStartsWithHead(parts, ' ');
  }

  lemma NoSpacePieces(t: string, rest: seq<string>)
    requires ' ' !in t
    requires forall i :: 0 <= i < |rest| ==> ' ' !in rest[i]
    ensures forall i :: 0 <= i < |["Bearer", t] + rest| ==> ' ' !in (["Bearer", t] + rest)[i]
  {
    var parts := ["Bearer", t] + rest;
    forall i | 0 <= i < |parts| ensures ' ' !in parts[i] {
      if i >= 2 { assert parts[i] == rest[i - 2]; }
    }
  }

  lemma JoinStartsWithHead(parts: seq<string>, sep: char)
    requires |parts| >= 1
    ensures StartsWith(Join(parts, sep), parts[0])
  {
    JoinFirstPiece(parts, sep);
    var h := Join(parts, sep);
    assert h == parts[0] + h[|parts[0]|..];
    assert h[..|parts[0]|] == parts[0];
  }

  /** The headers the middleware turns away before verifying anything. */
  lemma ExtractTokenRejects()
    ensures ExtractToken(None) == None
    ensures ExtractToken(Some("")) == None
    ensures ExtractToken(Some("Bearer")) == None
    ensures ExtractToken(Some("Bearer ")) == None
    ensures ExtractToken(Some("Token abc")) == None
  {
    SplitJoin(["Bearer"], ' ');
    assert Join(["Bearer"], ' ') == "Bearer";
    SplitJoin(["Bearer", ""], ' ');
    assert Join(["Bearer", ""], ' ') == "Bearer ";
    assert "Token abc"[..6] != "Bearer";
  }

  /** The projection stored in `req.user`. */
  function Project(u: Users.User): (r: RequestUser)
    ensures r.id == u.id && r.email == u.email && r.name == u.name
    ensures Users.ParseRole(r.role) == Some(u.role)
  {
    Users.RoleRoundTrip(u.role, "");
    RequestUser(u.id, u.email, u.name, Users.RoleName(u.role))
  }

  /** `protect`: every failure, the inner "User not found" included, reaches
      the error handler as a 401; on success the request carries the loaded
      user's projection and the next handler runs. */
  function Protect(header: Option<string>, verify: string -> Option<Payload>, users: seq<Users.User>)
    : (r: Result<RequestUser>)
    ensures r.Err? ==> r.error == Http(401, NotAuthorizedMessage)
    ensures r.Ok? <==>
      && ExtractToken(header).Some?
      && verify(ExtractToken(header).value).Some?
      && Users.FindById(users, verify(ExtractToken(header).value).value.id).Some?
    ensures r.Ok? ==>
      var u := Users.FindById(users, verify(ExtractToken(header).value).value.id).value;
      r.value == Project(u)
  {
    match ExtractToken(header)
    case None => Err(Http(401, NotAuthorizedMessage))
    case Some(token) => Authenticate(token, verify, users)
  }

  /** The inner block: verification and lookup. A missing user raises a 404
      there, which the block's own handler rewrites, like any verification
      failure, to the same 401. */
  function Authenticate(token: string, verify: string -> Option<Payload>, users: seq<Users.User>)
    : (r: Result<RequestUser>)
    ensures r.Err? ==> r.error == Http(401, NotAuthorizedMessage)
    ensures r.Ok? <==> verify(token).Some? && Users.FindById(users, verify(token).value.id).Some?
  {
    match verify(token)
    case None => Err(Http(401, NotAuthorizedMessage))
    case Some(p) =>
      match Users.FindById(users, p.id)
      case None => Err(Http(401, NotAuthorizedMessage))
      case Some(u) => Ok(Project(u))
  }

  /** The middleware never answers 404, even when the token names a user that
      no longer exists. */
  lemma ProtectNever404(header: Option<string>, verify: string -> Option<Payload>, users: seq<Users.User>)
    ensures Protect(header, verify, users).Err? ==> Protect(header, verify, users).error.status == 401
  {
  }

  /** A token signed for a stored user, sent as "Bearer <token>", lets the
      request through as that user. */
  lemma ProtectAcceptsSignedToken(sign: Payload -> string, verify: string -> Option<Payload>,
                                  users: seq<Users.User>, i: nat)
    requires Users.IdsDistinct(users)
    requires i < |users|
    requires Agree(sign, verify, Payload(users[i].id, users[i].email))
    requires sign(Payload(users[i].id, users[i].email)) != ""
    requires ' ' !in sign(Payload(users[i].id, users[i].email))
    ensures Protect(Some("Bearer " + sign(Payload(users[i].id, users[i].email))), verify, users)
        == Ok(Project(users[i]))
  {
    var t := sign(Payload(users[i].id, users[i].email));
    ExtractTokenOfBearer(t, []);
    assert Join(["Bearer", t] + [], ' ') == "Bearer " + t;
    var k := Users.IndexOfId(users, users[i].id);
    assert k.Some?;
    assert k.value == i;
  }
}
