/** The user controller: profile update and password change for the user the
    `protect` middleware attached to the request (`caller`). Body fields are
    strings, an absent field being the empty string, except `currentPassword`:
    an absent one reaches `bcryptjs.compare` as `undefined`, which rejects
    instead of answering false, so it is an `Option`. */
module UserController {
  import opened Wrappers
  import opened Users
  import AuthController
  import Jwt

  const UserNotFoundMessage: string := "User not found"
  const WrongPasswordMessage: string := "Current password is incorrect"
  const PasswordUpdatedMessage: string := "Password updated successfully"
  /** The rejection of `bcryptjs.compare(undefined, hash)`. */
  const IllegalArgumentsMessage: string := "Illegal arguments: undefined, string"

  /** The profile reply: no password, no timestamps. */
  datatype Profile = Profile(id: UserId, name: string, email: string, role: Role)

  /** `findById(req.user?._id)`; an absent id finds nobody. */
  function Load(users: seq<User>, caller: Option<UserId>): (r: Option<nat>)
    ensures r.Some? ==> caller.Some? && r.value < |users| && users[r.value].id == caller.value
    ensures r.None? ==> caller.None? || FindById(users, caller.value).None?
  {
    match caller
    case None => None
    case Some(id) => IndexOfId(users, id)
  }

  /** `user.name = name || user.name` and the same for the e-mail: a non-empty
      value replaces the stored one, passing through its setters. */
  function Merge(u: User, name: string, email: string): (m: User)
    ensures m.name == (if name != "" then NormalizeName(name) else u.name)
    ensures m.email == (if email != "" then NormalizeEmail(email) else u.email)
    ensures m.(name := u.name, email := u.email) == u
  {
    u.(name := if name != "" then NormalizeName(name) else u.name,
       email := if email != "" then NormalizeEmail(email) else u.email)
  }

  /** `updateProfile`. The password is neither read nor modified, so the hook
      leaves it alone. When the merged record equals the stored one nothing
      is modified, so nothing is written and `updatedAt` keeps its value. */
  function UpdateProfile(users: seq<User>, caller: Option<UserId>, name: string, email: string,
                         hash: string -> string, now: int)
    : (r: Step<seq<User>, Reply<Profile>>)
    ensures Load(users, caller).None? ==> r == Step(users, Err(Http(404, UserNotFoundMessage)))
    ensures r.result.Err? ==> r.state == users
    ensures r.result.Ok? ==>
      var k := Load(users, caller).value;
      var m := Merge(users[k], name, email);
      && SchemaErrors(m.name, m.email, None) == {} && !EmailTaken(users, m.email, m.id)
      && r.state == (if m == users[k] then users else users[k := m.(updatedAt := now)])
      && r.result.value == Reply(200, Profile(m.id, m.name, m.email, m.role))
    ensures Load(users, caller).Some? ==>
      var m := Merge(users[Load(users, caller).value], name, email);
      (r.result.Ok? <==> SchemaErrors(m.name, m.email, None) == {} && !EmailTaken(users, m.email, m.id))
  {
    match Load(users, caller)
    case None => Step(users, Err(Http(404, UserNotFoundMessage)))
    case Some(k) =>
      var m := Merge(users[k], name, email);
      assert IndexOfId(users, m.id) == Some(k);
      match Save(users, m, None, hash, now)
      case Err(e) => Step(users, Err(e))
      case Ok(after) => Step(after, Ok(Reply(200, Profile(m.id, m.name, m.email, m.role))))
  }

  /** A profile update keeps the collection well formed. */
  lemma UpdateProfilePreservesWellFormed(users: seq<User>, caller: Option<UserId>, name: string, email: string,
                                         hash: string -> string, now: int)
    requires WellFormed(users)
    ensures WellFormed(UpdateProfile(users, caller, name, email, hash, now).state)
  {
    if UpdateProfile(users, caller, name, email, hash, now).result.Ok? {
      var k := Load(users, caller).value;
      if Merge(users[k], name, email) != users[k] {
        MergedRecordFits(users, k, name, email, now);
      }
    }
  }

  /** The update leaves the password alone, so exactly the passwords that
      logged in before still do. */
  lemma UpdateProfileKeepsLogin(users: seq<User>, caller: Option<UserId>, name: string, email: string,
                                hash: string -> string, now: int, p: string)
    requires UpdateProfile(users, caller, name, email, hash, now).result.Ok?
    ensures var r := UpdateProfile(users, caller, name, email, hash, now);
      var k := Load(users, caller).value;
      MatchPassword(r.state[k], p, hash) <==> MatchPassword(users[k], p, hash)
  {
    var k := Load(users, caller).value;
    var m := Merge(users[k], name, email);
    assert m.password == users[k].password;
    if m != users[k] {
      assert UpdateProfile(users, caller, name, email, hash, now).state[k] == m.(updatedAt := now);
    }
  }

  /** An update with no name and no e-mail, or with the stored ones, modifies
      nothing: the record, its `updatedAt` included, stays as it was. */
  lemma UnchangedProfileKeepsStamp(users: seq<User>, caller: Option<UserId>, name: string, email: string,
                                   hash: string -> string, now: int)
    requires Load(users, caller).Some?
    requires var u := users[Load(users, caller).value];
      (name == "" || NormalizeName(name) == u.name) && (email == "" || NormalizeEmail(email) == u.email)
    ensures UpdateProfile(users, caller, name, email, hash, now).state == users
  {
  }

  /** The record an accepted profile update writes keeps the collection well formed. */
  lemma MergedRecordFits(users: seq<User>, k: nat, name: string, email: string, now: int)
    requires WellFormed(users) && k < |users|
    requires var m := Merge(users[k], name, email);
      SchemaErrors(m.name, m.email, None) == {} && !EmailTaken(users, m.email, m.id)
    ensures WellFormed(users[k := Merge(users[k], name, email).(updatedAt := now)])
  {
    var u := users[k];
    var v := Merge(u, name, email).(updatedAt := now);
    assert StoredShape(u);
    MergeKeepsNormal(u, name, email);
    assert StoredShape(v);
    ReplacePreservesWellFormed(users, k, v);
  }

  /** The merged name and address are in their setters' normal form. */
  lemma MergeKeepsNormal(u: User, name: string, email: string)
    requires StoredShape(u)
    ensures Merge(u, name, email).name == NormalizeName(Merge(u, name, email).name)
    ensures Merge(u, name, email).email == NormalizeEmail(Merge(u, name, email).email)
  {
    NormalizeNameIdempotent(name);
    NormalizeEmailIdempotent(email);
  }

  /** `changePassword`: the current password must match before the new one is
      validated, hashed and stored. An absent current password makes the
      comparison itself reject, and that error goes to `next` as it is. An
      absent new password is the empty string: `undefined` and `""` both fail
      the schema's `required`. */
  function ChangePassword(users: seq<User>, caller: Option<UserId>, currentPassword: Option<string>,
                          newPassword: string, hash: string -> string, now: int)
    : (r: Step<seq<User>, Reply<string>>)
    ensures Load(users, caller).None? ==> r == Step(users, Err(Http(404, UserNotFoundMessage)))
    ensures Load(users, caller).Some? && currentPassword.None? ==>
      r == Step(users, Err(Thrown(IllegalArgumentsMessage)))
    ensures Load(users, caller).Some? && currentPassword.Some? &&
            !MatchPassword(users[Load(users, caller).value], currentPassword.value, hash) ==>
      r == Step(users, Err(Http(401, WrongPasswordMessage)))
    ensures r.result.Err? ==> r.state == users
    ensures r.result.Ok? ==>
      var k := Load(users, caller).value;
      && currentPassword.Some?
      && MatchPassword(users[k], currentPassword.value, hash)
      && |newPassword| >= MinPasswordLength
      && r.state == users[k := users[k].(password := hash(newPassword), updatedAt := now)]
      && r.result.value == Reply(200, PasswordUpdatedMessage)
  {
    match Load(users, caller)
    case None => Step(users, Err(Http(404, UserNotFoundMessage)))
    case Some(k) =>
      var u := users[k];
      if currentPassword.None? then Step(users, Err(Thrown(IllegalArgumentsMessage)))
      else if !MatchPassword(u, currentPassword.value, hash) then Step(users, Err(Http(401, WrongPasswordMessage)))
      else
        assert IndexOfId(users, u.id) == Some(k);
        match Save(users, u, Some(newPassword), hash, now)
        case Err(e) => Step(users, Err(e))
        case Ok(after) => Step(after, Ok(Reply(200, PasswordUpdatedMessage)))
  }

  /** In a well-formed collection a correct change always goes through when the
      new password is long enough. */
  lemma ChangePasswordSucceeds(users: seq<User>, caller: Option<UserId>, currentPassword: string,
                               newPassword: string, hash: string -> string, now: int)
    requires WellFormed(users)
    requires Load(users, caller).Some?
    requires MatchPassword(users[Load(users, caller).value], currentPassword, hash)
    requires |newPassword| >= MinPasswordLength
    ensures ChangePassword(users, caller, Some(currentPassword), newPassword, hash, now).result.Ok?
  {
    var k := Load(users, caller).value;
    var u := users[k];
    assert StoredShape(u);
    StoredNotTaken(users, k);
    StoredValidates(u, Some(newPassword));
    assert Save(users, u, Some(newPassword), hash, now).Ok?;
  }

  /** After a change, the new password logs in and the old one no longer does
      (unless both hash alike). */
  lemma ChangePasswordThenLogin(users: seq<User>, caller: Option<UserId>, currentPassword: string,
                                newPassword: string, hash: string -> string, now: int,
                                sign: Jwt.Payload -> string)
    requires WellFormed(users)
    requires ChangePassword(users, caller, Some(currentPassword), newPassword, hash, now).result.Ok?
    ensures var after := ChangePassword(users, caller, Some(currentPassword), newPassword, hash, now).state;
      var u := users[Load(users, caller).value];
      && AuthController.Login(after, u.email, newPassword, hash, sign).Ok?
      && (hash(currentPassword) != hash(newPassword) ==>
            AuthController.Login(after, u.email, currentPassword, hash, sign).Err?)
  {
    var k := Load(users, caller).value;
    var v := users[k].(password := hash(newPassword), updatedAt := now);
    var after := users[k := v];
    assert ChangePassword(users, caller, Some(currentPassword), newPassword, hash, now).state == after;
    FindAfterPasswordChange(users, k, v);
    AuthController.LoginFinds(after, users[k].email, newPassword, hash, sign, v);
    AuthController.LoginFinds(after, users[k].email, currentPassword, hash, sign, v);
  }

  /** After the password of a stored record is replaced, looking its address
      up finds the new record. */
  lemma FindAfterPasswordChange(users: seq<User>, k: nat, v: User)
    requires WellFormed(users) && k < |users|
    requires v == users[k].(password := v.password, updatedAt := v.updatedAt)
    ensures FindByEmail(users[k := v], users[k].email) == Some(v)
    ensures users[k].email != ""
  {
    var u := users[k];
    var after := users[k := v];
    assert StoredShape(u);
    assert StoredShape(v);
    StoredNotTaken(users, k);
    ReplacePreservesWellFormed(users, k, v);
    NormalizeEmailIdempotent(u.email);
    FindByEmailUnique(after, u.email, k);
  }
}
