/** The User collection: its record, the schema's setters and validators, the
    unique index on e-mail, the password hook that runs before every save,
    and password matching.

    The password hash is a parameter `hash: string -> string`: the library's
    `compare(p, h)` holds exactly when `hash(p) == h`, and the random salt is
    part of what the model leaves abstract. The collection is a sequence in
    natural (insertion) order, so `findOne` and `findById` return the first
    matching record.
 */
module Users {
  import opened Wrappers
  import opened Text
  import Email

  type UserId = string

  /** The schema's role enum. */
  datatype Role = Regular | Admin

  function RoleName(r: Role): string {
    match r
    case Regular => "User"
    case Admin => "Admin"
  }

  /** The enum validator: only the two listed names are roles. */
  function ParseRole(s: string): Option<Role> {
    if s == "User" then Some(Regular)
    else if s == "Admin" then Some(Admin)
    else None
  }

  /** A role is stored by its name and read back unchanged; no other name is a role. */
  lemma RoleRoundTrip(r: Role, s: string)
    ensures ParseRole(RoleName(r)) == Some(r)
    ensures ParseRole(s).Some? ==> RoleName(ParseRole(s).value) == s
    ensures ParseRole(s).Some? <==> s == "User" || s == "Admin"
  {
  }

  const DefaultRole: Role := Regular
  const MinPasswordLength: nat := 8

  /** A stored user. `password` holds the hash, never the plain text. */
  datatype User = User(
    id: UserId,
    name: string,
    email: string,
    password: string,
    role: Role,
    createdAt: int,
    updatedAt: int)

  // ---------------------------------------------------------------------------
  // Setters
  // ---------------------------------------------------------------------------

  /** The `trim` and `lowercase` setters of the e-mail path. */
  function NormalizeEmail(e: string): string {
    ToLower(Trim(e))
  }

  /** The setters commute, so their order does not matter; the result is no
      longer than the input and holds no upper-case letter. */
  lemma NormalizeEmailFacts(e: string)
    ensures NormalizeEmail(e) == Trim(ToLower(e))
    ensures |NormalizeEmail(e)| <= |e|
    ensures forall i :: 0 <= i < |NormalizeEmail(e)| ==> !('A' <= NormalizeEmail(e)[i] <= 'Z')
  {
    TrimLowerCommute(e);
  }

  /** The `trim` setter of the name path. */
  function NormalizeName(n: string): (r: string)
    ensures r == "" <==> AllSpace(n)
  {
    Trim(n)
  }

  /** Normalising a name twice is normalising it once. */
  lemma NormalizeNameIdempotent(n: string)
    ensures NormalizeName(NormalizeName(n)) == NormalizeName(n)
  {
    TrimIdempotent(n);
  }

  lemma {:induction false} LowerIdempotent(s: string)
    ensures ToLower(ToLower(s)) == ToLower(s)
  {
  }

  /** Normalising an e-mail twice is normalising it once, so a stored e-mail is
      left as it is by the setters when it is saved again. */
  lemma NormalizeEmailIdempotent(e: string)
    ensures NormalizeEmail(NormalizeEmail(e)) == NormalizeEmail(e)
  {
    var lower := ToLower(e);
    TrimLowerCommute(lower);
    TrimLowerCommute(e);
    LowerIdempotent(e);
    TrimIdempotent(lower);
  }

  // ---------------------------------------------------------------------------
  // Validators
  // ---------------------------------------------------------------------------

  /** The paths whose validators fail, as a ValidationError reports them.
      `name` and `email` are the values after their setters ran; `newPassword`
      is the plain text when the password was modified (validators run before
      the pre-save hook replaces it with its hash). */
  function SchemaErrors(name: string, email: string, newPassword: Option<string>): (errs: set<string>)
    ensures errs <= {"name", "email", "password"}
    ensures "name" in errs <==> name == ""
    ensures "email" in errs <==> !Email.ValidEmail(email)
    ensures "password" in errs <==> newPassword.Some? && |newPassword.value| < MinPasswordLength
  {
    (if name == "" then {"name"} else {})
    + (if !Email.ValidEmail(email) then {"email"} else {})
    + (if newPassword.Some? && |newPassword.value| < MinPasswordLength then {"password"} else {})
  }

  /** The validators reject the empty address, so a required e-mail is implied by the pattern. */
  lemma EmptyEmailInvalid()
    ensures !Email.ValidEmail("")
  {
  }

  // ---------------------------------------------------------------------------
  // Passwords
  // ---------------------------------------------------------------------------

  /** `matchPassword`: the entered text hashes to the stored value. */
  predicate MatchPassword(u: User, entered: string, hash: string -> string) {
    hash(entered) == u.password
  }

  /** The pre-save hook AS WRITTEN: when the password is not modified it calls
      `next()` but does not return, so it falls through and hashes whatever
      the record holds, which is already a hash. */
  function PreSaveAsWritten(stored: string, newPassword: Option<string>, hash: string -> string): (r: string)
    ensures newPassword.Some? ==> r == hash(newPassword.value)
  {
    match newPassword
    case Some(p) => hash(p)
    case None => hash(stored)
  }

  /** The pre-save hook as evidently intended: hash only a modified password. */
  function PreSave(stored: string, newPassword: Option<string>, hash: string -> string): (r: string)
    ensures newPassword.Some? ==> r == hash(newPassword.value)
    ensures newPassword.None? ==> r == stored
  {
    match newPassword
    case Some(p) => hash(p)
    case None => stored
  }

  /** As written, a save that does not touch the password locks the user out
      whenever hashing a hash does not give the hash back. */
  lemma PreSaveAsWrittenLocksOut(u: User, p: string, hash: string -> string)
    requires MatchPassword(u, p, hash)
    requires hash(u.password) != u.password
    ensures !MatchPassword(u.(password := PreSaveAsWritten(u.password, None, hash)), p, hash)
  {
  }

  /** A concrete case of the above: with a hash that prefixes a marker, a user
      registered with "password1" can no longer log in with it after a save
      that did not change the password. */
  lemma PreSaveAsWrittenCounterexample()
    ensures var hash := (s: string) => "#" + s;
      var u := User("1", "Ann", "ann@example.com", hash("password1"), Regular, 0, 0);
      && MatchPassword(u, "password1", hash)
      && !MatchPassword(u.(password := PreSaveAsWritten(u.password, None, hash)), "password1", hash)
  {
    var hash := (s: string) => "#" + s;
    var u := User("1", "Ann", "ann@example.com", hash("password1"), Regular, 0, 0);
    assert hash(u.password) == "##password1";
    assert |hash(u.password)| != |u.password|;
  }

  /** With the intended hook, a save that does not touch the password keeps
      every password that matched before matching, and no other. */
  lemma PreSaveKeepsLogin(u: User, p: string, hash: string -> string)
    ensures MatchPassword(u.(password := PreSave(u.password, None, hash)), p, hash)
        <==> MatchPassword(u, p, hash)
  {
  }

  /** After a save that sets a password, exactly the texts with that hash match. */
  lemma PreSaveSetsLogin(u: User, newPassword: string, p: string, hash: string -> string)
    ensures MatchPassword(u.(password := PreSave(u.password, Some(newPassword), hash)), p, hash)
        <==> hash(p) == hash(newPassword)
  {
  }

  // ---------------------------------------------------------------------------
  // The collection
  // ---------------------------------------------------------------------------

  function IndexOfId(users: seq<User>, id: UserId): (r: Option<nat>)
    ensures r.Some? ==> r.value < |users| && users[r.value].id == id
    ensures r.Some? ==> forall j :: 0 <= j < r.value ==> users[j].id != id
    ensures r.None? ==> forall j :: 0 <= j < |users| ==> users[j].id != id
  {
    if |users| == 0 then None
    else if users[0].id == id then Some(0)
    else match IndexOfId(users[1..], id)
      case Some(k) => Some(k + 1)
      case None => None
  }

  function IndexOfEmail(users: seq<User>, email: string): (r: Option<nat>)
    ensures r.Some? ==> r.value < |users| && users[r.value].email == email
    ensures r.Some? ==> forall j :: 0 <= j < r.value ==> users[j].email != email
    ensures r.None? ==> forall j :: 0 <= j < |users| ==> users[j].email != email
  {
    if |users| == 0 then None
    else if users[0].email == email then Some(0)
    else match IndexOfEmail(users[1..], email)
      case Some(k) => Some(k + 1)
      case None => None
  }

  /** `findById`. */
  function FindById(users: seq<User>, id: UserId): Option<User> {
    match IndexOfId(users, id)
    case Some(k) => Some(users[k])
    case None => None
  }

  /** `findOne({ email })`; the query runs the path's setters on the value. */
  function FindByEmail(users: seq<User>, email: string): Option<User> {
    match IndexOfEmail(users, NormalizeEmail(email))
    case Some(k) => Some(users[k])
    case None => None
  }

  predicate IdsDistinct(users: seq<User>) {
    forall i, j :: 0 <= i < j < |users| ==> users[i].id != users[j].id
  }

  /** What the unique index on `email` guarantees. */
  predicate EmailsDistinct(users: seq<User>) {
    forall i, j :: 0 <= i < j < |users| ==> users[i].email != users[j].email
  }

  /** A record as the schema lets it be stored: setters applied, validators passed. */
  predicate StoredShape(u: User) {
    && u.name == NormalizeName(u.name)
    && u.email == NormalizeEmail(u.email)
    && SchemaErrors(u.name, u.email, None) == {}
  }

  predicate AllStored(users: seq<User>) {
    forall i :: 0 <= i < |users| ==> StoredShape(users[i])
  }

  predicate WellFormed(users: seq<User>) {
    IdsDistinct(users) && EmailsDistinct(users) && AllStored(users)
  }

  /** Some record other than `id` already holds `email`. */
  predicate EmailTaken(users: seq<User>, email: string, id: UserId) {
    exists i :: 0 <= i < |users| && users[i].email == email && users[i].id != id
  }

  /** Write a record: replace the one with the same id, or append. */
  function Put(users: seq<User>, u: User): (r: seq<User>)
    ensures |r| == |users| <==> exists j :: 0 <= j < |users| && users[j].id == u.id
    ensures |r| == |users| || |r| == |users| + 1
    ensures exists k :: 0 <= k < |r| && r[k] == u
    ensures forall j :: 0 <= j < |users| && users[j].id != u.id ==> r[j] == users[j]
    ensures forall j :: 0 <= j < |r| ==> r[j] == u || (j < |users| && r[j] == users[j])
  {
    match IndexOfId(users, u.id)
    case Some(k) =>
      assert users[k := u][k] == u;
      users[k := u]
    case None =>
      assert (users + [u])[|users|] == u;
      users + [u]
  }

  /** `doc.isNew || doc.$isModified()`: the record is not stored yet, the
      password path was set, or a field differs from the stored record with
      the same id. Assigning a field its current value modifies nothing. */
  predicate Modified(users: seq<User>, u: User, newPassword: Option<string>) {
    match IndexOfId(users, u.id)
    case None => true
    case Some(k) => newPassword.Some? || u.(updatedAt := users[k].updatedAt) != users[k]
  }

  /** `save()`: validators first, then the pre-save hook, then the write, which
      the unique index on `email` refuses when another record holds the
      address. `u` carries the values after their setters; `newPassword` is
      the plain text when the password path was modified. The timestamps
      plugin stamps `updatedAt` only on a `Modified` record; a save that
      modifies nothing writes nothing. */
  function Save(users: seq<User>, u: User, newPassword: Option<string>, hash: string -> string, now: int)
    : (r: Result<seq<User>>)
    ensures SchemaErrors(u.name, u.email, newPassword) != {} ==>
      r == Err(Invalid(SchemaErrors(u.name, u.email, newPassword)))
    ensures SchemaErrors(u.name, u.email, newPassword) == {} && EmailTaken(users, u.email, u.id) ==>
      r == Err(Duplicate("email"))
    ensures r.Ok? <==> SchemaErrors(u.name, u.email, newPassword) == {} && !EmailTaken(users, u.email, u.id)
    ensures r.Ok? && Modified(users, u, newPassword) ==>
      r.value == Put(users, u.(password := PreSave(u.password, newPassword, hash), updatedAt := now))
    ensures r.Ok? && !Modified(users, u, newPassword) ==> r.value == users
  {
    var errs := SchemaErrors(u.name, u.email, newPassword);
    if errs != {} then Err(Invalid(errs))
    else if EmailTaken(users, u.email, u.id) then Err(Duplicate("email"))
    else if !Modified(users, u, newPassword) then Ok(users)
    else Ok(Put(users, u.(password := PreSave(u.password, newPassword, hash), updatedAt := now)))
  }

  /** A save that modifies nothing is the write of the record as it is: the
      stored record keeps its password and its `updatedAt`. */
  lemma UnmodifiedSaveRewritesSame(users: seq<User>, u: User, hash: string -> string)
    requires !Modified(users, u, None)
    ensures Put(users, u.(password := PreSave(u.password, None, hash), updatedAt := users[IndexOfId(users, u.id).value].updatedAt)) == users
  {
    var k := IndexOfId(users, u.id).value;
    assert u.(updatedAt := users[k].updatedAt) == users[k];
    assert users[k := users[k]] == users;
  }

  /** Writing a record in the schema's shape whose id and e-mail clash with no
      other record keeps the collection well formed. */
  lemma PutPreservesWellFormed(users: seq<User>, u: User)
    requires WellFormed(users)
    requires StoredShape(u)
    requires !EmailTaken(users, u.email, u.id)
    ensures WellFormed(Put(users, u))
  {
    var out := Put(users, u);
    forall i, j | 0 <= i < j < |out| ensures out[i].id != out[j].id && out[i].email != out[j].email {
      PutPairDistinct(users, u, i, j);
    }
    forall i | 0 <= i < |out| ensures StoredShape(out[i]) {
      assert out[i] == u || (i < |users| && out[i] == users[i]);
    }
  }

  lemma PutPairDistinct(users: seq<User>, u: User, i: nat, j: nat)
    requires IdsDistinct(users) && EmailsDistinct(users)
    requires !EmailTaken(users, u.email, u.id)
    requires i < j < |Put(users, u)|
    ensures Put(users, u)[i].id != Put(users, u)[j].id
    ensures Put(users, u)[i].email != Put(users, u)[j].email
  {
    match IndexOfId(users, u.id)
    case Some(k) =>
      var out := users[k := u];
      assert Put(users, u) == out;
      if i == k {
        assert out[j] == users[j] && users[j].id != u.id;
      } else if j == k {
        assert out[i] == users[i] && users[i].id != u.id;
      } else {
        assert out[i] == users[i] && out[j] == users[j];
      }
    case None =>
      var out := users + [u];
      assert Put(users, u) == out;
      if j == |users| {
        assert out[i] == users[i] && users[i].id != u.id;
      } else {
        assert out[i] == users[i] && out[j] == users[j];
      }
  }

  /** A successful save keeps the collection well formed: ids and e-mails stay
      distinct and every record stays in the schema's shape. */
  lemma SavePreservesWellFormed(users: seq<User>, u: User, newPassword: Option<string>, hash: string -> string, now: int)
    requires WellFormed(users)
    requires u.name == NormalizeName(u.name) && u.email == NormalizeEmail(u.email)
    ensures Save(users, u, newPassword, hash, now).Ok? ==> WellFormed(Save(users, u, newPassword, hash, now).value)
  {
    if Save(users, u, newPassword, hash, now).Ok? && Modified(users, u, newPassword) {
      var saved := u.(password := PreSave(u.password, newPassword, hash), updatedAt := now);
      assert StoredShape(saved);
      PutPreservesWellFormed(users, saved);
    }
  }

  /** A stored record never clashes with the unique index on its own address. */
  lemma StoredNotTaken(users: seq<User>, k: nat)
    requires IdsDistinct(users) && EmailsDistinct(users) && k < |users|
    ensures !EmailTaken(users, users[k].email, users[k].id)
  {
  }

  /** A stored record passes the name and e-mail validators again, so only a
      new password can make its save fail validation. */
  lemma StoredValidates(u: User, newPassword: Option<string>)
    requires StoredShape(u)
    ensures SchemaErrors(u.name, u.email, newPassword) == {}
        <==> !(newPassword.Some? && |newPassword.value| < MinPasswordLength)
  {
  }

  /** Replacing a record, in place, by one in the schema's shape with the same
      id and an address no other record holds keeps the collection well formed. */
  lemma ReplacePreservesWellFormed(users: seq<User>, k: nat, v: User)
    requires WellFormed(users) && k < |users|
    requires v.id == users[k].id && StoredShape(v) && !EmailTaken(users, v.email, v.id)
    ensures WellFormed(users[k := v])
  {
    ReplaceKeepsDistinct(users, k, v);
    ReplaceKeepsShapes(users, k, v);
  }

  lemma ReplaceKeepsDistinct(users: seq<User>, k: nat, v: User)
    requires IdsDistinct(users) && EmailsDistinct(users) && k < |users|
    requires v.id == users[k].id && !EmailTaken(users, v.email, v.id)
    ensures IdsDistinct(users[k := v]) && EmailsDistinct(users[k := v])
  {
    var after := users[k := v];
    forall i, j | 0 <= i < j < |after| ensures after[i].id != after[j].id && after[i].email != after[j].email {
      if i == k {
        assert after[j] == users[j];
      } else if j == k {
        assert after[i] == users[i];
      } else {
        assert after[i] == users[i] && after[j] == users[j];
      }
    }
  }

  lemma ReplaceKeepsShapes(users: seq<User>, k: nat, v: User)
    requires AllStored(users) && k < |users| && StoredShape(v)
    ensures AllStored(users[k := v])
  {
  }

  /** In a well-formed collection, `findOne({ email })` finds the one record
      holding the normalised address, if any. */
  lemma FindByEmailUnique(users: seq<User>, email: string, i: nat)
    requires WellFormed(users)
    requires i < |users| && users[i].email == NormalizeEmail(email)
    ensures FindByEmail(users, email) == Some(users[i])
  {
  }
}
