/** The browser-side authentication context: the signed-in user, the
    `loading` flag of the first render, and the `user_data` entry of
    `localStorage` that mirrors the user across page reloads.

    `JSON.stringify` and `JSON.parse` are parameters; the one thing the model
    asks of them is `Faithful`: what was stringified parses back. The fixed
    one-second delays of login and register are left out, since they change
    no state.
 */
module AuthContext {
  import opened Wrappers

  datatype ClientUser = ClientUser(id: string, email: string, name: string, role: string)

  /** What `JSON.parse` of the stored text yields: a thrown SyntaxError, or a
      user (`null` parses to `None`). */
  datatype Parsed = ParseError | ParsedValue(value: Option<ClientUser>)

  datatype State = State(user: Option<ClientUser>, loading: bool, storage: Option<string>)

  /** How a context call ends: its promise resolves, or rejects with an
      `Error` carrying this message. */
  datatype Outcome = Resolved | Rejected(message: string)

  datatype Transition = Transition(state: State, outcome: Outcome)

  /** A `Partial<User>`: each field is present or absent. */
  datatype Partial = Partial(
    id: Option<string>, email: Option<string>, name: Option<string>, role: Option<string>)

  const DemoEmail: string := "demo@example.com"
  const DemoPassword: string := "password"
  const DemoName: string := "Demo User"
  const DemoId: string := "1"
  const AdminRole: string := "Admin"
  const UserRole: string := "User"
  const InvalidLoginMessage: string := "Invalid email or password"

  /** Stringify and parse agree: what was written can be read back, and the
      written text is never empty. */
  ghost predicate Faithful(stringify: ClientUser -> string, parse: string -> Parsed) {
    forall u :: stringify(u) != "" && parse(stringify(u)) == ParsedValue(Some(u))
  }

  /** The user that a fresh page load would restore from this storage. */
  function Stored(storage: Option<string>, parse: string -> Parsed): Option<ClientUser> {
    match storage
    case None => None
    case Some(text) =>
      if text == "" then None
      else match parse(text)
        case ParseError => None
        case ParsedValue(v) => v
  }

  /** Once the first render is over, the user in memory is the user the
      storage would restore. */
  ghost predicate Consistent(s: State, parse: string -> Parsed) {
    !s.loading ==> s.user == Stored(s.storage, parse)
  }

  /** The state of the first render: no user, still loading, and whatever
      the browser kept. */
  function Initial(storage: Option<string>): (s: State)
    ensures s.user.None? && s.loading && s.storage == storage
  {
    State(None, true, storage)
  }

  /** The mount effect: parse a non-empty stored entry, drop it when it does
      not parse, then stop loading. */
  function Restore(s: State, parse: string -> Parsed): (r: State)
    ensures !r.loading
    ensures s.storage.None? || s.storage == Some("") ==> r.user == s.user && r.storage == s.storage
    ensures s.storage.Some? && s.storage.value != "" && parse(s.storage.value).ParseError?
      ==> r.user == s.user && r.storage.None?
    ensures s.storage.Some? && s.storage.value != "" && parse(s.storage.value).ParsedValue?
      ==> r.user == parse(s.storage.value).value && r.storage == s.storage
  {
    match s.storage
    case None => s.(loading := false)
    case Some(text) =>
      if text == "" then s.(loading := false)
      else match parse(text)
        case ParseError => s.(storage := None, loading := false)
        case ParsedValue(v) => s.(user := v, loading := false)
  }

  /** The demo account is the only one login accepts. */
  function Login(s: State, email: string, password: string, stringify: ClientUser -> string): (t: Transition)
    ensures t.outcome.Resolved? <==> email == DemoEmail && password == DemoPassword
    ensures t.outcome.Resolved? ==>
      && t.state.user == Some(ClientUser(DemoId, email, DemoName, AdminRole))
      && t.state.storage == Some(stringify(t.state.user.value))
      && t.state.loading == s.loading
    ensures t.outcome.Rejected? ==> t.state == s && t.outcome.message == InvalidLoginMessage
  {
    if email == DemoEmail && password == DemoPassword then
      var u := ClientUser(DemoId, email, DemoName, AdminRole);
      Transition(s.(user := Some(u), storage := Some(stringify(u))), Resolved)
    else
      Transition(s, Rejected(InvalidLoginMessage))
  }

  /** Register never fails; the id is the random text the caller drew
      (`Math.random().toString(36).substr(2, 9)`) and the password is ignored. */
  function Register(s: State, email: string, password: string, name: string, randomId: string,
                    stringify: ClientUser -> string): (t: Transition)
    ensures t.outcome.Resolved?
    ensures t.state.user == Some(ClientUser(randomId, email, name, UserRole))
    ensures t.state.storage == Some(stringify(t.state.user.value))
    ensures t.state.loading == s.loading
  {
    var u := ClientUser(randomId, email, name, UserRole);
    Transition(s.(user := Some(u), storage := Some(stringify(u))), Resolved)
  }

  function Logout(s: State): (t: Transition)
    ensures t.outcome.Resolved?
    ensures t.state.user.None? && t.state.storage.None? && t.state.loading == s.loading
  {
    Transition(s.(user := None, storage := None), Resolved)
  }

  /** `{ ...prev, ...updates }`: a present field of the update wins. */
  function Overwrite(prev: ClientUser, updates: Partial): ClientUser {
    ClientUser(updates.id.GetOr(prev.id), updates.email.GetOr(prev.email),
               updates.name.GetOr(prev.name), updates.role.GetOr(prev.role))
  }

  function UpdateUserProfile(s: State, updates: Partial, stringify: ClientUser -> string): (r: State)
    ensures s.user.None? ==> r == s
    ensures s.user.Some? ==>
      && r.user.Some?
      && r.storage == Some(stringify(r.user.value))
      && r.loading == s.loading
  {
    match s.user
    case None => s
    case Some(prev) =>
      var u := Overwrite(prev, updates);
      s.(user := Some(u), storage := Some(stringify(u)))
  }

  function IsAuthenticated(s: State): (b: bool)
    ensures b <==> s.user.Some?
  {
    s.user != None
  }

  // ---------------------------------------------------------------------------
  // Properties
  // ---------------------------------------------------------------------------

  /** Each field of an update replaces the old value when present and keeps
      it when absent. */
  lemma OverwriteFields(prev: ClientUser, updates: Partial)
    ensures Overwrite(prev, updates).id == (if updates.id.Some? then updates.id.value else prev.id)
    ensures Overwrite(prev, updates).email == (if updates.email.Some? then updates.email.value else prev.email)
    ensures Overwrite(prev, updates).name == (if updates.name.Some? then updates.name.value else prev.name)
    ensures Overwrite(prev, updates).role == (if updates.role.Some? then updates.role.value else prev.role)
    ensures updates == Partial(None, None, None, None) ==> Overwrite(prev, updates) == prev
  {
  }

  /** The profile update of a signed-in user is the field-wise overwrite. */
  lemma UpdateUserProfileOverwrites(s: State, updates: Partial, stringify: ClientUser -> string)
    requires s.user.Some?
    ensures UpdateUserProfile(s, updates, stringify).user == Some(Overwrite(s.user.value, updates))
  {
  }

  /** The mount effect makes the first render consistent. */
  lemma RestoreConsistent(storage: Option<string>, parse: string -> Parsed)
    ensures Consistent(Restore(Initial(storage), parse), parse)
  {
  }

  /** Every operation after the mount keeps the user and the storage in step. */
  lemma OperationsKeepConsistent(s: State, stringify: ClientUser -> string, parse: string -> Parsed,
                                 email: string, password: string, name: string, randomId: string,
                                 updates: Partial)
    requires Faithful(stringify, parse)
    requires Consistent(s, parse)
    ensures Consistent(Login(s, email, password, stringify).state, parse)
    ensures Consistent(Register(s, email, password, name, randomId, stringify).state, parse)
    ensures Consistent(Logout(s).state, parse)
    ensures Consistent(UpdateUserProfile(s, updates, stringify), parse)
  {
  }

  /** Reloading the page after any consistent state signs the same user back
      in: the storage round-trips through the mount effect. */
  lemma ReloadRestores(s: State, parse: string -> Parsed)
    requires Consistent(s, parse) && !s.loading
    ensures Restore(Initial(s.storage), parse).user == s.user
    ensures IsAuthenticated(Restore(Initial(s.storage), parse)) == IsAuthenticated(s)
  {
  }

  /** A failed login, a wrong address or the demo address with a wrong
      password, leaves a signed-in user signed in. */
  lemma FailedLoginKeepsUser(s: State, email: string, password: string, stringify: ClientUser -> string)
    requires !(email == DemoEmail && password == DemoPassword)
    ensures Login(s, email, password, stringify).state.user == s.user
    ensures Login(s, email, password, stringify).outcome == Rejected(InvalidLoginMessage)
  {
  }

  /** After logout a reload finds nobody. */
  lemma LogoutThenReload(s: State, parse: string -> Parsed)
    ensures !IsAuthenticated(Restore(Initial(Logout(s).state.storage), parse))
  {
  }
}
