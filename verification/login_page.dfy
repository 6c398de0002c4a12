/** The sign-in / sign-up page: the validation order of its submit handler,
    the demo-account shortcut and the mode toggle.

    A submit is split at the one `await`: `Begin` is what happens before the
    context call (or instead of it), `Settle` is what happens when the call
    ends. `Run` strings the two together with the authentication context.
 */
module LoginPage {
  import opened Wrappers
  import Text
  import AuthContext

  datatype FormData = FormData(email: string, password: string, name: string, confirmPassword: string)

  datatype Page = Page(isLogin: bool, form: FormData, error: string, loading: bool)

  /** The context call a submit makes, if any. */
  datatype Call =
    | NoCall
    | LoginCall(email: string, password: string)
    | RegisterCall(email: string, password: string, name: string)

  /** The call a submit makes, and the page while that call is pending (the
      final page when there is no call). */
  datatype Begun = Begun(call: Call, page: Page)

  const MismatchMessage: string := "Passwords do not match"
  const ShortPasswordMessage: string := "Password must be at least 8 characters"
  const NameRequiredMessage: string := "Name is required"
  const FallbackMessage: string := "Authentication failed"
  const MinPasswordLength: nat := 8

  const EmptyForm: FormData := FormData("", "", "", "")

  function InitialPage(): (p: Page)
    ensures p.isLogin && p.form == EmptyForm && p.error == "" && !p.loading
  {
    Page(true, EmptyForm, "", false)
  }

  /** The submit handler up to the context call: clear the error, then the
      confirmation check (sign-up only), then the length check, then raise
      `loading`, then the name check (sign-up only), which lowers it again. */
  function Begin(p: Page): (b: Begun)
    ensures b.page.isLogin == p.isLogin && b.page.form == p.form
    ensures !p.isLogin && p.form.password != p.form.confirmPassword ==>
      b == Begun(NoCall, p.(error := MismatchMessage))
    ensures (p.isLogin || p.form.password == p.form.confirmPassword) && |p.form.password| < MinPasswordLength ==>
      b == Begun(NoCall, p.(error := ShortPasswordMessage))
    ensures b.call.LoginCall? <==> p.isLogin && |p.form.password| >= MinPasswordLength
    ensures b.call.RegisterCall? <==>
      && !p.isLogin && p.form.password == p.form.confirmPassword
      && |p.form.password| >= MinPasswordLength && !Text.AllSpace(p.form.name)
    ensures b.call.LoginCall? ==> b.call == LoginCall(p.form.email, p.form.password)
    ensures b.call.RegisterCall? ==> b.call == RegisterCall(p.form.email, p.form.password, p.form.name)
    ensures b.call != NoCall ==> b.page.loading && b.page.error == ""
    ensures b.call == NoCall ==> b.page.error != ""
  {
    var cleared := p.(error := "");
    if !p.isLogin && p.form.password != p.form.confirmPassword then
      Begun(NoCall, cleared.(error := MismatchMessage))
    else if |p.form.password| < MinPasswordLength then
      Begun(NoCall, cleared.(error := ShortPasswordMessage))
    else
      var pending := cleared.(loading := true);
      if p.isLogin then
        Begun(LoginCall(p.form.email, p.form.password), pending)
      else if Text.Trim(p.form.name) == "" then
        Begun(NoCall, pending.(error := NameRequiredMessage, loading := false))
      else
        Begun(RegisterCall(p.form.email, p.form.password, p.form.name), pending)
  }

  /** The `catch` / `finally` part: a rejection shows its message (or the
      fallback text when the message is empty) and `loading` drops either way. */
  function Settle(pending: Page, outcome: AuthContext.Outcome): (r: Page)
    ensures !r.loading && r.isLogin == pending.isLogin && r.form == pending.form
    ensures outcome.Resolved? ==> r.error == pending.error
    ensures outcome.Rejected? ==> r.error != "" && (outcome.message != "" ==> r.error == outcome.message)
  {
    match outcome
    case Resolved => pending.(loading := false)
    case Rejected(m) => pending.(error := if m == "" then FallbackMessage else m, loading := false)
  }

  /** A whole submit against the authentication context: the page and the
      context afterwards. */
  function Run(p: Page, ctx: AuthContext.State, randomId: string,
               stringify: AuthContext.ClientUser -> string): (r: (Page, AuthContext.State))
    ensures Begin(p).call == NoCall ==> r == (Begin(p).page, ctx)
    ensures !r.0.loading || Begin(p).call == NoCall
  {
    var b := Begin(p);
    match b.call
    case NoCall => (b.page, ctx)
    case LoginCall(email, password) =>
      var t := AuthContext.Login(ctx, email, password, stringify);
      (Settle(b.page, t.outcome), t.state)
    case RegisterCall(email, password, name) =>
      var t := AuthContext.Register(ctx, email, password, name, randomId, stringify);
      (Settle(b.page, t.outcome), t.state)
  }

  /** The demo button: no validation and no clearing of an earlier error;
      a rejection's message is shown as it is. */
  function DemoLogin(p: Page, ctx: AuthContext.State, stringify: AuthContext.ClientUser -> string)
    : (r: (Page, AuthContext.State))
    ensures r.1.user == Some(AuthContext.ClientUser(AuthContext.DemoId, AuthContext.DemoEmail,
                                                    AuthContext.DemoName, AuthContext.AdminRole))
    ensures r.0 == p.(loading := false)
  {
    var t := AuthContext.Login(ctx, AuthContext.DemoEmail, AuthContext.DemoPassword, stringify);
    var pending := p.(loading := true);
    match t.outcome
    case Resolved => (pending.(loading := false), t.state)
    case Rejected(m) => (pending.(error := m, loading := false), t.state)
  }

  /** The "Sign up" / "Sign in" link: flip the mode, clear the error and all
      four fields. */
  function Toggle(p: Page): (r: Page)
    ensures r.isLogin == !p.isLogin
    ensures r.error == "" && r.form == EmptyForm && r.loading == p.loading
  {
    Page(!p.isLogin, EmptyForm, "", p.loading)
  }

  // ---------------------------------------------------------------------------
  // Properties
  // ---------------------------------------------------------------------------

  /** Toggling twice restores the mode and leaves a cleared form. */
  lemma ToggleTwice(p: Page)
    ensures Toggle(Toggle(p)) == p.(form := EmptyForm, error := "")
  {
  }

  /** Right after a toggle, a submit is refused by the length check in
      either mode, and the context is never called. */
  lemma SubmitAfterToggleRefused(p: Page)
    ensures Begin(Toggle(p)) == Begun(NoCall, Toggle(p).(error := ShortPasswordMessage))
  {
  }

  /** Validation is independent of the context: a page the checks refuse
      leaves the signed-in user as it was. */
  lemma RefusedSubmitKeepsContext(p: Page, ctx: AuthContext.State, randomId: string,
                                  stringify: AuthContext.ClientUser -> string)
    requires |p.form.password| < MinPasswordLength
    ensures Run(p, ctx, randomId, stringify).1 == ctx
    ensures Run(p, ctx, randomId, stringify).0.error in {MismatchMessage, ShortPasswordMessage}
  {
  }

  /** The demo credentials typed into the sign-in form pass every check and
      sign the demo user in with no error shown. */
  lemma DemoCredentialsSignIn(p: Page, ctx: AuthContext.State, randomId: string,
                              stringify: AuthContext.ClientUser -> string)
    requires p.isLogin
    requires p.form.email == AuthContext.DemoEmail && p.form.password == AuthContext.DemoPassword
    ensures Run(p, ctx, randomId, stringify).1.user.Some?
    ensures Run(p, ctx, randomId, stringify).1.user.value.role == AuthContext.AdminRole
    ensures Run(p, ctx, randomId, stringify).0.error == ""
    ensures !Run(p, ctx, randomId, stringify).0.loading
  {
  }

  /** Any other sign-in that passes the checks ends with the context's
      rejection message on the page and the user unchanged. */
  lemma WrongCredentialsShowMessage(p: Page, ctx: AuthContext.State, randomId: string,
                                    stringify: AuthContext.ClientUser -> string)
    requires p.isLogin && |p.form.password| >= MinPasswordLength
    requires !(p.form.email == AuthContext.DemoEmail && p.form.password == AuthContext.DemoPassword)
    ensures Run(p, ctx, randomId, stringify).0.error == AuthContext.InvalidLoginMessage
    ensures Run(p, ctx, randomId, stringify).1 == ctx
  {
  }

  /** A sign-up that passes the checks always signs the new user in under
      the typed name and email. */
  lemma SignUpSignsIn(p: Page, ctx: AuthContext.State, randomId: string,
                      stringify: AuthContext.ClientUser -> string)
    requires Begin(p).call.RegisterCall?
    ensures Run(p, ctx, randomId, stringify).1.user ==
      Some(AuthContext.ClientUser(randomId, p.form.email, p.form.name, AuthContext.UserRole))
    ensures Run(p, ctx, randomId, stringify).0.error == ""
  {
  }
}
