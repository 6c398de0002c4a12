/** The account page: its five-field form, the profile update it hands to
    the authentication context, the client-side password-change check, the
    status message, and the avatar initials.

    The three-second timer that clears the message is the explicit
    transition `ClearMessage`. The page's other tabs render fixed data and
    are not modelled.
 */
module UserAccountPage {
  import opened Wrappers
  import Text
  import AuthContext

  datatype Form = Form(name: string, email: string, currentPassword: string,
                       newPassword: string, confirmPassword: string)

  /** The banner: its kind ("success", "error" or "" for none) and text. */
  datatype Message = Message(kind: string, text: string)

  datatype Page = Page(form: Form, message: Message)

  /** The `name` attribute of each input of the form. */
  datatype Field = Name | Email | CurrentPassword | NewPassword | ConfirmPassword

  const NoMessage: Message := Message("", "")
  const ProfileUpdatedMessage: Message := Message("success", "Profile updated successfully!")
  const MismatchMessage: Message := Message("error", "Passwords do not match!")
  const ShortPasswordMessage: Message := Message("error", "Password must be at least 8 characters!")
  const PasswordChangedMessage: Message := Message("success", "Password changed successfully!")
  const MinPasswordLength: nat := 8

  /** The form starts from the signed-in user's name and email (`''` when
      there is no user), with the three password fields empty. */
  function InitialPage(user: Option<AuthContext.ClientUser>): (p: Page)
    ensures p.message == NoMessage
    ensures p.form.currentPassword == "" && p.form.newPassword == "" && p.form.confirmPassword == ""
    ensures user.Some? ==> p.form.name == user.value.name && p.form.email == user.value.email
    ensures user.None? ==> p.form.name == "" && p.form.email == ""
  {
    match user
    case None => Page(Form("", "", "", "", ""), NoMessage)
    case Some(u) => Page(Form(u.name, u.email, "", "", ""), NoMessage)
  }

  function Read(form: Form, f: Field): string {
    match f
    case Name => form.name
    case Email => form.email
    case CurrentPassword => form.currentPassword
    case NewPassword => form.newPassword
    case ConfirmPassword => form.confirmPassword
  }

  /** `{ ...formData, [e.target.name]: e.target.value }`. */
  function InputChange(p: Page, f: Field, value: string): (r: Page)
    ensures Read(r.form, f) == value
    ensures forall g :: g != f ==> Read(r.form, g) == Read(p.form, g)
    ensures r.message == p.message
  {
    var form := p.form;
    var updated := match f
      case Name => form.(name := value)
      case Email => form.(email := value)
      case CurrentPassword => form.(currentPassword := value)
      case NewPassword => form.(newPassword := value)
      case ConfirmPassword => form.(confirmPassword := value)
    ;
    p.(form := updated)
  }

  /** "Save changes": hand name and email, and nothing else, to the context,
      and announce success. */
  function ProfileUpdate(p: Page, ctx: AuthContext.State, stringify: AuthContext.ClientUser -> string)
    : (r: (Page, AuthContext.State))
    ensures r.0 == p.(message := ProfileUpdatedMessage)
    ensures ctx.user.None? ==> r.1 == ctx
    ensures ctx.user.Some? ==> r.1.user.Some?
  {
    var updates := AuthContext.Partial(None, Some(p.form.email), Some(p.form.name), None);
    (p.(message := ProfileUpdatedMessage), AuthContext.UpdateUserProfile(ctx, updates, stringify))
  }

  /** "Update password": the confirmation check, then the length check; on
      success the three password fields are cleared. No request is made. */
  function PasswordChange(p: Page): (r: Page)
    ensures p.form.newPassword != p.form.confirmPassword ==> r == p.(message := MismatchMessage)
    ensures p.form.newPassword == p.form.confirmPassword && |p.form.newPassword| < MinPasswordLength
      ==> r == p.(message := ShortPasswordMessage)
    ensures r.message == PasswordChangedMessage <==>
      p.form.newPassword == p.form.confirmPassword && |p.form.newPassword| >= MinPasswordLength
    ensures r.message == PasswordChangedMessage ==>
      && r.form.name == p.form.name && r.form.email == p.form.email
      && r.form.currentPassword == "" && r.form.newPassword == "" && r.form.confirmPassword == ""
  {
    if p.form.newPassword != p.form.confirmPassword then
      p.(message := MismatchMessage)
    else if |p.form.newPassword| < MinPasswordLength then
      p.(message := ShortPasswordMessage)
    else
      Page(p.form.(currentPassword := "", newPassword := "", confirmPassword := ""), PasswordChangedMessage)
  }

  /** The timer that fires three seconds after a success message. */
  function ClearMessage(p: Page): (r: Page)
    ensures r.form == p.form && r.message == NoMessage
  {
    p.(message := NoMessage)
  }

  // ---------------------------------------------------------------------------
  // Initials
  // ---------------------------------------------------------------------------

  /** `name.split(' ').map(n => n[0]).join('')`: `n[0]` of an empty piece is
      `undefined`, which `join` renders as nothing. */
  function Initials(name: string): (r: string)
    ensures |r| <= |name|
  {
    InitialsLength(Text.Split(name, ' '));
    SplitWeight(name, ' ');
    FirstChars(Text.Split(name, ' '))
  }

  function FirstChars(pieces: seq<string>): string {
    if |pieces| == 0 then ""
    else (if pieces[0] == "" then "" else [pieces[0][0]]) + FirstChars(pieces[1..])
  }

  /** Reference: the characters of `s` that are not a space and follow a
      space or the start (`afterSpace` says whether the previous one was a
      space). */
  function WordStarts(s: string, afterSpace: bool): (r: string)
    ensures forall i :: 0 <= i < |r| ==> r[i] != ' ' && r[i] in s
  {
    if |s| == 0 then ""
    else
      var rest := WordStarts(s[1..], s[0] == ' ');
      assert forall c :: c in s[1..] ==> c in s;
      (if s[0] != ' ' && afterSpace then [s[0]] else "") + rest
  }

  /** The initials are the word starts of the name. */
  lemma InitialsAreWordStarts(name: string)
    ensures Initials(name) == WordStarts(name, true)
    ensures forall i :: 0 <= i < |Initials(name)| ==> Initials(name)[i] != ' ' && Initials(name)[i] in name
  {
    ScanMatchesSplit(name, true);
  }

  lemma {:induction false} ScanMatchesSplit(s: string, afterSpace: bool)
    ensures WordStarts(s, afterSpace) ==
      (if afterSpace then FirstChars(Text.Split(s, ' ')) else FirstChars(Text.Split(s, ' ')[1..]))
    decreases |s|
  {
    if |s| > 0 {
      var rest := Text.Split(s[1..], ' ');
      ScanMatchesSplit(s[1..], s[0] == ' ');
      if s[0] == ' ' {
        assert Text.Split(s, ' ') == [""] + rest;
        assert ([""] + rest)[1..] == rest;
        assert FirstChars([""] + rest) == FirstChars(rest);
      } else {
        var head := [s[0]] + rest[0];
        assert Text.Split(s, ' ') == [head] + rest[1..];
        assert ([head] + rest[1..])[1..] == rest[1..];
        assert FirstChars([head] + rest[1..]) == [s[0]] + FirstChars(rest[1..]);
      }
    }
  }

  lemma {:induction false} InitialsLength(pieces: seq<string>)
    ensures |FirstChars(pieces)| <= Weight(pieces)
    decreases |pieces|
  {
    if |pieces| > 0 {
      InitialsLength(pieces[1..]);
    }
  }

  /** The characters of the pieces, plus one for each gap between them. */
  function Weight(pieces: seq<string>): nat {
    if |pieces| == 0 then 0 else |pieces[0]| + Weight(pieces[1..])
  }

  lemma SplitWeight(s: string, sep: char)
    ensures Weight(Text.Split(s, sep)) <= |s|
  {
    JoinWeight(Text.Split(s, sep), sep);
    Text.JoinSplit(s, sep);
  }

  lemma {:induction false} JoinWeight(parts: seq<string>, sep: char)
    ensures Weight(parts) <= |Text.Join(parts, sep)|
    decreases |parts|
  {
    if |parts| > 1 {
      JoinWeight(parts[1..], sep);
    }
  }

  // ---------------------------------------------------------------------------
  // Properties
  // ---------------------------------------------------------------------------

  /** A doubled space adds no initial. */
  lemma InitialsOfDoubleSpace()
    ensures Initials("Al  Bo") == "AB"
  {
    InitialsAreWordStarts("Al  Bo");
    WordStartsOfSample();
  }

  lemma WordStartsOfSample()
    ensures WordStarts("Al  Bo", true) == "AB"
  {
    assert WordStarts("Bo", true) == "B";
    assert WordStarts(" Bo", true) == "B";
    assert WordStarts("  Bo", false) == "B";
    assert WordStarts("l  Bo", false) == "B";
  }

  lemma InitialsOfEmptyName()
    ensures Initials("") == ""
  {
    InitialsAreWordStarts("");
  }

  /** Typing the old value back into the field undoes an input change. */
  lemma InputChangeUndone(p: Page, f: Field, value: string)
    ensures InputChange(InputChange(p, f, value), f, Read(p.form, f)) == p
  {
  }

  /** The current-password field never influences a password change's
      verdict. */
  lemma PasswordChangeIgnoresCurrent(p: Page, current: string)
    ensures PasswordChange(p.(form := p.form.(currentPassword := current))).message == PasswordChange(p).message
  {
  }

  /** After a successful change the cleared form is refused by the length
      check if submitted again. */
  lemma SecondChangeRefused(p: Page)
    requires PasswordChange(p).message == PasswordChangedMessage
    ensures PasswordChange(PasswordChange(p)).message == ShortPasswordMessage
  {
  }

  /** A profile update replaces the signed-in user's name and email with the
      form's and keeps their id and role; with nobody signed in it changes
      nothing yet still reports success. */
  lemma ProfileUpdateEffect(p: Page, ctx: AuthContext.State, stringify: AuthContext.ClientUser -> string)
    ensures ctx.user.Some? ==>
      ProfileUpdate(p, ctx, stringify).1.user ==
        Some(ctx.user.value.(name := p.form.name, email := p.form.email))
    ensures ctx.user.None? ==>
      ProfileUpdate(p, ctx, stringify).1 == ctx && ProfileUpdate(p, ctx, stringify).0.message.kind == "success"
  {
  }
}
