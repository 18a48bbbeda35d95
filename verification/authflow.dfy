/**
 * The sign-in screen: a three-mode machine (log in, register, verify the emailed
 * code) over a form, with per-field validation errors, one status message and a
 * `loading` flag. The backend calls are asynchronous; a valid submit records the
 * call it is waiting on in `pending`, and `Settle` delivers its outcome (success or
 * failure) later, so that everything the user can do in between stays visible.
 */
module AuthFlow {
  import opened Types
  import opened JsText
  import opened Credentials

  datatype Mode = Login | Register | Verify

  /** The form fields that can carry a validation error, and that the user can edit. */
  datatype Field = NameField | EmailField | PasswordField | ConfirmationField

  /** The form's contents; `code` is part of the form's initial value and is never written. */
  datatype FormData = FormData(name: string, email: string, password: string, passwordConfirmation: string, code: string)

  datatype Tone = Success | Failure

  /** The status banner: a success or an error text. */
  datatype Message = Message(tone: Tone, text: string)

  /** A backend call in flight, with what its continuation captured when it was made. */
  datatype Request =
    | RegisterCall(name: string, email: string, password: string)
    | LoginCall(email: string, name: string)
    | VerifyCall(email: string, code: string)

  datatype AuthState = AuthState(
    mode: Mode,
    form: FormData,
    loading: bool,
    message: Option<Message>,
    errors: map<Field, string>,
    pending: Option<Request>)

  const NameRequired := "Full name is required"
  const EmailInvalid := "Please enter a valid email address"
  const PasswordWeak := "Password must be 8+ chars with uppercase, lowercase, and a number"
  const PasswordsDiffer := "Passwords do not match"
  const EmailRequired := "Valid email is required"
  const PasswordRequired := "Password is required"
  const UnexpectedError := "An unexpected error occurred. Please try again."
  const AccountActivated := "Account activated! You can now log in securely."
  const InvalidCode := "Invalid verification code. Please try again."
  const CodeResent := "A fresh security code has been sent to your inbox."

  const AdminName := "System Admin"
  const DefaultTenantName := "Alice Tenant"
  const AdminAvatar := "https://picsum.photos/seed/admin/100/100"
  const TenantAvatar := "https://i.pravatar.cc/150?u=1"

  /** The screen as first mounted: log-in mode, empty form, nothing shown, nothing in flight. */
  function Initial(): (st: AuthState)
    ensures st.mode == Login && !st.loading && st.pending.None?
    ensures st.message.None? && st.errors == map[]
    ensures st.form.name == st.form.email == st.form.password == st.form.passwordConfirmation == ""
  {
    AuthState(Login, FormData("", "", "", "", ""), false, None, map[], None)
  }

  /** No backend call is in flight exactly while the screen shows it is loading. */
  predicate Idle(st: AuthState)
  {
    !st.loading && st.pending.None?
  }

  /** The screen's invariant: `loading` is raised exactly while a backend call is outstanding. */
  predicate Consistent(st: AuthState)
  {
    st.loading <==> st.pending.Some?
  }

  /** The text of one form field. */
  function FieldValue(f: FormData, field: Field): string
  {
    match field
    case NameField => f.name
    case EmailField => f.email
    case PasswordField => f.password
    case ConfirmationField => f.passwordConfirmation
  }

  /** Typing into one field of the form. */
  function EditField(st: AuthState, field: Field, v: string): (r: AuthState)
    ensures FieldValue(r.form, field) == v
    ensures forall other: Field | other != field :: FieldValue(r.form, other) == FieldValue(st.form, other)
    ensures r.form.code == st.form.code
    ensures r.(form := st.form) == st
  {
    match field
    case NameField => st.(form := st.form.(name := v))
    case EmailField => st.(form := st.form.(email := v))
    case PasswordField => st.(form := st.form.(password := v))
    case ConfirmationField => st.(form := st.form.(passwordConfirmation := v))
  }

  /** The input for `field` is on screen: email and password on both forms, name and confirmation only when registering. */
  predicate FieldShown(mode: Mode, field: Field)
  {
    mode == Register || (mode == Login && (field == EmailField || field == PasswordField))
  }

  /** Every field of the form. */
  const AllFields: set<Field> := {NameField, EmailField, PasswordField, ConfirmationField}

  /** Whether a submit in `mode` finds `field` of `f` at fault. */
  predicate Fails(mode: Mode, f: FormData, field: Field)
  {
    match (mode, field)
    case (Register, NameField) => Trim(f.name) == ""
    case (Register, EmailField) => !ValidateEmail(f.email)
    case (Register, PasswordField) => !ValidatePasswordComplexity(f.password)
    case (Register, ConfirmationField) => f.password != f.passwordConfirmation
    case (Login, EmailField) => !ValidateEmail(f.email)
    case (Login, PasswordField) => f.password == ""
    case _ => false
  }

  /** The text shown under a faulty field (empty for a field the mode never checks). */
  function ErrorText(mode: Mode, field: Field): string
  {
    match (mode, field)
    case (Register, NameField) => NameRequired
    case (Register, EmailField) => EmailInvalid
    case (Register, PasswordField) => PasswordWeak
    case (Register, ConfirmationField) => PasswordsDiffer
    case (Login, EmailField) => EmailRequired
    case (Login, PasswordField) => PasswordRequired
    case _ => ""
  }

  /** The per-field errors a submit in `mode` reports for the form `f`. */
  function Validate(mode: Mode, f: FormData): (errs: map<Field, string>)
    ensures forall field | field in errs :: errs[field] != ""
    ensures mode == Login ==> NameField !in errs && ConfirmationField !in errs
    ensures mode == Verify ==> errs == map[]
  {
    map field | field in AllFields && Fails(mode, f, field) :: ErrorText(mode, field)
  }

  /** When registering, the error keys are exactly the failing checks: blank name, bad email, weak password, mismatched confirmation. */
  lemma RegisterErrorsAreFailedChecks(f: FormData)
    ensures var errs := Validate(Register, f);
      && (NameField in errs <==> IsBlank(f.name))
      && (EmailField in errs <==> !ValidateEmail(f.email))
      && (PasswordField in errs <==> !ValidatePasswordComplexity(f.password))
      && (ConfirmationField in errs <==> f.password != f.passwordConfirmation)
      && (NameField in errs ==> errs[NameField] == NameRequired)
      && (EmailField in errs ==> errs[EmailField] == EmailInvalid)
      && (PasswordField in errs ==> errs[PasswordField] == PasswordWeak)
      && (ConfirmationField in errs ==> errs[ConfirmationField] == PasswordsDiffer)
  {
    assert Trim(f.name) == "" <==> IsBlank(f.name);
  }

  /** When logging in only the email shape and a non-empty password are checked; name and complexity are not. */
  lemma LoginErrorsAreFailedChecks(f: FormData)
    ensures var errs := Validate(Login, f);
      && errs.Keys <= {EmailField, PasswordField}
      && (EmailField in errs <==> !ValidateEmail(f.email))
      && (PasswordField in errs <==> f.password == "")
      && (EmailField in errs ==> errs[EmailField] == EmailRequired)
      && (PasswordField in errs ==> errs[PasswordField] == PasswordRequired)
  {
  }

  /** Whatever the registration checks accept, the log-in checks accept too. */
  lemma RegisterCheckIsStricter(f: FormData)
    requires Validate(Register, f) == map[]
    ensures Validate(Login, f) == map[]
  {
    RegisterErrorsAreFailedChecks(f);
    assert ValidatePasswordComplexity(f.password);
    assert f.password != "";
    assert !(EmailField in Validate(Register, f));
  }

  /**
   * Pressing the submit button: the message and errors are cleared and the form is
   * checked. With errors, they are shown and the screen stops loading. Without, a
   * registration or log-in call is issued and the screen waits for it.
   */
  function BeginSubmit(st: AuthState): (r: AuthState)
    ensures r.form == st.form && r.mode == st.mode && r.message == None
    ensures Idle(st) ==> Consistent(r)
  {
    var errs := Validate(st.mode, st.form);
    var cleared := st.(loading := true, message := None, errors := map[]);
    if |errs| > 0 then cleared.(errors := errs, loading := false)
    else match st.mode
      case Register => cleared.(pending := Some(RegisterCall(st.form.name, st.form.email, st.form.password)))
      case Login => cleared.(pending := Some(LoginCall(st.form.email, st.form.name)))
      case Verify => cleared.(loading := false)
  }

  /** A submit that fails validation shows exactly the errors, calls nothing, keeps the mode and ends not loading. */
  lemma InvalidSubmitOnlyShowsErrors(st: AuthState)
    requires Validate(st.mode, st.form) != map[]
    ensures var r := BeginSubmit(st);
      && r.errors == Validate(st.mode, st.form)
      && r.mode == st.mode && r.form == st.form
      && r.pending == st.pending && !r.loading
  {
    assert |Validate(st.mode, st.form)| > 0;
  }

  /** A submit that passes validation issues the mode's backend call with the entered details and waits for it. */
  lemma ValidSubmitIssuesCall(st: AuthState)
    requires st.mode != Verify && Validate(st.mode, st.form) == map[]
    ensures var r := BeginSubmit(st);
      && r.errors == map[] && r.loading
      && r.pending == Some(if st.mode == Register
                           then RegisterCall(st.form.name, st.form.email, st.form.password)
                           else LoginCall(st.form.email, st.form.name))
  {
  }

  /**
   * The account the log-in handler passes on: an address containing `admin` signs in
   * as the administrator, any other as a tenant; the tenant's name is the form's name
   * or a stock one when it is empty.
   */
  function LoginUser(email: string, name: string, id: string): (u: User)
    ensures u.id == id && u.email == email
    ensures u.role == Admin <==> Includes(email, "admin")
    ensures u.role != Manager
    ensures u.role == Tenant ==> u.name != ""
    ensures u.avatar.Some?
  {
    var isAdmin := Includes(email, "admin");
    User(
      id,
      if isAdmin then AdminName else if name != "" then name else DefaultTenantName,
      email,
      if isAdmin then Admin else Tenant,
      Some(if isAdmin then AdminAvatar else TenantAvatar))
  }

  /** An address without `admin` in it signs in as a tenant: `alice@rent.io` is one. */
  lemma TenantAddressExample(id: string)
    ensures LoginUser("alice@rent.io", "", id).role == Tenant
  {
    var s := "alice@rent.io";
    forall i | 0 <= i <= |s| - 5 ensures !OccursAt(s, "admin", i) {
      assert s[i] != 'a' || s[i + 1] != 'd';
    }
  }

  /**
   * The outstanding backend call completes (`ok`) or throws. Registration moves on to
   * code entry; log-in hands the new account to the session (the second result);
   * verification returns to log-in with a success message; any failure shows an error.
   * The screen stops loading in every case.
   */
  function Settle(st: AuthState, ok: bool, id: string): (r: (AuthState, Option<User>))
    requires st.pending.Some?
    ensures Idle(r.0) && r.0.form == st.form && r.0.errors == st.errors
    ensures r.1.Some? <==> ok && st.pending.value.LoginCall?
  {
    var done := st.(loading := false, pending := None);
    if !ok then
      var text := if st.pending.value.VerifyCall? then InvalidCode else UnexpectedError;
      (done.(message := Some(Message(Failure, text))), None)
    else match st.pending.value
      case RegisterCall(_, _, _) => (done.(mode := Verify), None)
      case LoginCall(email, name) => (done, Some(LoginUser(email, name, id)))
      case VerifyCall(_, _) => (done.(mode := Login, message := Some(Message(Success, AccountActivated))), None)
  }

  /** A failed call shows an error message and leaves the mode as it was. */
  lemma FailedCallShowsError(st: AuthState, id: string)
    requires st.pending.Some?
    ensures var r := Settle(st, false, id);
      r.0.mode == st.mode && r.1.None? && r.0.message.Some? && r.0.message.value.tone == Failure
  {
  }

  /** A completed log-in call signs in the captured address, never as a manager, and calls nothing else. */
  lemma CompletedLoginSignsIn(st: AuthState, email: string, name: string, id: string)
    requires st.pending == Some(LoginCall(email, name))
    ensures var r := Settle(st, true, id);
      && r.1.Some? && r.1.value.email == email && r.1.value.id == id
      && (r.1.value.role == Admin <==> Includes(email, "admin"))
      && (r.1.value.role != Admin ==> r.1.value.role == Tenant)
      && r.0.mode == st.mode
  {
  }

  /** Whatever mode the user has switched to meanwhile, a completed registration call opens code entry. */
  lemma CompletedRegistrationOpensVerify(st: AuthState, id: string)
    requires st.pending.Some? && st.pending.value.RegisterCall?
    ensures Settle(st, true, id).0.mode == Verify
  {
  }

  /** The code widget's submit: the screen waits on a verification call for the entered address and code. */
  function BeginVerification(st: AuthState, code: string): (r: AuthState)
    ensures r.loading && r.pending == Some(VerifyCall(st.form.email, code))
    ensures r.(loading := st.loading, pending := st.pending) == st
  {
    st.(loading := true, pending := Some(VerifyCall(st.form.email, code)))
  }

  /** A completed verification returns to log-in with the activation message, the address still filled in. */
  lemma CompletedVerificationReturnsToLogin(st: AuthState, code: string, id: string)
    ensures var r := Settle(BeginVerification(st, code), true, id).0;
      && r.mode == Login && r.message == Some(Message(Success, AccountActivated))
      && r.form == st.form && Idle(r)
  {
  }

  /** The widget's resend request: an informational message, nothing else. */
  function Resend(st: AuthState): (r: AuthState)
    ensures r.message.Some? && r.message.value.tone == Success
    ensures r.(message := st.message) == st
  {
    st.(message := Some(Message(Success, CodeResent)))
  }

  /** The banner on screen: the log-in and registration forms show the message; the code screen has none. */
  function Banner(st: AuthState): (shown: Option<Message>)
    ensures shown.Some? ==> st.mode != Verify && shown == st.message
    ensures st.mode != Verify ==> shown == st.message
  {
    if st.mode == Verify then None else st.message
  }

  /**
   * On the code screen, the resend notice and a failed verification's error are set but
   * not shown; going back to registration, which keeps the message, brings them up.
   */
  lemma CodeScreenMessagesAppearAfterBack(st: AuthState, id: string)
    requires st.mode == Verify
    ensures Banner(Resend(st)) == None
    ensures Banner(BackToRegistration(Resend(st))) == Some(Message(Success, CodeResent))
    ensures st.pending.Some? && st.pending.value.VerifyCall? ==>
      var failed := Settle(st, false, id).0;
      Banner(failed) == None && Banner(BackToRegistration(failed)) == Some(Message(Failure, InvalidCode))
  {
  }

  /** "Join Now": to registration, clearing errors and message. */
  function JoinNow(st: AuthState): (r: AuthState)
    ensures r.mode == Register
  {
    st.(mode := Register, errors := map[], message := None)
  }

  /** "Log In": to log-in, clearing errors and message. */
  function ShowLogin(st: AuthState): (r: AuthState)
    ensures r.mode == Login
  {
    st.(mode := Login, errors := map[], message := None)
  }

  /** "Back to registration" from code entry: only the mode changes. */
  function BackToRegistration(st: AuthState): (r: AuthState)
    ensures r.mode == Register && r.(mode := st.mode) == st
  {
    st.(mode := Register)
  }

  /** Switching between log-in and registration clears errors and message but keeps every field and any call in flight. */
  lemma SwitchesKeepForm(st: AuthState)
    ensures var a := JoinNow(st); var b := ShowLogin(st);
      && a.form == st.form && b.form == st.form
      && a.errors == map[] && b.errors == map[]
      && a.message.None? && b.message.None?
      && a.loading == st.loading && b.loading == st.loading
      && a.pending == st.pending && b.pending == st.pending
      && ShowLogin(JoinNow(st)) == ShowLogin(st)
  {
  }

  /**
   * The happy registration path: a valid registration submit issues the call; its
   * success opens code entry; a verified code returns to log-in with the activation
   * message, with the form (and so the address) kept, and nothing left loading.
   */
  lemma RegistrationJourney(st: AuthState, code: string, id1: string, id2: string)
    requires st.mode == Register && Validate(Register, st.form) == map[]
    ensures var submitted := BeginSubmit(st);
      && submitted.pending.Some?
      && var registered := Settle(submitted, true, id1).0;
      && registered.mode == Verify && Idle(registered)
      && var verified := Settle(BeginVerification(registered, code), true, id2);
      && verified.1.None?
      && verified.0.mode == Login && verified.0.form == st.form && Idle(verified.0)
      && verified.0.message == Some(Message(Success, AccountActivated))
  {
    ValidSubmitIssuesCall(st);
  }
}
