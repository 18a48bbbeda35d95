/**
 * The whole sign-in and session flow as one event-driven machine. The sign-in
 * screen exists only while nobody is signed in; the code widget exists only while
 * the screen is in verification mode, and mounts fresh each time that mode is
 * entered. User actions are only accepted while the element they press is shown
 * and enabled; backend outcomes and clock ticks arrive as events too.
 */
module Portal {
  import opened Types
  import CodeEntry
  import AuthFlow
  import Session
  import JsText

  /** The mounted sign-in screen and, in verification mode, its code widget. */
  datatype SignInScreen = SignInScreen(auth: AuthFlow.AuthState, widget: Option<CodeEntry.OtpState>)

  /** The application: the shell's state and, while nobody is signed in, the sign-in screen. */
  datatype System = System(app: Session.AppState, screen: Option<SignInScreen>)

  datatype Event =
    | EditField(field: AuthFlow.Field, v: string)
    | SubmitForm
    | JoinNow
    | ShowLogin
    | CodeChange(value: string, slot: nat)
    | CodeKey(key: string, slot: nat)
    | CodePaste(text: string)
    | CodeSubmit
    | CodeResend
    | CodeBack
    | Tick
    | Respond(ok: bool, id: string)
    | SignOut
    | ToggleView
    | SelectTab(tab: string)

  /** A mounted sign-in screen is consistent: loading matches the call in flight, and the widget is mounted, valid, exactly in verification mode. */
  ghost predicate ScreenOk(sc: SignInScreen)
  {
    && AuthFlow.Consistent(sc.auth)
    && (sc.widget.Some? <==> sc.auth.mode == AuthFlow.Verify)
    && (sc.widget.Some? ==> CodeEntry.Valid(sc.widget.value))
  }

  /** The system invariant: the shell's invariant, the sign-in screen mounted exactly while signed out, and that screen consistent. */
  ghost predicate Inv(sys: System)
  {
    && Session.Inv(sys.app)
    && (sys.screen.Some? <==> sys.app.user.None?)
    && (sys.screen.Some? ==> ScreenOk(sys.screen.value))
  }

  /** A freshly mounted sign-in screen. */
  function FreshScreen(): (sc: SignInScreen)
    ensures ScreenOk(sc) && sc.auth.mode == AuthFlow.Login && sc.widget.None?
  {
    SignInScreen(AuthFlow.Initial(), None)
  }

  /**
   * The screen after its state became `auth`: the widget stays mounted while the mode
   * stays verification, mounts fresh when verification is entered, and is dropped when it is left.
   */
  function Remount(sc: SignInScreen, auth: AuthFlow.AuthState): (r: SignInScreen)
    requires ScreenOk(sc) && AuthFlow.Consistent(auth)
    ensures ScreenOk(r) && r.auth == auth
    ensures sc.auth.mode != AuthFlow.Verify && auth.mode == AuthFlow.Verify ==> r.widget == Some(CodeEntry.Initial())
    ensures sc.auth.mode == AuthFlow.Verify && auth.mode == AuthFlow.Verify ==> r.widget == sc.widget
  {
    var widget :=
      if auth.mode != AuthFlow.Verify then None
      else if sc.auth.mode == AuthFlow.Verify then sc.widget
      else Some(CodeEntry.Initial());
    SignInScreen(auth, widget)
  }

  /** Starting the application with the given storage contents. */
  function Launch(stored: Option<User>): (sys: System)
    ensures Inv(sys)
    ensures sys.app.user == stored
  {
    var app := Session.Launch(stored);
    System(app, if app.user.None? then Some(FreshScreen()) else None)
  }

  /** One event; events whose control is not shown or is disabled leave the system unchanged. */
  function Step(sys: System, e: Event): (r: System)
    requires Inv(sys)
    ensures Inv(r)
  {
    match sys.screen
    case Some(sc) => StepSignedOut(sys, sc, e)
    case None => StepSignedIn(sys, e)
  }

  /** An event while the sign-in screen is mounted. */
  function StepSignedOut(sys: System, sc: SignInScreen, e: Event): (r: System)
    requires Inv(sys) && sys.screen == Some(sc)
    ensures Inv(r)
  {
    var auth := sc.auth;
    var formShown := auth.mode != AuthFlow.Verify;
    match e
    case EditField(field, v) =>
      if AuthFlow.FieldShown(auth.mode, field)
      then sys.(screen := Some(sc.(auth := AuthFlow.EditField(auth, field, v)))) else sys
    case SubmitForm =>
      if formShown && !auth.loading then sys.(screen := Some(Remount(sc, AuthFlow.BeginSubmit(auth)))) else sys
    case JoinNow =>
      if auth.mode == AuthFlow.Login then sys.(screen := Some(Remount(sc, AuthFlow.JoinNow(auth)))) else sys
    case ShowLogin =>
      if auth.mode == AuthFlow.Register then sys.(screen := Some(Remount(sc, AuthFlow.ShowLogin(auth)))) else sys
    case CodeChange(value, slot) =>
      if sc.widget.Some? && slot < CodeEntry.Slots
      then sys.(screen := Some(sc.(widget := Some(CodeEntry.ChangeSlot(sc.widget.value, value, slot))))) else sys
    case CodeKey(key, slot) =>
      if sc.widget.Some? && slot < CodeEntry.Slots
      then sys.(screen := Some(sc.(widget := Some(CodeEntry.KeyDown(sc.widget.value, key, slot))))) else sys
    case CodePaste(text) =>
      if sc.widget.Some? then sys.(screen := Some(sc.(widget := Some(CodeEntry.Paste(sc.widget.value, text))))) else sys
    case CodeSubmit =>
      if sc.widget.Some? then
        match CodeEntry.Submit(sc.widget.value, auth.loading)
        case None => sys
        case Some(code) => sys.(screen := Some(sc.(auth := AuthFlow.BeginVerification(auth, code))))
      else sys
    case CodeResend =>
      if sc.widget.Some? then
        var (w, sent) := CodeEntry.Resend(sc.widget.value);
        sys.(screen := Some(SignInScreen(if sent then AuthFlow.Resend(auth) else auth, Some(w))))
      else sys
    case CodeBack =>
      if sc.widget.Some? then sys.(screen := Some(Remount(sc, AuthFlow.BackToRegistration(auth)))) else sys
    case Tick =>
      if sc.widget.Some? then sys.(screen := Some(sc.(widget := Some(CodeEntry.Tick(sc.widget.value))))) else sys
    case Respond(ok, id) =>
      if auth.pending.Some? then
        var (settled, login) := AuthFlow.Settle(auth, ok, id);
        match login
        case Some(u) => System(Session.Login(sys.app, u), None)
        case None => sys.(screen := Some(Remount(sc, settled)))
      else sys
    case _ => sys
  }

  /** An event while someone is signed in: the shell's own controls, as routing shows them. */
  function StepSignedIn(sys: System, e: Event): (r: System)
    requires Inv(sys) && sys.screen.None?
    ensures Inv(r)
  {
    var screen := Session.Route(sys.app);
    match e
    case SignOut => System(Session.Logout(sys.app), Some(FreshScreen()))
    case ToggleView =>
      if (screen.AdminShell? && screen.portalButton) || (screen.TenantPortal? && screen.backToAdmin)
      then sys.(app := Session.ToggleView(sys.app)) else sys
    case SelectTab(tab) =>
      if screen.AdminShell? then sys.(app := Session.SelectTab(sys.app, tab)) else sys
    case _ => sys
  }

  /** The system after launching with `stored` and then the events in order; every such state keeps the invariant. */
  function Run(stored: Option<User>, events: seq<Event>): (sys: System)
    ensures Inv(sys)
    decreases |events|
  {
    if events == [] then Launch(stored)
    else Step(Run(stored, events[..|events| - 1]), events[|events| - 1])
  }

  /**
   * In every reachable state a signed-in tenant is shown the tenant portal without the
   * way back, the code widget is mounted exactly in verification mode with its six slots,
   * and the screen is loading exactly while a backend call is outstanding.
   */
  lemma ReachableStatesAreSafe(stored: Option<User>, events: seq<Event>)
    ensures var sys := Run(stored, events);
      && (sys.app.user.Some? && sys.app.user.value.role == Tenant ==> Session.Route(sys.app) == Session.TenantPortal(false))
      && (sys.app.user.None? <==> Session.Route(sys.app) == Session.AuthScreen)
      && (sys.screen.Some? ==>
            && (sys.screen.value.widget.Some? <==> sys.screen.value.auth.mode == AuthFlow.Verify)
            && (sys.screen.value.widget.Some? ==> |sys.screen.value.widget.value.otp| == CodeEntry.Slots)
            && (sys.screen.value.auth.loading <==> sys.screen.value.auth.pending.Some?))
  {
    var sys := Run(stored, events);
    if sys.app.user.Some? && sys.app.user.value.role == Tenant {
      Session.TenantNeverSeesAdminShell(sys.app);
    }
  }

  /** While a call is outstanding neither submit button does anything: at most one call is ever in flight. */
  lemma NoSecondCallWhileLoading(sys: System)
    requires Inv(sys) && sys.screen.Some? && sys.screen.value.auth.loading
    ensures Step(sys, SubmitForm) == sys
    ensures Step(sys, CodeSubmit) == sys
  {
  }

  /** Signing in then launching again restores the same user; signing out then launching again shows the sign-in screen. */
  lemma RelaunchRestoresSession(sys: System)
    requires Inv(sys)
    ensures sys.screen.None? ==> Launch(Step(sys, SignOut).app.stored).screen == Some(FreshScreen())
    ensures Launch(sys.app.stored).app.user == sys.app.user
  {
  }

  /** A completed log-in call ends the sign-in screen: the administrator lands in the admin shell, anyone else in the tenant portal. */
  lemma LoginResponseOpensSession(sys: System, email: string, name: string, id: string)
    requires Inv(sys) && sys.screen.Some? && sys.screen.value.auth.pending == Some(AuthFlow.LoginCall(email, name))
    ensures var r := Step(sys, Respond(true, id));
      && r.screen.None?
      && r.app.user == Some(AuthFlow.LoginUser(email, name, id))
      && r.app.stored == r.app.user
      && Session.Route(r.app) == (if JsText.Includes(email, "admin")
                                  then Session.AdminShell(true, Session.AdminLabel)
                                  else Session.TenantPortal(false))
  {
  }

  /**
   * A verification answer is applied even after the user went back to registration while
   * it was outstanding: the screen lands in log-in mode with the activation message.
   */
  lemma StaleVerificationStillApplies(sys: System, email: string, code: string, id: string)
    requires Inv(sys) && sys.screen.Some? && sys.screen.value.widget.Some?
    requires sys.screen.value.auth.pending == Some(AuthFlow.VerifyCall(email, code))
    ensures var back := Step(sys, CodeBack);
      && back.screen.value.auth.mode == AuthFlow.Register && back.screen.value.widget.None?
      && var r := Step(back, Respond(true, id));
      && r.screen.value.auth.mode == AuthFlow.Login
      && r.screen.value.auth.message == Some(AuthFlow.Message(AuthFlow.Success, AuthFlow.AccountActivated))
  {
  }
}
