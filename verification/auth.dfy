/** The shared sign-up / login handler (script.js:21-80). The remote
    sign-up and sign-in calls are not modelled: the request the handler would
    send is part of its outcome, and the service's answer is an input. */
module Auth {
  import opened Wrappers
  import Routing

  /** `handleAuth` is called with 'signup' from the sign-up page and 'login'
      from the login page; every value other than 'signup' takes the login
      branch. */
  datatype Mode = SignUp | LogIn

  function ModeOf(kind: string): (m: Mode)
    ensures m.SignUp? <==> kind == "signup"
  {
    if kind == "signup" then SignUp else LogIn
  }

  /** The form as read from the page. `nameField` is the full-name input's
      value, or `None` when the page has no such input. */
  datatype Form = Form(email: string, password: string, nameField: Option<string>)

  /** The one remote call the handler may make. */
  datatype AuthRequest =
    | SignUpRequest(email: string, password: string, fullName: string)
    | SignInRequest(email: string, password: string)

  /** What the auth service answers: an error message, if any, and whether
      the answer carries an active session. */
  datatype Reply = Reply(error: Option<string>, hasSession: bool)

  /** The effect of one submission: the request sent, the last text written
      into the message element (`None`: left untouched), whether that text is
      turned red, and the page navigated to. */
  datatype Outcome = Outcome(
    request: Option<AuthRequest>,
    message: Option<string>,
    turnsRed: bool,
    redirect: Option<string>)

  const MissingCredentials := "Please enter both email and password."
  const MissingName := "Please enter your full name."
  const Processing := "Processing..."
  const ErrorPrefix := "Error: "
  const DashboardPage := Routing.DashboardFile

  /** The full name the sign-up branch reads: the input's value, or the empty
      string when the page has no full-name input. */
  function FullName(f: Form): (name: string)
    ensures f.nameField.Some? ==> name == f.nameField.value
    ensures name == "" <==> f.nameField.None? || f.nameField == Some("")
  {
    f.nameField.GetOr("")
  }

  /** The checks made before any remote call: both credentials non-empty and,
      for sign-up, a non-empty full name. */
  function Validate(mode: Mode, f: Form): (r: Result<AuthRequest, string>)
    ensures r.Success? <==> f.email != "" && f.password != "" && (mode.LogIn? || FullName(f) != "")
    ensures (f.email == "" || f.password == "") ==> r == Failure(MissingCredentials)
    ensures f.email != "" && f.password != "" && mode.SignUp? && FullName(f) == "" ==> r == Failure(MissingName)
    ensures r.Success? ==> r.value.email == f.email && r.value.password == f.password
    ensures r.Success? ==> (r.value.SignUpRequest? <==> mode.SignUp?)
    ensures r.Success? && mode.SignUp? ==> r.value.fullName == FullName(f)
  {
    if f.email == "" || f.password == "" then
      Failure(MissingCredentials)
    else
      match mode
      case SignUp =>
        if FullName(f) == "" then Failure(MissingName)
        else Success(SignUpRequest(f.email, f.password, FullName(f)))
      case LogIn =>
        Success(SignInRequest(f.email, f.password))
  }

  /** Reacting to the service's answer once a request was sent. A sign-up is
      only finished when the answer carries a session; a login whenever there
      is no error. An error is shown in red, prefixed with "Error: ". */
  function Resolve(mode: Mode, reply: Reply): (r: Outcome)
    ensures r.request.None?
    ensures r.redirect.Some? <==> reply.error.None? && (mode.LogIn? || reply.hasSession)
    ensures r.redirect.Some? ==> r.redirect == Some(DashboardPage)
    ensures r.turnsRed <==> reply.error.Some?
    ensures reply.error.Some? ==> r.message == Some(ErrorPrefix + reply.error.value)
    ensures reply.error.None? ==> r.message == Some(Processing)
  {
    match reply.error
    case Some(e) => Outcome(None, Some(ErrorPrefix + e), true, None)
    case None =>
      if mode.LogIn? || reply.hasSession then Outcome(None, Some(Processing), false, Some(DashboardPage))
      else Outcome(None, Some(Processing), false, None)
  }

  /** One submission of the form. `reply` is what the service would answer;
      it matters only when a request is sent. */
  function HandleAuth(mode: Mode, f: Form, reply: Reply): (r: Outcome)
    // a request goes out exactly when the form passes validation
    ensures r.request.Some? <==> f.email != "" && f.password != "" && (mode.LogIn? || FullName(f) != "")
    ensures (f.email == "" || f.password == "") ==>
      r == Outcome(None, Some(MissingCredentials), false, None)
    ensures f.email != "" && f.password != "" && mode.SignUp? && FullName(f) == "" ==>
      r == Outcome(None, Some(MissingName), false, None)
    // the request carries exactly what was typed
    ensures r.request.Some? ==> r.request.value.email == f.email && r.request.value.password == f.password
    ensures r.request.Some? && mode.SignUp? ==> r.request == Some(SignUpRequest(f.email, f.password, FullName(f)))
    ensures r.request.Some? && mode.LogIn? ==> r.request == Some(SignInRequest(f.email, f.password))
    // navigation only after a request the service accepted
    ensures r.redirect.Some? <==> r.request.Some? && reply.error.None? && (mode.LogIn? || reply.hasSession)
    ensures r.redirect.Some? ==> r.redirect == Some(DashboardPage)
    // a service error is shown verbatim after the prefix, in red
    ensures r.turnsRed <==> r.request.Some? && reply.error.Some?
    ensures r.turnsRed ==> r.message == Some(ErrorPrefix + reply.error.value)
    // a request answered without error leaves "Processing..." in place, navigating or not
    ensures r.request.Some? && reply.error.None? ==> r.message == Some(Processing)
    // a sign-up without error and without session stays on "Processing..."
    ensures r.request.Some? && mode.SignUp? && reply.error.None? && !reply.hasSession ==>
      r.message == Some(Processing) && r.redirect.None?
  {
    match Validate(mode, f)
    case Failure(msg) => Outcome(None, Some(msg), false, None)
    case Success(req) =>
      var o := Resolve(mode, reply);
      o.(request := Some(req))
  }

  /** Every submission ends in exactly one of four ways: rejected before any
      request, sent to the dashboard, shown a service error, or left waiting
      on "Processing..." (a sign-up that needs email confirmation). */
  lemma OutcomesAreExclusive(mode: Mode, f: Form, reply: Reply)
    ensures var r := HandleAuth(mode, f, reply);
      var rejected := r.request.None?;
      var entered := r.redirect.Some?;
      var failed := r.turnsRed;
      var waiting := r.request.Some? && r.redirect.None? && !r.turnsRed;
      (rejected || entered || failed || waiting)
      && !(rejected && (entered || failed || waiting))
      && !(entered && (failed || waiting))
      && !(failed && waiting)
    ensures var r := HandleAuth(mode, f, reply);
      r.request.Some? && r.redirect.None? && !r.turnsRed ==>
        mode.SignUp? && reply.error.None? && !reply.hasSession && r.message == Some(Processing)
  {
  }

  /** The login page's submission: non-empty credentials and an error-free
      answer always reach the dashboard, whatever the answer says about the
      session. */
  lemma LoginWithoutErrorEnters(email: string, password: string, name: Option<string>, hasSession: bool)
    requires email != "" && password != ""
    ensures HandleAuth(ModeOf("login"), Form(email, password, name), Reply(None, hasSession)).redirect
      == Some(DashboardPage)
  {
  }

  /** The sign-up page's submission: filled credentials without a full name
      are rejected before any request. */
  lemma SignupWithoutNameRejected(email: string, password: string, reply: Reply)
    requires email != "" && password != ""
    ensures HandleAuth(ModeOf("signup"), Form(email, password, None), reply)
      == Outcome(None, Some(MissingName), false, None)
  {
  }
}
