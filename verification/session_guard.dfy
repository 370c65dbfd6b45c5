/** The session check run once on every page load (script.js:101-128). The
    session comes from the auth service and is an input here; redirects are
    returned as values rather than performed. */
module SessionGuard {
  import opened Wrappers
  import opened Routing

  /** The signed-in user as the auth service reports it; `fullName` is the
      `full_name` profile field, absent when it was never set. */
  datatype User = User(id: string, email: string, fullName: Option<string>)

  datatype Session = Session(user: User)

  /** Where an unauthenticated visitor of a protected page is sent. */
  const AuthPage := "auth.html"

  /** What one run of the check does: the navigation it starts, whether it
      stops with an exception, the value it resolves to, the name it writes
      into the dashboard header and the user whose scores it asks for. */
  datatype GuardResult = GuardResult(
    redirect: Option<string>,
    threw: bool,
    returned: Option<Session>,
    shownName: Option<string>,
    scoresFor: Option<string>)

  /** `full_name || email`: the profile name when it is a non-empty string,
      the account email otherwise. */
  function DisplayName(u: User): (name: string)
    ensures name == u.email || u.fullName == Some(name)
    ensures name == "" ==> u.email == ""
    ensures u.fullName.Some? && u.fullName.value != "" ==> name == u.fullName.value
  {
    match u.fullName
    case Some(n) => if n != "" then n else u.email
    case None => u.email
  }

  /** The navbar branch for a signed-in visitor of the home page reads
      `homeLoginLink`, which the script never declares, so the check throws
      there: it resolves to nothing and the dashboard part is not reached. */
  function CheckSession(page: Page, session: Option<Session>): (r: GuardResult)
    // a guest on a protected page is sent to the auth page, and nothing else happens
    ensures r.redirect.Some? <==> session.None? && page.Protected()
    ensures r.redirect.Some? ==>
      r.redirect == Some(AuthPage) && !r.threw && r.returned.None? && r.shownName.None? && r.scoresFor.None?
    // a signed-in visitor of the home page hits the undeclared navbar variable
    ensures r.threw <==> page.isHome && session.Some?
    ensures r.threw ==> r.returned.None? && r.shownName.None? && r.scoresFor.None?
    // otherwise the check resolves to the session it found, signed in or not
    ensures r.redirect.None? && !r.threw ==> r.returned == session
    // the dashboard header and score list are filled only for a signed-in visitor of the dashboard
    ensures r.shownName.Some? <==> page.isDashboard && !page.isHome && session.Some?
    ensures r.scoresFor.Some? <==> page.isDashboard && !page.isHome && session.Some?
    ensures r.shownName.Some? ==>
      r.shownName == Some(DisplayName(session.value.user)) && r.scoresFor == Some(session.value.user.id)
  {
    if session.None? && page.Protected() then
      GuardResult(Some(AuthPage), false, None, None, None)
    else if page.isHome && session.Some? then
      GuardResult(None, true, None, None, None)
    else if page.isDashboard && session.Some? then
      var u := session.value.user;
      GuardResult(None, false, session, Some(DisplayName(u)), Some(u.id))
    else
      GuardResult(None, false, session, None, None)
  }

  /** A signed-in visitor of any home path (a directory, or a path
      containing `index.html`) reaches the navbar branch, so the check throws
      instead of resolving to the session. */
  lemma SignedInHomeVisitThrows(dir: string, rest: string, u: User)
    ensures CheckSession(Classify(dir + "/"), Some(Session(u))) == GuardResult(None, true, None, None, None)
    ensures CheckSession(Classify(dir + IndexFile + rest), Some(Session(u)))
      == GuardResult(None, true, None, None, None)
  {
    HomePageAnywhere(dir, rest);
  }

  /** A guest opening the quiz page, in any directory and with anything after
      its file name, is sent to the auth page and the check resolves to null. */
  lemma GuestQuizVisitRedirects(dir: string, rest: string)
    ensures CheckSession(Classify(dir + QuizFile + rest), None)
      == GuardResult(Some(AuthPage), false, None, None, None)
  {
    QuizPageAnywhere(dir, rest);
  }

  /** The same for the dashboard: no name is shown and no scores are loaded. */
  lemma GuestDashboardVisitRedirects(dir: string, rest: string)
    ensures CheckSession(Classify(dir + DashboardFile + rest), None)
      == GuardResult(Some(AuthPage), false, None, None, None)
  {
    DashboardPageAnywhere(dir, rest);
  }
}
