/** Page classification from the URL path (script.js:11-16). Each flag is a
    substring test on the path, so the flags are independent: a path may
    raise several of them or none. */
module Routing {
  import opened Strings

  datatype Page = Page(
    isLogin: bool,
    isSignup: bool,
    isDashboard: bool,
    isQuiz: bool,
    isHome: bool)
  {
    /** Pages that require a signed-in visitor. */
    predicate Protected() {
      isDashboard || isQuiz
    }
  }

  const LoginFile := "login.html"
  const SignupFile := "signup.html"
  const DashboardFile := "dashboard.html"
  const QuizFile := "quiz.html"
  const IndexFile := "index.html"

  /** The flags the script computes once from `window.location.pathname`. */
  function Classify(path: string): (p: Page)
    ensures p.isLogin <==> Occurs(path, LoginFile)
    ensures p.isSignup <==> Occurs(path, SignupFile)
    ensures p.isDashboard <==> Occurs(path, DashboardFile)
    ensures p.isQuiz <==> Occurs(path, QuizFile)
    ensures p.isHome <==> Occurs(path, IndexFile) || (exists dir :: dir + "/" == path)
  {
    assert path == "/" ==> "" + "/" == path;
    Page(
      Contains(path, LoginFile),
      Contains(path, SignupFile),
      Contains(path, DashboardFile),
      Contains(path, QuizFile),
      Contains(path, IndexFile) || path == "/" || EndsWith(path, "/"))
  }

  /** The site root is the home page and is not protected. */
  lemma RootIsHome()
    ensures Classify("/").isHome
    ensures !Classify("/").Protected()
  {
    assert !Contains("/", DashboardFile);
    assert !Contains("/", QuizFile);
  }

  /** Every directory path, and every path containing `index.html`, is the
      home page. */
  lemma HomePageAnywhere(dir: string, rest: string)
    ensures Classify(dir + "/").isHome
    ensures Classify(dir + IndexFile + rest).isHome
  {
    assert Contains(IndexFile, IndexFile) by {
      assert IndexFile[..|IndexFile|] == IndexFile;
    }
    ContainsInContext(dir, IndexFile, rest, IndexFile);
  }

  /** The quiz page is recognised, and protected, under any directory and
      whatever follows its file name. */
  lemma QuizPageAnywhere(dir: string, rest: string)
    ensures Classify(dir + QuizFile + rest).isQuiz
    ensures Classify(dir + QuizFile + rest).Protected()
  {
    assert Contains(QuizFile, QuizFile) by {
      assert QuizFile[..|QuizFile|] == QuizFile;
    }
    ContainsInContext(dir, QuizFile, rest, QuizFile);
  }

  /** The same for the dashboard page. */
  lemma DashboardPageAnywhere(dir: string, rest: string)
    ensures Classify(dir + DashboardFile + rest).isDashboard
    ensures Classify(dir + DashboardFile + rest).Protected()
  {
    assert Contains(DashboardFile, DashboardFile) by {
      assert DashboardFile[..|DashboardFile|] == DashboardFile;
    }
    ContainsInContext(dir, DashboardFile, rest, DashboardFile);
  }
}
