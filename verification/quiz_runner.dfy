/** The quiz page (script.js:165-277) as a state machine. The question
    fetch, the 1.5 second timer and the session lookup at the end are
    events whose results are inputs; the score insert is an output. */
module QuizRunner {
  import opened Wrappers
  import opened Grading
  import Routing

  /** The four option buttons, `btn-A` .. `btn-D`; a click reports the part
      of the button id after the dash. */
  datatype Choice = A | B | C | D

  function Label(c: Choice): string {
    match c
    case A => "A"
    case B => "B"
    case C => "C"
    case D => "D"
  }

  /** The labels that name an existing button. */
  const ButtonLabels: set<string> := {"A", "B", "C", "D"}

  /** A stored `correct_answer`, seen as the handler sees it: the button it
      names, or no button at all (any other text). The handler looks up the
      element `btn-<text>`; the page is taken to have no element with such an
      id besides the four option buttons. */
  datatype Answer = Names(button: Choice) | NoButton

  function AnswerOf(text: string): (a: Answer)
    ensures a.Names? <==> text in ButtonLabels
    ensures a.Names? ==> Label(a.button) == text
  {
    if text == "A" then Names(A)
    else if text == "B" then Names(B)
    else if text == "C" then Names(C)
    else if text == "D" then Names(D)
    else NoButton
  }

  /** The strict comparison of the clicked label with the stored text agrees
      with comparing the button against `AnswerOf` the text. */
  lemma SameButton(c: Choice, text: string)
    ensures Label(c) == text <==> AnswerOf(text) == Names(c)
  {
  }

  /** A question row, its `correct_answer` read through `AnswerOf`. */
  datatype Question = Question(
    text: string,
    optionA: string,
    optionB: string,
    optionC: string,
    optionD: string,
    answer: Answer)

  /** The answer of the question query: whether it reported an error, and
      the rows (`None` for a null `data`). */
  datatype Fetch = Fetch(failed: bool, rows: Option<seq<Question>>)

  /** `Showing`: the option buttons are enabled. `Locked`: they are
      disabled and the advance timer is pending. */
  datatype Phase = Loading | NoQuestions | Showing | Locked | Finished(percent: int)

  /** The page variables `questions`, `currentQuestionIndex` and `score`,
      with the phase the page is in. */
  datatype Quiz = Quiz(questions: seq<Question>, index: int, score: int, phase: Phase)

  const Initial := Quiz([], 0, 0, Loading)

  /** Opening the quiz page (script.js:167-176, 276): a missing or empty
      `category` parameter starts a navigation to the dashboard, but the
      script does not stop there, so the question query is still issued
      for that category. */
  datatype Entry = Entry(redirect: Option<string>, queryCategory: Option<string>, start: Quiz)

  function Enter(category: Option<string>): (e: Entry)
    ensures e.redirect.Some? <==> category.None? || category == Some("")
    ensures e.redirect.Some? ==> e.redirect == Some(Routing.DashboardFile)
    ensures e.queryCategory == category
    ensures e.start == Initial
  {
    var missing := category.None? || category == Some("");
    Entry(if missing then Some(Routing.DashboardFile) else None, category, Initial)
  }

  /** The row inserted into the score table. */
  datatype ScoreRow = ScoreRow(userId: string, category: Option<string>, score: int)

  /** What can happen to the page: the question query answers, an option is
      clicked, the advance timer fires (carrying the id of the session the
      page finds if this advance ends the quiz). */
  datatype Event = Fetched(fetch: Fetch) | Clicked(choice: Choice) | TimerFired(session: Option<string>)

  /** The reachable states. `score` never exceeds the number of questions
      answered so far, which is `index`, plus one while the current answer
      awaits the timer; the index addresses a question whenever one is on
      screen; the mark is computed from the final score. */
  ghost predicate Valid(s: Quiz)
    // the plain bounds: the score never exceeds the question count, nor the index
    ensures Valid(s) ==> 0 <= s.score <= |s.questions| && 0 <= s.index <= |s.questions|
  {
    && 0 <= s.score
    && 0 <= s.index
    && match s.phase
       case Loading => s.questions == [] && s.index == 0 && s.score == 0
       case NoQuestions => s.questions == [] && s.index == 0 && s.score == 0
       case Showing => s.index < |s.questions| && s.score <= s.index
       case Locked => s.index < |s.questions| && s.score <= s.index + 1
       case Finished(p) =>
         && 0 < |s.questions| == s.index
         && s.score <= s.index
         && p == Percent(s.score, |s.questions|)
  }

  lemma InitialValid()
    ensures Valid(Initial)
  {
  }

  /** What the page displays for the current question; `position` and
      `total` form the "Question position of total" line. */
  datatype View = View(text: string, options: seq<string>, position: int, total: int)

  /** `showQuestion` (script.js:196-217). Only called on a shown question,
      so the question it reads exists. */
  function ShowQuestion(s: Quiz): (v: View)
    requires Valid(s) && s.phase.Showing?
    ensures 1 <= v.position <= v.total == |s.questions|
    // the question on screen is the current one, numbered from 1
    ensures v.position == s.index + 1
    ensures var q := s.questions[s.index];
      v.text == q.text && v.options == [q.optionA, q.optionB, q.optionC, q.optionD]
  {
    var q := s.questions[s.index];
    View(q.text, [q.optionA, q.optionB, q.optionC, q.optionD], s.index + 1, |s.questions|)
  }

  /** `fetchQuestions` (script.js:181-194): the page leaves `Loading` for the
      first question only on an error-free, non-null, non-empty answer. */
  function Load(s: Quiz, f: Fetch): (r: Quiz)
    requires Valid(s)
    ensures Valid(r)
    ensures r.phase.Showing? && s.phase.Loading? <==>
      s.phase.Loading? && !f.failed && f.rows.Some? && |f.rows.value| > 0
    ensures s.phase.Loading? && r.phase.Showing? ==> r == Quiz(f.rows.value, 0, 0, Showing)
    ensures s.phase.Loading? && !r.phase.Showing? ==> r == s.(phase := NoQuestions)
    ensures !s.phase.Loading? ==> r == s
  {
    if !s.phase.Loading? then s
    else if f.failed || f.rows.None? || |f.rows.value| == 0 then s.(phase := NoQuestions)
    else s.(questions := f.rows.value, phase := Showing)
  }

  /** The click handler runs to the end on question `q`: a right pick
      names a button, and a wrong pick needs the stored answer's button to
      highlight it. */
  predicate Completes(q: Question) {
    q.answer.Names?
  }

  /** Whether clicking `c` in state `s` scores a point. */
  ghost predicate Scores(s: Quiz, c: Choice) {
    s.phase.Showing? && 0 <= s.index < |s.questions| && s.questions[s.index].answer == Names(c)
  }

  /** The option click handler (script.js:221-255). Disabled buttons
      (`Locked`, `Finished`) fire nothing. Otherwise the handler reads the
      current question; before the questions arrive that read finds no
      question and throws. A correct pick scores; a wrong pick highlights the
      correct button, which throws when no button carries the stored label.
      A handler that completes disables all buttons and starts the timer. */
  function Click(s: Quiz, c: Choice): (r: Quiz)
    requires Valid(s)
    ensures Valid(r)
    ensures r.questions == s.questions && r.index == s.index
    // a click adds exactly one point for a correct pick on a shown question, and nothing otherwise
    ensures Scores(s, c) ==> r.score == s.score + 1
    ensures !Scores(s, c) ==> r.score == s.score
    // it locks a shown question exactly when the handler runs to the end
    ensures r.phase.Locked? <==> s.phase.Locked? || (s.phase.Showing? && Completes(s.questions[s.index]))
    ensures !s.phase.Showing? ==> r == s
    ensures !r.phase.Locked? ==> r == s
  {
    if s.phase.Locked? || s.phase.Finished? then s
    else if !(0 <= s.index < |s.questions|) then s
    else
      var correct := s.questions[s.index].answer;
      if correct == Names(c) then s.(score := s.score + 1, phase := Locked)
      else if correct.Names? then s.(phase := Locked)
      else s
  }

  /** `finishQuiz` persistence (script.js:266-273): one row for the signed-in
      user, none for a guest. */
  function Persist(percent: int, session: Option<string>, category: Option<string>): (rows: seq<ScoreRow>)
    ensures |rows| <= 1
    ensures |rows| == 1 <==> session.Some?
    ensures |rows| == 1 ==> rows[0] == ScoreRow(session.value, category, percent)
  {
    match session
    case Some(id) => [ScoreRow(id, category, percent)]
    case None => []
  }

  /** The advance timer (script.js:247-254): the index moves on by exactly
      one; the next question is shown while one is left, otherwise the quiz
      is marked and, for a signed-in user, saved. */
  function Tick(s: Quiz, session: Option<string>, category: Option<string>): (r: (Quiz, seq<ScoreRow>))
    requires Valid(s)
    ensures Valid(r.0)
    ensures !s.phase.Locked? ==> r == (s, [])
    ensures s.phase.Locked? ==>
      r.0.questions == s.questions && r.0.index == s.index + 1 && r.0.score == s.score
    ensures s.phase.Locked? ==> (r.0.phase.Showing? <==> s.index + 1 < |s.questions|)
    ensures s.phase.Locked? && s.index + 1 == |s.questions| ==>
      r.0.phase.Finished? && 0 <= r.0.phase.percent <= 100
      && r.1 == Persist(r.0.phase.percent, session, category)
    ensures |r.1| > 0 ==> r.0.phase.Finished? && !s.phase.Finished?
  {
    if !s.phase.Locked? then (s, [])
    else
      var next := s.(index := s.index + 1);
      if next.index < |s.questions| then (next.(phase := Showing), [])
      else
        var n := |s.questions|;
        var percent := Percent(s.score, n);
        PercentInRange(s.score, n);
        (next.(phase := Finished(percent)), Persist(percent, session, category))
  }

  function Step(s: Quiz, e: Event, category: Option<string>): (r: (Quiz, seq<ScoreRow>))
    requires Valid(s)
    ensures Valid(r.0)
    ensures |r.1| > 0 ==> r.0.phase.Finished? && !s.phase.Finished?
    ensures s.phase.Finished? ==> r == (s, [])
  {
    match e
    case Fetched(f) => (Load(s, f), [])
    case Clicked(c) => (Click(s, c), [])
    case TimerFired(session) => Tick(s, session, category)
  }

  /** The page after a sequence of events, with every score row it
      inserted. Every reachable page state satisfies the invariant. */
  function Run(s: Quiz, events: seq<Event>, category: Option<string>): (r: (Quiz, seq<ScoreRow>))
    requires Valid(s)
    ensures Valid(r.0)
    decreases |events|
  {
    if events == [] then (s, [])
    else
      var first := Step(s, events[0], category);
      var later := Run(first.0, events[1..], category);
      (later.0, first.1 + later.1)
  }

  /** The first question is shown once the questions arrive, numbered 1 of
      the number of rows. */
  lemma FirstQuestionShown(f: Fetch)
    requires !f.failed && f.rows.Some? && |f.rows.value| > 0
    ensures var r := Load(Initial, f);
      r.phase.Showing? && ShowQuestion(r) == View(
        f.rows.value[0].text,
        [f.rows.value[0].optionA, f.rows.value[0].optionB, f.rows.value[0].optionC, f.rows.value[0].optionD],
        1, |f.rows.value|)
  {
  }

  /** After the timer, the page shows the next question, numbered one
      higher, while one is left. */
  lemma AdvanceShowsNext(s: Quiz, session: Option<string>, category: Option<string>)
    requires Valid(s) && s.phase.Locked? && s.index + 1 < |s.questions|
    ensures var r := Tick(s, session, category).0;
      r.phase.Showing? && ShowQuestion(r).position == s.index + 2
      && ShowQuestion(r).text == s.questions[s.index + 1].text
  {
  }

  /** A finished quiz ignores every later event. */
  lemma {:induction false} FinishedIsFinal(s: Quiz, events: seq<Event>, category: Option<string>)
    requires Valid(s) && s.phase.Finished?
    ensures Run(s, events, category) == (s, [])
    decreases |events|
  {
    if events != [] {
      assert Step(s, events[0], category) == (s, []);
      FinishedIsFinal(s, events[1..], category);
      var rows: seq<ScoreRow> := [];
      assert Run(s, events, category) == (s, rows + rows);
      assert rows + rows == rows;
    }
  }

  /** Whatever happens on the page, at most one score row is inserted, and
      only by the advance that finishes the quiz; a finished quiz inserts
      none. */
  lemma {:induction false} AtMostOneInsert(s: Quiz, events: seq<Event>, category: Option<string>)
    requires Valid(s)
    ensures var r := Run(s, events, category);
      && |r.1| <= (if s.phase.Finished? then 0 else 1)
      && (|r.1| == 1 ==> r.0.phase.Finished?)
    decreases |events|
  {
    if events != [] {
      var first := Step(s, events[0], category);
      AtMostOneInsert(first.0, events[1..], category);
      if |first.1| > 0 {
        FinishedIsFinal(first.0, events[1..], category);
      }
    }
  }
}
