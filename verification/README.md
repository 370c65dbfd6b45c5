# Quiz app core in Dafny

The repository is a small browser quiz application: a single `script.js` shared by
the login, sign-up, dashboard, home and quiz pages, talking to a hosted auth and
database service. This project models the logic in that script:

- **Routing** — the page flags computed once from the URL path by substring and
  suffix tests (`Strings`, `Routing`).
- **Session guard** — `checkSession`: a guest on the dashboard or quiz page is sent
  to `auth.html`. A signed-in visitor of the dashboard sees a display name and has
  their scores requested (`SessionGuard`).
- **Auth handler** — `handleAuth`: checks for empty fields, sends the one sign-up or
  sign-in request, and reacts to the service's answer (`Auth`).
- **Quiz runner** — the quiz page as a state machine over the page variables
  `questions`, `currentQuestionIndex` and `score`. Its events are the question
  fetch answering, an option click and the 1.5 second advance timer. The final
  percentage is computed with exact rounding and saved as one score row for a
  signed-in user (`Grading`, `QuizRunner`, `QuizProperties`).

The remote service is never called. Its answers (the session, the sign-up or
sign-in reply, the question rows, the session found when the quiz finishes) are
inputs. Navigations and the score insert are returned as values.

Behaviours of the code that the model keeps as written:

- A click that arrives before the questions have loaded (or after "No questions
  found") reads a question that does not exist and throws. It changes nothing.
- A wrong pick on a question whose stored `correct_answer` is not one of `A`..`D`
  looks up a button that does not exist and throws before the buttons are
  disabled. No timer starts and the score is unchanged.
- Between a correct click and the timer, `score` can be one more than
  `currentQuestionIndex` (when every earlier pick was right). The invariant is therefore `score <= index` while a
  question is shown or the quiz is finished, and `score <= index + 1` while the
  buttons are locked (`QuizRunner.Valid`).
- A missing or empty `category` parameter starts a navigation to the dashboard,
  but the script does not return, so the question query is still issued.
- A sign-up answered with neither an error nor a session leaves the message on
  "Processing..." and does not navigate.
- A signed-in visitor of a home page reaches the navbar branch. That branch reads
  `homeLoginLink`, which the script never declares, so the check throws there.
- After "No questions found for this category." the page stays where it is. The
  code does not fall back to the dashboard.

## Model

| member | source | states |
|---|---|---|
| Strings.Contains | script.js:12-16 | `path.includes(x)` holds exactly when `x` occurs at some position of the path |
| Strings.EndsWith | script.js:16 | `path.endsWith(x)` holds exactly when the path is some prefix followed by `x` |
| Routing.Classify | script.js:11-16 | each page flag holds exactly when its file name occurs in the path; home also holds exactly when the path ends in `/` |
| Routing.RootIsHome | script.js:16 | the path `/` is the home page and is neither the dashboard nor the quiz page |
| Routing.HomePageAnywhere | script.js:16 | every path ending in `/` and every path containing `index.html` is the home page |
| Routing.QuizPageAnywhere | script.js:15 | any path containing `quiz.html` is the quiz page and is protected |
| Routing.DashboardPageAnywhere | script.js:14 | any path containing `dashboard.html` is the dashboard and is protected |
| SessionGuard.DisplayName | script.js:121 | the shown name is `full_name` when that is non-empty, else the email; it is empty only if the email is |
| SessionGuard.CheckSession | script.js:101-128 | a redirect to `auth.html` happens exactly for a guest on a protected page, with nothing else done; a signed-in home visit throws; otherwise the session is returned; name and score request happen exactly for a signed-in dashboard visit |
| SessionGuard.GuestQuizVisitRedirects | script.js:106-109 | a guest on any quiz path is redirected to `auth.html` and the check resolves to null |
| SessionGuard.GuestDashboardVisitRedirects | script.js:106-109 | a guest on any dashboard path is redirected; no name is shown and no scores are requested |
| SessionGuard.SignedInHomeVisitThrows | script.js:112-114 | a signed-in visitor of any directory path or any path containing `index.html` makes the check throw at the navbar branch |
| Auth.ModeOf | script.js:38 | the sign-up branch is taken exactly for the argument `signup`; every other argument takes the login branch |
| Auth.FullName | script.js:40-41 | the full name is the input's value when the page has the input, and empty exactly when the input is missing or empty |
| Auth.Validate | script.js:29-46 | a request is built exactly when email and password are non-empty and, for sign-up, the full name is non-empty; the two rejection messages; the request carries the typed values |
| Auth.Resolve | script.js:59-79 | dashboard navigation exactly when there is no error and the mode is login or a session came back; an error turns the message red with the `Error: ` prefix |
| Auth.HandleAuth | script.js:21-80 | a request goes out exactly when the form passes validation; navigation only after an accepted request; red error text exactly on a service error; an error-free answer leaves "Processing..." as the message, whether it navigates or not (a sign-up without session stays there) |
| Auth.OutcomesAreExclusive | script.js:29-79 | every submission ends in exactly one of: rejected, entered, error shown, waiting; waiting happens only for a sign-up answered without a session |
| Auth.LoginWithoutErrorEnters | script.js:67-73 | a login with both fields filled and an error-free answer always reaches the dashboard, with or without a session |
| Auth.SignupWithoutNameRejected | script.js:38-46 | on the sign-up page, filled credentials with no full-name input are rejected with the name message and no request |
| Grading.Percent | script.js:259 | the result is `100*score/n` rounded to the nearest integer with halves rounded up |
| Grading.PercentUnique | script.js:259 | at most one integer satisfies that rounding condition |
| Grading.PercentInRange | script.js:259 | for `0 <= score <= n` the percentage lies in 0..100 |
| Grading.PercentExtremes | script.js:259 | no correct answers give 0 and all correct give 100 |
| Grading.PercentMonotone | script.js:259 | the percentage never decreases as the score grows |
| QuizRunner.AnswerOf | script.js:222-226 | a stored answer names a button exactly when it is one of `A`..`D`, and then it is that button's label |
| QuizRunner.SameButton | script.js:222-226 | comparing the clicked label with the stored text agrees with comparing buttons |
| QuizRunner.Enter | script.js:167-176 | a navigation to the dashboard starts exactly when the category is missing or empty; the query still uses that category and the page starts from `0, 0` |
| QuizRunner.Valid | script.js:176-259 | the reachable states: `score <= index` while a question is shown or the quiz is finished, `score <= index + 1` while the buttons are locked, the index addresses a question whenever one is on screen, and the finished mark is the percentage of the final score; it implies `0 <= score <= n` and `0 <= index <= n` |
| QuizRunner.InitialValid | script.js:176-178 | the initial page variables satisfy the invariant |
| QuizRunner.ShowQuestion | script.js:196-217 | the question shown is the current one: its text and its four options in order A..D, numbered `index + 1` of n, with the position in 1..n |
| QuizRunner.FirstQuestionShown | script.js:187-197 | once non-empty questions arrive, the first one is shown, numbered 1 of the number of rows |
| QuizRunner.AdvanceShowsNext | script.js:247-250 | after the timer, while a question is left, the next question is shown, numbered one higher |
| QuizRunner.Load | script.js:181-194 | the page leaves loading for question 0 exactly on an error-free, non-null, non-empty answer; otherwise "No questions found"; the invariant is kept |
| QuizRunner.Click | script.js:221-244 | the score rises by exactly one for a correct pick on a shown question and stays put otherwise; the buttons lock exactly when the handler completes; locked or finished pages ignore clicks; the invariant is kept |
| QuizRunner.Persist | script.js:266-273 | one row with user id, category and percentage for a signed-in user, none for a guest |
| QuizRunner.Tick | script.js:247-259 | the index rises by exactly one; the next question shows exactly while one is left; otherwise the quiz finishes with a percentage in 0..100 and persists it; the invariant is kept |
| QuizRunner.Step | script.js:181-273 | every event keeps the invariant; only an event that finishes the quiz inserts rows; a finished page ignores events |
| QuizRunner.Run | script.js:176-273 | the invariant holds after every sequence of events |
| QuizRunner.FinishedIsFinal | script.js:244-262 | a finished quiz ignores every later event and inserts nothing |
| QuizRunner.AtMostOneInsert | script.js:258-273 | any sequence of events inserts at most one score row, and only when it finishes the quiz |
| QuizProperties.NoQuestionsIsFinal | script.js:187-189 | after "No questions found" no event changes the page or inserts a row |
| QuizProperties.EmptyFetchEndsQuiz | script.js:187-189 | a failed, null or empty answer ends on "No questions found" whatever follows |
| QuizProperties.LockedIgnoresClicks | script.js:226-244 | after a locking click a second click changes nothing, so a question adds at most one point |
| QuizProperties.CountCorrect | script.js:226-227 | the number of correct picks is at most the number of questions |
| QuizProperties.Finale | script.js:258-273 | the finishing state: finished at index n with the given score |
| QuizProperties.AnswerAndAdvance | script.js:221-259 | a completed click and the timer move to the next question with the tallied score, or finish and persist after the last one |
| QuizProperties.PlayNext | script.js:221-254 | answering a question that is not the last one continues from the next question with the tallied score |
| QuizProperties.PlayLast | script.js:221-273 | answering the last question finishes with the final tally |
| QuizProperties.PlayFrom | script.js:221-273 | answering every remaining question ends on the score so far plus the correct picks among them, saved once for a signed-in user |
| QuizProperties.CompleteQuiz | script.js:176-273 | a full quiz ends on the rounded percentage of correct picks, with exactly one row for a signed-in user and none for a guest |
| QuizProperties.CorrectFromExtremes | script.js:226-227 | all picks right count every remaining question; all wrong count none |
| QuizProperties.AllOrNothing | script.js:226-259 | all picks right give 100, all wrong give 0 |

## Left out

- The service client (script.js:4-8) and every remote call (`signUp`, `signInWithPassword`, `getSession`, `signOut`, the `questions` select, the `scores` select and insert). Their results are inputs and the insert is an output row.
- Attaching the submit listeners (script.js:83-89): the handler's `type` argument is the `Auth.Mode` input, and `Auth.ModeOf` maps the two strings.
- Logout (script.js:92-98): one remote call followed by a navigation, with no logic.
- `startQuiz` (script.js:135-137): it only builds a navigation URL.
- `loadScores` (script.js:139-162): the query, its ordering and limit run remotely, and the rest is HTML rendering. The guard only records whose scores it requests.
- DOM writes, button colours, container visibility, the "Question i of n" text beyond its two numbers, the quiz title (script.js:174) and `console.log`: these are display only.
- The home-page navbar edits (script.js:112-116): only the exception raised by the undeclared `homeLoginLink` is modelled. If the page's HTML had an element with that id, the browser's named-element access would define the variable. The HTML is not part of this model.
- `window.location` navigation is a returned value, not a stop of execution, so code that runs after a navigation stays modelled.
- The 1.5 second delay of `setTimeout`: the timer is a discrete event. Only the order of events is modelled, not time.
- Grading.Percent: idealises `Math.round((score / n) * 100)` as exact round-half-up, `(200*score + n) / (2*n)`. On an exact half where the floating-point division is inexact, the browser may round the other way.
- QuizRunner.AnswerOf: `correct_answer` is reduced to the button it names or none. For a text other than `A`..`D`, the handler also looks up the element `btn-<text>` (script.js:237); the model assumes the quiz page has no element with such an id besides the four option buttons, so that lookup finds nothing and throws. The page's HTML is not part of this model.
- Events that cannot happen in the page are still given a meaning. A timer firing with no pending advance, or a second fetch answer, changes nothing.
