/** Properties of whole quiz sessions: what a run of events can and cannot
    do, and the mark a complete quiz ends with. */
module QuizProperties {
  import opened Wrappers
  import opened Grading
  import opened QuizRunner

  /** Once "No questions found" is shown, no event changes the page and no
      question is ever read. */
  lemma {:induction false} NoQuestionsIsFinal(s: Quiz, events: seq<Event>, category: Option<string>)
    requires Valid(s) && s.phase.NoQuestions?
    ensures Run(s, events, category) == (s, [])
    decreases |events|
  {
    if events != [] {
      assert Step(s, events[0], category) == (s, []);
      NoQuestionsIsFinal(s, events[1..], category);
      var rows: seq<ScoreRow> := [];
      assert Run(s, events, category) == (s, rows + rows);
      assert rows + rows == rows;
    }
  }

  /** A failed, null or empty question query leaves the quiz on "No
      questions found" for good. */
  lemma {:induction false} EmptyFetchEndsQuiz(f: Fetch, events: seq<Event>, category: Option<string>)
    requires f.failed || f.rows.None? || f.rows == Some([])
    ensures Run(Initial, [Fetched(f)] + events, category) == (Initial.(phase := NoQuestions), [])
  {
    var s1 := Initial.(phase := NoQuestions);
    InitialValid();
    RunCons(Initial, Fetched(f), events, category);
    assert Step(Initial, Fetched(f), category) == (s1, []);
    NoQuestionsIsFinal(s1, events, category);
    var rows: seq<ScoreRow> := [];
    assert rows + rows == rows;
  }

  /** A question is scored at most once: after a click that locks the
      buttons, further clicks change nothing. */
  lemma LockedIgnoresClicks(s: Quiz, first: Choice, second: Choice)
    requires Valid(s) && s.phase.Showing?
    ensures var t := Click(s, first);
      t.phase.Locked? ==> Click(t, second) == t && t.score <= s.score + 1
  {
  }

  /** The number of picks from position `k` on whose label equals the
      stored answer. */
  function CorrectFrom(qs: seq<Question>, cs: seq<Choice>, k: nat): (count: nat)
    requires |cs| == |qs| && k <= |qs|
    ensures count <= |qs| - k
    decreases |qs| - k
  {
    if k == |qs| then 0
    else (if qs[k].answer == Names(cs[k]) then 1 else 0) + CorrectFrom(qs, cs, k + 1)
  }

  /** The score a quiz should report for picks `cs` on questions `qs`. */
  function CountCorrect(qs: seq<Question>, cs: seq<Choice>): (count: nat)
    requires |cs| == |qs|
    ensures count <= |qs|
  {
    CorrectFrom(qs, cs, 0)
  }

  /** The score after picking `c` on question `q`. */
  function Tally(score: nat, q: Question, c: Choice): nat {
    if q.answer == Names(c) then score + 1 else score
  }

  /** Where a quiz over `qs` ends with `score` points: marked, and saved
      for a signed-in user. */
  function Finale(qs: seq<Question>, score: int, session: Option<string>, category: Option<string>)
    : (r: (Quiz, seq<ScoreRow>))
    requires |qs| > 0
    ensures r.0.phase.Finished? && r.0.index == |qs| && r.0.score == score
  {
    var mark := Percent(score, |qs|);
    (Quiz(qs, |qs|, score, Finished(mark)), Persist(mark, session, category))
  }

  /** Every stored answer names a button, so the click handler completes
      whatever is picked. */
  ghost predicate Answerable(qs: seq<Question>) {
    forall j :: 0 <= j < |qs| ==> Completes(qs[j])
  }

  /** Clicking the picks from position `k` on in turn, the timer firing
      after each. */
  function AnswersFrom(cs: seq<Choice>, k: nat, session: Option<string>): (es: seq<Event>)
    requires k <= |cs|
    ensures |es| == 2 * (|cs| - k)
    decreases |cs| - k
  {
    if k == |cs| then [] else [Clicked(cs[k]), TimerFired(session)] + AnswersFrom(cs, k + 1, session)
  }

  /** Running two events and then the rest. */
  lemma RunPair(s: Quiz, e1: Event, e2: Event, rest: seq<Event>, category: Option<string>)
    requires Valid(s)
    ensures var t1 := Step(s, e1, category);
      var t2 := Step(t1.0, e2, category);
      var t3 := Run(t2.0, rest, category);
      Run(s, [e1, e2] + rest, category) == (t3.0, t1.1 + t2.1 + t3.1)
  {
    var t1 := Step(s, e1, category);
    var t2 := Step(t1.0, e2, category);
    var t3 := Run(t2.0, rest, category);
    var es := [e1, e2] + rest;
    assert es[0] == e1 && es[1..] == [e2] + rest;
    assert ([e2] + rest)[0] == e2 && ([e2] + rest)[1..] == rest;
    assert Run(t1.0, [e2] + rest, category) == (t3.0, t2.1 + t3.1);
    assert Run(s, es, category) == (t3.0, t1.1 + (t2.1 + t3.1));
    assert t1.1 + (t2.1 + t3.1) == t1.1 + t2.1 + t3.1;
  }

  /** Running one event and then the rest. */
  lemma RunCons(s: Quiz, e: Event, rest: seq<Event>, category: Option<string>)
    requires Valid(s)
    ensures var first := Step(s, e, category);
      var later := Run(first.0, rest, category);
      Run(s, [e] + rest, category) == (later.0, first.1 + later.1)
  {
    assert ([e] + rest)[0] == e && ([e] + rest)[1..] == rest;
  }

  /** One round: a pick the handler completes on shown question `k`, then
      the timer. */
  lemma AnswerAndAdvance(qs: seq<Question>, k: nat, score: nat, c: Choice,
                         session: Option<string>, category: Option<string>)
    requires score <= k < |qs|
    requires Completes(qs[k])
    ensures var t1 := Step(Quiz(qs, k, score, Showing), Clicked(c), category);
      var t2 := Step(t1.0, TimerFired(session), category);
      && t1.1 == []
      && (k + 1 < |qs| ==> t2 == (Quiz(qs, k + 1, Tally(score, qs[k], c), Showing), []))
      && (k + 1 == |qs| ==> t2 == Finale(qs, Tally(score, qs[k], c), session, category))
  {
  }

  /** Answering a question of a complete play that is not the last one
      moves on to the next question. */
  lemma PlayNext(qs: seq<Question>, cs: seq<Choice>, k: nat, score: nat,
                 session: Option<string>, category: Option<string>)
    requires |cs| == |qs| && k + 1 < |qs| && score <= k
    requires Answerable(qs)
    ensures Run(Quiz(qs, k, score, Showing), AnswersFrom(cs, k, session), category)
      == Run(Quiz(qs, k + 1, Tally(score, qs[k], cs[k]), Showing), AnswersFrom(cs, k + 1, session), category)
  {
    var s := Quiz(qs, k, score, Showing);
    var rest := AnswersFrom(cs, k + 1, session);
    assert Completes(qs[k]);
    RunPair(s, Clicked(cs[k]), TimerFired(session), rest, category);
    AnswerAndAdvance(qs, k, score, cs[k], session, category);
    var t3 := Run(Quiz(qs, k + 1, Tally(score, qs[k], cs[k]), Showing), rest, category);
    assert [] + [] + t3.1 == t3.1;
  }

  /** Answering the last question of a complete play finishes the quiz. */
  lemma PlayLast(qs: seq<Question>, cs: seq<Choice>, k: nat, score: nat,
                 session: Option<string>, category: Option<string>)
    requires |cs| == |qs| && k + 1 == |qs| && score <= k
    requires Answerable(qs)
    ensures Run(Quiz(qs, k, score, Showing), AnswersFrom(cs, k, session), category)
      == Finale(qs, score + CorrectFrom(qs, cs, k), session, category)
  {
    var s := Quiz(qs, k, score, Showing);
    var rest := AnswersFrom(cs, k + 1, session);
    assert rest == [];
    assert Completes(qs[k]);
    RunPair(s, Clicked(cs[k]), TimerFired(session), rest, category);
    AnswerAndAdvance(qs, k, score, cs[k], session, category);
    var t2 := Step(Click(s, cs[k]), TimerFired(session), category);
    assert Run(t2.0, rest, category) == (t2.0, []);
    assert [] + t2.1 + [] == t2.1;
  }

  /** Answering questions `k..` from the shown question `k` with `score`
      points so far finishes with those points plus the correct picks among
      the remaining ones, and saves the mark once for a signed-in user. */
  lemma {:induction false} PlayFrom(qs: seq<Question>, cs: seq<Choice>, k: nat, score: nat,
                                    session: Option<string>, category: Option<string>)
    requires |cs| == |qs| && k < |qs| && score <= k
    requires Answerable(qs)
    ensures Run(Quiz(qs, k, score, Showing), AnswersFrom(cs, k, session), category)
      == Finale(qs, score + CorrectFrom(qs, cs, k), session, category)
    decreases |qs| - k
  {
    if k + 1 < |qs| {
      PlayNext(qs, cs, k, score, session, category);
      PlayFrom(qs, cs, k + 1, Tally(score, qs[k], cs[k]), session, category);
    } else {
      PlayLast(qs, cs, k, score, session, category);
    }
  }

  /** A complete quiz: the query returns the non-empty `qs`, every question
      is answered and the timer fires after each answer. The page ends on
      the rounded percentage of correct picks and inserts exactly one row
      for a signed-in user and none for a guest. */
  lemma {:induction false} CompleteQuiz(qs: seq<Question>, cs: seq<Choice>,
                                        session: Option<string>, category: Option<string>)
    requires |cs| == |qs| > 0
    requires Answerable(qs)
    ensures var mark := Percent(CountCorrect(qs, cs), |qs|);
      Run(Initial, [Fetched(Fetch(false, Some(qs)))] + AnswersFrom(cs, 0, session), category)
        == (Quiz(qs, |qs|, CountCorrect(qs, cs), Finished(mark)), Persist(mark, session, category))
  {
    var f := Fetch(false, Some(qs));
    InitialValid();
    RunCons(Initial, Fetched(f), AnswersFrom(cs, 0, session), category);
    assert Step(Initial, Fetched(f), category) == (Quiz(qs, 0, 0, Showing), []);
    PlayFrom(qs, cs, 0, 0, session, category);
    var later := Run(Quiz(qs, 0, 0, Showing), AnswersFrom(cs, 0, session), category);
    assert later == Finale(qs, CountCorrect(qs, cs), session, category);
    assert [] + later.1 == later.1;
  }

  /** All picks right counts every question; all picks wrong counts none. */
  lemma {:induction false} CorrectFromExtremes(qs: seq<Question>, cs: seq<Choice>, k: nat)
    requires |cs| == |qs| && k <= |qs|
    ensures (forall j :: k <= j < |cs| ==> qs[j].answer == Names(cs[j])) ==> CorrectFrom(qs, cs, k) == |qs| - k
    ensures (forall j :: k <= j < |cs| ==> qs[j].answer != Names(cs[j])) ==> CorrectFrom(qs, cs, k) == 0
    decreases |qs| - k
  {
    if k < |qs| {
      CorrectFromExtremes(qs, cs, k + 1);
    }
  }

  /** Answering every question right gives 100, every question wrong gives 0. */
  lemma AllOrNothing(qs: seq<Question>, cs: seq<Choice>)
    requires |cs| == |qs| > 0
    ensures (forall j :: 0 <= j < |cs| ==> qs[j].answer == Names(cs[j])) ==>
      Percent(CountCorrect(qs, cs), |qs|) == 100
    ensures (forall j :: 0 <= j < |cs| ==> qs[j].answer != Names(cs[j])) ==>
      Percent(CountCorrect(qs, cs), |qs|) == 0
  {
    CorrectFromExtremes(qs, cs, 0);
    PercentExtremes(|qs|);
  }
}
