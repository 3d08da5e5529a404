/**
 * The quiz session state machine held by the quiz provider: start a session,
 * submit answers, move to the next question, read the results, reset, and
 * the once-per-second countdown.
 *
 * The transitions of the session value are functions (StartedSession,
 * Submitted, Advanced, Results) with the lemmas that give them meaning; the
 * provider itself is the class QuizProvider, whose methods replace its
 * `session` and `timeRemaining` fields through those transitions.
 */
module QuizContext {
  import opened QuizTypes
  import opened Utils

  /** Seconds allowed per question; the countdown restarts from here. */
  const TIME_LIMIT: int := 20
  /** Questions drawn for one session. */
  const QUESTIONS_PER_QUIZ: nat := 10
  /** Points for a correct answer; a wrong answer earns nothing. */
  const POINTS_PER_CORRECT: int := 10

  /*************************************************************************
   * Judging an answer
   *************************************************************************/

  /**
   * The rule submitAnswer applies: coordinates answer a click-to-answer
   * question by the radius check against its location; a text answer is
   * right only when it equals a text correct answer; anything else is wrong.
   */
  function IsAnswerCorrect(q: Question, userAnswer: AnswerValue, distance: DistanceFn): (ok: bool)
    ensures ok ==> (userAnswer.TextAnswer? && q.correctAnswer.TextCorrect?) ||
                   (userAnswer.ClickAnswer? && q.correctAnswer.LocationCorrect?)
  {
    match userAnswer
    case ClickAnswer(click) =>
      q.qtype == ClickToAnswer && q.correctAnswer.LocationCorrect?
      && IsClickAnswerCorrect(click, q.correctAnswer.location, distance)
    case TextAnswer(text) =>
      q.correctAnswer == TextCorrect(text)
  }

  lemma AnswerRules(q: Question, userAnswer: AnswerValue, distance: DistanceFn)
    ensures userAnswer.TextAnswer? ==>
      (IsAnswerCorrect(q, userAnswer, distance) <==> q.correctAnswer == TextCorrect(userAnswer.text))
    ensures userAnswer.ClickAnswer? && IsAnswerCorrect(q, userAnswer, distance) ==>
      q.qtype == ClickToAnswer && q.correctAnswer.LocationCorrect?
    ensures userAnswer.ClickAnswer? && q.qtype == ClickToAnswer && q.correctAnswer.LocationCorrect? ==>
      (IsAnswerCorrect(q, userAnswer, distance) <==>
       IsClickAnswerCorrect(userAnswer.click, q.correctAnswer.location, distance))
  {
  }

  /*************************************************************************
   * Counting over the answers
   *************************************************************************/

  /** The number of correct answers. */
  function CountCorrect(answers: seq<Answer>): (n: nat)
    ensures n <= |answers|
  {
    if |answers| == 0 then 0
    else CountCorrect(answers[..|answers| - 1]) + (if answers[|answers| - 1].isCorrect then 1 else 0)
  }

  /** The sum of the time spent on the answers. */
  function TotalTime(answers: seq<Answer>): (total: int)
    ensures (forall i :: 0 <= i < |answers| ==> answers[i].timeSpent >= 0) ==> total >= 0
  {
    if |answers| == 0 then 0
    else TotalTime(answers[..|answers| - 1]) + answers[|answers| - 1].timeSpent
  }

  lemma {:induction false} TotalTimeBounds(answers: seq<Answer>)
    requires forall i :: 0 <= i < |answers| ==> 0 <= answers[i].timeSpent < TIME_LIMIT
    ensures 0 <= TotalTime(answers) <= (TIME_LIMIT - 1) * |answers|
  {
    if |answers| > 0 {
      TotalTimeBounds(answers[..|answers| - 1]);
    }
  }

  /*************************************************************************
   * The session invariant
   *************************************************************************/

  /** The ids of the questions up to and including the current one. */
  function ReachedIds(s: QuizSession): set<string> {
    set k | 0 <= k <= s.currentIndex && k < |s.questions| :: s.questions[k].id
  }

  /** A countdown value the provider can hold. */
  predicate ValidTimer(timeRemaining: int) {
    1 <= timeRemaining <= TIME_LIMIT
  }

  /**
   * What every session the provider holds satisfies: the index points at a
   * question (or is 0 for an empty selection), a finished session stands on
   * its last question, the score is 10 points per correct answer, answers
   * exist only when questions do, every answer took 0..19 seconds and is for
   * a question already reached.
   */
  predicate SessionInv(s: QuizSession) {
    && 0 <= s.currentIndex
    && (s.currentIndex == 0 || s.currentIndex < |s.questions|)
    && (!s.isActive ==> s.currentIndex >= |s.questions| - 1)
    && s.score == POINTS_PER_CORRECT * CountCorrect(s.answers)
    && (|s.answers| > 0 ==> |s.questions| > 0)
    && (forall i :: 0 <= i < |s.answers| ==> 0 <= s.answers[i].timeSpent < TIME_LIMIT)
    && (forall i :: 0 <= i < |s.answers| ==> s.answers[i].questionId in ReachedIds(s))
  }

  /*************************************************************************
   * Transitions
   *************************************************************************/

  /**
   * The session startQuiz installs: ten questions of the chosen difficulty
   * (fewer when the bank has fewer), first question, no answers, no score,
   * active. `sessionId` and `startTime` come from outside (a random id and
   * the clock).
   */
  function StartedSession(allQuestions: seq<Question>, difficulty: Difficulty, draws: seq<nat>,
                          sessionId: string, startTime: int): (s: QuizSession)
    ensures SessionInv(s)
    ensures s.currentIndex == 0 && s.answers == [] && s.score == 0 && s.isActive
    ensures s.difficulty == difficulty && s.sessionId == sessionId && s.startTime == startTime
    ensures |s.questions| == Min(QUESTIONS_PER_QUIZ, |FilterByDifficulty(allQuestions, difficulty)|)
    ensures forall i :: 0 <= i < |s.questions| ==> s.questions[i].difficulty == difficulty
    ensures multiset(s.questions) <= multiset(allQuestions)
  {
    QuizSession(sessionId, difficulty, SelectQuizQuestions(allQuestions, difficulty, QUESTIONS_PER_QUIZ, draws),
                0, [], startTime, 0, true)
  }

  /** Whether submitAnswer records anything: the session is active and has a current question. */
  predicate CanSubmit(s: QuizSession) {
    s.isActive && 0 <= s.currentIndex < |s.questions|
  }

  /**
   * submitAnswer on a session: when it can submit, append one answer for
   * the current question, timed as 20 minus the time remaining, and add 10
   * points when it is correct; otherwise leave the session as it is.
   */
  function Submitted(s: QuizSession, userAnswer: AnswerValue, timeRemaining: int, distance: DistanceFn): (r: QuizSession)
    ensures r.questions == s.questions && r.currentIndex == s.currentIndex && r.isActive == s.isActive
    ensures |s.answers| <= |r.answers| <= |s.answers| + 1 && r.answers[..|s.answers|] == s.answers
    ensures r.score == s.score || r.score == s.score + POINTS_PER_CORRECT
  {
    if !CanSubmit(s) then s
    else
      var q := s.questions[s.currentIndex];
      var isCorrect := IsAnswerCorrect(q, userAnswer, distance);
      var answer := Answer(q.id, Some(userAnswer), isCorrect, TIME_LIMIT - timeRemaining);
      s.(answers := s.answers + [answer],
         score := if isCorrect then s.score + POINTS_PER_CORRECT else s.score)
  }

  /** nextQuestion on a session: step to the next question, or finish on the last one. */
  function Advanced(s: QuizSession): (r: QuizSession)
    ensures r.questions == s.questions && r.answers == s.answers && r.score == s.score
    ensures s.currentIndex <= r.currentIndex <= s.currentIndex + 1
    ensures r.isActive ==> s.isActive
  {
    if s.currentIndex < |s.questions| - 1 then s.(currentIndex := s.currentIndex + 1)
    else s.(isActive := false)
  }

  /**
   * getResults on a session: nothing before the first answer; otherwise the
   * score, the number of questions, the number of correct answers, accuracy
   * as a percentage of the questions, the mean time per answer and the
   * badge for that accuracy.
   */
  function Results(s: QuizSession): (r: Option<QuizResults>)
    requires |s.answers| > 0 ==> |s.questions| > 0
    ensures r.Some? <==> |s.answers| > 0
    ensures r.Some? ==> r.value.answers == s.answers && r.value.totalQuestions == |s.questions|
  {
    if |s.answers| == 0 then None
    else
      var correctAnswers := CountCorrect(s.answers);
      var totalQuestions := |s.questions|;
      var accuracy := Percentage(correctAnswers, totalQuestions);
      var averageTime := Mean(TotalTime(s.answers), |s.answers|);
      Some(QuizResults(s.score, totalQuestions, correctAnswers, accuracy, averageTime,
                       CalculateBadge(accuracy), s.answers))
  }

  /*************************************************************************
   * What the transitions promise
   *************************************************************************/

  lemma CountCorrectAppend(answers: seq<Answer>, a: Answer)
    ensures CountCorrect(answers + [a]) == CountCorrect(answers) + (if a.isCorrect then 1 else 0)
  {
    assert (answers + [a])[..|answers|] == answers;
  }

  lemma TotalTimeAppend(answers: seq<Answer>, a: Answer)
    ensures TotalTime(answers + [a]) == TotalTime(answers) + a.timeSpent
  {
    assert (answers + [a])[..|answers|] == answers;
  }

  /**
   * A submission that is accepted appends exactly one answer, for the
   * current question, timed as 20 minus the time remaining, and adds 10
   * points exactly when that answer is correct; the index, the questions,
   * the activity and the earlier answers stay as they were. A submission
   * with no active session or no current question changes nothing.
   */
  lemma SubmitAppendsOneAnswer(s: QuizSession, userAnswer: AnswerValue, timeRemaining: int, distance: DistanceFn)
    ensures !CanSubmit(s) ==> Submitted(s, userAnswer, timeRemaining, distance) == s
    ensures CanSubmit(s) ==>
      var r := Submitted(s, userAnswer, timeRemaining, distance);
      var q := s.questions[s.currentIndex];
      && |r.answers| == |s.answers| + 1
      && r.answers[..|s.answers|] == s.answers
      && r.answers[|s.answers|].questionId == q.id
      && r.answers[|s.answers|].userAnswer == Some(userAnswer)
      && r.answers[|s.answers|].isCorrect == IsAnswerCorrect(q, userAnswer, distance)
      && r.answers[|s.answers|].timeSpent == TIME_LIMIT - timeRemaining
      && r.score == s.score + (if r.answers[|s.answers|].isCorrect then POINTS_PER_CORRECT else 0)
      && r.currentIndex == s.currentIndex && r.questions == s.questions && r.isActive == s.isActive
      && r.sessionId == s.sessionId && r.difficulty == s.difficulty && r.startTime == s.startTime
  {
    if CanSubmit(s) {
      var r := Submitted(s, userAnswer, timeRemaining, distance);
      assert r.answers[..|s.answers|] == s.answers;
    }
  }

  /** Submitting keeps the session invariant, in particular score == 10 * correct answers. */
  lemma SubmitKeepsInvariant(s: QuizSession, userAnswer: AnswerValue, timeRemaining: int, distance: DistanceFn)
    requires SessionInv(s) && ValidTimer(timeRemaining)
    ensures SessionInv(Submitted(s, userAnswer, timeRemaining, distance))
  {
    if CanSubmit(s) {
      var r := Submitted(s, userAnswer, timeRemaining, distance);
      var a := r.answers[|s.answers|];
      assert r.answers == s.answers + [a];
      CountCorrectAppend(s.answers, a);
      assert ReachedIds(r) == ReachedIds(s);
      assert a.questionId in ReachedIds(s) by {
        assert a.questionId == s.questions[s.currentIndex].id;
      }
    }
  }

  /** Moving on only ever adds to the questions reached. */
  lemma AdvanceReachesMore(s: QuizSession)
    ensures ReachedIds(s) <= ReachedIds(Advanced(s))
  {
    var r := Advanced(s);
    forall id | id in ReachedIds(s)
      ensures id in ReachedIds(r)
    {
      var k :| 0 <= k <= s.currentIndex && k < |s.questions| && s.questions[k].id == id;
      assert 0 <= k <= r.currentIndex && k < |r.questions| && r.questions[k].id == id;
    }
  }

  /** Advancing keeps the session invariant. */
  lemma AdvanceKeepsInvariant(s: QuizSession)
    requires SessionInv(s)
    ensures SessionInv(Advanced(s))
  {
    AdvanceReachesMore(s);
  }

  /**
   * Advancing moves the index up by one while a later question exists and
   * otherwise finishes the session; it never touches answers or score, the
   * index never passes the last question, and a finished session stays
   * finished (and is left exactly as it was).
   */
  lemma AdvanceSteps(s: QuizSession)
    requires SessionInv(s)
    ensures var r := Advanced(s);
      && (s.currentIndex < |s.questions| - 1 ==> r.currentIndex == s.currentIndex + 1 && r.isActive == s.isActive)
      && (s.currentIndex >= |s.questions| - 1 ==> r.currentIndex == s.currentIndex && !r.isActive)
      && s.currentIndex <= r.currentIndex <= Max0(|s.questions| - 1)
      && (r.isActive ==> s.isActive)
      && (!s.isActive ==> r == s)
      && r.answers == s.answers && r.score == s.score && r.questions == s.questions
      && r.sessionId == s.sessionId && r.difficulty == s.difficulty && r.startTime == s.startTime
  {
  }

  function Max0(n: int): nat {
    if n < 0 then 0 else n
  }

  /** Once the session is over, neither submitting nor advancing changes it. */
  lemma FinishedSessionIsFinal(s: QuizSession, userAnswer: AnswerValue, timeRemaining: int, distance: DistanceFn)
    requires SessionInv(s) && !s.isActive
    ensures Submitted(s, userAnswer, timeRemaining, distance) == s
    ensures Advanced(s) == s
  {
  }

  /**
   * The answer recorded when the countdown runs out, with one second left on
   * the clock, is the empty text: it took 19 seconds and is correct only
   * when the question's correct answer is the empty text.
   */
  lemma TimeoutAnswer(s: QuizSession, distance: DistanceFn)
    requires CanSubmit(s)
    ensures var r := Submitted(s, TextAnswer(""), 1, distance);
      && |r.answers| == |s.answers| + 1
      && r.answers[|s.answers|].timeSpent == TIME_LIMIT - 1
      && (r.answers[|s.answers|].isCorrect <==> s.questions[s.currentIndex].correctAnswer == TextCorrect(""))
      && r.score == s.score + (if r.answers[|s.answers|].isCorrect then POINTS_PER_CORRECT else 0)
  {
  }

  /** Enough matching questions in the bank give a full session of ten. */
  lemma FullSessionFromLargeBank(allQuestions: seq<Question>, difficulty: Difficulty, draws: seq<nat>,
                                 sessionId: string, startTime: int)
    requires |FilterByDifficulty(allQuestions, difficulty)| >= QUESTIONS_PER_QUIZ
    ensures |StartedSession(allQuestions, difficulty, draws, sessionId, startTime).questions| == QUESTIONS_PER_QUIZ
  {
  }

  /** `part` out of `whole` as a percentage, in exact arithmetic. */
  function Percentage(part: int, whole: int): real
    requires whole > 0
  {
    (part as real / whole as real) * 100.0
  }

  lemma PercentageScaled(part: int, whole: int)
    requires whole > 0
    ensures Percentage(part, whole) * whole as real == 100.0 * part as real
  {
  }

  lemma PercentageBounds(part: int, whole: int)
    requires 0 <= part <= whole && whole > 0
    ensures 0.0 <= Percentage(part, whole) <= 100.0
  {
    assert part as real / whole as real <= 1.0;
  }

  /** The arithmetic mean of `n` values summing to `total`. */
  function Mean(total: int, n: int): real
    requires n > 0
  {
    total as real / n as real
  }

  lemma MeanScaled(total: int, n: int)
    requires n > 0
    ensures Mean(total, n) * n as real == total as real
  {
  }

  lemma MeanBounds(total: int, n: int)
    requires 0 < n && 0 <= total <= (TIME_LIMIT - 1) * n
    ensures 0.0 <= Mean(total, n) <= (TIME_LIMIT - 1) as real
  {
    var mean := Mean(total, n);
    assert mean * n as real == total as real;
  }

  /**
   * The results of a session: absent exactly when nothing was answered;
   * otherwise over a non-empty question list, with the score 10 points per
   * correct answer and the badge of the accuracy.
   */
  lemma ResultsSummary(s: QuizSession)
    requires SessionInv(s)
    ensures Results(s).None? <==> |s.answers| == 0
    ensures Results(s).Some? ==>
      var r := Results(s).value;
      && r.totalQuestions == |s.questions| > 0
      && r.correctAnswers == CountCorrect(s.answers) <= |s.answers|
      && r.score == POINTS_PER_CORRECT * r.correctAnswers
      && r.badge == CalculateBadge(r.accuracy)
      && r.answers == s.answers
  {
  }

  /** Accuracy is the share of correct answers among the session's questions, in percent. */
  lemma ResultsAccuracy(s: QuizSession)
    requires |s.questions| > 0 && |s.answers| > 0
    ensures Results(s).Some?
    ensures var r := Results(s).value;
      r.accuracy * |s.questions| as real == 100.0 * CountCorrect(s.answers) as real
  {
    var correct, total := CountCorrect(s.answers), |s.questions|;
    assert Results(s).value.accuracy == Percentage(correct, total);
    PercentageScaled(correct, total);
  }

  /** The average time is the total time spent divided among the answers. */
  lemma ResultsAverageTime(s: QuizSession)
    requires |s.questions| > 0 && |s.answers| > 0
    ensures Results(s).Some?
    ensures var r := Results(s).value;
      r.averageTime * |s.answers| as real == TotalTime(s.answers) as real
  {
    var total, n := TotalTime(s.answers), |s.answers|;
    assert Results(s).value.averageTime == Mean(total, n);
    MeanScaled(total, n);
  }

  /** The mean time per answer lies between 0 and 19 seconds. */
  lemma ResultsMeanTime(s: QuizSession)
    requires SessionInv(s) && |s.answers| > 0
    ensures Results(s).Some?
    ensures 0.0 <= Results(s).value.averageTime <= (TIME_LIMIT - 1) as real
  {
    TotalTimeBounds(s.answers);
    MeanBounds(TotalTime(s.answers), |s.answers|);
  }

  /** When no question was answered more than once, accuracy is at most 100. */
  lemma AccuracyAtMostHundred(s: QuizSession)
    requires SessionInv(s) && 0 < |s.answers| <= |s.questions|
    ensures Results(s).Some? && Results(s).value.accuracy <= 100.0
  {
    PercentageBounds(CountCorrect(s.answers), |s.questions|);
  }

  /** Seven correct answers out of ten questions give 70 percent, a silver badge. */
  lemma SevenOfTenIsSilver(s: QuizSession)
    requires SessionInv(s) && |s.questions| == 10 && |s.answers| > 0 && CountCorrect(s.answers) == 7
    ensures Results(s).Some? && Results(s).value.accuracy == 70.0 && Results(s).value.badge == Silver
  {
  }

  /**
   * submitAnswer does not refuse a second answer for the same question:
   * two submissions without advancing record two answers for the current
   * question, and both count towards the score.
   */
  lemma SecondSubmissionIsRecorded(s: QuizSession, userAnswer: AnswerValue, t1: int, t2: int, distance: DistanceFn)
    requires SessionInv(s) && CanSubmit(s) && ValidTimer(t1) && ValidTimer(t2)
    ensures var s2 := Submitted(Submitted(s, userAnswer, t1, distance), userAnswer, t2, distance);
      && SessionInv(s2)
      && |s2.answers| == |s.answers| + 2
      && s2.answers[|s.answers|].questionId == s2.answers[|s.answers| + 1].questionId == s.questions[s.currentIndex].id
      && s2.currentIndex == s.currentIndex
      && s2.score == s.score + (if IsAnswerCorrect(s.questions[s.currentIndex], userAnswer, distance)
                                then 2 * POINTS_PER_CORRECT else 0)
  {
    var s1 := Submitted(s, userAnswer, t1, distance);
    SubmitAppendsOneAnswer(s, userAnswer, t1, distance);
    SubmitKeepsInvariant(s, userAnswer, t1, distance);
    SubmitAppendsOneAnswer(s1, userAnswer, t2, distance);
    SubmitKeepsInvariant(s1, userAnswer, t2, distance);
  }

  /** With such repeats, one question answered correctly twice reports 200 percent accuracy. */
  lemma AccuracyCanExceedHundred(s: QuizSession)
    requires SessionInv(s) && |s.questions| == 1 && CountCorrect(s.answers) == 2
    ensures Results(s).Some? && Results(s).value.accuracy == 200.0
  {
  }

  /*************************************************************************
   * The provider
   *************************************************************************/

  /**
   * The quiz provider: the current session (null before the first start and
   * after a reset), the countdown for the current question, and the question
   * bank loaded at start-up. The great-circle distance is fixed at creation.
   */
  class QuizProvider {
    var session: Option<QuizSession>
    var timeRemaining: int
    var allQuestions: seq<Question>
    const distance: DistanceFn

    ghost predicate Valid()
      reads this
    {
      ValidTimer(timeRemaining) && (session.Some? ==> SessionInv(session.value))
    }

    /** A provider over a loaded bank (empty when loading failed), with no session and a full countdown. */
    constructor(questions: seq<Question>, distance: DistanceFn)
      ensures Valid()
      ensures session == None && timeRemaining == TIME_LIMIT
      ensures allQuestions == questions && this.distance == distance
    {
      session := None;
      timeRemaining := TIME_LIMIT;
      allQuestions := questions;
      this.distance := distance;
    }

    /** Whether the countdown runs: there is a session and it is active. */
    predicate IsRunning()
      reads this
    {
      session.Some? && session.value.isActive
    }

    /**
     * currentQuestion: the question at the current index, when there is a
     * session and that index holds one; with the invariant, exactly when
     * the session's selection is not empty.
     */
    function CurrentQuestion(): (q: Option<Question>)
      reads this
      requires Valid()
      ensures q.Some? <==> session.Some? && |session.value.questions| > 0
      ensures q.Some? ==> q.value in session.value.questions
    {
      if session.Some? && 0 <= session.value.currentIndex < |session.value.questions|
      then Some(session.value.questions[session.value.currentIndex])
      else None
    }

    /**
     * startQuiz: with an empty bank nothing changes; otherwise a new session
     * replaces any old one and the countdown restarts at 20.
     */
    method StartQuiz(difficulty: Difficulty, draws: seq<nat>, sessionId: string, now: int)
      requires Valid()
      modifies this`session, this`timeRemaining
      ensures Valid()
      ensures |allQuestions| == 0 ==> session == old(session) && timeRemaining == old(timeRemaining)
      ensures |allQuestions| > 0 ==>
        && session == Some(StartedSession(allQuestions, difficulty, draws, sessionId, now))
        && timeRemaining == TIME_LIMIT
    {
      if |allQuestions| == 0 {
        return;
      }
      var selected := SelectQuizQuestions(allQuestions, difficulty, QUESTIONS_PER_QUIZ, draws);
      session := Some(QuizSession(sessionId, difficulty, selected, 0, [], now, 0, true));
      timeRemaining := TIME_LIMIT;
    }

    /**
     * submitAnswer: ignored without a session, on a finished session or
     * without a current question; otherwise records the answer as Submitted
     * says. The countdown is not touched and the index does not move.
     */
    method SubmitAnswer(userAnswer: AnswerValue)
      requires Valid()
      modifies this`session
      ensures Valid()
      ensures old(session).None? ==> session == None
      ensures old(session).Some? ==> session == Some(Submitted(old(session).value, userAnswer, timeRemaining, distance))
    {
      if session.None? || !session.value.isActive {
        return;
      }
      var s := session.value;
      if !(0 <= s.currentIndex < |s.questions|) {
        return;
      }
      var currentQ := s.questions[s.currentIndex];
      var isCorrect := IsAnswerCorrect(currentQ, userAnswer, distance);
      var answer := Answer(currentQ.id, Some(userAnswer), isCorrect, TIME_LIMIT - timeRemaining);
      var newScore := if isCorrect then s.score + POINTS_PER_CORRECT else s.score;
      session := Some(s.(answers := s.answers + [answer], score := newScore));
      SubmitKeepsInvariant(s, userAnswer, timeRemaining, distance);
    }

    /**
     * nextQuestion: ignored without a session; steps to the next question
     * and restarts the countdown, or on the last question ends the session
     * and leaves the countdown alone.
     */
    method NextQuestion()
      requires Valid()
      modifies this`session, this`timeRemaining
      ensures Valid()
      ensures old(session).None? ==> session == None && timeRemaining == old(timeRemaining)
      ensures old(session).Some? ==>
        && session == Some(Advanced(old(session).value))
        && timeRemaining == (if old(session).value.currentIndex < |old(session).value.questions| - 1
                             then TIME_LIMIT else old(timeRemaining))
    {
      if session.None? {
        return;
      }
      var s := session.value;
      if s.currentIndex < |s.questions| - 1 {
        session := Some(s.(currentIndex := s.currentIndex + 1));
        timeRemaining := TIME_LIMIT;
      } else {
        session := Some(s.(isActive := false));
      }
      AdvanceKeepsInvariant(s);
    }

    /** getResults: nothing without a session, else the results of the session. */
    function GetResults(): (r: Option<QuizResults>)
      reads this
      requires Valid()
      ensures r.Some? ==> session.Some? && |session.value.answers| > 0
      ensures r.Some? ==> r.value.score == POINTS_PER_CORRECT * r.value.correctAnswers
      ensures r.Some? ==> r.value.totalQuestions > 0 && r.value.badge == CalculateBadge(r.value.accuracy)
      ensures session.Some? && |session.value.answers| > 0 ==> r.Some?
    {
      if session.None? then None
      else
        ResultsSummary(session.value);
        Results(session.value)
    }

    /** resetQuiz: drop the session and restore the full countdown. */
    method ResetQuiz()
      modifies this`session, this`timeRemaining
      ensures Valid()
      ensures session == None && timeRemaining == TIME_LIMIT
    {
      session := None;
      timeRemaining := TIME_LIMIT;
    }

    /**
     * One second of the countdown. Only while the session is active: above
     * one second it counts down; at one second the empty text is submitted
     * for the current question and the countdown restarts at 20.
     */
    method Tick()
      requires Valid()
      modifies this`session, this`timeRemaining
      ensures Valid()
      ensures !old(IsRunning()) ==> session == old(session) && timeRemaining == old(timeRemaining)
      ensures old(IsRunning()) && old(timeRemaining) > 1 ==>
        session == old(session) && timeRemaining == old(timeRemaining) - 1
      ensures old(IsRunning()) && old(timeRemaining) <= 1 ==>
        && session == Some(Submitted(old(session).value, TextAnswer(""), old(timeRemaining), distance))
        && timeRemaining == TIME_LIMIT
    {
      if !IsRunning() {
        return;
      }
      if timeRemaining <= 1 {
        assert timeRemaining == 1;
        SubmitAnswer(TextAnswer(""));
        timeRemaining := TIME_LIMIT;
      } else {
        timeRemaining := timeRemaining - 1;
      }
    }
  }
}
