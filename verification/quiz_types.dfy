/**
 * The data model of the GeoQuest quiz: questions, answers, sessions, badges
 * and results. Every entity here is an immutable value; the one piece of
 * mutable state, the provider that holds the current session, is the class
 * in module QuizContext.
 */
module QuizTypes {

  /** An optional value, standing for TypeScript's `T | null` and `T?`. */
  datatype Option<+T> = None | Some(value: T)

  /** A point on the globe, in degrees. */
  datatype LatLon = LatLon(lat: real, lon: real)

  /**
   * Geographic coordinates; `radius` is the acceptable answer radius in km,
   * absent for a plain point.
   */
  datatype Coordinates = Coordinates(lat: real, lon: real, radius: Option<real>)
  {
    /** The position alone, without the acceptance radius. */
    function Position(): LatLon {
      LatLon(lat, lon)
    }
  }

  /**
   * The great-circle distance in km between two points. The haversine formula
   * that computes it in the source is floating-point trigonometry; the model
   * receives it as a parameter and assumes nothing about it.
   */
  type DistanceFn = (LatLon, LatLon) -> real

  datatype Difficulty = Easy | Medium | Hard

  datatype Category = Capitals | Cities | Mountains | Rivers | GeographicRegions | FunFacts

  datatype QuestionType = MultipleChoice | ClickToAnswer | TrueFalse

  /** `string | Coordinates`: text for multiple-choice and true/false, a location for click-to-answer. */
  datatype CorrectAnswer = TextCorrect(text: string) | LocationCorrect(location: Coordinates)

  datatype Question = Question(
    id: string,
    qtype: QuestionType,
    difficulty: Difficulty,
    category: Category,
    question: string,
    options: Option<seq<string>>,
    correctAnswer: CorrectAnswer,
    explanation: Option<string>,
    targetLocation: Option<Coordinates>)

  /** What a player submits: `string | Coordinates`. */
  datatype AnswerValue = TextAnswer(text: string) | ClickAnswer(click: Coordinates)

  /** A recorded answer; `userAnswer` is `string | Coordinates | null`. */
  datatype Answer = Answer(
    questionId: string,
    userAnswer: Option<AnswerValue>,
    isCorrect: bool,
    timeSpent: int)

  /** The client-side quiz session; `startTime` is a clock reading in milliseconds. */
  datatype QuizSession = QuizSession(
    sessionId: string,
    difficulty: Difficulty,
    questions: seq<Question>,
    currentIndex: int,
    answers: seq<Answer>,
    startTime: int,
    score: int,
    isActive: bool)

  datatype Badge = Bronze | Silver | Gold | Platinum

  datatype QuizResults = QuizResults(
    score: int,
    totalQuestions: int,
    correctAnswers: int,
    accuracy: real,
    averageTime: real,
    badge: Badge,
    answers: seq<Answer>)

  /** No two questions of `qs` share an id. */
  predicate DistinctIds(qs: seq<Question>) {
    forall i, j :: 0 <= i < j < |qs| ==> qs[i].id != qs[j].id
  }
}
