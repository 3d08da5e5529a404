# GeoQuest quiz core in Dafny

This project models the quiz session logic of GeoQuest, a geography quiz, and proves what it promises. A session draws up to ten questions of one difficulty from a question bank. The player answers each question by text or by a click on the globe. A correct answer scores 10 points. A countdown of 20 seconds per question submits an empty answer when it runs out. At the end the player gets an accuracy figure and a badge from bronze to platinum.

Three modules, one per source file:

- `QuizTypes` (`quiz_types.dfy`, from `types/quiz.ts`) holds the data model. `Question`, `Answer`, `QuizSession`, `QuizResults`, `Coordinates` and the `Difficulty`, `Category`, `QuestionType` and `Badge` enumerations are all values. A question's correct answer is a tagged variant, `TextCorrect | LocationCorrect`. What a player submits is another tagged variant, `TextAnswer | ClickAnswer`.
- `Utils` (`utils.dfy`, from `lib/utils.ts`) holds the pure helpers as functions, with lemmas about them:
  - question selection (filter, shuffle, take N);
  - the click-answer radius check;
  - the badge tiers, with their emoji and labels;
  - the `M:SS` time format, together with a parser that reads it back.
- `QuizContext` (`quiz_context.dfy`, from `lib/context/QuizContext.tsx`) has two parts:
  - Pure transitions of a session value (`StartedSession`, `Submitted`, `Advanced`, `Results`), the session invariant `SessionInv`, and the lemmas about them.
  - The class `QuizProvider`, the stateful provider. Its fields are `session: Option<QuizSession>`, `timeRemaining` and the question bank `allQuestions`. Its methods `StartQuiz`, `SubmitAnswer`, `NextQuestion`, `ResetQuiz` and `Tick` change only the fields they name in `modifies`. Each ties the new state to the transition of the old state and keeps `Valid()`.

`Valid()` says four things:
- the countdown is within 1..20;
- the index is 0 or points at a question, and a finished session stands on its last question;
- the score is 10 × the number of correct answers;
- every answer took 0..19 seconds and is for a question already reached.

Inputs the code takes from outside become parameters:
- the great-circle distance is a function `(LatLon, LatLon) -> real` fixed when the provider is created;
- the random shuffle is a stream of draws `seq<nat>`;
- the session id and the start time are plain values;
- the question bank is given to the constructor.

The functions that compute (`IsAnswerCorrect`, `Submitted`, `Advanced`, `Results`, `CalculateBadge`, `IsClickAnswerCorrect`, `FormatTime` and others) have rows of their own below. Each row names the lemmas that state what the function promises.

Facts about the code that the model keeps:

- **Answer count.** The code accepts any number of answers for the current question, so there can be more answers than questions reached (`SecondSubmissionIsRecorded`). Accuracy can then exceed 100 % (`AccuracyCanExceedHundred`).
- **Empty selection.** The start guard looks at the whole bank, not at the chosen difficulty. A session can therefore start with no questions. On such a session submissions are ignored, and advancing ends it.
- **Default radius.** A radius of 0 also falls back to the 100 km default, not only a missing one, because the code uses `||`.

Where the model departs from the code:

- **Timeout answer time.** `Tick` reads the countdown when it expires. At that moment the countdown shows 1, so the empty answer it submits is recorded as taking 20 − 1 = 19 seconds (`TimeoutAnswer`). The code differs here: the interval callback calls the `submitAnswer` captured when the effect was installed, and that closure holds the countdown of that render. Right after a start or a step to the next question that countdown is 20, so the code records 0 seconds. This closure behaviour is listed under "Left out".

## Model

| member | source | states |
|---|---|---|
| `Utils.FilterByDifficulty` | lib/utils.ts:37 | the result holds every question of the requested difficulty exactly as often as the bank does, and no other question |
| `Utils.Shuffle` | lib/utils.ts:40 | the shuffled copy is a permutation of its input (same length, same multiset) |
| `Utils.ShuffleReachesEveryPermutation` | lib/utils.ts:40 | every permutation of the input is the shuffle of some stream of draws, so the model does not restrict the random order |
| `Utils.SelectQuizQuestions` | lib/utils.ts:32-42 | length is min(count, number of matching questions); every selected question has the requested difficulty; the selection is a sub-multiset of the matching questions and of the bank |
| `Utils.SelectAllWhenFew` | lib/utils.ts:37-41 | when at most `count` questions match, all of them are selected |
| `Utils.SelectedIdsDistinct` | lib/utils.ts:37-41 | a bank with unique ids gives a selection with no repeated id |
| `Utils.SelectReachesEveryDraw` | lib/utils.ts:37-41 | every list of the right length drawn from the matching questions is the selection for some stream of draws |
| `Utils.AllowedRadius` | lib/utils.ts:79 | the allowed radius is never 0, and an absent radius gives the 100 km default; `ClickAcceptanceRule` states the full rule |
| `Utils.IsClickAnswerCorrect` | lib/utils.ts:74-81 | a click on the target itself (distance 0) is accepted unless the target's radius is negative; with no radius, a click more than 100 km away is rejected; the lemmas below give the full rule |
| `Utils.ClickAcceptanceRule` | lib/utils.ts:74-81 | a click is correct exactly when its distance to the target is at most the target's radius, or at most 100 km when that radius is absent or 0 |
| `Utils.ClickBoundaryInclusive` | lib/utils.ts:80 | a click exactly at the allowed radius is accepted |
| `Utils.ClickRadiusIgnored` | lib/utils.ts:78-80 | the radius carried by the click plays no part in the verdict |
| `Utils.ClickCloserStillCorrect` | lib/utils.ts:78-80 | a click no farther from the target than an accepted click is accepted too |
| `Utils.CalculateBadge` | lib/utils.ts:86-91 | platinum exactly from 90 and bronze exactly below 60; `BadgeBands` gives all four bands |
| `Utils.BadgeBands` | lib/utils.ts:86-91 | platinum exactly from 90, gold exactly on [75, 90), silver exactly on [60, 75), bronze exactly below 60 |
| `Utils.BadgeMonotone` | lib/utils.ts:86-91 | a higher percentage never gives a lower tier |
| `Utils.GetBadgeEmoji` | lib/utils.ts:96-104 | every badge has an emoji of one character |
| `Utils.GetBadgeLabel` | lib/utils.ts:109-117 | every badge has a label ending in " EXPLORER" |
| `Utils.BadgeDisplayInjective` | lib/utils.ts:96-117 | distinct badges get distinct emoji and distinct labels |
| `Utils.NatToDecimal` | lib/utils.ts:125 | an integer's numeral is non-empty and all digits, with one digit below 10 and two on 10..99 |
| `Utils.IntToString` | lib/utils.ts:123-125 | a number's text is non-empty and has no colon; it is all digits for a non-negative number, and a minus sign followed by digits for a negative one |
| `Utils.PadStart` | lib/utils.ts:125 | padStart keeps the string as the suffix and fills the left with the pad character up to the width |
| `Utils.FormatTime` | lib/utils.ts:122-126 | the text has at least four characters and contains the colon separator, for every input; `FormatTimeShape` and `FormatTimeRoundTrip` give the exact form for whole seconds |
| `Utils.WholeSecondsSplit` | lib/utils.ts:123-124 | for whole non-negative seconds the floored minutes are `s div 60` and the floored remainder is `s mod 60` |
| `Utils.FormatTimeShape` | lib/utils.ts:122-126 | formatTime(s) is the minutes numeral, ":" and the seconds numeral padded to exactly two characters |
| `Utils.FormatTimeRoundTrip` | lib/utils.ts:122-126 | reading formatTime(s) back as M:SS gives s for every whole non-negative s |
| `QuizContext.IsAnswerCorrect` | lib/context/QuizContext.tsx:113-120 | an answer is correct only when its kind matches the correct answer: text for a text answer, a location for a click; `AnswerRules` gives the full rule |
| `QuizContext.AnswerRules` | lib/context/QuizContext.tsx:113-120 | a text answer is correct exactly when the correct answer is that same text; a coordinate answer can be correct only for a click-to-answer question with a location, and there the radius check decides |
| `QuizContext.CountCorrect` | lib/context/QuizContext.tsx:168 | there are never more correct answers than answers |
| `QuizContext.TotalTime` | lib/context/QuizContext.tsx:171-172 | the sum of the times spent is non-negative when every time is |
| `QuizContext.TotalTimeBounds` | lib/context/QuizContext.tsx:171-172 | answers of 0..19 seconds sum to between 0 and 19 × their number |
| `QuizContext.StartedSession` | lib/context/QuizContext.tsx:84-95 | a new session satisfies the invariant: index 0, no answers, score 0, active, with min(10, matching) questions, all of the chosen difficulty and all from the bank, carrying the given session id and start time |
| `QuizContext.FullSessionFromLargeBank` | lib/context/QuizContext.tsx:84 | with at least ten matching questions the session has exactly ten |
| `QuizContext.Submitted` | lib/context/QuizContext.tsx:108-136 | a submission keeps questions, index and activity; it keeps the old answers as a prefix and adds at most one; the score stays or rises by 10 |
| `QuizContext.SubmitAppendsOneAnswer` | lib/context/QuizContext.tsx:108-136 | with no active session or no current question nothing changes; otherwise exactly one answer is appended: for the current question, judged by the answer rules, timed as 20 minus the time remaining. The score rises by 10 exactly when that answer is correct, and index, questions and activity are kept |
| `QuizContext.SubmitKeepsInvariant` | lib/context/QuizContext.tsx:122-136 | a submission keeps the session invariant, in particular score = 10 × correct answers |
| `QuizContext.Advanced` | lib/context/QuizContext.tsx:144-160 | advancing keeps questions, answers and score; the index rises by at most one; an ended session stays ended |
| `QuizContext.AdvanceKeepsInvariant` | lib/context/QuizContext.tsx:144-160 | advancing keeps the session invariant |
| `QuizContext.AdvanceSteps` | lib/context/QuizContext.tsx:144-160 | the index rises by one while a later question exists, else the session ends; the index never decreases and never passes max(0, len-1); an ended session never becomes active again; answers, score, questions, session id, difficulty and start time are untouched |
| `QuizContext.FinishedSessionIsFinal` | lib/context/QuizContext.tsx:108-160 | on an ended session both submitting and advancing leave it unchanged |
| `QuizContext.TimeoutAnswer` | lib/context/QuizContext.tsx:61-66 | the timeout submission appends an empty-text answer that took 19 seconds and is correct only when the correct answer is the empty text |
| `QuizContext.SecondSubmissionIsRecorded` | lib/context/QuizContext.tsx:106-136 | two submissions without advancing record two answers for the same question, and both count towards the score |
| `QuizContext.Results` | lib/context/QuizContext.tsx:165-183 | results exist exactly when there are answers; they carry the session's answers and its number of questions |
| `QuizContext.PercentageScaled` | lib/context/QuizContext.tsx:170 | accuracy × total questions = 100 × correct answers |
| `QuizContext.PercentageBounds` | lib/context/QuizContext.tsx:170 | a part no larger than the whole gives a percentage within 0..100 |
| `QuizContext.MeanBounds` | lib/context/QuizContext.tsx:171-172 | a mean of values of at most 19 seconds is within 0..19 |
| `QuizContext.ResultsSummary` | lib/context/QuizContext.tsx:165-183 | results are absent exactly when there are no answers; otherwise total questions > 0, correct answers counted from the answers, score = 10 × correct, badge = calculateBadge(accuracy), the answers passed through |
| `QuizContext.ResultsAccuracy` | lib/context/QuizContext.tsx:170 | accuracy is 100 × correct / total questions |
| `QuizContext.MeanScaled` | lib/context/QuizContext.tsx:171-172 | the mean times the number of values gives back the total |
| `QuizContext.ResultsAverageTime` | lib/context/QuizContext.tsx:171-172 | the average time × number of answers = the total time spent on them |
| `QuizContext.ResultsMeanTime` | lib/context/QuizContext.tsx:171-172 | the average time per answer is between 0 and 19 seconds |
| `QuizContext.AccuracyAtMostHundred` | lib/context/QuizContext.tsx:168-170 | with no more answers than questions, accuracy is at most 100 |
| `QuizContext.AccuracyCanExceedHundred` | lib/context/QuizContext.tsx:168-170 | one question answered correctly twice reports 200 % accuracy |
| `QuizContext.SevenOfTenIsSilver` | lib/context/QuizContext.tsx:168-180 | 7 correct of 10 questions give accuracy 70 and a silver badge |
| `QuizContext.QuizProvider.constructor` | lib/context/QuizContext.tsx:40-43 | the provider starts with no session, the countdown at 20 and the loaded bank |
| `QuizContext.QuizProvider.CurrentQuestion` | lib/context/QuizContext.tsx:193 | there is a current question exactly when there is a session with a non-empty selection, and it is one of the session's questions |
| `QuizContext.QuizProvider.StartQuiz` | lib/context/QuizContext.tsx:77-101 | with an empty bank nothing changes; otherwise the session becomes a fresh started session and the countdown 20; the invariant is kept |
| `QuizContext.QuizProvider.SubmitAnswer` | lib/context/QuizContext.tsx:106-139 | without a session nothing changes; otherwise the session becomes its submission with the current countdown; the countdown itself is untouched; the invariant is kept |
| `QuizContext.QuizProvider.NextQuestion` | lib/context/QuizContext.tsx:144-160 | without a session nothing changes; otherwise the session advances, and the countdown restarts at 20 exactly when the index moved |
| `QuizContext.QuizProvider.GetResults` | lib/context/QuizContext.tsx:165-183 | results exist exactly when a session has answers; then score = 10 × correct, total questions > 0, badge of the accuracy |
| `QuizContext.QuizProvider.ResetQuiz` | lib/context/QuizContext.tsx:188-191 | the session is dropped and the countdown is 20 |
| `QuizContext.QuizProvider.Tick` | lib/context/QuizContext.tsx:57-72 | nothing happens unless a session is active; above 1 second the countdown drops by one; at 1 second the empty text is submitted and the countdown restarts at 20; the invariant (countdown within 1..20) is kept |

## Left out

- `calculateDistance` and `toRad` (haversine in floating-point trigonometry) are not modelled. The distance is a parameter about which nothing is assumed, and only the threshold logic around it is verified.
- The `Math.random` comparator shuffle is modelled as a draw-driven permutation. The distribution of orders the real sort produces is not modelled. Instead the model is proved able to produce every order.
- `generateSessionId` and `Date.now()` are not modelled; their values are parameters of `StartQuiz`.
- `loadQuestions` (a `fetch`), the load-on-mount effect and `isLoading` are not modelled. The loaded bank, empty on failure, is given to the constructor.
- The `setInterval` effect and its lifecycle are not modelled. `Tick` stands for one firing while a session is active. In the code the interval's callback calls the `submitAnswer` captured when the effect was installed, with the session and countdown of that moment. A timeout can then replace answers given since and record a different time. `Tick` uses the current state instead.
- The `console.error('No questions loaded')` message that `startQuiz` logs on an empty bank is not modelled; only the no-op is.
- `useQuiz`, `cn` (class-name merging), `validateEnv` (environment variables), the rate-limit API route, the screens, the UI components and the app configuration are not modelled. They are I/O, plumbing or markup.
- JavaScript floating point is not modelled: accuracy and average time are exact reals. For example, 5 correct of 6 gives 83.33333333333334 in the code rather than 83⅓. For 1 to 10 questions and up to twice as many correct answers, the floating-point accuracy gives the same badge as the exact one, and the thresholds 60, 75 and 90 are hit exactly (3/5, 3/4 and 9/10 all give whole numbers). NaN is not modelled either. A click-to-answer question whose correct answer is text is judged incorrect, as the NaN distance of the code makes it.
- `Utils.SelectQuizQuestions`: `count` is a natural number. A negative count, which `slice` would read from the end, is not modelled; the provider always asks for 10.
- `Utils.FormatTime`: numbers large enough for JavaScript to print in exponent notation are not modelled.
- `Utils.GetBadgeEmoji`: characters are Unicode scalar values, so each emoji has length 1 here rather than its UTF-16 length.
- `Answer.userAnswer` may be null in the type, but the core never records null; the model always records `Some`.
