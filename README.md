# Quiz app: session state machine and scoring, in Dafny

This project models the logic of a single-page multiple-choice quiz. The quiz
shows five fixed questions one at a time. It collects one selected option per
question and times the attempt. At the end it scores the answers, adds a time
bonus, and keeps a running high score in the browser's local storage. It has
three screens: start, question, and result.

Modules, one per source file, plus shared helpers:

- `Quiz` (`quiz.dfy`, for `src/app/quiz.tsx`): the question bank. The
  `QuizApp` class holds the session variables and the four transitions
  (`StartQuiz`, `HandleOptionClick`, `HandleNextQuestion`, `HandleRestart`),
  the clock tick, and the end-of-quiz effect. Beside the class are pure
  functions for the time taken, the bonus, and the high-score decision
  (`EndOfQuiz`, `StoreAfter`).
  - `QuizApp.Valid()` is the session invariant. The answer record marks
    exactly the questions already submitted. The score equals the number of
    submitted selections that matched their answer; a ghost log of
    submissions records them. Each screen carries the state it implies.
- `QuizPage` (`quizpage.dfy`, for `src/app/quizpage.tsx`): the live clock, the
  progress bar and its rounded percentage, the navigator cells, the option
  letters and highlighting, and the Next button's enabled flag and caption.
- `ScorePage` (`scorepage.dfy`, for `src/app/scorepage.tsx`): the colour and
  emoji bands, the total, the accuracy percentage, and the two time slots.
- `TimeFormat` (`timeformat.dfy`): `formatTime`, which both pages define
  identically, and the decimal rendering it relies on. `ParseClock` reads the
  text back, so `FormatTimeRoundTrip` can show the rendering loses nothing.
- `JsMath` (`jsmath.dfy`): JavaScript's `Math.floor` of a quotient, its `%`
  (the sign follows the dividend), and `Math.round` (round half up), each
  stated on exact integers.
- `Wrappers` (`wrappers.dfy`): `Option`, standing for `null` or an absent
  storage entry.

`Date.now()` becomes a `now` parameter of each transition that reads it. The
stored high score is an `Option<int>`: `None` means no entry. The end-of-quiz
effect takes the store's content and returns its new content.

Quirks of the code that the model keeps:

- Pressing Next does not itself check for a selection. Only the disabled
  button guards it. So `HandleNextQuestion` accepts an empty selection: it
  marks the question answered and scores nothing.
- The quiz ends when `index + 1 >= N`.
- Only an absent stored entry reads as 0; a stored value is read as it is.
- When the total does not beat the stored value, `newHighScore` keeps its
  value.
- Restart does not clear the selection. The selection is already empty on the
  result page, which is the only place restart is offered.
- The bonus and high-score step is skipped when the time taken is null or 0.
  It is null when a timestamp is 0, and 0 when the quiz ends less than a
  second after it started.

## Model

| member | source | states |
|---|---|---|
| Quiz.BankShape | src/app/quiz.tsx:14-49 | The shipped bank has 5 questions of 4 options each, and every answer is one of its question's options. |
| Quiz.IsCorrect | src/app/quiz.tsx:91 | A submission scores iff it equals the question's answer exactly; a null selection never scores. |
| Quiz.CorrectCount | src/app/quiz.tsx:91-93 | The number of submissions that matched their question's answer exactly (`null` matches nothing) is at most the number of submissions. |
| Quiz.TimeTaken | src/app/quiz.tsx:119-124 | The result is null unless both timestamps are non-zero. Otherwise it is the floor of the elapsed milliseconds over 1000: `1000*t <= end - start < 1000*t + 1000`. |
| Quiz.BonusScore | src/app/quiz.tsx:126-131 | A time of 0 gives 0, and 0 correct answers give 0. For a positive time t the bonus b is the floor of 1000*correct/t (`t*b <= 1000*c < t*b + t`), never negative. |
| Quiz.BonusFasterNotSmaller | src/app/quiz.tsx:126-131 | For the same correct answers, a shorter positive time never yields a smaller bonus. |
| Quiz.ReadStored | src/app/quiz.tsx:141-143 | An absent stored entry reads as 0, and a present one as its value. |
| Quiz.EndOfQuiz | src/app/quiz.tsx:133-151 | Skipped exactly when the time taken is null or 0. Otherwise it computes the bonus from the score and time, the total as score plus bonus, and the stored value read. It flags a new high score iff the total is greater than the stored value. |
| Quiz.StoreAfter | src/app/quiz.tsx:145-146 | The store is either left as it was or, on a new high score, holds the total. This restates the body; what it promises is proved by `HighScoreNeverDecreases` and `EndOfQuizIdempotent`. |
| Quiz.HighScoreNeverDecreases | src/app/quiz.tsx:145-148 | The stored value never decreases. It changes only on a new high score, and after a scored run it is the larger of the total and the old value. |
| Quiz.EndOfQuizIdempotent | src/app/quiz.tsx:133-151 | Running the effect again on the store it produced writes nothing and flags no new high score. |
| Quiz.ShownTotalMatchesStore | src/app/scorepage.tsx:63 | The total on the result page is exactly what a new high score stores. After a scored run the store holds at least that total. |
| Quiz.TenSecondScenario | src/app/quiz.tsx:126-146 | Five right answers in 10 s: time 10, bonus 500, total 505. That is a new high over an empty store but not over 600. Accuracy is 100%. |
| Quiz.QuizApp.constructor | src/app/quiz.tsx:51-63 | The initial session: index 0, score 0, no selection, start 0, end null, bonus 0, flags false, all questions unanswered, clock 0. |
| Quiz.QuizApp.CurrentScreen | src/app/quiz.tsx:153-171 | Start page iff not started. Result page iff started and showing the result. Question page otherwise. Not-started takes precedence. |
| Quiz.QuizApp.ScoreBounded | src/app/quiz.tsx:87-93 | In every valid session, `0 <= score <= (number of answered questions) <= N`. |
| Quiz.QuizApp.ResultOnlyAfterAllAnswered | src/app/quiz.tsx:97-100 | In every valid session the result page shows only after all N questions were submitted and marked answered, and while the result is not shown fewer than N were submitted. |
| Quiz.QuizApp.NotStartedIsInitial | src/app/quiz.tsx:154-156 | Whenever the start page shows, every session field has its initial value. |
| Quiz.QuizApp.NavigatorShowsProgress | src/app/quizpage.tsx:98-111 | During the quiz, earlier questions show as answered, the current one as current, and later ones as unanswered. |
| Quiz.QuizApp.StartQuiz | src/app/quiz.tsx:75-80 | Start and clock become `now`, and the quiz is started. Index, score, selection, answers, end, bonus and flags are unchanged. It moves from the start screen to the question screen. |
| Quiz.QuizApp.HandleOptionClick | src/app/quiz.tsx:82-84 | Only the selection changes, and it becomes the clicked option. So the last click before Next is the one that counts. |
| Quiz.QuizApp.HandleNextQuestion | src/app/quiz.tsx:86-104 | The current entry of the answer record becomes true and all others are kept. Score rises by 1 iff the selection equals the answer exactly, and the selection is appended to the submission log. The selection is then cleared. On the last question: end = now, result shown, index kept. Otherwise the index rises by 1. |
| Quiz.QuizApp.Tick | src/app/quiz.tsx:68-70 | While started and not ended, the display clock becomes `now` and nothing else changes. |
| Quiz.QuizApp.EndOfQuizEffect | src/app/quiz.tsx:133-151 | The returned store is the one the high-score decision gives. The bonus is recorded when scored, and `newHighScore` is set only on a new high score; otherwise both keep their values. |
| Quiz.QuizApp.HandleRestart | src/app/quiz.tsx:106-117 | From the result page, every field returns to its initial value (answers all false, length N) and the start screen shows. The store is not an input. |
| QuizPage.ElapsedSeconds | src/app/quizpage.tsx:39-44 | 0 when either timestamp is 0. Otherwise the floor of the elapsed milliseconds over 1000, which is non-negative when the clock is not behind the start. |
| QuizPage.Progress | src/app/quizpage.tsx:47 | Progress times N is exactly `100*(i+1)`: the share of questions reached, as a percentage, over exact rationals. |
| QuizPage.ProgressRange | src/app/quizpage.tsx:47 | On a question of the quiz, progress lies in (0, 100], and it equals 100 exactly on the last question. |
| QuizPage.DisplayedProgress | src/app/quizpage.tsx:82 | The printed percentage stays within [0, 100] on every question. |
| QuizPage.DisplayedProgressRounds | src/app/quizpage.tsx:82 | The printed percentage is within a half of the exact progress, a tie rounding up. |
| QuizPage.DisplayedProgressFull | src/app/quizpage.tsx:82 | With fewer than 200 questions, the printed percentage is 100 iff on the last question. |
| QuizPage.NavigatorCell | src/app/quizpage.tsx:101-107 | Current iff the index is the current question. Answered iff not current and marked answered. Unanswered otherwise. Current wins over answered. |
| QuizPage.OptionLetter | src/app/quizpage.tsx:144 | The option at position k is labelled with the letter `'A' + k`. |
| QuizPage.OptionHighlighted | src/app/quizpage.tsx:130 | An option is highlighted iff it equals the selection. |
| QuizPage.NextEnabled | src/app/quizpage.tsx:155 | Next is enabled iff the selection is present and non-empty. |
| QuizPage.NextButtonLabel | src/app/quizpage.tsx:162-164 | The caption is "Finish Quiz" iff `index + 1 == N`. |
| QuizPage.FinishLabelEndsQuiz | src/app/quizpage.tsx:162-164 | On a question of the quiz, the caption is "Finish Quiz" iff the press ends the quiz (the quiz tests `index + 1 >= N`). |
| JsMath.FloorDiv | src/app/quiz.tsx:121 | `Math.floor(a / b)` (also at quiz.tsx:130, quizpage.tsx:34 and 41, scorepage.tsx:29 and 132): for a positive divisor `b*q <= a < b*q + b`, and for a negative one `b*q >= a > b*q + b`, so q is the floor of the exact quotient. |
| JsMath.TruncRem | src/app/quizpage.tsx:35 | JavaScript's `seconds % 60` (also at scorepage.tsx:30): for a non-negative dividend the remainder in [0, b); for a negative one minus the remainder of its magnitude, in (-b, 0]. |
| JsMath.RoundHalfUp | src/app/quizpage.tsx:82 | `Math.round(num/den)` for `den > 0` (also used at scorepage.tsx:64): the result r satisfies `r - 1/2 <= num/den < r + 1/2`, so it is the nearest integer with a tie going up. |
| TimeFormat.NatToDecimal | src/app/quizpage.tsx:36 | `toString` of a non-negative integer: a non-empty run of digits, with no leading zero unless the number is 0. Its digits read back as the number (`DecimalRoundTrip`). |
| TimeFormat.IntToDecimal | src/app/quizpage.tsx:36 | `toString` of an integer: for a non-negative number exactly its `NatToDecimal` text; all digits iff the number is non-negative; a negative number is "-" followed by the digits of its magnitude. |
| TimeFormat.PadStart | src/app/quizpage.tsx:36 | `padStart(width, fill)`: the length is the larger of the text's and the width, the text is kept at the end, and every character before it is the fill. |
| TimeFormat.MinutesSeconds | src/app/quizpage.tsx:34-35 | For a non-negative count: `mins*60 + secs = s` with `0 <= secs < 60`. A negative count gives negative minutes and a remainder in (-60, 0]. |
| TimeFormat.FormatTime | src/app/quizpage.tsx:33-37 | The text always contains a colon. For a non-negative count it is at least 4 characters, with the colon third from the end. |
| TimeFormat.FormatTimeParts | src/app/quizpage.tsx:36 | For a non-negative count, the part before the colon is exactly the decimal text of the whole minutes (no leading zeros). The part after is exactly two digits worth the seconds below a minute. |
| TimeFormat.FormatTimeRoundTrip | src/app/scorepage.tsx:28-32 | Parsing the text of a non-negative count gives the count back. The score page's copy is the same function. |
| ScorePage.ColorFor | src/app/scorepage.tsx:34-45 | Green iff >= 80, blue iff in [60, 80), yellow iff in [40, 60), red iff < 40. |
| ScorePage.ColorMonotone | src/app/scorepage.tsx:34-45 | A higher percentage never gets a worse colour. |
| ScorePage.EmojiFor | src/app/scorepage.tsx:47-61 | Five bands with cut-offs at 90, 80, 70 and 60, each band iff its range. |
| ScorePage.EmojiMonotone | src/app/scorepage.tsx:47-61 | A higher percentage never gets a lesser emoji. |
| ScorePage.TotalScore | src/app/scorepage.tsx:63 | The total is the score plus the bonus. This restates the one-line body; `ShownTotalMatchesStore` ties it to what a new high score stores. |
| ScorePage.Percentage | src/app/scorepage.tsx:64 | For `0 <= score <= N` the percentage lies in [0, 100]. |
| ScorePage.PercentageRounds | src/app/scorepage.tsx:64 | The percentage is within a half of 100*score/N, a tie rounding up. |
| ScorePage.PercentageMonotone | src/app/scorepage.tsx:64 | More correct answers never show a lower percentage. |
| ScorePage.PercentageExtremes | src/app/scorepage.tsx:64 | With fewer than 200 questions, the percentage is 100 iff all answers were right and 0 iff none were. |
| ScorePage.PercentageExtremesNeedBound | src/app/scorepage.tsx:64 | The bound is needed: 199 of 200 shows 100%, and 1 of 201 shows 0%. |
| ScorePage.TimeTakenRowAsWritten | src/app/scorepage.tsx:120-127 | Null renders nothing, 0 renders a bare "0", and any other time renders the row with the formatted time. |
| ScorePage.StrayZeroOnSubSecondQuiz | src/app/scorepage.tsx:120-133 | A time of 0 leaves a stray "0" where the row would be, while the average shows "N/A". |
| ScorePage.TimeTakenRow | src/app/scorepage.tsx:120-127 | Corrected: a row iff the time is non-null and non-zero, holding the formatted time; otherwise nothing. |
| ScorePage.AveragePerQuestion | src/app/scorepage.tsx:128-135 | "N/A" iff the time is null or 0. Otherwise it is `FormatTime` of the floor of time/N. |
| ScorePage.TimeSlotsAgree | src/app/scorepage.tsx:120-135 | As written, the Time Taken row is shown iff the average is not "N/A", and the corrected row likewise. For a positive time the average shown is the formatted text of a count between 0 and the whole time. |

## Findings

| source | as written | input that shows it | evidently intended | confidence | as-written member | corrected member |
|---|---|---|---|---|---|---|
| src/app/scorepage.tsx:120 | `{timeTaken && (<div>…</div>)}` evaluates to the number 0 when `timeTaken` is 0, and React prints that 0 as text | `timeTaken = 0`: the quiz ends less than one second after it started | no "Time Taken" row and nothing else, as for `null`, agreeing with the "N/A" average | medium; not executed | ScorePage.StrayZeroOnSubSecondQuiz | ScorePage.TimeTakenRow |

## Left out

- The timer effect's scheduling and cleanup (`setInterval` / `clearInterval`, quiz.tsx:65-73) are not modelled. Only the callback's body is, as `Tick`.
- `Date.now()` is not modelled; every timestamp is a parameter.
- `localStorage`, `JSON.parse` and `JSON.stringify` are not modelled. The store is an `Option<int>`. A stored string that is malformed, empty or not an integer is out of scope.
- React's effect scheduling and state batching are not modelled. The end-of-quiz effect is one method, run after the finishing `HandleNextQuestion`.
  - With the end time unset, the effect method does nothing, as the effect does.
- All JSX and CSS markup, the icons, the question text display, and `src/app/startpage.tsx` are left out; they are presentation only.
- The emoji literals and colour class names are left out. They are modelled as the enumerations `ScoreEmoji` and `ScoreColor`.
- QuizPage.Progress: computed with exact rational arithmetic, as `100*(i+1)/N`, instead of the IEEE double `((i+1)/N)*100`. The CSS width string built from it is not modelled.
- ScorePage.Percentage: computed with exact arithmetic instead of `Math.round` of a double. Floating-point rounding near a half is not captured.
- Numbers are unbounded integers. JavaScript doubles lose integer precision above 2^53, far beyond any timestamp or score here.
- QuizPage.OptionLetter: requires a position below 26. `String.fromCharCode` wraps larger codes modulo 65536, and every question has four options.
- Quiz.QuizApp.constructor: requires a non-empty bank. The percentage, progress and average functions likewise require N > 0. With no questions the question page would read `questions[0]` and fail, and the shipped bank has five.
- Quiz.QuizApp.HandleNextQuestion: requires the question screen, as do `HandleOptionClick` (question screen), `StartQuiz` (start screen) and `HandleRestart` (result screen). These are the only screens whose buttons call them.
- `answeredQuestions` is a `seq<bool>` field that `HandleNextQuestion` reassigns. This matches the source's copy-then-set of a fresh array; aliasing of the old array is not modelled.
