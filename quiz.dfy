/** The quiz itself (`QuizApp`): the question bank, the session state and its four
    transitions, the time and bonus arithmetic, the end-of-quiz high-score rule,
    and the choice of screen. The clock (`Date.now()`) is a parameter of each
    transition that reads it, and the browser's stored high score is passed in and
    handed back as an optional integer. */
module Quiz {
  import opened Wrappers
  import opened JsMath
  import QuizPage
  import ScorePage

  datatype Question = Question(question: string, options: seq<string>, answer: string)

  /** Every question's answer is one of its options. */
  predicate WellFormedBank(questions: seq<Question>) {
    forall q | q in questions :: q.answer in q.options
  }

  /** The bank the app ships with. */
  const Bank: seq<Question> := [
    Question("Which AI chatbot, launched by OpenAI, became widely popular in 2023?",
      ["Blackbox", "Bard", "ChatGPT", "Claude"], "ChatGPT"),
    Question("What is the primary programming language used to train machine learning models in TensorFlow?",
      ["Python", "Java", "C#", "JavaScript"], "Python"),
    Question("Which AI model architecture is commonly used in natural language processing tasks?",
      ["CNN", "RNN", "Transformer", "GAN"], "Transformer"),
    Question("What does the term 'generative AI' refer to?",
      ["AI that can generate new content like text, images, or music",
       "AI that only classifies data",
       "AI that operates without training data",
       "AI used in hardware manufacturing"],
      "AI that can generate new content like text, images, or music"),
    Question("Which of the following is a popular AI image generation model?",
      ["YOLO", "Stable Diffusion", "BERT", "Keras"], "Stable Diffusion")
  ]

  /** The shipped bank has five questions of four options each, every answer
      among its options. */
  lemma BankShape()
    ensures |Bank| == 5 && WellFormedBank(Bank)
    ensures forall q | q in Bank :: |q.options| == 4
  {
  }

  /** `selectedOption === questions[i].answer`: exact, case-sensitive string
      equality, and `null` matches nothing. */
  predicate IsCorrect(selected: Option<string>, q: Question)
    ensures selected == None ==> !IsCorrect(selected, q)
  {
    selected == Some(q.answer)
  }

  /** How many of the submitted selections matched their question's answer. */
  function CorrectCount(questions: seq<Question>, submitted: seq<Option<string>>): (c: nat)
    requires |submitted| <= |questions|
    ensures c <= |submitted|
  {
    if submitted == [] then 0
    else
      var k := |submitted| - 1;
      CorrectCount(questions, submitted[..k]) + (if IsCorrect(submitted[k], questions[k]) then 1 else 0)
  }

  /** How many entries of an answer record are true. */
  function CountTrue(bs: seq<bool>): nat
  {
    if bs == [] then 0 else CountTrue(bs[..|bs| - 1]) + (if bs[|bs| - 1] then 1 else 0)
  }

  /** A record whose first k entries are true and the rest false counts k. */
  lemma {:induction false} CountTruePrefix(bs: seq<bool>, k: int)
    requires 0 <= k <= |bs|
    requires forall i | 0 <= i < |bs| :: bs[i] == (i < k)
    ensures CountTrue(bs) == k
  {
    if bs != [] {
      var last := |bs| - 1;
      if k == |bs| {
        CountTruePrefix(bs[..last], k - 1);
      } else {
        CountTruePrefix(bs[..last], k);
      }
    }
  }

  /** JavaScript truthiness of an optional timestamp: `null` and 0 are unset. */
  predicate IsSet(t: Option<int>) {
    t.Some? && t.value != 0
  }

  /** `calculateTimeTaken()`: whole seconds from start to end, or `null` unless
      both timestamps are set (non-zero). */
  function TimeTaken(startTime: int, endTime: Option<int>): (r: Option<int>)
    ensures r.Some? <==> startTime != 0 && IsSet(endTime)
    ensures r.Some? ==> 1000 * r.value <= endTime.value - startTime < 1000 * r.value + 1000
  {
    if startTime != 0 && IsSet(endTime) then Some(FloorDiv(endTime.value - startTime, 1000)) else None
  }

  /** `calculateBonusScore(correctAnswers, timeTaken)`: 0 for a time of 0, and
      otherwise correct answers times 1000 over the seconds taken, floored. */
  function BonusScore(correctAnswers: int, timeTaken: int): (b: int)
    ensures timeTaken == 0 ==> b == 0
    ensures correctAnswers == 0 ==> b == 0
    ensures timeTaken > 0 ==> timeTaken * b <= 1000 * correctAnswers < timeTaken * b + timeTaken
    ensures timeTaken > 0 && correctAnswers >= 0 ==> b >= 0
  {
    if timeTaken == 0 then 0 else FloorDiv(correctAnswers * 1000, timeTaken)
  }

  /** Finishing faster never earns a smaller bonus for the same correct answers. */
  lemma BonusFasterNotSmaller(correctAnswers: int, t1: int, t2: int)
    requires correctAnswers >= 0 && 0 < t1 <= t2
    ensures BonusScore(correctAnswers, t1) >= BonusScore(correctAnswers, t2)
  {
    var b1, b2 := BonusScore(correctAnswers, t1), BonusScore(correctAnswers, t2);
    var c := 1000 * correctAnswers;
    // t2 * b2 <= c < t1 * b1 + t1, so t1 * b2 <= t2 * b2 < t1 * (b1 + 1)
    if b2 > 0 {
      MulSign(t1, b2 - b1 - 1);
      MulSign(b2, t1 - t2);
      assert t1 * (b2 - b1 - 1) == t1 * b2 - (t1 * b1 + t1);
      assert b2 * (t1 - t2) == t1 * b2 - t2 * b2;
    }
  }

  /** `localStorage.getItem("highestScore") || "0"`: an absent entry reads as 0. */
  function ReadStored(stored: Option<int>): (v: int)
    ensures stored.None? ==> v == 0
    ensures stored.Some? ==> v == stored.value
  {
    stored.GetOr(0)
  }

  /** What the end-of-quiz effect decides: nothing when the time is unset or 0;
      otherwise the bonus, the total, the stored value it read, and whether the
      total beats it. */
  datatype EndOfQuizOutcome =
    | Skipped
    | Scored(bonus: int, total: int, previous: int, isNewHigh: bool)

  /** The effect that runs once the quiz has ended (`useEffect` on `endTime` and
      `score`). */
  function EndOfQuiz(score: int, startTime: int, endTime: Option<int>, stored: Option<int>): (r: EndOfQuizOutcome)
    ensures r.Skipped? <==> TimeTaken(startTime, endTime) == None || TimeTaken(startTime, endTime) == Some(0)
    ensures r.Scored? ==>
      r.bonus == BonusScore(score, TimeTaken(startTime, endTime).value) &&
      r.total == ScorePage.TotalScore(score, r.bonus) &&
      r.previous == ReadStored(stored) &&
      (r.isNewHigh <==> r.total > r.previous)
  {
    if !IsSet(endTime) then Skipped
    else
      match TimeTaken(startTime, endTime)
      case None => Skipped
      case Some(t) =>
        if t == 0 then Skipped
        else
          var bonus := BonusScore(score, t);
          var total := ScorePage.TotalScore(score, bonus);
          var previous := ReadStored(stored);
          Scored(bonus, total, previous, total > previous)
  }

  /** The stored high score after the effect: the total when it beat the stored
      value, otherwise the entry as it was. */
  function StoreAfter(stored: Option<int>, r: EndOfQuizOutcome): (s: Option<int>)
    ensures s == stored || (r.Scored? && r.isNewHigh && s == Some(r.total))
  {
    if r.Scored? && r.isNewHigh then Some(r.total) else stored
  }

  /** The stored high score never goes down; it is written exactly when the total
      beats it, and then it becomes the larger of the two. */
  lemma HighScoreNeverDecreases(score: int, startTime: int, endTime: Option<int>, stored: Option<int>)
    ensures var r := EndOfQuiz(score, startTime, endTime, stored);
      ReadStored(StoreAfter(stored, r)) >= ReadStored(stored) &&
      (StoreAfter(stored, r) != stored ==> r.Scored? && r.isNewHigh) &&
      (r.Scored? ==> ReadStored(StoreAfter(stored, r)) == if r.total > r.previous then r.total else r.previous)
  {
  }

  /** Running the effect a second time changes nothing: the total no longer beats
      what is stored. */
  lemma EndOfQuizIdempotent(score: int, startTime: int, endTime: Option<int>, stored: Option<int>)
    ensures var s1 := StoreAfter(stored, EndOfQuiz(score, startTime, endTime, stored));
      var r2 := EndOfQuiz(score, startTime, endTime, s1);
      StoreAfter(s1, r2) == s1 && (r2.Scored? ==> !r2.isNewHigh)
  {
  }

  /** The "Total Score" the result page shows is what a new high score stores,
      and after a scored effect the store holds at least that total. */
  lemma ShownTotalMatchesStore(score: int, startTime: int, endTime: Option<int>, stored: Option<int>)
    ensures var r := EndOfQuiz(score, startTime, endTime, stored);
      (r.Scored? && r.isNewHigh ==> StoreAfter(stored, r) == Some(ScorePage.TotalScore(score, r.bonus))) &&
      (r.Scored? ==> ReadStored(StoreAfter(stored, r)) >= ScorePage.TotalScore(score, r.bonus))
  {
  }

  /** Five right answers in ten seconds: a bonus of 500 and a total of 505, which
      is a new high score over an empty store but not over 600. */
  lemma TenSecondScenario(startTime: int)
    requires startTime != 0 && startTime + 10000 != 0
    ensures TimeTaken(startTime, Some(startTime + 10000)) == Some(10)
    ensures EndOfQuiz(5, startTime, Some(startTime + 10000), None) == Scored(500, 505, 0, true)
    ensures EndOfQuiz(5, startTime, Some(startTime + 10000), Some(600)) == Scored(500, 505, 600, false)
    ensures ScorePage.Percentage(5, 5) == 100
  {
    assert TimeTaken(startTime, Some(startTime + 10000)) == Some(10);
    assert BonusScore(5, 10) == 500;
  }

  /** The three screens. */
  datatype Screen = StartScreen | QuizScreen | ResultScreen

  class QuizApp {
    const questions: seq<Question>
    var currentQuestionIndex: int
    var score: int
    var selectedOption: Option<string>
    var startTime: int
    var endTime: Option<int>
    var bonusScore: int
    var newHighScore: bool
    var showResult: bool
    var answeredQuestions: seq<bool>
    var currentTime: int
    var quizStarted: bool
    /** The selection in effect at each press of Next so far, in order. */
    ghost var submitted: seq<Option<string>>

    /** The session invariant: the answer record marks exactly the questions
        already submitted, the score counts the submissions that matched, and each
        screen carries the state it implies. */
    ghost predicate Valid()
      reads this
    {
      |questions| > 0 &&
      |answeredQuestions| == |questions| &&
      0 <= currentQuestionIndex < |questions| &&
      |submitted| == currentQuestionIndex + (if showResult then 1 else 0) &&
      (forall i | 0 <= i < |answeredQuestions| :: answeredQuestions[i] == (i < |submitted|)) &&
      score == CorrectCount(questions, submitted) &&
      (showResult ==> quizStarted && selectedOption == None && endTime.Some? &&
                      currentQuestionIndex == |questions| - 1) &&
      (!showResult ==> endTime == None && bonusScore == 0 && !newHighScore) &&
      (!quizStarted ==> currentQuestionIndex == 0 && startTime == 0 && currentTime == 0 &&
                        selectedOption == None)
    }

    /** The state the app starts in, and returns to on restart. */
    ghost predicate Initial()
      reads this
    {
      currentQuestionIndex == 0 && score == 0 && selectedOption == None &&
      startTime == 0 && endTime == None && bonusScore == 0 && !newHighScore &&
      !showResult && answeredQuestions == seq(|questions|, _ => false) &&
      currentTime == 0 && !quizStarted && submitted == []
    }

    constructor (questions: seq<Question>)
      requires |questions| > 0
      ensures this.questions == questions
      ensures Initial() && Valid()
    {
      this.questions := questions;
      currentQuestionIndex, score, selectedOption := 0, 0, None;
      startTime, endTime, bonusScore := 0, None, 0;
      newHighScore, showResult := false, false;
      answeredQuestions := seq(|questions|, _ => false);
      currentTime, quizStarted := 0, false;
      submitted := [];
    }

    /** Which screen renders: the start page until the quiz starts, then the
        result page once it is over, the question page in between. */
    function CurrentScreen(): (s: Screen)
      reads this
      ensures s == StartScreen <==> !quizStarted
      ensures s == ResultScreen <==> quizStarted && showResult
      ensures s == QuizScreen <==> quizStarted && !showResult
    {
      if !quizStarted then StartScreen
      else if showResult then ResultScreen
      else QuizScreen
    }

    /** The score never exceeds the number of answered questions, which never
        exceeds the number of questions. */
    lemma ScoreBounded()
      requires Valid()
      ensures 0 <= score <= CountTrue(answeredQuestions) <= |questions|
    {
      CountTruePrefix(answeredQuestions, |submitted|);
    }

    /** Before the quiz starts the session is in its initial state: the start page
        only ever shows a fresh session. */
    lemma NotStartedIsInitial()
      requires Valid() && CurrentScreen() == StartScreen
      ensures Initial()
    {
      assert answeredQuestions == seq(|questions|, _ => false);
    }

    /** The result page comes only after every question has been submitted, and
        while the quiz runs some question is still unsubmitted. */
    lemma ResultOnlyAfterAllAnswered()
      requires Valid()
      ensures CurrentScreen() == ResultScreen ==>
        |submitted| == |questions| && forall i | 0 <= i < |questions| :: answeredQuestions[i]
      ensures !showResult ==> |submitted| < |questions|
    {
    }

    /** While a question is on screen the navigator shows every earlier question
        answered, the current one highlighted and the later ones unanswered. */
    lemma NavigatorShowsProgress()
      requires Valid() && CurrentScreen() == QuizScreen
      ensures forall i | 0 <= i < |questions| ::
        QuizPage.NavigatorCell(i, currentQuestionIndex, answeredQuestions) ==
          if i < currentQuestionIndex then QuizPage.Answered
          else if i == currentQuestionIndex then QuizPage.Current
          else QuizPage.Unanswered
    {
      forall i | 0 <= i < |questions|
        ensures QuizPage.NavigatorCell(i, currentQuestionIndex, answeredQuestions) ==
          if i < currentQuestionIndex then QuizPage.Answered
          else if i == currentQuestionIndex then QuizPage.Current
          else QuizPage.Unanswered
      {
        QuizPage.NavigatorDuringQuiz(answeredQuestions, currentQuestionIndex, i);
      }
    }

    /** `startQuiz()`: stamps the start and the display clock with `now` and leaves
        the start page; nothing else changes. */
    method StartQuiz(now: int)
      requires Valid() && CurrentScreen() == StartScreen
      modifies this
      ensures Valid() && CurrentScreen() == QuizScreen
      ensures startTime == now && currentTime == now && quizStarted
      ensures currentQuestionIndex == old(currentQuestionIndex) && score == old(score)
      ensures selectedOption == old(selectedOption) && answeredQuestions == old(answeredQuestions)
      ensures endTime == old(endTime) && bonusScore == old(bonusScore)
      ensures newHighScore == old(newHighScore) && showResult == old(showResult)
      ensures submitted == old(submitted)
    {
      startTime := now;
      currentTime := now;
      quizStarted := true;
    }

    /** `handleOptionClick(option)`: replaces the selection and nothing else, so of
        several clicks before Next only the last one counts. */
    method HandleOptionClick(option: string)
      requires Valid() && CurrentScreen() == QuizScreen
      modifies this`selectedOption
      ensures Valid()
      ensures selectedOption == Some(option)
    {
      selectedOption := Some(option);
    }

    /** `handleNextQuestion()`: marks the current question answered, scores the
        selection against its answer, clears the selection, and either ends the
        quiz at `now` (on the last question) or moves to the next question. */
    method HandleNextQuestion(now: int)
      requires Valid() && CurrentScreen() == QuizScreen
      modifies this
      ensures Valid()
      ensures answeredQuestions == old(answeredQuestions)[old(currentQuestionIndex) := true]
      ensures score == old(score) +
        (if IsCorrect(old(selectedOption), questions[old(currentQuestionIndex)]) then 1 else 0)
      ensures submitted == old(submitted) + [old(selectedOption)]
      ensures selectedOption == None
      ensures old(currentQuestionIndex) + 1 >= |questions| ==>
        endTime == Some(now) && showResult && currentQuestionIndex == old(currentQuestionIndex) &&
        CurrentScreen() == ResultScreen
      ensures old(currentQuestionIndex) + 1 < |questions| ==>
        currentQuestionIndex == old(currentQuestionIndex) + 1 && endTime == old(endTime) &&
        !showResult && CurrentScreen() == QuizScreen
      ensures startTime == old(startTime) && currentTime == old(currentTime) && quizStarted
      ensures bonusScore == old(bonusScore) && newHighScore == old(newHighScore)
    {
      var newAnswered := answeredQuestions[currentQuestionIndex := true];
      answeredQuestions := newAnswered;
      var k := currentQuestionIndex;
      assert submitted + [selectedOption] == (submitted + [selectedOption])[..k] + [selectedOption];
      assert (submitted + [selectedOption])[..k] == submitted;
      if selectedOption == Some(questions[currentQuestionIndex].answer) {
        score := score + 1;
      }
      submitted := submitted + [selectedOption];
      selectedOption := None;
      if currentQuestionIndex + 1 >= |questions| {
        endTime := Some(now);
        showResult := true;
      } else {
        currentQuestionIndex := currentQuestionIndex + 1;
      }
    }

    /** The interval callback while the quiz runs: refreshes the display clock. */
    method Tick(now: int)
      requires Valid() && quizStarted && !IsSet(endTime)
      modifies this`currentTime
      ensures Valid() && currentTime == now
    {
      currentTime := now;
    }

    /** The end-of-quiz effect against the stored high score `stored`: records the
        bonus and, when the total beats what is stored, flags a new high score;
        returns the store's new content. */
    method EndOfQuizEffect(stored: Option<int>) returns (newStored: Option<int>)
      requires Valid()
      modifies this`bonusScore, this`newHighScore
      ensures Valid()
      ensures var r := EndOfQuiz(score, startTime, endTime, stored);
        newStored == StoreAfter(stored, r) &&
        bonusScore == (if r.Scored? then r.bonus else old(bonusScore)) &&
        newHighScore == (if r.Scored? && r.isNewHigh then true else old(newHighScore))
    {
      newStored := stored;
      if IsSet(endTime) {
        var timeTaken := TimeTaken(startTime, endTime);
        if timeTaken.Some? && timeTaken.value != 0 {
          var bonus := BonusScore(score, timeTaken.value);
          bonusScore := bonus;
          var totalScore := ScorePage.TotalScore(score, bonus);
          var storedHighScore := ReadStored(stored);
          if totalScore > storedHighScore {
            newStored := Some(totalScore);
            newHighScore := true;
          }
        }
      }
    }

    /** `handleRestart()`: every session field back to its initial value and back
        to the start page; the stored high score is not touched (it is not even an
        input). The selection is not reset by the source, but it is already empty
        on the result page. */
    method HandleRestart()
      requires Valid() && CurrentScreen() == ResultScreen
      modifies this
      ensures Valid() && Initial() && CurrentScreen() == StartScreen
    {
      score := 0;
      currentQuestionIndex := 0;
      startTime := 0;
      endTime := None;
      bonusScore := 0;
      newHighScore := false;
      showResult := false;
      answeredQuestions := seq(|questions|, _ => false);
      quizStarted := false;
      currentTime := 0;
      submitted := [];
    }
  }
}
