/** The in-progress screen (`QuizPage`): the live clock, the progress bar, the
    question navigator, the option buttons and the Next button. Every piece is a
    pure function of the props the quiz passes down. */
module QuizPage {
  import opened Wrappers
  import opened JsMath

  /** `getCurrentElapsedTime()`: whole seconds since the start, or 0 while either
      timestamp is still 0 (JavaScript treats 0 as "not set"). */
  function ElapsedSeconds(startTime: int, currentTime: int): (r: int)
    ensures startTime == 0 || currentTime == 0 ==> r == 0
    ensures startTime != 0 && currentTime != 0 ==>
      1000 * r <= currentTime - startTime < 1000 * r + 1000
    ensures currentTime >= startTime ==> r >= 0
  {
    if startTime != 0 && currentTime != 0 then FloorDiv(currentTime - startTime, 1000) else 0
  }

  /** `progress`: the share of the questions reached, counting the current one,
      in percent (exact arithmetic in place of the double the source computes). */
  function Progress(index: int, n: int): (p: real)
    requires n > 0
    ensures p * n as real == (100 * (index + 1)) as real
  {
    (100 * (index + 1)) as real / n as real
  }

  /** On any question of the quiz the bar is partly or wholly filled, and it is
      full exactly on the last question. */
  lemma ProgressRange(index: int, n: int)
    requires 0 <= index < n
    ensures 0.0 < Progress(index, n) <= 100.0
    ensures Progress(index, n) == 100.0 <==> index == n - 1
  {
    var p, nr := Progress(index, n), n as real;
    RealMulSign(nr, p);
    RealMulSign(nr, 100.0 - p);
    assert nr * (100.0 - p) == (100 * n - 100 * (index + 1)) as real;
  }

  /** `Math.round(progress)`, the percentage printed above the bar. */
  function DisplayedProgress(index: int, n: int): (r: int)
    requires n > 0
    ensures 0 <= index < n ==> 0 <= r <= 100
  {
    if 0 <= index < n then
      RoundHalfUpBounds(100 * (index + 1), n, 0, 100);
      RoundHalfUp(100 * (index + 1), n)
    else
      RoundHalfUp(100 * (index + 1), n)
  }

  /** The printed percentage is the bar's value rounded to the nearest integer,
      a half going up. */
  lemma DisplayedProgressRounds(index: int, n: int)
    requires n > 0
    ensures DisplayedProgress(index, n) as real - 0.5 <= Progress(index, n)
    ensures Progress(index, n) < DisplayedProgress(index, n) as real + 0.5
  {
    RoundHalfUpNearest(100 * (index + 1), n);
  }

  /** With fewer than 200 questions the printed percentage is 100 exactly on the
      last question (with 200 or more, the one before it already rounds to 100). */
  lemma DisplayedProgressFull(index: int, n: int)
    requires 0 <= index < n < 200
    ensures DisplayedProgress(index, n) == 100 <==> index == n - 1
  {
    if index < n - 1 {
      assert 2 * (100 * (index + 1)) < (2 * 99 + 1) * n;
      RoundHalfUpAtMost(100 * (index + 1), n, 99);
    } else {
      RoundHalfUpBounds(100 * (index + 1), n, 100, 100);
    }
  }

  /** The bound in `DisplayedProgressFull` is needed: out of 200 questions, the
      second-to-last already shows 100%. */
  lemma DisplayedProgressFullTooEarly()
    ensures DisplayedProgress(198, 200) == 100
  {
  }

  /** How a cell of the question navigator is coloured. */
  datatype CellStatus = Current | Answered | Unanswered

  /** Navigator cell `index`: the current question takes priority; otherwise an
      answered question is marked as such (an index past the end of the answer
      record reads as `undefined`, so unanswered). */
  function NavigatorCell(index: int, currentIndex: int, answered: seq<bool>): (c: CellStatus)
    ensures c == Current <==> index == currentIndex
    ensures c == Answered <==> index != currentIndex && 0 <= index < |answered| && answered[index]
    ensures c == Unanswered <==> index != currentIndex && !(0 <= index < |answered| && answered[index])
  {
    if index == currentIndex then Current
    else if 0 <= index < |answered| && answered[index] then Answered
    else Unanswered
  }

  /** While the quiz is in progress the record holds exactly the questions before
      the current one, so the navigator shows every earlier question answered,
      the current one highlighted and every later one unanswered. */
  lemma NavigatorDuringQuiz(answered: seq<bool>, currentIndex: int, index: int)
    requires 0 <= currentIndex < |answered| && 0 <= index < |answered|
    requires forall i | 0 <= i < |answered| :: answered[i] == (i < currentIndex)
    ensures NavigatorCell(index, currentIndex, answered) ==
      if index < currentIndex then Answered else if index == currentIndex then Current else Unanswered
  {
  }

  /** `String.fromCharCode(65 + index)`: the letter shown on the option at
      `position`. */
  function OptionLetter(position: int): (c: char)
    requires 0 <= position < 26
    ensures 'A' <= c <= 'Z' && c as int - 'A' as int == position
  {
    (65 + position) as char
  }

  /** Whether option `option` is drawn as selected. */
  function OptionHighlighted(option: string, selected: Option<string>): (b: bool)
    ensures b <==> selected.Some? && selected.value == option
  {
    selected == Some(option)
  }

  /** Among distinct options at most one is highlighted, and exactly one when the
      selection is one of them. */
  lemma OneOptionHighlighted(options: seq<string>, selected: Option<string>)
    requires forall i, j | 0 <= i < j < |options| :: options[i] != options[j]
    ensures forall i, j | 0 <= i < |options| && 0 <= j < |options| ::
      OptionHighlighted(options[i], selected) && OptionHighlighted(options[j], selected) ==> i == j
    ensures selected.Some? && selected.value in options ==>
      exists i | 0 <= i < |options| :: OptionHighlighted(options[i], selected)
  {
  }

  /** `disabled={!selectedOption}`: the Next button works only with a non-empty
      selection (both `null` and `""` are falsy). */
  function NextEnabled(selected: Option<string>): (b: bool)
    ensures b <==> selected.Some? && selected.value != ""
  {
    match selected
    case None => false
    case Some(o) => o != ""
  }

  datatype NextLabel = NextQuestion | FinishQuiz

  /** The caption of the Next button. */
  function NextButtonLabel(index: int, n: int): (l: NextLabel)
    ensures l == FinishQuiz <==> index + 1 == n
  {
    if index + 1 == n then FinishQuiz else NextQuestion
  }

  /** On a question of the quiz, the button reads "Finish Quiz" exactly when
      pressing it ends the quiz (the quiz tests `index + 1 >= n`). */
  lemma FinishLabelEndsQuiz(index: int, n: int)
    requires 0 <= index < n
    ensures NextButtonLabel(index, n) == FinishQuiz <==> index + 1 >= n
  {
  }
}
