/** The result screen (`ScorePage`): the score band, the accuracy percentage, the
    total, and the time rows. Every piece is a pure function of the props the quiz
    passes down. */
module ScorePage {
  import opened Wrappers
  import opened JsMath
  import opened TimeFormat

  /** The four text colours of `getScoreColor`, best first. */
  datatype ScoreColor = Green | Blue | Yellow | Red

  /** Position of a colour on the scale, higher for a better score. */
  function ColorRank(c: ScoreColor): nat
  {
    match c
    case Red => 0
    case Yellow => 1
    case Blue => 2
    case Green => 3
  }

  /** `getScoreColor(percentage)`: thresholds at 80, 60 and 40. */
  function ColorFor(percentage: int): (c: ScoreColor)
    ensures c == Green <==> 80 <= percentage
    ensures c == Blue <==> 60 <= percentage < 80
    ensures c == Yellow <==> 40 <= percentage < 60
    ensures c == Red <==> percentage < 40
  {
    if percentage >= 80 then Green
    else if percentage >= 60 then Blue
    else if percentage >= 40 then Yellow
    else Red
  }

  /** A higher percentage never gets a worse colour. */
  lemma ColorMonotone(p: int, q: int)
    requires p <= q
    ensures ColorRank(ColorFor(p)) <= ColorRank(ColorFor(q))
  {
  }

  /** The five pictures of `getScoreEmoji`, best first. */
  datatype ScoreEmoji = Trophy | PartyPopper | ClappingHands | ThumbsUp | FlexedBiceps

  function EmojiRank(e: ScoreEmoji): nat
  {
    match e
    case FlexedBiceps => 0
    case ThumbsUp => 1
    case ClappingHands => 2
    case PartyPopper => 3
    case Trophy => 4
  }

  /** `getScoreEmoji(percentage)`: thresholds at 90, 80, 70 and 60. */
  function EmojiFor(percentage: int): (e: ScoreEmoji)
    ensures e == Trophy <==> 90 <= percentage
    ensures e == PartyPopper <==> 80 <= percentage < 90
    ensures e == ClappingHands <==> 70 <= percentage < 80
    ensures e == ThumbsUp <==> 60 <= percentage < 70
    ensures e == FlexedBiceps <==> percentage < 60
  {
    if percentage >= 90 then Trophy
    else if percentage >= 80 then PartyPopper
    else if percentage >= 70 then ClappingHands
    else if percentage >= 60 then ThumbsUp
    else FlexedBiceps
  }

  /** A higher percentage never gets a lesser picture. */
  lemma EmojiMonotone(p: int, q: int)
    requires p <= q
    ensures EmojiRank(EmojiFor(p)) <= EmojiRank(EmojiFor(q))
  {
  }

  /** `totalScore`: the correct answers plus the time bonus. */
  function TotalScore(score: int, bonusScore: int): (t: int)
    ensures t - bonusScore == score
  {
    score + bonusScore
  }

  /** `percentage = Math.round(score / questions.length * 100)`, with exact
      arithmetic: the integer nearest to 100 * score / n, a half going up. */
  function Percentage(score: int, n: int): (p: int)
    requires n > 0
    ensures 0 <= score <= n ==> 0 <= p <= 100
  {
    if 0 <= score <= n then
      RoundHalfUpBounds(100 * score, n, 0, 100);
      RoundHalfUp(100 * score, n)
    else
      RoundHalfUp(100 * score, n)
  }

  /** The percentage is within a half of the exact ratio, a tie going up. */
  lemma PercentageRounds(score: int, n: int)
    requires n > 0
    ensures Percentage(score, n) as real - 0.5 <= (100 * score) as real / n as real
    ensures (100 * score) as real / n as real < Percentage(score, n) as real + 0.5
  {
    RoundHalfUpNearest(100 * score, n);
  }

  /** More correct answers never show a lower percentage. */
  lemma PercentageMonotone(s1: int, s2: int, n: int)
    requires n > 0 && s1 <= s2
    ensures Percentage(s1, n) <= Percentage(s2, n)
  {
    RoundHalfUpMonotone(100 * s1, 100 * s2, n);
  }

  /** With fewer than 200 questions, 100% means every answer was right and 0%
      means none was (with 200 or more, one miss already rounds to 100%). */
  lemma PercentageExtremes(score: int, n: int)
    requires 0 <= score <= n && 0 < n < 200
    ensures Percentage(score, n) == 100 <==> score == n
    ensures Percentage(score, n) == 0 <==> score == 0
  {
    if score < n {
      assert 2 * (100 * score) < (2 * 99 + 1) * n;
      RoundHalfUpAtMost(100 * score, n, 99);
    } else {
      RoundHalfUpBounds(100 * score, n, 100, 100);
    }
    if score > 0 {
      assert (2 * 1 - 1) * n <= 2 * (100 * score);
      RoundHalfUpAtLeast(100 * score, n, 1);
    } else {
      RoundHalfUpBounds(100 * score, n, 0, 0);
    }
  }

  /** The bound in `PercentageExtremes` is needed: 199 of 200 already shows 100%,
      and 1 of 201 shows 0%. */
  lemma PercentageExtremesNeedBound()
    ensures Percentage(199, 200) == 100 && Percentage(1, 201) == 0
  {
  }

  /** The five-question quiz: 5 of 5 is 100%, 4 of 5 is 80%, none is 0%. */
  lemma FiveQuestionPercentages()
    ensures Percentage(5, 5) == 100 && Percentage(4, 5) == 80 && Percentage(0, 5) == 0
  {
  }

  /** What the "Time Taken" slot puts on the page: nothing, a row with the time,
      or (as written) a bare "0" that React prints for `{0 && ...}`. */
  datatype TimeRow = NoRow | Row(time: string) | StrayText(text: string)

  /** `{timeTaken && <row/>}` as written: `null` renders nothing, a non-zero time
      renders the row, and a time of 0 renders the number 0 itself. */
  function TimeTakenRowAsWritten(timeTaken: Option<int>): (r: TimeRow)
    ensures timeTaken == None ==> r == NoRow
    ensures timeTaken == Some(0) ==> r == StrayText("0")
    ensures timeTaken.Some? && timeTaken.value != 0 ==> r == Row(FormatTime(timeTaken.value))
  {
    match timeTaken
    case None => NoRow
    case Some(t) => if t == 0 then StrayText("0") else Row(FormatTime(t))
  }

  /** A quiz finished in under a second (time taken 0) leaves a stray "0" on the
      result screen, beside an average of "N/A". */
  lemma StrayZeroOnSubSecondQuiz(n: int)
    requires n > 0
    ensures TimeTakenRowAsWritten(Some(0)) == StrayText("0")
    ensures AveragePerQuestion(Some(0), n) == "N/A"
  {
  }

  /** The "Time Taken" row as evidently intended: shown exactly when the time is
      truthy (non-null and non-zero), and nothing otherwise. */
  function TimeTakenRow(timeTaken: Option<int>): (r: TimeRow)
    ensures r != NoRow <==> timeTaken.Some? && timeTaken.value != 0
    ensures r != NoRow ==> r == Row(FormatTime(timeTaken.value))
  {
    match timeTaken
    case None => NoRow
    case Some(t) => if t == 0 then NoRow else Row(FormatTime(t))
  }

  /** "Avg. per Question": the time over the number of questions, floored, or
      "N/A" when the time is null or 0. */
  function AveragePerQuestion(timeTaken: Option<int>, n: int): (s: string)
    requires n > 0
    ensures s == "N/A" <==> !(timeTaken.Some? && timeTaken.value != 0)
    ensures timeTaken.Some? && timeTaken.value != 0 ==> s == FormatTime(FloorDiv(timeTaken.value, n))
  {
    match timeTaken
    case None => "N/A"
    case Some(t) =>
      if t == 0 then "N/A"
      else
        var text := FormatTime(FloorDiv(t, n));
        assert ':' in text && ':' !in "N/A";
        text
  }

  /** The two time slots agree: as written, a real row is on the page exactly
      when the average shows a time (the corrected row likewise), and for a
      positive time the average shown is the text of a count between 0 and the
      whole time. */
  lemma TimeSlotsAgree(timeTaken: Option<int>, n: int)
    requires n > 0
    ensures TimeTakenRowAsWritten(timeTaken).Row? <==> AveragePerQuestion(timeTaken, n) != "N/A"
    ensures TimeTakenRow(timeTaken) != NoRow <==> AveragePerQuestion(timeTaken, n) != "N/A"
    ensures timeTaken.Some? && timeTaken.value > 0 ==>
      exists avg :: 0 <= avg <= timeTaken.value && AveragePerQuestion(timeTaken, n) == FormatTime(avg)
  {
    if timeTaken.Some? && timeTaken.value > 0 {
      FloorDivShrinks(timeTaken.value, n);
      var avg := FloorDiv(timeTaken.value, n);
      assert 0 <= avg <= timeTaken.value && AveragePerQuestion(timeTaken, n) == FormatTime(avg);
    }
  }
}
