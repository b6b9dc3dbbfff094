/** The `formatTime` helper that both the quiz page and the score page define
    (identically): a number of seconds rendered as "minutes:seconds", the seconds
    padded to two digits. Also the decimal rendering of integers it relies on
    (`Number.prototype.toString`, `String.prototype.padStart`) and a parser that
    reads such a clock string back. */
module TimeFormat {
  import opened Wrappers
  import opened JsMath

  predicate IsDigit(c: char) {
    '0' <= c <= '9'
  }

  predicate AllDigits(s: string) {
    forall i | 0 <= i < |s| :: IsDigit(s[i])
  }

  function DigitChar(d: int): (c: char)
    requires 0 <= d < 10
    ensures IsDigit(c) && c as int - '0' as int == d
  {
    (d + '0' as int) as char
  }

  /** The decimal text of a non-negative integer, without leading zeros. */
  function NatToDecimal(n: nat): (s: string)
    ensures 1 <= |s| && AllDigits(s)
    ensures n > 0 ==> s[0] != '0'
  {
    if n < 10 then [DigitChar(n)] else NatToDecimal(n / 10) + [DigitChar(n % 10)]
  }

  /** `String(i)` for an integer: a minus sign in front of a negative one. */
  function IntToDecimal(i: int): (s: string)
    ensures 1 <= |s|
    ensures i >= 0 <==> AllDigits(s)
    ensures i >= 0 ==> s == NatToDecimal(i)
    ensures i < 0 ==> s[0] == '-' && s[1..] == NatToDecimal(-i)
  {
    if i < 0 then
      var s := "-" + NatToDecimal(-i);
      assert !IsDigit(s[0]);
      s
    else
      NatToDecimal(i)
  }

  /** The value of a string of decimal digits (the empty string reads as 0). */
  function DecimalValue(s: string): nat
    requires AllDigits(s)
  {
    if s == [] then 0 else DecimalValue(s[..|s| - 1]) * 10 + (s[|s| - 1] as int - '0' as int)
  }

  /** Reading back the decimal text of `n` gives `n`. */
  lemma {:induction false} DecimalRoundTrip(n: nat)
    ensures DecimalValue(NatToDecimal(n)) == n
  {
    if n >= 10 {
      var s := NatToDecimal(n);
      assert s[..|s| - 1] == NatToDecimal(n / 10);
      DecimalRoundTrip(n / 10);
    }
  }

  /** `s.padStart(width, fill)`: `s` preceded by as many `fill` characters as it
      takes to reach `width`; a string already that long is left alone. */
  function PadStart(s: string, width: nat, fill: char): (r: string)
    ensures |r| == if |s| >= width then |s| else width
    ensures r[|r| - |s|..] == s
    ensures forall i | 0 <= i < |r| - |s| :: r[i] == fill
  {
    if |s| >= width then s else seq(width - |s|, _ => fill) + s
  }

  /** The split `formatTime` makes: `Math.floor(seconds / 60)` and `seconds % 60`
      (JavaScript's remainder, negative for a negative count). */
  function MinutesSeconds(seconds: int): (ms: (int, int))
    ensures seconds >= 0 ==> 0 <= ms.0 && 0 <= ms.1 < 60 && ms.0 * 60 + ms.1 == seconds
    ensures seconds < 0 ==> ms.0 < 0 && -60 < ms.1 <= 0
  {
    (FloorDiv(seconds, 60), TruncRem(seconds, 60))
  }

  /** The seconds field of `formatTime`: a count below a minute, padded to two
      digits, reads back as that count. */
  lemma PaddedSeconds(n: nat)
    requires n < 60
    ensures var t := PadStart(NatToDecimal(n), 2, '0');
      |t| == 2 && AllDigits(t) && DecimalValue(t) == n
  {
    var t := PadStart(NatToDecimal(n), 2, '0');
    if n < 10 {
      assert t == ['0', DigitChar(n)];
    } else {
      assert NatToDecimal(n) == [DigitChar(n / 10), DigitChar(n % 10)];
      assert t == [DigitChar(n / 10), DigitChar(n % 10)];
    }
    assert t[..1][..0] == [];
    assert DecimalValue(t[..1]) == t[0] as int - '0' as int;
  }

  /** Reading "head:tail" with a two-digit tail: where the colon sits and what the
      two parts are worth. */
  lemma ClockParts(r: string, head: string, tail: string, mins: nat, secs: nat)
    requires r == head + ":" + tail
    requires AllDigits(head) && DecimalValue(head) == mins
    requires |tail| == 2 && AllDigits(tail) && DecimalValue(tail) == secs
    ensures 3 + |head| == |r| && r[|r| - 3] == ':'
    ensures r[..|r| - 3] == head && r[|r| - 2..] == tail
    ensures AllDigits(r[..|r| - 3]) && DecimalValue(r[..|r| - 3]) == mins
    ensures AllDigits(r[|r| - 2..]) && DecimalValue(r[|r| - 2..]) == secs
  {
    assert r[..|r| - 3] == head;
    assert r[|r| - 2..] == tail;
  }

  /** For a non-negative count the split is Euclidean division by 60. */
  lemma MinutesSecondsOfCount(seconds: nat)
    ensures MinutesSeconds(seconds) == (seconds / 60, seconds % 60)
  {
    var ms := MinutesSeconds(seconds);
    assert ms.0 * 60 + ms.1 == seconds && 0 <= ms.1 < 60;
  }

  /** `formatTime(seconds)`: `${mins}:${secs.toString().padStart(2, "0")}`. For a
      non-negative count the seconds field is exactly two characters after the
      colon. */
  function FormatTime(seconds: int): (r: string)
    ensures ':' in r
    ensures seconds >= 0 ==> 4 <= |r| && r[|r| - 3] == ':'
  {
    var ms := MinutesSeconds(seconds);
    var head := IntToDecimal(ms.0);
    var tail := PadStart(IntToDecimal(ms.1), 2, '0');
    assert (head + ":" + tail)[|head|] == ':';
    if seconds >= 0 then
      MinutesSecondsOfCount(seconds);
      PaddedSeconds(ms.1);
      assert |tail| == 2;
      head + ":" + tail
    else
      head + ":" + tail
  }

  /** Reads "M:SS" (minutes in decimal, then exactly two digits below 60) back as a
      number of seconds; anything else is None. */
  function ParseClock(t: string): (r: Option<nat>)
  {
    if 4 <= |t| && t[|t| - 3] == ':' && AllDigits(t[..|t| - 3]) && AllDigits(t[|t| - 2..])
       && DecimalValue(t[|t| - 2..]) < 60
    then Some(DecimalValue(t[..|t| - 3]) * 60 + DecimalValue(t[|t| - 2..]))
    else None
  }

  /** The text `FormatTime` gives for a count: the minutes part is the decimal
      text of the whole minutes, and the last two characters are the digits of the
      seconds below a minute. */
  lemma FormatTimeParts(seconds: nat, r: string)
    requires r == FormatTime(seconds)
    ensures 4 <= |r| && r[|r| - 3] == ':' && AllDigits(r[..|r| - 3]) && AllDigits(r[|r| - 2..])
    ensures DecimalValue(r[..|r| - 3]) == seconds / 60 && DecimalValue(r[|r| - 2..]) == seconds % 60
    ensures r[..|r| - 3] == NatToDecimal(seconds / 60)
  {
    MinutesSecondsOfCount(seconds);
    var head := NatToDecimal(seconds / 60);
    var tail := PadStart(NatToDecimal(seconds % 60), 2, '0');
    assert r == head + ":" + tail;
    PaddedSeconds(seconds % 60);
    DecimalRoundTrip(seconds / 60);
    ClockParts(r, head, tail, seconds / 60, seconds % 60);
  }

  /** `ParseClock` reads a text laid out as "minutes:SS" as the count it stands for. */
  lemma ParseClockReads(t: string, seconds: nat)
    requires 4 <= |t| && t[|t| - 3] == ':' && AllDigits(t[..|t| - 3]) && AllDigits(t[|t| - 2..])
    requires DecimalValue(t[..|t| - 3]) == seconds / 60 && DecimalValue(t[|t| - 2..]) == seconds % 60
    ensures ParseClock(t) == Some(seconds)
  {
  }

  /** `FormatTime` loses nothing for a non-negative count: parsing its text gives
      the count back. */
  lemma FormatTimeRoundTrip(seconds: nat)
    ensures ParseClock(FormatTime(seconds)) == Some(seconds)
  {
    var t := FormatTime(seconds);
    FormatTimeParts(seconds, t);
    ParseClockReads(t, seconds);
  }
}
