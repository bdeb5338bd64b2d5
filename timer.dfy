/**
 * The countdown of lets_quiz/static/js/quiz_timer.js: formatTime renders whole
 * seconds as M:SS, and tick shows the time left and counts it down by one second,
 * or, once it is used up, shows the expiry message and redirects to the end page.
 */
module Timer {
  import opened Wrappers

  /** The character of a decimal digit. */
  function DigitChar(d: nat): char
    requires d < 10
  {
    (48 + d) as char
  }

  predicate IsDigit(c: char)
  {
    '0' <= c <= '9'
  }

  function DigitValue(c: char): nat
    requires IsDigit(c)
  {
    c as int - 48
  }

  /** n in decimal without leading zeros, as JavaScript's String(n) writes it. */
  function Decimal(n: nat): (s: string)
    ensures |s| >= 1 && forall i :: 0 <= i < |s| ==> IsDigit(s[i])
  {
    if n < 10 then [DigitChar(n)] else Decimal(n / 10) + [DigitChar(n % 10)]
  }

  /** The value of a string of decimal digits. */
  function ParseDecimal(s: string): nat
    requires forall i :: 0 <= i < |s| ==> IsDigit(s[i])
  {
    if s == [] then 0 else 10 * ParseDecimal(s[..|s| - 1]) + DigitValue(s[|s| - 1])
  }

  lemma {:induction false} DecimalRoundTrip(n: nat)
    ensures ParseDecimal(Decimal(n)) == n
  {
    if n >= 10 {
      var s := Decimal(n);
      assert s[..|s| - 1] == Decimal(n / 10);
      DecimalRoundTrip(n / 10);
    }
  }

  /** formatTime: minutes, a colon, and the seconds padded to two digits. */
  function FormatTime(seconds: nat): (t: string)
    ensures |t| >= 4 && t[|t| - 3] == ':'
    ensures forall i :: 0 <= i < |t| && i != |t| - 3 ==> IsDigit(t[i])
  {
    var minutes := seconds / 60;
    var secs := seconds % 60;
    assert secs >= 10 ==> Decimal(secs) == Decimal(secs / 10) + [DigitChar(secs % 10)] && |Decimal(secs / 10)| == 1;
    Decimal(minutes) + ":" + (if secs < 10 then "0" + Decimal(secs) else Decimal(secs))
  }

  /** Reads an M:SS text back into seconds; None when it is not of that form. */
  function ParseTime(t: string): Option<nat>
  {
    if |t| < 4 || t[|t| - 3] != ':' then None
    else if !(forall i :: 0 <= i < |t| && i != |t| - 3 ==> IsDigit(t[i])) then None
    else
      var minutesText := t[..|t| - 3];
      assert forall i :: 0 <= i < |minutesText| ==> IsDigit(minutesText[i]) by {
        forall i | 0 <= i < |minutesText| ensures IsDigit(minutesText[i]) {
          assert minutesText[i] == t[i];
        }
      }
      Some(60 * ParseDecimal(minutesText) + 10 * DigitValue(t[|t| - 2]) + DigitValue(t[|t| - 1]))
  }

  /**
   * The seconds part is always exactly two digits after the colon, and the text
   * reads back as the seconds it was made from.
   */
  lemma FormatTimeRoundTrip(seconds: nat)
    ensures var t := FormatTime(seconds);
            && |t| >= 4 && t[|t| - 3] == ':' && IsDigit(t[|t| - 2]) && IsDigit(t[|t| - 1])
            && 10 * DigitValue(t[|t| - 2]) + DigitValue(t[|t| - 1]) == seconds % 60
            && ParseTime(t) == Some(seconds)
  {
    var minutes := seconds / 60;
    var secs := seconds % 60;
    var m := Decimal(minutes);
    var padded := if secs < 10 then "0" + Decimal(secs) else Decimal(secs);
    var t := FormatTime(seconds);
    assert t == m + ":" + padded;
    if secs >= 10 {
      assert Decimal(secs) == Decimal(secs / 10) + [DigitChar(secs % 10)];
      assert Decimal(secs / 10) == [DigitChar(secs / 10)];
    }
    assert |padded| == 2;
    assert padded == [DigitChar(secs / 10), DigitChar(secs % 10)];
    assert t[..|t| - 3] == m;
    forall i | 0 <= i < |t| && i != |t| - 3 ensures IsDigit(t[i]) {
      if i < |m| {
        assert t[i] == m[i];
      }
    }
    DecimalRoundTrip(minutes);
  }

  /** What the timer display shows. */
  datatype Display =
    | Blank
    | NoTimeLimit        // "Nincs időkorlát"
    | Clock(text: string)
    | TimeUp             // "Lejárt az idő!"
    | MeasurementError   // "Hiba az időmérésben"

  /** The time left after one tick that saw t. */
  function StepTime(t: int): int
  {
    if t <= 0 then t else t - 1
  }

  /** The time left after k ticks starting from t. */
  function AfterTicks(t: int, k: nat): int
  {
    if k == 0 then t else StepTime(AfterTicks(t, k - 1))
  }

  /**
   * The time left after k ticks from n > 0 seconds: n - k for the first n ticks,
   * then 0 for good. So ticks 1 to n start from n, n - 1, ..., 1 (each shown and
   * then decremented), and tick n + 1 is the first to start from 0, which Tick
   * turns into TimeUp.
   */
  lemma {:induction false} TimeLeftCountsDown(n: nat, k: nat)
    requires n > 0
    ensures k <= n ==> AfterTicks(n, k) == n - k
    ensures k >= n ==> AfterTicks(n, k) == 0
  {
    if k > 0 {
      TimeLeftCountsDown(n, k - 1);
    }
  }

  /**
   * The timer of one page. timeLeft is None for NaN; running records that the
   * one-second interval was set up; redirected that the page was sent to the end URL.
   */
  class Countdown {
    var timeLeft: Option<int>
    var display: Display
    var running: bool
    var redirected: bool

    /**
     * The DOMContentLoaded handler, given the parseInt of the time-left attribute
     * (None when it is NaN). A positive time starts the countdown with one tick.
     */
    constructor (parsed: Option<int>)
      ensures !redirected
      ensures parsed.None? || parsed.value <= 0 ==>
                display == NoTimeLimit && !running && timeLeft == parsed
      ensures parsed.Some? && parsed.value > 0 ==>
                && running && display == Clock(FormatTime(parsed.value))
                && timeLeft == Some(parsed.value - 1)
    {
      timeLeft := parsed;
      display := Blank;
      running := false;
      redirected := false;
      new;
      if parsed.None? || parsed.value <= 0 {
        display := NoTimeLimit;
        return;
      }
      Tick();
      running := true;
    }

    /** tick */
    method Tick()
      modifies this
      ensures running == old(running)
      ensures old(timeLeft).None? ==>
                display == MeasurementError && timeLeft == old(timeLeft) && redirected == old(redirected)
      ensures old(timeLeft).Some? && old(timeLeft).value <= 0 ==>
                display == TimeUp && redirected && timeLeft == old(timeLeft)
      ensures old(timeLeft).Some? && old(timeLeft).value > 0 ==>
                && display == Clock(FormatTime(old(timeLeft).value))
                && redirected == old(redirected)
      ensures old(timeLeft).Some? ==> timeLeft == Some(StepTime(old(timeLeft).value))
    {
      if timeLeft.None? {
        display := MeasurementError;
        return;
      }
      if timeLeft.value <= 0 {
        display := TimeUp;
        redirected := true;
        return;
      }
      display := Clock(FormatTime(timeLeft.value));
      timeLeft := Some(timeLeft.value - 1);
    }
  }
}
