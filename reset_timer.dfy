/** The per-item reset-timer evaluator shared by the list card and the grid
    card: whether an item needs a check at instant `now`, and the `HH:MM:SS`
    countdown shown while it does not. Time is integer milliseconds. */
module ResetTimer {
  import opened Wrappers

  const MsPerSecond: int := 1000
  const MsPerMinute: int := 60 * 1000
  const MsPerHour: int := 60 * 60 * 1000

  /** Milliseconds left in the reset window: `resetTime - elapsed`. */
  function Remaining(now: int, lastChecked: int, resetHours: int): (r: int)
    ensures r <= 0 <==> now - lastChecked >= resetHours * MsPerHour
    ensures r + (now - lastChecked) == resetHours * MsPerHour
  {
    resetHours * MsPerHour - (now - lastChecked)
  }

  /** The reference definition of "needs check": never checked, or at least
      `resetHours` hours have elapsed since the last check. */
  predicate NeedsCheck(now: int, lastChecked: Option<int>, resetHours: int) {
    lastChecked.None? || now - lastChecked.value >= resetHours * MsPerHour
  }

  // ---------------------------------------------------------------------
  // Decimal text, `toString` and `padStart`

  predicate IsDigit(c: char) {
    '0' <= c <= '9'
  }

  predicate AllDigits(s: string) {
    forall i :: 0 <= i < |s| ==> IsDigit(s[i])
  }

  function DigitChar(d: nat): (c: char)
    requires d < 10
    ensures IsDigit(c)
  {
    (48 + d) as char
  }

  function DigitValue(c: char): (d: nat)
    requires IsDigit(c)
    ensures d < 10
  {
    c as int - 48
  }

  /** `n.toString()` for a non-negative integer. */
  function Digits(n: nat): (s: string)
    ensures 1 <= |s| && AllDigits(s)
    ensures n < 10 <==> |s| == 1
    ensures n < 100 ==> |s| <= 2
    ensures n >= 100 ==> |s| >= 3
    ensures n >= 10 ==> s[0] != '0'
  {
    if n < 10 then [DigitChar(n)] else Digits(n / 10) + [DigitChar(n % 10)]
  }

  /** The number a string of decimal digits denotes (leading zeros allowed). */
  function ValueOf(s: string): nat
    requires AllDigits(s)
  {
    if s == [] then 0 else ValueOf(s[..|s| - 1]) * 10 + DigitValue(s[|s| - 1])
  }

  lemma {:induction false} ValueOfDigits(n: nat)
    ensures ValueOf(Digits(n)) == n
  {
    if n >= 10 {
      var s := Digits(n);
      assert s[..|s| - 1] == Digits(n / 10);
      ValueOfDigits(n / 10);
    }
  }

  lemma {:induction false} ValueOfLeadingZero(s: string)
    requires AllDigits(s)
    ensures AllDigits(['0'] + s) && ValueOf(['0'] + s) == ValueOf(s)
  {
    if s != [] {
      var z := ['0'] + s;
      assert z[..|z| - 1] == ['0'] + s[..|s| - 1];
      ValueOfLeadingZero(s[..|s| - 1]);
    }
  }

  /** `s.padStart(width, fill)` with a one-character fill. */
  function PadStart(s: string, width: nat, fill: char): (r: string)
    ensures |r| == if |s| >= width then |s| else width
    ensures r[|r| - |s|..] == s
    ensures forall i :: 0 <= i < |r| - |s| ==> r[i] == fill
    decreases width - |s|
  {
    if |s| >= width then s else PadStart([fill] + s, width, fill)
  }

  lemma {:induction false} ValueOfPadStart(s: string, width: nat)
    requires AllDigits(s)
    ensures AllDigits(PadStart(s, width, '0'))
    ensures ValueOf(PadStart(s, width, '0')) == ValueOf(s)
    decreases width - |s|
  {
    if |s| < width {
      ValueOfLeadingZero(s);
      ValueOfPadStart(['0'] + s, width);
    }
  }

  /** One field of the countdown: `n.toString().padStart(2, "0")`. */
  function Field(n: nat): (r: string)
    ensures AllDigits(r) && ValueOf(r) == n
    ensures |r| >= 2
    ensures n < 100 ==> |r| == 2
    ensures n >= 100 ==> r == Digits(n)
  {
    ValueOfDigits(n);
    ValueOfPadStart(Digits(n), 2);
    PadStart(Digits(n), 2, '0')
  }

  // ---------------------------------------------------------------------
  // The countdown

  datatype Clock = Clock(hours: nat, minutes: nat, seconds: nat)

  function TotalSeconds(c: Clock): nat {
    c.hours * 3600 + c.minutes * 60 + c.seconds
  }

  lemma {:induction false} MulAtLeast(d: int, k: int)
    requires d > 0 && k >= 1
    ensures d * k >= d
    decreases k
  {
    if k > 1 {
      MulAtLeast(d, k - 1);
      assert d * k == d * (k - 1) + d;
    }
  }

  /** Euclidean division is determined by its quotient-remainder equation. */
  lemma DivModUnique(r: int, d: int, q: int, m: int)
    requires 0 < d && 0 <= m < d && r == d * q + m
    ensures r / d == q && r % d == m
  {
    var q', m' := r / d, r % d;
    assert d * q' + m' == d * q + m;
    if q > q' {
      MulAtLeast(d, q - q');
      assert false;
    } else if q < q' {
      MulAtLeast(d, q' - q);
      assert false;
    }
  }

  /** The floor divisions and remainders of the source, on a positive number
      of milliseconds. */
  function ClockOf(remaining: nat): (c: Clock)
    ensures c.minutes < 60 && c.seconds < 60
    ensures TotalSeconds(c) == remaining / MsPerSecond
  {
    var c := Clock(remaining / MsPerHour, (remaining % MsPerHour) / MsPerMinute, (remaining % MsPerMinute) / MsPerSecond);
    ClockDecomposes(remaining);
    c
  }

  lemma ClockDecomposes(remaining: nat)
    ensures (remaining % MsPerHour) / MsPerMinute < 60
    ensures (remaining % MsPerMinute) / MsPerSecond < 60
    ensures (remaining / MsPerHour) * 3600 + ((remaining % MsPerHour) / MsPerMinute) * 60
              + (remaining % MsPerMinute) / MsPerSecond == remaining / MsPerSecond
  {
    var q, a := remaining / 1000, remaining % 1000;
    var p, s := q / 60, q % 60;
    var h, m := p / 60, p % 60;
    assert remaining == 1000 * q + a;
    assert q == 60 * p + s;
    assert p == 60 * h + m;
    assert remaining == 3600000 * h + (60000 * m + 1000 * s + a);
    DivModUnique(remaining, 3600000, h, 60000 * m + 1000 * s + a);
    assert remaining == 60000 * (60 * h + m) + (1000 * s + a);
    DivModUnique(remaining, 60000, 60 * h + m, 1000 * s + a);
    DivModUnique(60000 * m + 1000 * s + a, 60000, m, 1000 * s + a);
    DivModUnique(1000 * s + a, 1000, s, a);
  }

  /** Any clock whose minutes and seconds are below 60 is determined by its
      total: the countdown fields are the only such reading of the seconds. */
  lemma {:induction false} ClockUnique(c: Clock, d: Clock)
    requires c.minutes < 60 && c.seconds < 60 && d.minutes < 60 && d.seconds < 60
    requires TotalSeconds(c) == TotalSeconds(d)
    ensures c == d
  {
    var t := TotalSeconds(c);
    DivModUnique(t, 60, c.hours * 60 + c.minutes, c.seconds);
    DivModUnique(t, 60, d.hours * 60 + d.minutes, d.seconds);
    DivModUnique(c.hours * 60 + c.minutes, 60, c.hours, c.minutes);
    DivModUnique(d.hours * 60 + d.minutes, 60, d.hours, d.minutes);
  }

  /** The template literal `${HH}:${MM}:${SS}`. */
  function Countdown(c: Clock): (t: string)
    ensures |t| >= 8
    ensures forall i :: 0 <= i < |t| ==> IsDigit(t[i]) || t[i] == ':'
  {
    var hh, mm, ss := Field(c.hours), Field(c.minutes), Field(c.seconds);
    JoinedFields(hh, mm, ss);
    hh + [':'] + mm + [':'] + ss
  }

  /** Digit strings joined by colons hold only digits and colons. */
  lemma JoinedFields(hh: string, mm: string, ss: string)
    requires AllDigits(hh) && AllDigits(mm) && AllDigits(ss)
    ensures var t := hh + [':'] + mm + [':'] + ss;
            forall i :: 0 <= i < |t| ==> IsDigit(t[i]) || t[i] == ':'
  {
    var t := hh + [':'] + mm + [':'] + ss;
    forall i | 0 <= i < |t|
      ensures IsDigit(t[i]) || t[i] == ':'
    {
      if i < |hh| {
        assert t[i] == hh[i];
      } else if |hh| < i < |hh| + 1 + |mm| {
        assert t[i] == mm[i - |hh| - 1];
      } else if |hh| + 1 + |mm| < i {
        assert t[i] == ss[i - |hh| - 2 - |mm|];
      }
    }
  }

  /** `s.split(sep)`. */
  function SplitOn(s: string, sep: char): (parts: seq<string>)
    ensures |parts| >= 1
  {
    if s == [] then [""]
    else if s[0] == sep then [""] + SplitOn(s[1..], sep)
    else
      var rest := SplitOn(s[1..], sep);
      [[s[0]] + rest[0]] + rest[1..]
  }

  lemma {:induction false} SplitNoSep(a: string, sep: char)
    requires sep !in a
    ensures SplitOn(a, sep) == [a]
  {
    if a != [] {
      SplitNoSep(a[1..], sep);
      assert [a[0]] + a[1..] == a;
    }
  }

  lemma {:induction false} SplitAtSep(a: string, b: string, sep: char)
    requires sep !in a
    ensures SplitOn(a + [sep] + b, sep) == [a] + SplitOn(b, sep)
  {
    var s := a + [sep] + b;
    if a == [] {
      assert s[1..] == b;
    } else {
      assert s[1..] == a[1..] + [sep] + b;
      SplitAtSep(a[1..], b, sep);
      assert [a[0]] + a[1..] == a;
    }
  }

  predicate IsNumeral(s: string) {
    s != [] && AllDigits(s)
  }

  /** Reads an `H:M:S` text back: three non-empty digit fields separated by
      colons. This is the reference the countdown text is checked against. */
  function ParseCountdown(t: string): Option<Clock> {
    var parts := SplitOn(t, ':');
    if |parts| == 3 && IsNumeral(parts[0]) && IsNumeral(parts[1]) && IsNumeral(parts[2]) then
      Some(Clock(ValueOf(parts[0]), ValueOf(parts[1]), ValueOf(parts[2])))
    else
      None
  }

  lemma DigitsHaveNoColon(s: string)
    requires AllDigits(s)
    ensures ':' !in s
  {
  }

  /** The countdown text is three colon-separated fields, each at least two
      digits wide, minutes and seconds exactly two when below 60, and it
      reads back as the clock it was made from. */
  lemma CountdownRoundTrip(c: Clock)
    ensures ParseCountdown(Countdown(c)) == Some(c)
    ensures |Field(c.hours)| >= 2
    ensures c.minutes < 60 ==> |Field(c.minutes)| == 2
    ensures c.seconds < 60 ==> |Field(c.seconds)| == 2
  {
    var h, m, s := Field(c.hours), Field(c.minutes), Field(c.seconds);
    assert Countdown(c) == h + [':'] + m + [':'] + s;
    ParseFields(h, m, s);
  }

  lemma ParseFields(h: string, m: string, s: string)
    requires h != [] && m != [] && s != []
    requires AllDigits(h) && AllDigits(m) && AllDigits(s)
    ensures ParseCountdown(h + [':'] + m + [':'] + s) == Some(Clock(ValueOf(h), ValueOf(m), ValueOf(s)))
  {
    DigitsHaveNoColon(h);
    DigitsHaveNoColon(m);
    DigitsHaveNoColon(s);
    var tail := m + [':'] + s;
    assert h + [':'] + m + [':'] + s == h + [':'] + tail;
    SplitAtSep(h, tail, ':');
    SplitAtSep(m, s, ':');
    SplitNoSep(s, ':');
    var parts := SplitOn(h + [':'] + m + [':'] + s, ':');
    assert parts == [h, m, s];
    assert parts[0] == h && parts[1] == m && parts[2] == s;
  }

  // ---------------------------------------------------------------------
  // One evaluation of `updateTimer`

  /** What one run of `updateTimer` stores: `needsCheck` and `timeRemaining`. */
  datatype Evaluation = Evaluation(needsCheck: bool, timeRemaining: string)

  function Evaluate(now: int, lastChecked: Option<int>, resetHours: int): (e: Evaluation)
    ensures lastChecked.None? ==> e == Evaluation(true, "")
    ensures e.needsCheck <==> NeedsCheck(now, lastChecked, resetHours)
    ensures e.needsCheck <==> e.timeRemaining == ""
  {
    match lastChecked
    case None => Evaluation(true, "")
    case Some(t) =>
      var remaining := Remaining(now, t, resetHours);
      if remaining <= 0 then Evaluation(true, "")
      else Evaluation(false, Countdown(ClockOf(remaining)))
  }

  /** The displayed clock, when the item is in cooldown: the countdown text
      reads back as hours, minutes below 60 and seconds below 60 that
      recombine to the whole seconds remaining (sub-second time truncated). */
  function DisplayedClock(now: int, lastChecked: int, resetHours: int): (c: Clock)
    requires !NeedsCheck(now, Some(lastChecked), resetHours)
    ensures ParseCountdown(Evaluate(now, Some(lastChecked), resetHours).timeRemaining) == Some(c)
    ensures c.minutes < 60 && c.seconds < 60
    ensures TotalSeconds(c) == Remaining(now, lastChecked, resetHours) / MsPerSecond
  {
    var remaining := Remaining(now, lastChecked, resetHours);
    CountdownRoundTrip(ClockOf(remaining));
    ClockOf(remaining)
  }

  /** Hours are not wrapped at 24: right after a check the countdown shows the
      whole window, `resetHours:00:00`, also for windows of a day or more. */
  lemma JustChecked(t: int, resetHours: int)
    requires resetHours > 0
    ensures !Evaluate(t, Some(t), resetHours).needsCheck
    ensures ParseCountdown(Evaluate(t, Some(t), resetHours).timeRemaining) == Some(Clock(resetHours, 0, 0))
  {
    WholeHours(resetHours);
    DisplayedClockIs(t, t, resetHours, Clock(resetHours, 0, 0));
  }

  lemma WholeHours(hours: int)
    requires hours > 0
    ensures hours * MsPerHour > 0
    ensures hours * MsPerHour / MsPerSecond == hours * 3600
  {
    MulAtLeast(MsPerHour, hours);
    DivModUnique(hours * MsPerHour, 1000, hours * 3600, 0);
  }

  /** The clock shown in cooldown is the one clock with minutes and seconds
      below 60 whose total is the whole seconds remaining. */
  lemma DisplayedClockIs(now: int, lastChecked: int, resetHours: int, d: Clock)
    requires Remaining(now, lastChecked, resetHours) > 0
    requires d.minutes < 60 && d.seconds < 60
    requires TotalSeconds(d) == Remaining(now, lastChecked, resetHours) / MsPerSecond
    ensures !Evaluate(now, Some(lastChecked), resetHours).needsCheck
    ensures ParseCountdown(Evaluate(now, Some(lastChecked), resetHours).timeRemaining) == Some(d)
  {
    ClockUnique(DisplayedClock(now, lastChecked, resetHours), d);
  }

  /** `remaining` strictly decreases as time passes. */
  lemma RemainingDecreases(now1: int, now2: int, lastChecked: int, resetHours: int)
    requires now1 < now2
    ensures Remaining(now2, lastChecked, resetHours) < Remaining(now1, lastChecked, resetHours)
  {
  }

  /** Once an item needs a check it keeps needing one until it is checked
      again: `needsCheck` never flips back as `now` grows. */
  lemma NeedsCheckPersists(now1: int, now2: int, lastChecked: Option<int>, resetHours: int)
    requires now1 <= now2
    requires Evaluate(now1, lastChecked, resetHours).needsCheck
    ensures Evaluate(now2, lastChecked, resetHours).needsCheck
  {
  }

  /** One tick of the one-second poll, while the window is still open after
      it, takes exactly one second off the displayed clock; the tick that
      closes the window turns the item to "needs check". */
  lemma {:induction false} OneSecondTick(now: int, lastChecked: int, resetHours: int)
    requires !NeedsCheck(now, Some(lastChecked), resetHours)
    ensures !NeedsCheck(now + MsPerSecond, Some(lastChecked), resetHours) ==>
              TotalSeconds(DisplayedClock(now + MsPerSecond, lastChecked, resetHours))
                == TotalSeconds(DisplayedClock(now, lastChecked, resetHours)) - 1
    ensures Remaining(now, lastChecked, resetHours) <= MsPerSecond ==>
              Evaluate(now + MsPerSecond, Some(lastChecked), resetHours).needsCheck
  {
    var r := Remaining(now, lastChecked, resetHours);
    if !NeedsCheck(now + MsPerSecond, Some(lastChecked), resetHours) {
      assert Remaining(now + MsPerSecond, lastChecked, resetHours) == r - 1000;
      DivModUnique(r - 1000, 1000, r / 1000 - 1, r % 1000);
    }
  }

  // ---------------------------------------------------------------------
  // The click handler's decision

  /** What `handleCardClick` does: call `onCheck`, open the confirm-uncheck
      modal, or nothing. */
  datatype ClickEffect = CallCheck | OpenModal | NoEffect

  function ClickEffectOf(needsCheck: bool, lastChecked: Option<int>): (r: ClickEffect)
    ensures r == CallCheck <==> needsCheck
    ensures r == OpenModal <==> !needsCheck && lastChecked.Some?
    ensures r == NoEffect <==> !needsCheck && lastChecked.None?
  {
    if needsCheck then CallCheck
    else if lastChecked.Some? then OpenModal
    else NoEffect
  }

  /** On state produced by an evaluation the click never does nothing: it
      checks an item that needs a check and asks for confirmation on an item
      in cooldown. */
  lemma ClickAfterEvaluation(now: int, lastChecked: Option<int>, resetHours: int)
    ensures ClickEffectOf(Evaluate(now, lastChecked, resetHours).needsCheck, lastChecked)
              == if NeedsCheck(now, lastChecked, resetHours) then CallCheck else OpenModal
  {
  }

  /** Two sample readings with an eight-hour window: eight hours and one
      second after a check the item needs a check; one hour after, the
      countdown reads `07:00:00`. */
  lemma Scenarios(now: int)
    ensures Evaluate(now, Some(now - 8 * MsPerHour - MsPerSecond), 8).needsCheck
    ensures Evaluate(now, Some(now - MsPerHour), 8) == Evaluation(false, "07:00:00")
  {
    var c := ClockOf(7 * MsPerHour);
    ClockUnique(c, Clock(7, 0, 0));
    SevenHoursText();
    assert Remaining(now, now - MsPerHour, 8) == 7 * MsPerHour;
  }

  /** The countdown of seven whole hours. */
  lemma SevenHoursText()
    ensures Countdown(Clock(7, 0, 0)) == "07:00:00"
  {
    assert Field(7) == "07" by {
      assert Digits(7) == "7";
    }
    assert Field(0) == "00" by {
      assert Digits(0) == "0";
    }
  }
}
