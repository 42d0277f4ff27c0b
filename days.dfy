/** The day-offset calculator: how many whole days a commit lies before
    the start of today, and the weekday-dependent shift that aligns the
    grid's last column with the current week. Instants are integers
    counting nanoseconds, the unit of Go's `time.Duration`. */
module Days {

  /** Sentinel returned for commits older than the display window. */
  const OutOfRange := 99999
  /** Number of days the grid looks back. */
  const DaysInLastSixMonths := 183
  /** `time.Hour * 24` in nanoseconds. */
  const Day := 86_400_000_000_000

  datatype Weekday = Sunday | Monday | Tuesday | Wednesday | Thursday | Friday | Saturday

  /** Go's `time.Weekday` numbering: Sunday is 0, Saturday is 6. */
  function Index(w: Weekday): (n: int)
    ensures 0 <= n <= 6
  {
    match w
    case Sunday => 0
    case Monday => 1
    case Tuesday => 2
    case Wednesday => 3
    case Thursday => 4
    case Friday => 5
    case Saturday => 6
  }

  /** calcOffset, with today's weekday as a parameter: the number of days
      left until the end of the week, counting today. */
  function CalcOffset(w: Weekday): (offset: int)
    ensures offset == 7 - Index(w)
    ensures 1 <= offset <= 7
  {
    match w
    case Sunday => 7
    case Monday => 6
    case Tuesday => 5
    case Wednesday => 4
    case Thursday => 3
    case Friday => 2
    case Saturday => 1
  }

  /** Different weekdays get different offsets. */
  lemma CalcOffsetInjective(v: Weekday, w: Weekday)
    ensures CalcOffset(v) == CalcOffset(w) <==> v == w
  {
  }

  /** The number of 24h steps after which `date` is no longer before
      `nowStart`, as a closed form. */
  function Steps(date: int, nowStart: int): nat
  {
    if date >= nowStart then 0 else (nowStart - date - 1) / Day + 1
  }

  /** Steps(date, nowStart) is the least n with date + n*24h >= nowStart. */
  lemma StepsIsLeast(date: int, nowStart: int)
    ensures date + Steps(date, nowStart) * Day >= nowStart
    ensures Steps(date, nowStart) > 0 ==> date + (Steps(date, nowStart) - 1) * Day < nowStart
  {
    if date < nowStart {
      var x := nowStart - date - 1;
      var q := x / Day;
      assert q * Day <= x < q * Day + Day;
    }
  }

  /** No other step count has the property of StepsIsLeast. */
  lemma StepsUnique(date: int, nowStart: int, n: nat)
    requires date + n * Day >= nowStart
    requires n > 0 ==> date + (n - 1) * Day < nowStart
    ensures n == Steps(date, nowStart)
  {
    StepsIsLeast(date, nowStart);
  }

  /** What CountDaysSinceDate returns: the step count, or OutOfRange once
      more than 183 steps would be needed. */
  function CountDays(date: int, nowStart: int): (days: int)
    ensures days == OutOfRange || 0 <= days <= DaysInLastSixMonths
    ensures date >= nowStart ==> days == 0
  {
    var n := Steps(date, nowStart);
    if n > DaysInLastSixMonths then OutOfRange else n
  }

  /** A commit is out of range exactly when it lies more than 183 days
      before the start of today. */
  lemma CountDaysOutOfRange(date: int, nowStart: int)
    ensures CountDays(date, nowStart) == OutOfRange <==> date + DaysInLastSixMonths * Day < nowStart
  {
    StepsIsLeast(date, nowStart);
    var n := Steps(date, nowStart);
    if n > DaysInLastSixMonths {
      assert date + DaysInLastSixMonths * Day <= date + (n - 1) * Day;
    } else {
      assert date + DaysInLastSixMonths * Day >= date + n * Day;
    }
  }

  /** Within the window the result is the exact number of whole days, in
      units of 24h, from `date` up to the start of today. */
  lemma CountDaysExact(date: int, nowStart: int, n: nat)
    requires n <= DaysInLastSixMonths
    requires nowStart - n * Day <= date
    requires n > 0 ==> date < nowStart - (n - 1) * Day
    ensures CountDays(date, nowStart) == n
  {
    StepsUnique(date, nowStart, n);
  }

  /** CountDaysSinceDate with the start of today as a parameter. The loop
      advances `date` by 24h and stops early once 183 days are exceeded;
      `iterations` counts its rounds. */
  method CountDaysSinceDate(date: int, nowStart: int) returns (days: int, ghost iterations: nat)
    ensures days == CountDays(date, nowStart)
    ensures iterations <= DaysInLastSixMonths + 1
    ensures days != OutOfRange ==> iterations == days
  {
    var d := date;
    days := 0;
    iterations := 0;
    while d < nowStart
      invariant 0 <= days <= DaysInLastSixMonths
      invariant iterations == days
      invariant d == date + days * Day
      invariant days > 0 ==> date + (days - 1) * Day < nowStart
      decreases nowStart - d
    {
      d := d + Day;
      days := days + 1;
      iterations := iterations + 1;
      if days > DaysInLastSixMonths {
        CountDaysOutOfRange(date, nowStart);
        days := OutOfRange;
        return;
      }
    }
    StepsUnique(date, nowStart, days);
  }
}
