/** From an interval to a cron schedule, in exact arithmetic on nanoseconds. */
module CronSchedule {
  import opened Prelude
  import opened Text

  const MINUTE := 60_000_000_000
  const HOUR := 60 * MINUTE
  const DAY := 24 * HOUR
  const MONTH := 31 * DAY

  datatype Unit = Minutes | Hours | Days | Months

  datatype Schedule = Schedule(step: int, every: Unit)

  /** Rounded up. */
  function CeilDiv(a: int, b: int): int
    requires b > 0
  {
    -((-a) / b)
  }

  /** The steps of each coarser unit are rounded from those of the finer one. */
  function ToSchedule(duration: int): Option<Schedule> {
    var minutes, hours := CeilDiv(duration, MINUTE), CeilDiv(duration, HOUR);
    var days := CeilDiv(hours, 24);
    var months := CeilDiv(days, 31);
    if minutes < 60 then Some(Schedule(minutes, Minutes))
    else if hours < 24 then Some(Schedule(hours, Hours))
    else if days < 32 then Some(Schedule(days, Days))
    else if months < 13 then Some(Schedule(months, Months))
    else None
  }

  function Length(u: Unit): int {
    match u
    case Minutes => MINUTE
    case Hours => HOUR
    case Days => DAY
    case Months => MONTH
  }

  function Period(s: Schedule): int {
    s.step * Length(s.every)
  }

  function MaxStep(u: Unit): int {
    match u
    case Minutes => 59
    case Hours => 23
    case Days => 31
    case Months => 12
  }

  function CronText(s: Schedule): string
    requires s.step >= 0
  {
    var step := "*/" + Decimal(s.step);
    match s.every
    case Minutes => step + " * * * *"
    case Hours => "0 " + step + " * * *"
    case Days => "0 0 " + step + " * *"
    case Months => "0 0 1 " + step + " *"
  }

  /** `parsed` is the duration that a text stands for, if it stands for one. */
  function IntervalToCron(text: string, parsed: Option<int>): Option<string> {
    if text == "" || parsed.None? then None
    else
      var s := ToSchedule(parsed.value);
      if s.None? then None
      else if s.value.step < 0 then Some("*/-" + Decimal(-s.value.step) + " * * * *")
      else Some(CronText(s.value))
  }

  lemma CeilBounds(a: int, b: int)
    requires b > 0
    ensures a <= CeilDiv(a, b) * b < a + b
  {
  }

  lemma Times(x: int, y: int, b: int)
    requires x <= y && b > 0
    ensures x * b <= y * b
    ensures (y + 1) * b == y * b + b
  {
  }

  lemma CeilMonotone(a: int, b: int, d: int)
    requires a <= d && b > 0
    ensures CeilDiv(a, b) * b <= CeilDiv(d, b) * b
  {
    CeilBounds(a, b);
    CeilBounds(d, b);
    if CeilDiv(a, b) <= CeilDiv(d, b) {
      Times(CeilDiv(a, b), CeilDiv(d, b), b);
    } else {
      Times(CeilDiv(d, b), CeilDiv(a, b) - 1, b);
    }
  }

  /** The unit is the finest that has a step for the duration, and rounding once per unit
      comes to the nested roundings. */
  lemma UnitOf(duration: int)
    ensures ToSchedule(duration) ==
      if duration <= 59 * MINUTE then Some(Schedule(CeilDiv(duration, MINUTE), Minutes))
      else if duration <= 23 * HOUR then Some(Schedule(CeilDiv(duration, HOUR), Hours))
      else if duration <= 31 * DAY then Some(Schedule(CeilDiv(duration, DAY), Days))
      else if duration <= 12 * MONTH then Some(Schedule(CeilDiv(duration, MONTH), Months))
      else None
  {
  }

  /** A positive duration is accepted just up to 372 days; its step is one that the unit
      has, and the period is the first of the unit that is not shorter. */
  lemma ScheduleIsTight(duration: int)
    requires duration > 0
    ensures ToSchedule(duration).Some? <==> duration <= 372 * DAY
    ensures ToSchedule(duration).Some? ==>
      var s := ToSchedule(duration).value;
      && (if s.every.Months? then 2 else 1) <= s.step <= MaxStep(s.every)
      && duration <= Period(s) < duration + Length(s.every)
  {
  }

  /** A longer interval never gives a shorter period. */
  lemma PeriodIsMonotone(d1: int, d2: int)
    requires 0 < d1 <= d2 && ToSchedule(d2).Some?
    ensures ToSchedule(d1).Some? && Period(ToSchedule(d1).value) <= Period(ToSchedule(d2).value)
  {
    ScheduleIsTight(d1);
    ScheduleIsTight(d2);
    UnitOf(d1);
    UnitOf(d2);
    var s1, s2 := ToSchedule(d1).value, ToSchedule(d2).value;
    if s1.every == s2.every {
      CeilMonotone(d1, Length(s1.every), d2);
    } else {
      Times(s1.step, MaxStep(s1.every), Length(s1.every));
    }
  }

  /** A duration that is not positive is accepted all the same, with a step that no cron
      schedule has. */
  lemma NonPositiveIsAccepted(duration: int)
    requires duration <= 0
    ensures ToSchedule(duration).Some? && ToSchedule(duration).value.step <= 0
  {
  }

  /** The doc comment promises support below one year; the bound is 372 days. */
  lemma IntervalIsAcceptedIff(text: string, parsed: Option<int>)
    ensures IntervalToCron(text, parsed).Some? <==> text != "" && parsed.Some? && parsed.value <= 372 * DAY
  {
  }

  lemma CeilIs(a: int, b: int, n: int)
    requires b > 0 && (n - 1) * b < a <= n * b
    ensures CeilDiv(a, b) == n
  {
    CeilBounds(a, b);
    if CeilDiv(a, b) < n {
      Times(CeilDiv(a, b), n - 1, b);
    } else if CeilDiv(a, b) > n {
      Times(n + 1, CeilDiv(a, b), b);
      Times(n, n, b);
    }
  }

  lemma ScheduleIs(d: int, n: int, u: Unit)
    requires (n - 1) * Length(u) < d <= n * Length(u) && n <= MaxStep(u)
    requires u.Minutes? || d > (if u.Hours? then 59 * MINUTE else if u.Days? then 23 * HOUR else 31 * DAY)
    ensures ToSchedule(d) == Some(Schedule(n, u))
  {
    UnitOf(d);
    CeilIs(d, Length(u), n);
  }

  /** The fields of a text, in nanoseconds: it fires every `n` minutes, hours, days or months, at
      the start of each, for the least `n` that is not shorter. */
  lemma MinutesText(text: string, d: int, n: int)
    requires text != "" && (n - 1) * 60_000_000_000 < d <= n * 60_000_000_000 && n <= 59
    ensures IntervalToCron(text, Some(d))
      == Some((if n < 0 then "*/-" + Decimal(-n) else "*/" + Decimal(n)) + " * * * *")
  {
    ScheduleIs(d, n, Minutes);
  }

  lemma HoursText(text: string, d: int, n: int)
    requires text != "" && (n - 1) * 3_600_000_000_000 < d <= n * 3_600_000_000_000
    requires 59 * 60_000_000_000 < d && n <= 23
    ensures IntervalToCron(text, Some(d)) == Some("0 " + ("*/" + Decimal(n)) + " * * *")
  {
    ScheduleIs(d, n, Hours);
  }

  lemma DaysText(text: string, d: int, n: int)
    requires text != "" && (n - 1) * 86_400_000_000_000 < d <= n * 86_400_000_000_000
    requires 23 * 3_600_000_000_000 < d && n <= 31
    ensures IntervalToCron(text, Some(d)) == Some("0 0 " + ("*/" + Decimal(n)) + " * *")
  {
    ScheduleIs(d, n, Days);
  }

  lemma MonthsText(text: string, d: int, n: int)
    requires text != "" && (n - 1) * 2_678_400_000_000_000 < d <= n * 2_678_400_000_000_000
    requires 31 * 86_400_000_000_000 < d && n <= 12
    ensures IntervalToCron(text, Some(d)) == Some("0 0 1 " + ("*/" + Decimal(n)) + " *")
  {
    ScheduleIs(d, n, Months);
  }
}
