/**
 * The schedule calculator: a task's minute offsets with their defaults, its
 * base time today from the `"H:M"` text, and the three notification instants
 * derived from it (pre-notice, main notice, warning).
 */
module Schedule {
  import opened Wrappers
  import opened Text
  import opened Calendar
  import opened Records

  const DefaultPreMinutes: int := 5
  const DefaultWarningMinutes: int := 5
  const DefaultSnoozeMinutes: int := 5

  datatype ScheduleConfig = ScheduleConfig(preMinutes: int, warningMinutes: int, snoozeMinutes: int)

  /** The schedule of a task without a `schedule` object: every offset absent. */
  const NoSchedule: Records.ScheduleOffsets := Records.ScheduleOffsets(None, None, None)

  /** Each offset is the task's own value when it has one and 5 minutes otherwise. */
  function GetScheduleConfig(task: Task): (c: ScheduleConfig)
    ensures var s := task.schedule.GetOr(NoSchedule);
      && (s.preMinutes.Some? ==> c.preMinutes == s.preMinutes.value)
      && (s.preMinutes.None? ==> c.preMinutes == DefaultPreMinutes)
      && (s.warningMinutes.Some? ==> c.warningMinutes == s.warningMinutes.value)
      && (s.warningMinutes.None? ==> c.warningMinutes == DefaultWarningMinutes)
      && (s.snoozeMinutes.Some? ==> c.snoozeMinutes == s.snoozeMinutes.value)
      && (s.snoozeMinutes.None? ==> c.snoozeMinutes == DefaultSnoozeMinutes)
  {
    var s := task.schedule.GetOr(NoSchedule);
    ScheduleConfig(
      s.preMinutes.GetOr(DefaultPreMinutes),
      s.warningMinutes.GetOr(DefaultWarningMinutes),
      s.snoozeMinutes.GetOr(DefaultSnoozeMinutes))
  }

  /** A missing or empty schedule gives every default. */
  lemma EmptyScheduleDefaults(task: Task)
    requires task.schedule.None? || task.schedule == Some(NoSchedule)
    ensures GetScheduleConfig(task) == ScheduleConfig(5, 5, 5)
  {
  }

  /** The offsets are independent: changing one key of the schedule changes only that offset. */
  lemma OffsetsIndependent(task: Task, s: Records.ScheduleOffsets, pre: Option<int>)
    requires task.schedule == Some(s)
    ensures var c := GetScheduleConfig(task);
      var c' := GetScheduleConfig(task.(schedule := Some(s.(preMinutes := pre))));
      c'.warningMinutes == c.warningMinutes && c'.snoozeMinutes == c.snoozeMinutes
  {
  }

  /**
   * `hour, minute = map(int, text.split(":"))`: exactly two parts, both
   * accepted by `int()`; `None` where Python raises `ValueError`.
   */
  function ParseClock(text: string): (r: Option<(int, int)>)
    ensures r.Some? <==>
      |Split(text, ":")| == 2 && ParseInt(Split(text, ":")[0]).Some? && ParseInt(Split(text, ":")[1]).Some?
    ensures r.Some? ==> r.value == (ParseInt(Split(text, ":")[0]).value, ParseInt(Split(text, ":")[1]).value)
  {
    var parts := Split(text, ":");
    if |parts| != 2 then None
    else
      match (ParseInt(parts[0]), ParseInt(parts[1]))
      case (Some(h), Some(m)) => Some((h, m))
      case _ => None
  }

  /** The clock text is accepted: two integers, hour in 0..23 and minute in 0..59. */
  predicate ValidClock(text: string) {
    ParseClock(text).Some?
    && 0 <= ParseClock(text).value.0 <= 23
    && 0 <= ParseClock(text).value.1 <= 59
  }

  /**
   * `get_task_base_time`: today's date (taken from `now`) at the task's
   * hour and minute, with zero seconds; `None` when the time is missing,
   * empty, malformed or out of range.
   */
  function BaseTime(task: Task, now: int): (r: Option<int>)
    requires InRange(now)
    ensures r.Some? <==> task.time.Some? && task.time.value != "" && ValidClock(task.time.value)
    ensures r.Some? ==> InRange(r.value) && DayOf(r.value) == DayOf(now) && DateOf(r.value) == DateOf(now)
    ensures r.Some? ==> HourOf(r.value) == ParseClock(task.time.value).value.0
    ensures r.Some? ==> MinuteOf(r.value) == ParseClock(task.time.value).value.1
    ensures r.Some? ==> r.value % MicrosPerMinute == 0
  {
    match task.time
    case None => None
    case Some(text) =>
      if text == "" || !ValidClock(text) then None
      else
        var (h, m) := ParseClock(text).value;
        WholeMinute(DayOf(now), h, m);
        Some(At(DayOf(now), h, m, 0, 0))
  }

  /** An instant built from a date, hour and minute has no seconds. */
  lemma WholeMinute(day: int, h: int, m: int)
    requires 1 <= day <= MaxOrdinal && 0 <= h < 24 && 0 <= m < 60
    ensures At(day, h, m, 0, 0) % MicrosPerMinute == 0
  {
    var k := (day - 1) * 1440 + h * 60 + m;
    assert At(day, h, m, 0, 0) == k * MicrosPerMinute;
    DivMod(k, 0, MicrosPerMinute);
  }

  /** Every zero-padded `HH:MM` clock text is accepted and names that hour and minute. */
  lemma PaddedClockAccepted(h: nat, m: nat)
    requires h <= 23 && m <= 59
    ensures ParseClock(Padded(h, 2) + ":" + Padded(m, 2)) == Some((h as int, m as int))
    ensures ValidClock(Padded(h, 2) + ":" + Padded(m, 2))
  {
    var a := Padded(h, 2);
    var b := Padded(m, 2);
    NoColonInDigits(a);
    NoColonInDigits(b);
    assert !Contains(a + ":"[..0], ":") by { assert a + ":"[..0] == a; }
    SplitJoin([a, b], ":");
    assert Join([a, b], ":") == a + ":" + b;
    PaddedIsInt(h, 2);
    PaddedIsInt(m, 2);
  }

  lemma NoColonInDigits(s: string)
    requires AllDigits(s)
    ensures !Contains(s, ":")
  {
    forall i | 0 <= i <= |s| - 1
      ensures !OccursAt(s, ":", i)
    {
      if i + 1 <= |s| {
        assert s[i..i + 1][0] == s[i];
      }
    }
  }

  lemma PaddedIsInt(n: nat, width: nat)
    ensures ParseInt(Padded(n, width)) == Some(n as int)
  {
    PaddedParses(n, width);
    assert |Padded(n, width)| > 0;
    ParseIntDigits(Padded(n, width), n);
  }

  /** The three notification instants of a task, each absent when the task has no base time. */
  datatype Times = Times(pre: Option<int>, main: Option<int>, warning: Option<int>)

  /** Python raises `OverflowError` when an instant leaves the `datetime` range. */
  datatype Overflow = Overflow

  function Minutes(k: int): int {
    k * 60_000_000
  }

  /** Both offsets applied to `b` stay within the `datetime` range. */
  predicate Fits(task: Task, b: int) {
    var c := GetScheduleConfig(task);
    InRange(b - Minutes(c.preMinutes)) && InRange(b + Minutes(c.warningMinutes))
  }

  /** Every instant present is within the `datetime` range. */
  predicate TimesInRange(t: Times) {
    && (t.pre.Some? ==> InRange(t.pre.value))
    && (t.main.Some? ==> InRange(t.main.value))
    && (t.warning.Some? ==> InRange(t.warning.value))
  }

  /**
   * The instants computed from a base time: the pre-notice that many minutes
   * before it, the main notice at it, the warning that many minutes after;
   * no base time gives three absent instants, and an instant outside the
   * `datetime` range raises `OverflowError`.
   */
  function TimesFrom(task: Task, base: Option<int>): (r: Result<Times, Overflow>)
    ensures base.None? ==> r == Ok(Times(None, None, None))
    ensures r.Ok? ==> r.value.main == base
    ensures r.Ok? && (base.Some? ==> InRange(base.value)) ==> TimesInRange(r.value)
    ensures r.Err? <==> base.Some? && !Fits(task, base.value)
    ensures r.Ok? && base.Some? ==>
      && r.value.pre == Some(base.value - Minutes(GetScheduleConfig(task).preMinutes))
      && r.value.warning == Some(base.value + Minutes(GetScheduleConfig(task).warningMinutes))
  {
    match base
    case None => Ok(Times(None, None, None))
    case Some(t) =>
      var c := GetScheduleConfig(task);
      if Fits(task, t) then Ok(Times(Some(t - Minutes(c.preMinutes)), Some(t), Some(t + Minutes(c.warningMinutes))))
      else Err(Overflow)
  }

  /**
   * `calculate_notification_times(task, now, base)`: a supplied base time is
   * used as given; without one, the task's own base time today is used.
   */
  function NotificationTimes(task: Task, now: int, base: Option<int>): (r: Result<Times, Overflow>)
    requires InRange(now)
    ensures base.Some? ==> r == TimesFrom(task, base)
    ensures base.None? ==> r == TimesFrom(task, BaseTime(task, now))
  {
    TimesFrom(task, if base.Some? then base else BaseTime(task, now))
  }

  /** A task without a usable time gets no notification instants at all. */
  lemma NoBaseNoTimes(task: Task, now: int)
    requires InRange(now) && BaseTime(task, now).None?
    ensures NotificationTimes(task, now, None) == Ok(Times(None, None, None))
  {
  }

  /** With non-negative offsets the instants come in order: pre-notice, main notice, warning. */
  lemma TimesOrdered(task: Task, base: int)
    requires GetScheduleConfig(task).preMinutes >= 0 && GetScheduleConfig(task).warningMinutes >= 0
    requires TimesFrom(task, Some(base)).Ok?
    ensures var t := TimesFrom(task, Some(base)).value;
      t.pre.value <= t.main.value <= t.warning.value
  {
  }

  /** Zero offsets put all three notices at the base time, which never overflows. */
  lemma ZeroOffsetsCoincide(task: Task, base: int)
    requires GetScheduleConfig(task).preMinutes == 0 && GetScheduleConfig(task).warningMinutes == 0
    requires InRange(base)
    ensures TimesFrom(task, Some(base)) == Ok(Times(Some(base), Some(base), Some(base)))
  {
    assert Minutes(0) == 0;
  }

  /** A task whose time is `HH:MM` gets today's date at exactly that hour and minute. */
  lemma PaddedBaseTime(task: Task, now: int, h: nat, m: nat)
    requires InRange(now) && h <= 23 && m <= 59
    requires task.time == Some(Padded(h, 2) + ":" + Padded(m, 2))
    ensures BaseTime(task, now) == Some(At(DayOf(now), h, m, 0, 0))
  {
    PaddedClockAccepted(h, m);
  }
}
