/** Daily and weekly backup slots, and the job table that stores each job's next one. Times are
    microseconds from a Monday midnight, in UTC. */
module BackupSchedule {
  import opened Options

  const MINUTE := 60_000_000
  const HOUR := 3_600_000_000
  const DAY := 86_400_000_000
  const WEEK := 604_800_000_000

  datatype Kind = Manual | Daily | Weekly

  datatype Schedule = Schedule(kind: Kind, hour: int, minute: int, dayOfWeek: Option<int>)

  predicate ClockOk(s: Schedule) {
    0 <= s.hour <= 23 && 0 <= s.minute <= 59
  }

  /** The chosen weekday, Monday being 0. */
  function Dow(s: Schedule): int {
    if s.dayOfWeek.Some? then s.dayOfWeek.value else 0
  }

  function TimeOfDay(s: Schedule): int {
    s.hour * HOUR + s.minute * MINUTE
  }

  function Weekday(t: int): int {
    t / DAY % 7
  }

  // ---------- The next slot ----------

  /** None stands for the error raised for an hour or minute off the clock. */
  function ComputeNextRun(now: int, s: Schedule): Option<int> {
    if !ClockOk(s) then None
    else
      var target := now / DAY * DAY + TimeOfDay(s);
      match s.kind
      case Daily => Some(if target <= now then target + DAY else target)
      case Weekly =>
        var ahead := Dow(s) - Weekday(now);
        var shifted := target + (if ahead < 0 then ahead + 7 else ahead) * DAY;
        Some(if shifted <= now then shifted + WEEK else shifted)
      case Manual => Some(now)
  }

  /** t is an instant of the schedule. */
  predicate IsSlot(t: int, s: Schedule) {
    t % DAY == TimeOfDay(s) && (s.kind.Weekly? ==> Weekday(t) == Dow(s) % 7)
  }

  ghost predicate IsLeastSlotAfter(now: int, r: int, s: Schedule) {
    r > now && IsSlot(r, s) && forall t | now < t < r :: !IsSlot(t, s)
  }

  lemma DayParts(t: int, day: int, time: int)
    requires t == day * DAY + time && 0 <= time < DAY
    ensures t / DAY == day && t % DAY == time
  {}

  /** Slots of one daily schedule are whole days apart. */
  lemma DailySlotsApart(a: int, b: int, s: Schedule)
    requires IsSlot(a, s) && IsSlot(b, s) && a < b
    ensures b - a >= DAY
  {
    assert b / DAY > a / DAY;
  }

  lemma DailyIsLeast(now: int, s: Schedule)
    requires s.kind.Daily? && ClockOk(s)
    ensures IsLeastSlotAfter(now, ComputeNextRun(now, s).value, s)
  {
    var r := ComputeNextRun(now, s).value;
    DayParts(r, if now / DAY * DAY + TimeOfDay(s) <= now then now / DAY + 1 else now / DAY, TimeOfDay(s));
    forall t | now < t < r ensures !IsSlot(t, s) {
      if IsSlot(t, s) { DailySlotsApart(t, r, s); }
    }
  }

  /** Slots of the same weekly schedule are whole weeks apart. */
  lemma WeeklySlotsApart(a: int, b: int, s: Schedule)
    requires s.kind.Weekly? && IsSlot(a, s) && IsSlot(b, s) && a < b
    ensures b - a >= WEEK
  {
    assert (b / DAY - a / DAY) % 7 == 0 && b / DAY > a / DAY;
  }

  lemma WeekdayAhead(day: int, dow: int, weeks: int)
    ensures (day + (dow - day % 7) + 7 * weeks) % 7 == dow % 7
  {
    assert day - day % 7 == 7 * (day / 7);
  }

  /** The slot lies `days` days ahead of the start of today, on the right weekday. */
  lemma WeeklyAt(now: int, s: Schedule) returns (days: int)
    requires s.kind.Weekly? && ClockOk(s)
    ensures var r := ComputeNextRun(now, s).value;
            r == (now / DAY + days) * DAY + TimeOfDay(s) && r / DAY == now / DAY + days && IsSlot(r, s)
    ensures var ahead := Dow(s) - Weekday(now);
            var first := if ahead < 0 then ahead + 7 else ahead;
            days == if (now / DAY + first) * DAY + TimeOfDay(s) <= now then first + 7 else first
  {
    var day, ahead := now / DAY, Dow(s) - Weekday(now);
    var first := if ahead < 0 then ahead + 7 else ahead;
    days := if (day + first) * DAY + TimeOfDay(s) <= now then first + 7 else first;
    DayParts((day + days) * DAY + TimeOfDay(s), day + days, TimeOfDay(s));
    WeekdayAhead(day, Dow(s), 0);
    WeekdayAhead(day, Dow(s), 1);
    WeekdayAhead(day, Dow(s), 2);
  }

  lemma WeeklyIs(now: int, s: Schedule)
    requires s.kind.Weekly? && ClockOk(s) && Dow(s) >= -7
    ensures var r := ComputeNextRun(now, s).value; r > now && IsSlot(r, s)
    ensures Dow(s) <= 6 ==> ComputeNextRun(now, s).value <= now + WEEK
  {
    var days := WeeklyAt(now, s);
    assert now == now / DAY * DAY + now % DAY;
  }

  /** For a weekday given as 0..6, and just as well for one counted back as -7..-1, the next weekly
      run is the least slot strictly after now. */
  lemma WeeklyIsLeast(now: int, s: Schedule)
    requires s.kind.Weekly? && ClockOk(s) && -7 <= Dow(s) <= 6
    ensures IsLeastSlotAfter(now, ComputeNextRun(now, s).value, s)
  {
    WeeklyIs(now, s);
    var r := ComputeNextRun(now, s).value;
    forall t | now < t < r ensures !IsSlot(t, s) {
      if IsSlot(t, s) { WeeklySlotsApart(t, r, s); }
    }
  }

  /** The service's edit takes any weekday. Exactly these values always give the least slot. */
  lemma WeeklyIsExact(s: Schedule)
    requires s.kind.Weekly? && ClockOk(s)
    ensures (forall now: int :: IsLeastSlotAfter(now, ComputeNextRun(now, s).value, s)) <==>
            -7 <= Dow(s) <= 6 || (Dow(s) == 7 && TimeOfDay(s) == 0)
  {
    if -7 <= Dow(s) <= 6 {
      forall now: int ensures IsLeastSlotAfter(now, ComputeNextRun(now, s).value, s) { WeeklyIsLeast(now, s); }
    } else if Dow(s) == 7 && TimeOfDay(s) == 0 {
      forall now: int ensures IsLeastSlotAfter(now, ComputeNextRun(now, s).value, s) { NextMonday(now, s); }
    } else if Dow(s) >= 7 {
      TooFarAhead(s);
    } else {
      NotAhead(s);
    }
  }

  lemma NextMonday(now: int, s: Schedule)
    requires s.kind.Weekly? && ClockOk(s) && Dow(s) == 7 && TimeOfDay(s) == 0
    ensures IsLeastSlotAfter(now, ComputeNextRun(now, s).value, s)
  {
    WeeklyIs(now, s);
    var r := ComputeNextRun(now, s).value;
    assert r == (now / DAY + (7 - Weekday(now))) * DAY && r - now <= WEEK;
    forall t | now < t < r ensures !IsSlot(t, s) {
      if IsSlot(t, s) { WeeklySlotsApart(t, r, s); }
    }
  }

  /** A weekday of 7 or more skips a slot: seen from Monday midnight, the week's own slot. */
  lemma TooFarAhead(s: Schedule)
    requires s.kind.Weekly? && ClockOk(s) && Dow(s) >= 7 && !(Dow(s) == 7 && TimeOfDay(s) == 0)
    ensures !IsLeastSlotAfter(0, ComputeNextRun(0, s).value, s)
  {
    var w := Dow(s) % 7;
    var t := if w == 0 && TimeOfDay(s) == 0 then WEEK else w * DAY + TimeOfDay(s);
    DayParts(t, if w == 0 && TimeOfDay(s) == 0 then 7 else w, TimeOfDay(s));
    assert IsSlot(t, s) && 0 < t < ComputeNextRun(0, s).value;
  }

  /** A weekday of -8 or less can give a slot that is already past. */
  lemma NotAhead(s: Schedule)
    requires s.kind.Weekly? && ClockOk(s) && Dow(s) <= -8
    ensures var now := 6 * DAY + TimeOfDay(s); ComputeNextRun(now, s).value <= now
    ensures exists now: int :: !IsLeastSlotAfter(now, ComputeNextRun(now, s).value, s)
  {
    var now := 6 * DAY + TimeOfDay(s);
    DayParts(now, 6, TimeOfDay(s));
    assert !IsLeastSlotAfter(now, ComputeNextRun(now, s).value, s);
  }
}
