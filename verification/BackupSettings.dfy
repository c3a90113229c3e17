/** The backup jobs of a history, said on the settings its calls gave: what a job's settings are, when it
    is started and when not. */
module BackupSettings {
  import opened BackupJobs
  import opened BackupSchedule
  import opened Options

  // ---------- The settings given last ----------

  function GivenEnabled(c: Call): Option<bool> {
    match c
    case Create(_, _, enabled) => Some(enabled)
    case Update(_, edit) => edit.enabled
    case _ => None
  }

  function GivenKind(c: Call): Option<Kind> {
    match c
    case Create(_, s, _) => Some(s.kind)
    case Update(_, edit) => edit.kind
    case _ => None
  }

  function GivenHour(c: Call): Option<int> {
    match c
    case Create(_, s, _) => Some(s.hour)
    case Update(_, edit) => edit.hour
    case _ => None
  }

  function GivenMinute(c: Call): Option<int> {
    match c
    case Create(_, s, _) => Some(s.minute)
    case Update(_, edit) => edit.minute
    case _ => None
  }

  /** A new job may have no weekday; an edit cannot take one away. */
  function GivenDay(c: Call): Option<Option<int>> {
    match c
    case Create(_, s, _) => Some(s.dayOfWeek)
    case Update(_, edit) => if edit.dayOfWeek.Some? then Some(edit.dayOfWeek) else None
    case _ => None
  }

  /** The event creates or edits job id and is not refused. */
  predicate Configures(jobs: Jobs, e: Event, id: nat) {
    match e.call
    case Create(x, s, _) => x == id && CreateError(jobs, x, s).None?
    case Update(x, edit) => x == id && UpdateError(jobs, x, edit).None?
    case _ => false
  }

  /** The value that the last event to configure job id with one gave; before the job exists there is none. */
  function LastGiven<T>(run: seq<Event>, id: nat, given: Call -> Option<T>): Option<T> {
    if run == [] then None
    else
      var n := |run| - 1;
      if Configures(After(run[..n]), run[n], id) && given(run[n].call).Some? then given(run[n].call)
      else LastGiven(run[..n], id, given)
  }

  predicate HasSettings(j: Job, enabled: Option<bool>, kind: Option<Kind>, hour: Option<int>, minute: Option<int>,
                        day: Option<Option<int>>) {
    && enabled == Some(j.enabled) && kind == Some(j.schedule.kind) && hour == Some(j.schedule.hour)
    && minute == Some(j.schedule.minute) && day == Some(j.schedule.dayOfWeek)
  }

  lemma SettingsStep(jobs: Jobs, e: Event, id: nat)
    requires id in Apply(jobs, e)
    ensures !Configures(jobs, e, id) ==>
              id in jobs && Apply(jobs, e)[id].enabled == jobs[id].enabled && Apply(jobs, e)[id].schedule == jobs[id].schedule
    ensures Configures(jobs, e, id) && e.call.Update? ==> id in jobs
    ensures Configures(jobs, e, id) && id in jobs ==>
              var j, j' := jobs[id], Apply(jobs, e)[id];
              && j'.enabled == GivenOr(GivenEnabled(e.call), j.enabled)
              && j'.schedule.kind == GivenOr(GivenKind(e.call), j.schedule.kind)
              && j'.schedule.hour == GivenOr(GivenHour(e.call), j.schedule.hour)
              && j'.schedule.minute == GivenOr(GivenMinute(e.call), j.schedule.minute)
              && j'.schedule.dayOfWeek == GivenOr(GivenDay(e.call), j.schedule.dayOfWeek)
    ensures Configures(jobs, e, id) && e.call.Create? ==>
              HasSettings(Apply(jobs, e)[id], GivenEnabled(e.call), GivenKind(e.call), GivenHour(e.call),
                          GivenMinute(e.call), GivenDay(e.call))
  {}

  function GivenOr<T>(given: Option<T>, kept: T): T {
    if given.Some? then given.value else kept
  }

  /** Over any history each setting of a job is the one given last by a call that was not refused. */
  lemma {:induction false} SettingsAreThoseGiven(run: seq<Event>, id: nat)
    requires id in After(run)
    ensures HasSettings(After(run)[id], LastGiven(run, id, GivenEnabled), LastGiven(run, id, GivenKind),
                        LastGiven(run, id, GivenHour), LastGiven(run, id, GivenMinute), LastGiven(run, id, GivenDay))
  {
    var n := |run| - 1;
    SettingsStep(After(run[..n]), run[n], id);
    if !(Configures(After(run[..n]), run[n], id) && run[n].call.Create?) {
      SettingsAreThoseGiven(run[..n], id);
    }
  }

  // ---------- Starting ----------

  /** What a check starts is enabled and not manual, by the settings given last, and it was due at an instant
      with the hour and minute given last, and on the weekday given last if it is weekly. */
  lemma StartedAsGiven(run: seq<Event>, b: nat, id: nat) returns (due: int)
    requires b < |run| && Fires(After(run[..b]), run[b], id)
    ensures LastGiven(run[..b], id, GivenEnabled) == Some(true)
    ensures LastGiven(run[..b], id, GivenKind) in {Some(Daily), Some(Weekly)}
    ensures due <= run[b].now && After(run[..b])[id].nextRunAt == Some(due)
    ensures var hour, minute := LastGiven(run[..b], id, GivenHour), LastGiven(run[..b], id, GivenMinute);
            hour.Some? && minute.Some? && due % DAY == hour.value * HOUR + minute.value * MINUTE
    ensures LastGiven(run[..b], id, GivenKind) == Some(Weekly) ==>
              var day := LastGiven(run[..b], id, GivenDay);
              day.Some? && due / DAY % 7 == (if day.value.Some? then day.value.value else 0) % 7
  {
    var j := After(run[..b])[id];
    SettingsAreThoseGiven(run[..b], id);
    var w := LastWrite(run[..b], id);
    due := j.nextRunAt.value;
    if j.schedule.kind.Daily? {
      DailyIsLeast(run[..b][w].now, j.schedule);
    } else {
      var days := WeeklyAt(run[..b][w].now, j.schedule);
    }
  }

  /** A check starts an enabled job that is not manual and not running exactly if an instant of its schedule
      lies after the call w that last computed its next run and not after the check; a started job is marked
      as run now and gets its next instant, and any other job stays as it is. */
  lemma StartedExactlyWhenDue(run: seq<Event>, b: nat, id: nat) returns (w: nat)
    requires b < |run| && run[b].call.Check? && id !in run[b].call.busy && id in After(run[..b])
    requires LastGiven(run[..b], id, GivenEnabled) == Some(true) && LastGiven(run[..b], id, GivenKind) != Some(Manual)
    requires var s := After(run[..b])[id].schedule; s.kind.Weekly? ==> -7 <= Dow(s) <= 6
    ensures WrittenAt(run[..b], id, w) && id in After(run[..b + 1])
    ensures var j, j' := After(run[..b])[id], After(run[..b + 1])[id];
            if SlotPasses(j.schedule, run[w].now, run[b].now) then
              && j' == j.(nextRunAt := j'.nextRunAt, lastRunAt := Some(run[b].now)) && j'.nextRunAt.Some?
              && IsLeastSlotAfter(run[b].now, j'.nextRunAt.value, j.schedule)
            else j' == j
  {
    SettingsAreThoseGiven(run[..b], id);
    w := StoredNextRunIsSlot(run[..b], id);
    assert run[..b + 1][..b] == run[..b] && run[..b][w] == run[w];
    var j := After(run[..b])[id];
    if j.schedule.kind.Daily? { DailyIsLeast(run[b].now, j.schedule); } else { WeeklyIsLeast(run[b].now, j.schedule); }
    FirstSlot(j.schedule, run[w].now, run[b].now, j.nextRunAt.value);
  }

  lemma FirstSlot(s: Schedule, written: int, now: int, due: int)
    requires IsLeastSlotAfter(written, due, s)
    ensures SlotPasses(s, written, now) <==> due <= now
  {
    if due <= now { assert written < due <= now && IsSlot(due, s); }
  }
}
