/** The backup service's job table: when jobs fire and what next run is stored for them. Each call is
    one step: the awaits on its way to the row it writes are on locks that nobody holds across a
    suspension, so no other call can come in between. */
module BackupJobs {
  import opened BackupSchedule
  import opened Options

  datatype Job = Job(enabled: bool, schedule: Schedule, nextRunAt: Option<int>, lastRunAt: Option<int>)

  type Jobs = map<nat, Job>

  datatype Error = UnknownJob | BadWeekday | BadClock | DuplicateKey

  /** The arguments of an edit; unset ones keep the stored values. */
  datatype Edit = Edit(enabled: Option<bool>, kind: Option<Kind>, hour: Option<int>, minute: Option<int>,
                       dayOfWeek: Option<int>)

  predicate Automatic(j: Job) {
    j.enabled && !j.schedule.kind.Manual?
  }

  predicate IsDue(j: Job, now: int) {
    Automatic(j) && j.nextRunAt.Some? && j.nextRunAt.value <= now
  }

  // ---------- One call ----------

  datatype Call =
    | Create(id: nat, schedule: Schedule, enabled: bool)
    | Update(id: nat, edit: Edit)
    | Delete(id: nat)
    | Startup
    | RunByHand(id: nat)
    | Check(busy: set<nat>)

  datatype Event = Event(now: int, call: Call)

  function CreateError(jobs: Jobs, id: nat, s: Schedule): Option<Error> {
    if !ClockOk(s) then Some(BadClock)
    else if s.kind.Weekly? && !(0 <= Dow(s) <= 6) then Some(BadWeekday)
    else if id in jobs then Some(DuplicateKey)
    else None
  }

  function Edited(j: Job, e: Edit): Job {
    j.(enabled := if e.enabled.Some? then e.enabled.value else j.enabled,
       schedule := Schedule(
         if e.kind.Some? then e.kind.value else j.schedule.kind,
         if e.hour.Some? then e.hour.value else j.schedule.hour,
         if e.minute.Some? then e.minute.value else j.schedule.minute,
         if e.dayOfWeek.Some? then e.dayOfWeek else j.schedule.dayOfWeek))
  }

  function UpdateError(jobs: Jobs, id: nat, e: Edit): Option<Error> {
    if id !in jobs then Some(UnknownJob)
    else if Automatic(Edited(jobs[id], e)) && !ClockOk(Edited(jobs[id], e).schedule) then Some(BadClock)
    else None
  }

  /** An automatic job gets its next run computed anew; any other keeps what is stored. */
  function Rescheduled(j: Job, now: int): Job {
    if Automatic(j) then j.(nextRunAt := ComputeNextRun(now, j.schedule)) else j
  }

  function Started(j: Job, now: int): Job {
    Rescheduled(j, now).(lastRunAt := Some(now))
  }

  /** The event is a check that starts job id by itself. */
  predicate Fires(jobs: Jobs, e: Event, id: nat) {
    e.call.Check? && id in jobs && IsDue(jobs[id], e.now) && id !in e.call.busy
  }

  function Apply(jobs: Jobs, e: Event): Jobs {
    match e.call
    case Create(id, s, enabled) =>
      if CreateError(jobs, id, s).Some? then jobs
      else jobs[id := Rescheduled(Job(enabled, s, None, None), e.now)]
    case Update(id, edit) =>
      if UpdateError(jobs, id, edit).Some? then jobs else jobs[id := Rescheduled(Edited(jobs[id], edit), e.now)]
    case Delete(id) => jobs - {id}
    case Startup => map id | id in jobs :: Rescheduled(jobs[id], e.now)
    case RunByHand(id) => if id in jobs then jobs[id := jobs[id].(lastRunAt := Some(e.now))] else jobs
    case Check(_) => map id | id in jobs :: if Fires(jobs, e, id) then Started(jobs[id], e.now) else jobs[id]
  }

  // ---------- Whole histories ----------

  function After(run: seq<Event>): Jobs {
    if run == [] then map[] else Apply(After(run[..|run| - 1]), run[|run| - 1])
  }

  /** The clock never goes backwards. */
  ghost predicate InOrder(run: seq<Event>) {
    forall i, j | 0 <= i < j < |run| :: run[i].now <= run[j].now
  }

  /** Event e computes the next run of job id anew. */
  predicate Writes(jobs: Jobs, e: Event, id: nat) {
    id in Apply(jobs, e) && Automatic(Apply(jobs, e)[id]) &&
    match e.call
    case Create(x, s, _) => x == id && CreateError(jobs, x, s).None?
    case Update(x, edit) => x == id && UpdateError(jobs, x, edit).None?
    case Startup => true
    case Check(_) => Fires(jobs, e, id)
    case _ => false
  }

  lemma WriteOrKeep(jobs: Jobs, e: Event, id: nat)
    requires id in Apply(jobs, e) && Automatic(Apply(jobs, e)[id])
    requires id in jobs && Automatic(jobs[id]) ==> ClockOk(jobs[id].schedule)
    ensures var j := Apply(jobs, e)[id];
            && ClockOk(j.schedule)
            && if Writes(jobs, e, id) then j.nextRunAt == ComputeNextRun(e.now, j.schedule)
               else !Fires(jobs, e, id) && id in jobs && Automatic(jobs[id]) && j == jobs[id].(lastRunAt := j.lastRunAt)
  {}

  /** Written by event w and not fired since. */
  ghost predicate WrittenAt(run: seq<Event>, id: nat, w: nat) {
    && id in After(run) && w < |run| && ClockOk(After(run)[id].schedule)
    && After(run)[id].nextRunAt == ComputeNextRun(run[w].now, After(run)[id].schedule)
    && QuietSince(run, id, w)
  }

  ghost predicate QuietSince(run: seq<Event>, id: nat, w: nat) {
    forall a | w < a < |run| :: !Fires(After(run[..a]), run[a], id)
  }

  lemma StillQuiet(run: seq<Event>, id: nat, w: nat)
    requires run != [] && QuietSince(run[..|run| - 1], id, w)
    requires !Fires(After(run[..|run| - 1]), run[|run| - 1], id)
    ensures QuietSince(run, id, w)
  {
    var n := |run| - 1;
    forall a | w < a < n ensures !Fires(After(run[..a]), run[a], id) {
      assert run[..n][..a] == run[..a] && run[..n][a] == run[a];
    }
  }

  /** Over any history, the next run stored for an automatic job is the one computed for its current
      schedule by some event, and the job has not fired since. */
  lemma {:induction false} LastWrite(run: seq<Event>, id: nat) returns (w: nat)
    requires id in After(run) && Automatic(After(run)[id])
    ensures WrittenAt(run, id, w)
  {
    var n := |run| - 1;
    var before := After(run[..n]);
    if id in before && Automatic(before[id]) {
      w := LastWrite(run[..n], id);
    }
    WriteOrKeep(before, run[n], id);
    if Writes(before, run[n], id) {
      w := n;
    } else {
      assert run[..n][w] == run[w];
      StillQuiet(run, id, w);
    }
  }

  /** Every stored next run is the least instant of the job's current schedule after its last write;
      a weekday edited beyond 6 can put it later, one below -7 earlier (BackupSchedule.WeeklyIsExact). */
  lemma StoredNextRunIsSlot(run: seq<Event>, id: nat) returns (w: nat)
    requires id in After(run) && Automatic(After(run)[id])
    requires var s := After(run)[id].schedule; s.kind.Weekly? ==> -7 <= Dow(s) <= 6
    ensures WrittenAt(run, id, w) && After(run)[id].nextRunAt.Some?
    ensures IsLeastSlotAfter(run[w].now, After(run)[id].nextRunAt.value, After(run)[id].schedule)
  {
    w := LastWrite(run, id);
    var s := After(run)[id].schedule;
    if s.kind.Daily? { DailyIsLeast(run[w].now, s); } else { WeeklyIsLeast(run[w].now, s); }
  }

  /** Over any history of calls, edits and restarts included: when a job fires at two events, an instant
      of the schedule it has at the second lies after the first and not after the second. */
  lemma SlotBetweenRuns(run: seq<Event>, a: nat, b: nat, id: nat) returns (slot: int)
    requires InOrder(run) && a < b < |run|
    requires Fires(After(run[..a]), run[a], id) && Fires(After(run[..b]), run[b], id)
    requires var s := After(run[..b])[id].schedule; s.kind.Weekly? ==> Dow(s) >= -7
    ensures run[a].now < slot <= run[b].now && IsSlot(slot, After(run[..b])[id].schedule)
  {
    var w := LastWrite(run[..b], id);
    assert run[..b][..a] == run[..a] && run[..b][a] == run[a];
    assert a <= w && run[..b][w] == run[w];
    var s := After(run[..b])[id].schedule;
    slot := After(run[..b])[id].nextRunAt.value;
    if s.kind.Daily? { DailyIsLeast(run[w].now, s); } else { WeeklyIs(run[w].now, s); }
  }

  // ---------- The exact condition ----------

  predicate ComesDue(s: Schedule, written: int, due: int) {
    ComputeNextRun(written, s).Some? && ComputeNextRun(written, s).value <= due
  }

  ghost predicate SlotPasses(s: Schedule, written: int, due: int) {
    exists slot :: written < slot <= due && IsSlot(slot, s)
  }

  /** The weekday bound is exact: for a clock-valid automatic schedule, a slot always passes between the
      computing of a next run and its coming due if and only if the schedule is daily or its weekday is
      at least -7. */
  lemma SlotsSeparateIsExact(s: Schedule)
    requires ClockOk(s) && !s.kind.Manual?
    ensures (forall written, due | ComesDue(s, written, due) :: SlotPasses(s, written, due)) <==>
            s.kind.Daily? || Dow(s) >= -7
  {
    if s.kind.Daily? || Dow(s) >= -7 {
      forall written, due | ComesDue(s, written, due) ensures SlotPasses(s, written, due) {
        var slot := ComputeNextRun(written, s).value;
        if s.kind.Daily? { DailyIsLeast(written, s); } else { WeeklyIs(written, s); }
        assert written < slot <= due && IsSlot(slot, s);
      }
    } else {
      var now := 6 * DAY + TimeOfDay(s);
      NotAhead(s);
      assert ComesDue(s, now, now) && !SlotPasses(s, now, now);
    }
  }

  lemma AfterThen(run: seq<Event>, e: Event)
    ensures After(run + [e]) == Apply(After(run), e)
  {
    assert (run + [e])[..|run|] == run;
  }

  lemma SameTimeApart(a: int, b: int)
    requires a % DAY == b % DAY && a < b
    ensures b - a >= DAY
  {
    assert b / DAY > a / DAY;
  }

  /** A new weekly job whose weekday is edited at once, then two checks a minute apart. */
  function TwoChecks(id: nat, s: Schedule, now: int): seq<Event> {
    [Event(now, Create(id, s.(dayOfWeek := Some(0)), true))]
    + [Event(now, Update(id, Edit(None, None, None, None, s.dayOfWeek)))]
    + [Event(now, Check({}))] + [Event(now + MINUTE, Check({}))]
  }

  /** A failing history for every weekday of -8 or less: the job fires at both checks, with no instant
      of its schedule in between. */
  lemma RunsTwiceInAMinute(id: nat, s: Schedule, now: int)
    requires s.kind.Weekly? && ClockOk(s) && Dow(s) <= -8 && now == 6 * DAY + TimeOfDay(s)
    ensures var run := TwoChecks(id, s, now);
            && InOrder(run)
            && Fires(After(run[..2]), run[2], id) && Fires(After(run[..3]), run[3], id)
            && After(run[..3])[id].schedule == s
            && forall slot | run[2].now < slot <= run[3].now :: !IsSlot(slot, s)
  {
    var run := TwoChecks(id, s, now);
    assert run[..2] == [] + [run[0]] + [run[1]] && run[..3] == run[..2] + [run[2]];
    AfterThen([], run[0]);
    AfterThen([] + [run[0]], run[1]);
    AfterThen(run[..2], run[2]);
    NotAhead(s);
    DayParts(now, 6, TimeOfDay(s));
    forall slot | now < slot <= now + MINUTE ensures !IsSlot(slot, s) {
      if IsSlot(slot, s) { SameTimeApart(now, slot); }
    }
  }

  // ---------- The service ----------

  lemma CreatedIsLeast(jobs: Jobs, id: nat, s: Schedule, enabled: bool, now: int)
    ensures CreateError(jobs, id, s).None? && enabled && !s.kind.Manual? ==>
              IsLeastSlotAfter(now, ComputeNextRun(now, s).value, s)
  {
    if CreateError(jobs, id, s).None? && enabled && !s.kind.Manual? {
      if s.kind.Daily? { DailyIsLeast(now, s); } else { WeeklyIsLeast(now, s); }
    }
  }

  /** The startup loop while the jobs of rest are still to come. */
  ghost predicate PartlyRescheduled(jobs: Jobs, jobs': Jobs, rest: set<nat>, now: int) {
    && jobs'.Keys == jobs.Keys
    && forall id | id in jobs :: jobs'[id] == if id in rest then jobs[id] else Rescheduled(jobs[id], now)
  }

  /** The check's loop while the jobs of rest are still to come. */
  ghost predicate PartlyChecked(jobs: Jobs, jobs': Jobs, e: Event, rest: set<nat>) {
    && jobs'.Keys == jobs.Keys
    && forall id | id in jobs ::
         jobs'[id] == if id !in rest && Fires(jobs, e, id) then Started(jobs[id], e.now) else jobs[id]
  }

  class Service {
    var jobs: Jobs

    /** Every call so far. */
    ghost var history: seq<Event>

    /** Every method keeps this, so what holds of all histories holds of every service. */
    ghost predicate Valid()
      reads this
    {
      jobs == After(history) && InOrder(history)
    }

    ghost predicate Follows(now: int)
      reads this
    {
      forall i | 0 <= i < |history| :: history[i].now <= now
    }

    constructor ()
      ensures Valid() && jobs == map[] && history == []
    {
      jobs, history := map[], [];
    }

    /** The call has been carried out. */
    ghost method Record(e: Event, before: Jobs)
      requires before == After(history) && InOrder(history) && Follows(e.now) && jobs == Apply(before, e)
      modifies `history
      ensures Valid() && Follows(e.now) && history == old(history) + [e]
    {
      assert (history + [e])[..|history|] == history;
      history := history + [e];
    }

    /** id is a random key. */
    method CreateJob(id: nat, kind: Kind, hour: int, minute: int, dayOfWeek: Option<int>, enabled: bool, now: int)
        returns (error: Option<Error>)
      requires Valid() && Follows(now)
      modifies this
      ensures Valid() && Follows(now)
      ensures var s := Schedule(kind, hour, minute, if kind.Weekly? && dayOfWeek.None? then Some(0) else dayOfWeek);
              && history == old(history) + [Event(now, Create(id, s, enabled))]
              && error == CreateError(old(jobs), id, s)
              && (error.None? <==> 0 <= hour <= 23 && 0 <= minute <= 59 && id !in old(jobs)
                                   && (kind.Weekly? && dayOfWeek.Some? ==> 0 <= dayOfWeek.value <= 6))
              && (error.Some? ==> jobs == old(jobs))
              && (error.None? ==> id in jobs && jobs == old(jobs)[id := jobs[id]]
                                  && jobs[id].schedule == s && jobs[id].enabled == enabled)
      ensures error.None? && Automatic(jobs[id]) ==>
                jobs[id].nextRunAt.Some? && IsLeastSlotAfter(now, jobs[id].nextRunAt.value, jobs[id].schedule)
    {
      ghost var before := jobs;
      var s := Schedule(kind, hour, minute, if kind.Weekly? && dayOfWeek.None? then Some(0) else dayOfWeek);
      error := InsertJob(id, s, enabled, now);
      CreatedIsLeast(before, id, s, enabled, now);
      Record(Event(now, Create(id, s, enabled)), before);
    }

    method InsertJob(id: nat, s: Schedule, enabled: bool, now: int) returns (error: Option<Error>)
      modifies `jobs
      ensures error == CreateError(old(jobs), id, s)
      ensures jobs == Apply(old(jobs), Event(now, Create(id, s, enabled)))
    {
      if !(0 <= s.hour <= 23) || !(0 <= s.minute <= 59) {
        return Some(BadClock);
      }
      if s.kind.Weekly? && !(0 <= Dow(s) <= 6) {
        return Some(BadWeekday);
      }
      var next := None;
      if enabled && !s.kind.Manual? {
        next := ComputeNextRun(now, s);
      }
      if id in jobs {
        return Some(DuplicateKey);
      }
      jobs := jobs[id := Job(enabled, s, next, None)];
      return None;
    }

    /** Hour, minute and weekday are not checked, except that computing the next run of an automatic job
        fails off the clock. */
    method UpdateJob(id: nat, edit: Edit, now: int) returns (error: Option<Error>)
      requires Valid() && Follows(now)
      modifies this
      ensures Valid() && Follows(now) && history == old(history) + [Event(now, Update(id, edit))]
      ensures error == UpdateError(old(jobs), id, edit)
      ensures jobs == if error.Some? then old(jobs)
                      else old(jobs)[id := Rescheduled(Edited(old(jobs)[id], edit), now)]
      ensures error.None? && Automatic(jobs[id]) ==>
                ClockOk(jobs[id].schedule) && jobs[id].nextRunAt == ComputeNextRun(now, jobs[id].schedule)
    {
      ghost var before := jobs;
      error := EditRow(id, edit, now);
      Record(Event(now, Update(id, edit)), before);
    }

    method EditRow(id: nat, edit: Edit, now: int) returns (error: Option<Error>)
      modifies `jobs
      ensures error == UpdateError(old(jobs), id, edit)
      ensures jobs == if error.Some? then old(jobs)
                      else old(jobs)[id := Rescheduled(Edited(old(jobs)[id], edit), now)]
    {
      if id !in jobs {
        return Some(UnknownJob);
      }
      var j := Edited(jobs[id], edit);
      if Automatic(j) {
        var next := ComputeNextRun(now, j.schedule);
        if next.None? {
          return Some(BadClock);
        }
        j := j.(nextRunAt := next);
      }
      jobs := jobs[id := j];
      return None;
    }

    method DeleteJob(id: nat, now: int) returns (error: Option<Error>)
      requires Valid() && Follows(now)
      modifies this
      ensures Valid() && Follows(now) && history == old(history) + [Event(now, Delete(id))]
      ensures error == (if id in old(jobs) then None else Some(UnknownJob)) && jobs == old(jobs) - {id}
    {
      ghost var before := jobs;
      error := if id in jobs then None else Some(UnknownJob);
      jobs := jobs - {id};
      Record(Event(now, Delete(id)), before);
    }

    /** Startup: every automatic job's next run is computed anew. */
    method ComputeNextRuns(now: int)
      requires Valid() && Follows(now)
      modifies this
      ensures Valid() && Follows(now) && history == old(history) + [Event(now, Startup)]
      ensures jobs.Keys == old(jobs).Keys
      ensures forall id | id in jobs :: jobs[id] == Rescheduled(old(jobs)[id], now)
    {
      ghost var before := jobs;
      var rest := jobs.Keys;
      while rest != {}
        invariant rest <= jobs.Keys && history == old(history)
        invariant PartlyRescheduled(before, jobs, rest, now)
        decreases rest
      {
        var id :| id in rest;
        if Automatic(jobs[id]) {
          jobs := jobs[id := jobs[id].(nextRunAt := ComputeNextRun(now, jobs[id].schedule))];
        }
        rest := rest - {id};
      }
      assert jobs == Apply(before, Event(now, Startup));
      Record(Event(now, Startup), before);
    }

    /** Start one backup run of a job just read. A run started by hand leaves the next run alone. */
    method ExecuteBackup(id: nat, job: Job, manual: bool, now: int)
      requires id in jobs && job == jobs[id] && (manual || IsDue(job, now))
      modifies `jobs
      ensures jobs == old(jobs)[id := if manual then job.(lastRunAt := Some(now)) else Started(job, now)]
    {
      if !manual {
        jobs := jobs[id := jobs[id].(lastRunAt := Some(now), nextRunAt := ComputeNextRun(now, job.schedule))];
      } else {
        jobs := jobs[id := jobs[id].(lastRunAt := Some(now))];
      }
    }

    method TriggerRun(id: nat, now: int) returns (error: Option<Error>)
      requires Valid() && Follows(now)
      modifies this
      ensures Valid() && Follows(now) && history == old(history) + [Event(now, RunByHand(id))]
      ensures error == if id in old(jobs) then None else Some(UnknownJob)
      ensures jobs == if id in old(jobs) then old(jobs)[id := old(jobs)[id].(lastRunAt := Some(now))] else old(jobs)
    {
      ghost var before := jobs;
      error := Some(UnknownJob);
      if id in jobs {
        error := None;
        ExecuteBackup(id, jobs[id], true, now);
      }
      Record(Event(now, RunByHand(id)), before);
    }

    /** The minute check starts exactly the due jobs, unless a backup process is still running. */
    method CheckSchedules(now: int, busy: set<nat>) returns (started: set<nat>)
      requires Valid() && Follows(now)
      modifies this
      ensures Valid() && Follows(now) && history == old(history) + [Event(now, Check(busy))]
      ensures started == set id | id in old(jobs) && IsDue(old(jobs)[id], now) && id !in busy
      ensures jobs.Keys == old(jobs).Keys
      ensures forall id | id in jobs :: jobs[id] == if id in started then Started(old(jobs)[id], now) else old(jobs)[id]
    {
      started := {};
      var snapshot := jobs;
      var rest := snapshot.Keys;
      while rest != {}
        invariant rest <= snapshot.Keys && history == old(history)
        invariant started == set id | id in snapshot && id !in rest && IsDue(snapshot[id], now) && id !in busy
        invariant PartlyChecked(snapshot, jobs, Event(now, Check(busy)), rest)
        decreases rest
      {
        var id :| id in rest;
        if IsDue(snapshot[id], now) && id !in busy {
          ExecuteBackup(id, snapshot[id], false, now);
          started := started + {id};
        }
        rest := rest - {id};
      }
      assert jobs == Apply(snapshot, Event(now, Check(busy)));
      Record(Event(now, Check(busy)), snapshot);
    }
  }
}
