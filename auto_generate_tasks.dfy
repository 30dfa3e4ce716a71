/** Automatic task generation for a Service Project (the before_save and validate hooks and the
    regenerate_tasks endpoint): a fixed seven-day window starting at the project's start date. */
module AutoGenerateTasks {
  import opened Wrappers
  import opened Text
  import opened Dates
  import opened ServiceTaskDoctype
  import opened ServiceProjectDoctype

  const DAILY := "Daily"
  const WEEKLY := "Weekly"
  const EVERY_X_DAYS := "Every X Days"
  /** `range(7)`: the number of day offsets the generator visits. */
  const HORIZON: nat := 7
  /** The role given to generated tasks when the project names none. */
  const FALLBACK_ROLE := "Engineer"
  const PENDING := "Pending"

  /** `start_date`, or today when it is empty. */
  function StartDay(startDate: Option<Day>, today: Day): Day
  {
    startDate.GetOr(today)
  }

  /** `int(doc.interval_days or 1)`: an empty or zero interval counts as 1. */
  function Interval(intervalDays: Option<int>): (n: int)
    ensures n != 0
  {
    if intervalDays.None? || intervalDays.value == 0 then 1 else intervalDays.value
  }

  /** `doc.default_role or "Engineer"` */
  function TaskRole(defaultRole: string): string
  {
    if defaultRole == "" then FALLBACK_ROLE else defaultRole
  }

  /** Whether day offset `i` of the window gets a task. Python's `%` and Dafny's differ for a
      negative divisor, but both give 0 exactly when the divisor divides `i`. */
  predicate Emits(schedule: string, interval: int, i: nat)
    requires interval != 0
  {
    || schedule == DAILY
    || (schedule == WEEKLY && i % 7 == 0)
    || (schedule == EVERY_X_DAYS && i % interval == 0)
  }

  /** The date the loop body picks for offset `i`, if any: the source's if/elif chain. */
  function TaskDate(schedule: string, start: Day, interval: int, i: nat): (d: Option<Day>)
    requires interval != 0
    ensures d == if Emits(schedule, interval, i) then Some(start + i) else None
  {
    if schedule == DAILY then Some(start + i)
    else if schedule == WEEKLY && i % 7 == 0 then Some(start + i)
    else if schedule == EVERY_X_DAYS && i % interval == 0 then Some(start + i)
    else None
  }

  /** The offsets among 0 .. n-1 that get a task, in loop order. */
  function Offsets(schedule: string, interval: int, n: nat): seq<nat>
    requires interval != 0
  {
    if n == 0 then []
    else Offsets(schedule, interval, n - 1) + (if Emits(schedule, interval, n - 1) then [n - 1] else [])
  }

  /** The two row shapes the source appends: the save hook's (with the project's role and notes) and
      on_submit's (role always "Engineer", no notes). */
  datatype RowShape = Generated(schedule: string, role: string) | Submitted

  /** `f'Auto Task for {task_date}'` */
  function AutoTitle(day: Day): string
  {
    "Auto Task for " + IsoDate(day)
  }

  /** `f'Task generated for {schedule} on {task_date}'` */
  function AutoNotes(schedule: string, day: Day): string
  {
    "Task generated for " + schedule + " on " + IsoDate(day)
  }

  /** The child row appended for `day`; fields the source does not set stay empty. */
  function Row(shape: RowShape, day: Day): ServiceTask
  {
    match shape
    case Generated(schedule, role) =>
      ServiceTask("", AutoTitle(day), IsoDate(day), "", "", role, PENDING, AutoNotes(schedule, day), "", "")
    case Submitted =>
      ServiceTask("", AutoTitle(day), IsoDate(day), "", "", FALLBACK_ROLE, PENDING, "", "", "")
  }

  /** The two shapes build the same row for a day, up to the role and the notes. */
  lemma RowShapesAgree(schedule: string, role: string, day: Day)
    ensures Row(Submitted, day) == Row(Generated(schedule, role), day).(assignedRole := FALLBACK_ROLE, notes := "")
  {
  }

  /** The row builder of a shape, as a function of the day. */
  function RowMaker(shape: RowShape): Day -> ServiceTask
  {
    (day: Day) => Row(shape, day)
  }

  /** The rows `mk` builds for the given day offsets, in order. */
  function RowsFor(mk: Day -> ServiceTask, start: Day, offsets: seq<nat>): seq<ServiceTask>
  {
    if offsets == [] then []
    else RowsFor(mk, start, offsets[..|offsets| - 1]) + [mk(start + offsets[|offsets| - 1])]
  }

  /** Row k is the row for offset k. */
  lemma {:induction false} RowsForPointwise(mk: Day -> ServiceTask, start: Day, offsets: seq<nat>)
    ensures |RowsFor(mk, start, offsets)| == |offsets|
    ensures forall k :: 0 <= k < |offsets| ==> RowsFor(mk, start, offsets)[k] == mk(start + offsets[k])
    decreases |offsets|
  {
    if offsets != [] {
      var prefix := offsets[..|offsets| - 1];
      RowsForPointwise(mk, start, prefix);
      var rows := RowsFor(mk, start, offsets);
      assert rows == RowsFor(mk, start, prefix) + [mk(start + offsets[|offsets| - 1])];
      forall k | 0 <= k < |offsets|
        ensures rows[k] == mk(start + offsets[k])
      {
        if k < |prefix| {
          assert prefix[k] == offsets[k];
          assert rows[k] == RowsFor(mk, start, prefix)[k];
        }
      }
    }
  }

  lemma RowsForSnoc(mk: Day -> ServiceTask, start: Day, offsets: seq<nat>, i: nat)
    ensures RowsFor(mk, start, offsets + [i]) == RowsFor(mk, start, offsets) + [mk(start + i)]
  {
    var next := offsets + [i];
    assert next[..|next| - 1] == offsets;
    assert next != [] && next[|next| - 1] == i;
  }

  /** Appending an offset or not, according to `emit`, appends its row or not. */
  lemma RowsForMaybeSnoc(mk: Day -> ServiceTask, start: Day, offsets: seq<nat>, i: nat, emit: bool)
    ensures RowsFor(mk, start, offsets + (if emit then [i] else []))
         == RowsFor(mk, start, offsets) + (if emit then [mk(start + i)] else [])
  {
    if emit {
      RowsForSnoc(mk, start, offsets, i);
    } else {
      assert offsets + [] == offsets;
    }
  }

  /** One more iteration of the window loop appends the row of its offset when the schedule emits it. */
  lemma WindowStep(mk: Day -> ServiceTask, schedule: string, start: Day, interval: int, i: nat)
    requires interval != 0
    ensures RowsFor(mk, start, Offsets(schedule, interval, i + 1))
         == RowsFor(mk, start, Offsets(schedule, interval, i)) + (if Emits(schedule, interval, i) then [mk(start + i)] else [])
  {
    RowsForMaybeSnoc(mk, start, Offsets(schedule, interval, i), i, Emits(schedule, interval, i));
  }

  /** The rows the window loop appends with row builder `mk`. */
  function WindowRows(mk: Day -> ServiceTask, schedule: string, start: Day, interval: int): seq<ServiceTask>
    requires interval != 0
  {
    RowsFor(mk, start, Offsets(schedule, interval, HORIZON))
  }

  /** The task list generate_service_tasks leaves. */
  function GeneratedTasks(schedule: string, start: Day, interval: int, role: string): seq<ServiceTask>
    requires interval != 0
  {
    WindowRows(RowMaker(Generated(schedule, role)), schedule, start, interval)
  }

  /** GeneratedTasks for the settings the project document holds. */
  ghost function GeneratedFor(doc: ServiceProject, today: Day): seq<ServiceTask>
    reads doc`scheduleType, doc`startDate, doc`intervalDays, doc`defaultRole
  {
    GeneratedTasks(doc.scheduleType, StartDay(doc.startDate, today), Interval(doc.intervalDays), TaskRole(doc.defaultRole))
  }

  /** The loop over the window (`range(7)`, so `n` is HORIZON): offset i gets the row `mk` builds
      for its date when the schedule emits it. */
  method AppendWindow(doc: ServiceProject, mk: Day -> ServiceTask, schedule: string, start: Day, interval: int, n: nat)
    requires interval != 0
    modifies doc`serviceTasks
    ensures doc.serviceTasks == old(doc.serviceTasks) + RowsFor(mk, start, Offsets(schedule, interval, n))
  {
    ghost var before := doc.serviceTasks;
    for i := 0 to n
      invariant doc.serviceTasks == before + RowsFor(mk, start, Offsets(schedule, interval, i))
    {
      var taskDate := TaskDate(schedule, start, interval, i);
      WindowStep(mk, schedule, start, interval, i);
      if taskDate.Some? {
        doc.serviceTasks := doc.serviceTasks + [mk(taskDate.value)];
      }
    }
  }

  /** generate_service_tasks: discard the task list, then append one row per emitting offset. */
  method GenerateServiceTasks(doc: ServiceProject, today: Day)
    modifies doc`serviceTasks
    ensures doc.serviceTasks == GeneratedFor(doc, today)
  {
    var schedule := doc.scheduleType;
    var start := StartDay(doc.startDate, today);
    var interval := Interval(doc.intervalDays);
    var role := TaskRole(doc.defaultRole);
    doc.serviceTasks := [];
    AppendWindow(doc, RowMaker(Generated(schedule, role)), schedule, start, interval, HORIZON);
  }

  /** What execute reads from get_doc_before_save(). */
  datatype SavedProject = SavedProject(defaultRole: string)

  /** execute (before_save hook): `previous` is the stored version, None on the first save. */
  method Execute(doc: ServiceProject, previous: Option<SavedProject>, today: Day)
    modifies doc`serviceTasks
    ensures previous.None? && old(doc.serviceTasks) == [] ==> doc.serviceTasks == GeneratedFor(doc, today)
    ensures previous.None? && old(doc.serviceTasks) != [] ==> doc.serviceTasks == old(doc.serviceTasks)
    ensures previous.Some? && doc.defaultRole != previous.value.defaultRole ==> doc.serviceTasks == GeneratedFor(doc, today)
    ensures previous.Some? && doc.defaultRole == previous.value.defaultRole ==> doc.serviceTasks == old(doc.serviceTasks)
  {
    if previous.None? {
      if doc.serviceTasks == [] {
        GenerateServiceTasks(doc, today);
      }
      return;
    }
    if doc.defaultRole != previous.value.defaultRole {
      GenerateServiceTasks(doc, today);
    }
  }

  /** The outcome of validate_schedule_configuration: a thrown error, or a pass with the warnings shown. */
  datatype Validation = Rejected(message: string) | Accepted(warnings: seq<string>)

  const INTERVAL_MESSAGE := "Interval Days must be a positive number when Schedule Type is 'Every X Days'"
  const PAST_START_WARNING := "⚠️ Warning: Start date is in the past. Tasks will be generated from the specified date."

  /** validate_schedule_configuration (validate hook). */
  function ValidateScheduleConfiguration(scheduleType: string, intervalDays: Option<int>, startDate: Option<Day>, today: Day): (r: Validation)
    ensures r.Rejected? <==> scheduleType == EVERY_X_DAYS && (intervalDays.None? || intervalDays.value <= 0)
    ensures r.Accepted? ==> (r.warnings != [] <==> startDate.Some? && startDate.value < today)
  {
    if scheduleType == EVERY_X_DAYS && (intervalDays.None? || intervalDays.value <= 0) then
      Rejected(INTERVAL_MESSAGE)
    else if startDate.Some? && startDate.value < today then
      Accepted([PAST_START_WARNING])
    else
      Accepted([])
  }

  const REGENERATE_DENIED := "You don’t have permission to regenerate tasks."

  function RegeneratedMessage(count: nat): string
  {
    "Regenerated " + NatToString(count) + " tasks."
  }

  /** regenerate_tasks: `canWrite` is the write permission on the project. The save that follows runs
      the validate hook and then before_save (the organization backfill; execute changes nothing,
      since the stored default role is the current one). */
  method RegenerateTasks(doc: ServiceProject, canWrite: bool, today: Day) returns (r: Result<string>)
    modifies doc`serviceTasks
    ensures !canWrite ==> r == Err(REGENERATE_DENIED) && doc.serviceTasks == old(doc.serviceTasks)
    ensures canWrite ==>
      match ValidateScheduleConfiguration(doc.scheduleType, doc.intervalDays, doc.startDate, today)
      case Rejected(m) => r == Err(m) && doc.serviceTasks == GeneratedFor(doc, today)
      case Accepted(_) =>
        && doc.serviceTasks == WithOrganization(GeneratedFor(doc, today), doc.organization)
        && r == Ok(RegeneratedMessage(|GeneratedFor(doc, today)|))
  {
    if !canWrite {
      return Err(REGENERATE_DENIED);
    }
    GenerateServiceTasks(doc, today);
    var validation := ValidateScheduleConfiguration(doc.scheduleType, doc.intervalDays, doc.startDate, today);
    if validation.Rejected? {
      return Err(validation.message);
    }
    ghost var generated := doc.serviceTasks;
    doc.BeforeSave();
    BackfillPointwise(generated, doc.organization);
    return Ok(RegeneratedMessage(|doc.serviceTasks|));
  }

  // ---------------------------------------------------------------------------------------------
  // What the generated list is.

  /** The offsets are exactly the emitting ones below `n`, strictly ascending. */
  lemma {:induction false} OffsetsExactly(schedule: string, interval: int, n: nat)
    requires interval != 0
    ensures forall i: nat :: i in Offsets(schedule, interval, n) <==> i < n && Emits(schedule, interval, i)
    ensures forall k :: 0 <= k < |Offsets(schedule, interval, n)| ==> Offsets(schedule, interval, n)[k] < n
    ensures forall j, k :: 0 <= j < k < |Offsets(schedule, interval, n)| ==>
      Offsets(schedule, interval, n)[j] < Offsets(schedule, interval, n)[k]
    ensures |Offsets(schedule, interval, n)| <= n
    decreases n
  {
    if n > 0 {
      OffsetsExactly(schedule, interval, n - 1);
    }
  }

  lemma {:induction false} DailyOffsets(interval: int, n: nat)
    requires interval != 0
    ensures |Offsets(DAILY, interval, n)| == n
    ensures forall k :: 0 <= k < n ==> Offsets(DAILY, interval, n)[k] == k
    decreases n
  {
    if n > 0 {
      DailyOffsets(interval, n - 1);
    }
  }

  lemma {:induction false} WeeklyOffsets(interval: int, n: nat)
    requires interval != 0 && 1 <= n <= HORIZON
    ensures Offsets(WEEKLY, interval, n) == [0]
    decreases n
  {
    if n > 1 {
      WeeklyOffsets(interval, n - 1);
    }
  }

  /** A number strictly between two consecutive multiples of `b` is not a multiple of `b`. */
  lemma BetweenMultiples(x: int, l: int, b: int)
    requires b > 0 && (l - 1) * b < x < l * b
    ensures x % b != 0
  {
    var q, r := x / b, x % b;
    assert x == q * b + r && 0 <= r < b;
    assert (q + 1 - (l - 1)) * b == (q + 1) * b - (l - 1) * b;
    assert (q + 1) * b == q * b + b;
    assert q + 1 - (l - 1) > 0 by {
      var k := q + 1 - (l - 1);
      if k <= 0 { assert false; }
    }
    assert (l - q) * b == l * b - q * b;
    assert l - q > 0 by {
      var k := l - q;
      if k <= 0 { assert false; }
    }
  }

  /** A multiple of `b` leaves no remainder. */
  lemma MultipleHasNoRemainder(l: int, b: int)
    requires b > 0
    ensures (l * b) % b == 0
  {
    var q, r := (l * b) / b, (l * b) % b;
    assert l * b == q * b + r && 0 <= r < b;
    var k := l - q;
    assert k * b == r;
    assert k >= 1 ==> k * b >= b;
    assert k <= -1 ==> k * b <= -b;
  }

  lemma EmitsEveryXDays(interval: int, i: nat)
    requires interval != 0
    ensures Emits(EVERY_X_DAYS, interval, i) <==> i % interval == 0
  {
  }

  /** Every X Days with a positive interval emits the multiples of the interval below `n`; their number
      `L` is ⌈n/interval⌉, that is `(L-1)·interval < n <= L·interval`. */
  lemma {:induction false} EveryXDaysOffsets(interval: int, n: nat)
    requires interval > 0
    ensures var l := |Offsets(EVERY_X_DAYS, interval, n)|;
      l * interval >= n && (n == 0 || (l - 1) * interval < n)
    ensures forall k :: 0 <= k < |Offsets(EVERY_X_DAYS, interval, n)| ==> Offsets(EVERY_X_DAYS, interval, n)[k] == k * interval
    decreases n
  {
    if n > 0 {
      EveryXDaysOffsets(interval, n - 1);
      var prev := Offsets(EVERY_X_DAYS, interval, n - 1);
      var l := |prev|;
      EmitsEveryXDays(interval, n - 1);
      if n - 1 == l * interval {
        MultipleHasNoRemainder(l, interval);
        assert Offsets(EVERY_X_DAYS, interval, n) == prev + [n - 1];
      } else {
        BetweenMultiples(n - 1, l, interval);
        assert Offsets(EVERY_X_DAYS, interval, n) == prev;
      }
    }
  }

  lemma {:induction false} UnknownScheduleOffsets(schedule: string, interval: int, n: nat)
    requires interval != 0
    requires schedule != DAILY && schedule != WEEKLY && schedule != EVERY_X_DAYS
    ensures Offsets(schedule, interval, n) == []
    decreases n
  {
    if n > 0 {
      UnknownScheduleOffsets(schedule, interval, n - 1);
    }
  }

  /** A negative interval behaves as its magnitude. */
  lemma {:induction false} NegativeIntervalActsAsMagnitude(schedule: string, interval: int, n: nat)
    requires interval > 0
    ensures Offsets(schedule, -interval, n) == Offsets(schedule, interval, n)
    decreases n
  {
    if n > 0 {
      NegativeIntervalActsAsMagnitude(schedule, interval, n - 1);
      var i := n - 1;
      assert i % interval == 0 <==> i % (-interval) == 0 by {
        if i % interval == 0 {
          var q := i / interval;
          assert i == (-q) * (-interval);
        }
        if i % (-interval) == 0 {
          var q := i / (-interval);
          assert i == (-q) * interval;
        }
      }
    }
  }

  /** Row k of the window is the row for the k-th emitting offset. */
  lemma WindowPointwise(mk: Day -> ServiceTask, schedule: string, start: Day, interval: int)
    requires interval != 0
    ensures |WindowRows(mk, schedule, start, interval)| == |Offsets(schedule, interval, HORIZON)|
    ensures forall k :: 0 <= k < |Offsets(schedule, interval, HORIZON)| ==>
      WindowRows(mk, schedule, start, interval)[k] == mk(start + Offsets(schedule, interval, HORIZON)[k])
  {
    RowsForPointwise(mk, start, Offsets(schedule, interval, HORIZON));
  }

  /** Daily: seven rows dated start .. start+6, in that order. */
  lemma WindowDaily(mk: Day -> ServiceTask, start: Day, interval: int)
    requires interval != 0
    ensures |WindowRows(mk, DAILY, start, interval)| == HORIZON
    ensures forall k :: 0 <= k < HORIZON ==> WindowRows(mk, DAILY, start, interval)[k] == mk(start + k)
  {
    DailyOffsets(interval, HORIZON);
    WindowPointwise(mk, DAILY, start, interval);
  }

  /** Weekly: only offset 0 satisfies `i % 7 == 0` below 7, so one row, dated start. */
  lemma WindowWeekly(mk: Day -> ServiceTask, start: Day, interval: int)
    requires interval != 0
    ensures WindowRows(mk, WEEKLY, start, interval) == [mk(start)]
  {
    WeeklyOffsets(interval, HORIZON);
    assert [0][..0] == [];
    assert RowsFor(mk, start, [0]) == [mk(start + 0)];
  }

  /** Every X Days: L = ⌈7/interval⌉ rows (`(L-1)·interval < 7 <= L·interval`) dated
      start + k·interval, ascending. */
  lemma WindowEveryXDays(mk: Day -> ServiceTask, start: Day, interval: int)
    requires interval > 0
    ensures var l := |WindowRows(mk, EVERY_X_DAYS, start, interval)|;
      (l - 1) * interval < HORIZON <= l * interval
    ensures forall k :: 0 <= k < |WindowRows(mk, EVERY_X_DAYS, start, interval)| ==>
      WindowRows(mk, EVERY_X_DAYS, start, interval)[k] == mk(start + k * interval)
  {
    EveryXDaysRows(mk, start, interval, HORIZON);
  }

  /** The Every X Days rows of an n-day window, for any n > 0. */
  lemma EveryXDaysRows(mk: Day -> ServiceTask, start: Day, interval: int, n: nat)
    requires interval > 0 && n > 0
    ensures var l := |RowsFor(mk, start, Offsets(EVERY_X_DAYS, interval, n))|;
      (l - 1) * interval < n <= l * interval
    ensures forall k :: 0 <= k < |RowsFor(mk, start, Offsets(EVERY_X_DAYS, interval, n))| ==>
      RowsFor(mk, start, Offsets(EVERY_X_DAYS, interval, n))[k] == mk(start + k * interval)
  {
    var offsets := Offsets(EVERY_X_DAYS, interval, n);
    var rows := RowsFor(mk, start, offsets);
    EveryXDaysOffsets(interval, n);
    RowsForPointwise(mk, start, offsets);
    forall k | 0 <= k < |rows|
      ensures rows[k] == mk(start + k * interval)
    {
      assert rows[k] == mk(start + offsets[k]);
    }
  }

  /** Any other schedule type appends nothing (and, through execute, empties the list). */
  lemma WindowUnknown(mk: Day -> ServiceTask, schedule: string, start: Day, interval: int)
    requires interval != 0
    requires schedule != DAILY && schedule != WEEKLY && schedule != EVERY_X_DAYS
    ensures WindowRows(mk, schedule, start, interval) == []
  {
    UnknownScheduleOffsets(schedule, interval, HORIZON);
  }

  /** Every generated task is Pending, unassigned, carries the role, and is titled and noted with its
      own date, which lies in the seven-day window from the start; there are at most seven. */
  lemma GeneratedTaskFields(schedule: string, start: Day, interval: int, role: string)
    requires interval != 0
    ensures |GeneratedTasks(schedule, start, interval, role)| <= HORIZON
    ensures forall t :: t in GeneratedTasks(schedule, start, interval, role) ==>
      && t.status == PENDING && t.assignedRole == role && t.assignedTo == "" && t.organization == ""
      && exists day: Day :: (start <= day < start + HORIZON && t.dueDate == IsoDate(day)
           && t.title == AutoTitle(day) && t.notes == AutoNotes(schedule, day))
  {
    var shape := Generated(schedule, role);
    var tasks := GeneratedTasks(schedule, start, interval, role);
    WindowDays(RowMaker(shape), schedule, start, interval);
    forall t | t in tasks
      ensures && t.status == PENDING && t.assignedRole == role && t.assignedTo == "" && t.organization == ""
              && exists day: Day :: (start <= day < start + HORIZON && t.dueDate == IsoDate(day)
                   && t.title == AutoTitle(day) && t.notes == AutoNotes(schedule, day))
    {
      var day: Day :| start <= day < start + HORIZON && t == RowMaker(shape)(day);
      assert t == Row(shape, day);
    }
  }

  /** Every row of the window is built for a day inside it, and there are at most seven. */
  lemma WindowDays(mk: Day -> ServiceTask, schedule: string, start: Day, interval: int)
    requires interval != 0
    ensures |WindowRows(mk, schedule, start, interval)| <= HORIZON
    ensures forall t :: t in WindowRows(mk, schedule, start, interval) ==>
      exists day: Day :: start <= day < start + HORIZON && t == mk(day)
  {
    var rows := WindowRows(mk, schedule, start, interval);
    var offsets := Offsets(schedule, interval, HORIZON);
    OffsetsExactly(schedule, interval, HORIZON);
    WindowPointwise(mk, schedule, start, interval);
    forall t | t in rows
      ensures exists day: Day :: start <= day < start + HORIZON && t == mk(day)
    {
      var k :| 0 <= k < |rows| && rows[k] == t;
      assert offsets[k] < HORIZON;
      var day: Day := start + offsets[k];
      assert t == mk(day);
    }
  }

  /** A project that passes validation as Every X Days uses its own interval and gets at least one task,
      the first dated on the start day. */
  lemma ValidatedEveryXDaysGenerates(intervalDays: Option<int>, startDate: Option<Day>, today: Day, role: string)
    requires ValidateScheduleConfiguration(EVERY_X_DAYS, intervalDays, startDate, today).Accepted?
    ensures Interval(intervalDays) == intervalDays.value > 0
    ensures var tasks := GeneratedTasks(EVERY_X_DAYS, StartDay(startDate, today), Interval(intervalDays), role);
      |tasks| >= 1 && tasks[0].dueDate == IsoDate(StartDay(startDate, today))
  {
    var start := StartDay(startDate, today);
    var shape := Generated(EVERY_X_DAYS, role);
    WindowEveryXDays(RowMaker(shape), start, intervalDays.value);
    var tasks := GeneratedTasks(EVERY_X_DAYS, start, intervalDays.value, role);
    assert |tasks| != 0;
    assert 0 * intervalDays.value == 0;
    assert tasks[0] == Row(shape, start);
  }
}
