/** The on_submit hook of a Service Project: appends the seven-day window's tasks to the list it
    already has, with a fixed role and no notes. */
module ServiceProjectScheduler {
  import opened Wrappers
  import opened Dates
  import opened ServiceTaskDoctype
  import opened ServiceProjectDoctype
  import opened AutoGenerateTasks

  /** The rows on_submit appends. */
  function SubmittedTasks(schedule: string, start: Day, interval: int): seq<ServiceTask>
    requires interval != 0
  {
    WindowRows(RowMaker(Submitted), schedule, start, interval)
  }

  /** on_submit: the same window and schedule test as the save hook, but nothing is cleared. */
  method OnSubmit(doc: ServiceProject, today: Day)
    modifies doc`serviceTasks
    ensures doc.serviceTasks == old(doc.serviceTasks)
      + SubmittedTasks(doc.scheduleType, StartDay(doc.startDate, today), Interval(doc.intervalDays))
  {
    var schedule := doc.scheduleType;
    var start := StartDay(doc.startDate, today);
    var interval := Interval(doc.intervalDays);
    AppendWindow(doc, RowMaker(Submitted), schedule, start, interval, HORIZON);
  }

  /** The submitted rows fall on the same days as the save hook's rows: each is the save hook's row
      with the role "Engineer" and no notes. */
  lemma SubmittedMatchesGenerated(schedule: string, start: Day, interval: int, role: string)
    requires interval != 0
    ensures |SubmittedTasks(schedule, start, interval)| == |GeneratedTasks(schedule, start, interval, role)|
    ensures forall k :: 0 <= k < |SubmittedTasks(schedule, start, interval)| ==>
      SubmittedTasks(schedule, start, interval)[k]
        == GeneratedTasks(schedule, start, interval, role)[k].(assignedRole := FALLBACK_ROLE, notes := "")
  {
    var offsets := Offsets(schedule, interval, HORIZON);
    var submitted, generated := SubmittedTasks(schedule, start, interval), GeneratedTasks(schedule, start, interval, role);
    WindowPointwise(RowMaker(Generated(schedule, role)), schedule, start, interval);
    WindowPointwise(RowMaker(Submitted), schedule, start, interval);
    forall k | 0 <= k < |submitted|
      ensures submitted[k] == generated[k].(assignedRole := FALLBACK_ROLE, notes := "")
    {
      RowShapesAgree(schedule, role, start + offsets[k]);
    }
  }

  /** Submitting keeps every task already on the project, in place, and adds at most seven, all
      Pending and assigned to the Engineer role. */
  lemma SubmitOnlyAppends(existing: seq<ServiceTask>, schedule: string, start: Day, interval: int)
    requires interval != 0
    ensures var after := existing + SubmittedTasks(schedule, start, interval);
      && after[..|existing|] == existing
      && |after| - |existing| <= HORIZON
      && forall t :: t in after[|existing|..] ==> t.status == PENDING && t.assignedRole == FALLBACK_ROLE
  {
    var added := SubmittedTasks(schedule, start, interval);
    var after := existing + added;
    OffsetsExactly(schedule, interval, HORIZON);
    WindowPointwise(RowMaker(Submitted), schedule, start, interval);
    assert after[..|existing|] == existing;
    assert after[|existing|..] == added;
  }
}
