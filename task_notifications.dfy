/** The notification scripts: who is told about a task, and the realtime event, e-mail and alert log
    each of them receives, on a change of the task and in the daily reminder. `roleHolders` stands for
    the "Has Role" lookup (the users holding a role, possibly listed more than once). Message texts are
    not part of this model; a dispatch records its channel, its recipient and its task. */
module TaskNotifications {
  import opened Dates
  import opened ServiceTaskDoctype

  /** Users who are never notified. */
  const EXCLUDED: set<string> := {"Guest", "Administrator"}

  /** The recipients of a task: the holders of its role and its assignee, without the excluded users. */
  function RecipientSet(task: ServiceTask, roleHolders: string -> seq<string>): set<string>
  {
    var byRole := if task.assignedRole != "" then (set u | u in roleHolders(task.assignedRole)) else {};
    var byAssignee := if task.assignedTo != "" then {task.assignedTo} else {};
    (byRole + byAssignee) - EXCLUDED
  }

  /** Who is notified: a holder of the task's role or its assignee, never Guest or Administrator. */
  lemma RecipientsExactly(task: ServiceTask, roleHolders: string -> seq<string>, user: string)
    ensures user in RecipientSet(task, roleHolders) <==>
      && user != "Guest" && user != "Administrator"
      && ((task.assignedRole != "" && user in roleHolders(task.assignedRole)) || (task.assignedTo != "" && user == task.assignedTo))
  {
  }

  /** The recipient loop of both scripts: a set grown by the role holders and the assignee, then
      filtered. */
  method CollectRecipients(task: ServiceTask, roleHolders: string -> seq<string>) returns (recipients: set<string>)
    ensures recipients == RecipientSet(task, roleHolders)
  {
    var found: set<string> := {};
    if task.assignedRole != "" {
      var users := roleHolders(task.assignedRole);
      for i := 0 to |users|
        invariant found == set u | u in users[..i]
      {
        assert users[..i + 1] == users[..i] + [users[i]];
        found := found + {users[i]};
      }
      assert users[..|users|] == users;
    }
    if task.assignedTo != "" {
      found := found + {task.assignedTo};
    }
    recipients := found - EXCLUDED;
  }

  datatype Channel = Realtime | Email | AlertLog

  /** Which script sent it: notify_task_update or the daily notify_scheduled_tasks. */
  datatype Occasion = Changed | DueToday

  datatype Dispatch = Dispatch(channel: Channel, user: string, taskName: string, occasion: Occasion)

  /** What one recipient receives, in the order it is sent. */
  function Triple(user: string, taskName: string, occasion: Occasion): seq<Dispatch>
  {
    [Dispatch(Realtime, user, taskName, occasion), Dispatch(Email, user, taskName, occasion),
     Dispatch(AlertLog, user, taskName, occasion)]
  }

  /** What the recipients receive when visited in `order`. */
  function Triples(order: seq<string>, taskName: string, occasion: Occasion): seq<Dispatch>
  {
    if order == [] then []
    else Triples(order[..|order| - 1], taskName, occasion) + Triple(order[|order| - 1], taskName, occasion)
  }

  /** How many dispatches of a channel went to a user. */
  function CountTo(sent: seq<Dispatch>, user: string, channel: Channel): nat
  {
    if sent == [] then 0
    else CountTo(sent[..|sent| - 1], user, channel)
         + (if sent[|sent| - 1].user == user && sent[|sent| - 1].channel == channel then 1 else 0)
  }

  lemma {:induction false} CountToAppend(a: seq<Dispatch>, b: seq<Dispatch>, user: string, channel: Channel)
    ensures CountTo(a + b, user, channel) == CountTo(a, user, channel) + CountTo(b, user, channel)
    decreases |b|
  {
    if b == [] {
      assert a + b == a;
    } else {
      CountToAppend(a, b[..|b| - 1], user, channel);
      assert (a + b)[..|a + b| - 1] == a + b[..|b| - 1];
    }
  }

  /** One recipient's dispatches: one per channel, all to that recipient. */
  lemma TripleCount(last: string, taskName: string, occasion: Occasion, user: string, channel: Channel)
    ensures CountTo(Triple(last, taskName, occasion), user, channel) == if last == user then 1 else 0
  {
    var t := Triple(last, taskName, occasion);
    var hit := if last == user then 1 else 0;
    assert t[..2][..1][..0] == [];
    assert CountTo(t[..2][..1], user, channel) == (if channel == Realtime then hit else 0);
    assert CountTo(t[..2], user, channel) == (if channel != AlertLog then hit else 0);
  }

  /** Each user gets one dispatch per channel for every time they occur in the visiting order. */
  lemma {:induction false} TriplesCount(order: seq<string>, taskName: string, occasion: Occasion)
    ensures |Triples(order, taskName, occasion)| == 3 * |order|
    ensures forall user, channel :: CountTo(Triples(order, taskName, occasion), user, channel) == multiset(order)[user]
    decreases |order|
  {
    if order != [] {
      var init, last := order[..|order| - 1], order[|order| - 1];
      TriplesCount(init, taskName, occasion);
      assert order == init + [last];
      assert multiset(order) == multiset(init) + multiset{last};
      forall user, channel
        ensures CountTo(Triples(order, taskName, occasion), user, channel) == multiset(order)[user]
      {
        CountToAppend(Triples(init, taskName, occasion), Triple(last, taskName, occasion), user, channel);
        TripleCount(last, taskName, occasion, user, channel);
      }
    }
  }

  /** Every dispatch goes to someone in the visiting order, about the given task and occasion. */
  lemma {:induction false} TriplesAddressed(order: seq<string>, taskName: string, occasion: Occasion)
    ensures forall d :: d in Triples(order, taskName, occasion) ==> d.user in order && d.taskName == taskName && d.occasion == occasion
    decreases |order|
  {
    if order != [] {
      var init := order[..|order| - 1];
      TriplesAddressed(init, taskName, occasion);
      forall d | d in Triples(order, taskName, occasion)
        ensures d.user in order
      {
        if d !in Triples(init, taskName, occasion) {
          assert d.user == order[|order| - 1];
        } else {
          assert d.user in init;
        }
      }
    }
  }

  /** The dispatch loop: every recipient, in some order, gets its realtime event, e-mail and alert log;
      nobody else gets anything. */
  method Dispatch3(recipients: set<string>, taskName: string, occasion: Occasion) returns (sent: seq<Dispatch>)
    ensures |sent| == 3 * |recipients|
    ensures forall user, channel :: CountTo(sent, user, channel) == if user in recipients then 1 else 0
    ensures forall d :: d in sent ==> d.user in recipients && d.taskName == taskName && d.occasion == occasion
  {
    sent := [];
    var remaining := recipients;
    ghost var order: seq<string> := [];
    while remaining != {}
      invariant remaining <= recipients
      invariant multiset(order) + multiset(remaining) == multiset(recipients)
      invariant sent == Triples(order, taskName, occasion)
      decreases remaining
    {
      var user :| user in remaining;
      assert multiset(remaining) == multiset(remaining - {user}) + multiset{user};
      sent := sent + Triple(user, taskName, occasion);
      order := order + [user];
      remaining := remaining - {user};
    }
    TriplesCount(order, taskName, occasion);
    TriplesAddressed(order, taskName, occasion);
    assert multiset(order) == multiset(recipients);
    assert |order| == |multiset(order)| == |recipients|;
    forall d | d in sent
      ensures d.user in recipients
    {
      assert d.user in multiset(order);
    }
  }

  /** notify_task_update: each recipient is told once on each channel; without recipients nothing is
      sent. */
  method NotifyTaskUpdate(task: ServiceTask, roleHolders: string -> seq<string>) returns (sent: seq<Dispatch>)
    ensures forall user, channel :: CountTo(sent, user, channel) == if user in RecipientSet(task, roleHolders) then 1 else 0
    ensures forall d :: d in sent ==> d.taskName == task.name && d.occasion == Changed
    ensures RecipientSet(task, roleHolders) == {} ==> sent == []
  {
    var recipients := CollectRecipients(task, roleHolders);
    sent := [];
    if recipients != {} {
      sent := Dispatch3(recipients, task.name, Changed);
    }
  }

  /** The tasks due on `today` (the query's due-date filter). */
  function DueOn(rows: seq<ServiceTask>, today: Day): (due: seq<ServiceTask>)
    ensures forall t :: t in due <==> t in rows && t.dueDate == IsoDate(today)
    ensures |due| <= |rows|
  {
    if rows == [] then []
    else
      var last := rows[|rows| - 1];
      DueOn(rows[..|rows| - 1], today) + (if last.dueDate == IsoDate(today) then [last] else [])
  }

  /** The number of dispatches the reminder sends for `tasks`: three per recipient of each. */
  function ReminderCount(tasks: seq<ServiceTask>, roleHolders: string -> seq<string>): nat
  {
    if tasks == [] then 0
    else ReminderCount(tasks[..|tasks| - 1], roleHolders) + 3 * |RecipientSet(tasks[|tasks| - 1], roleHolders)|
  }

  /** A reminder sent on behalf of one of `tasks` to one of its recipients. */
  predicate IsReminder(d: Dispatch, tasks: seq<ServiceTask>, roleHolders: string -> seq<string>)
  {
    d.occasion == DueToday && exists t :: t in tasks && t.name == d.taskName && d.user in RecipientSet(t, roleHolders)
  }

  /** How many dispatches of a channel about a task went to a user. */
  function CountAbout(sent: seq<Dispatch>, user: string, channel: Channel, taskName: string): nat
  {
    if sent == [] then 0
    else
      var last := sent[|sent| - 1];
      CountAbout(sent[..|sent| - 1], user, channel, taskName)
        + (if last.user == user && last.channel == channel && last.taskName == taskName then 1 else 0)
  }

  /** How many of `tasks` are named `taskName` and count `user` among their recipients: the number of
      reminders per channel that user should get about that name. */
  function ExpectedReminders(tasks: seq<ServiceTask>, user: string, taskName: string, roleHolders: string -> seq<string>): nat
  {
    if tasks == [] then 0
    else
      var last := tasks[|tasks| - 1];
      ExpectedReminders(tasks[..|tasks| - 1], user, taskName, roleHolders)
        + (if last.name == taskName && user in RecipientSet(last, roleHolders) then 1 else 0)
  }

  /** No two tasks share a name (Frappe document names are unique). */
  predicate UniqueNames(tasks: seq<ServiceTask>)
  {
    forall i, j :: 0 <= i < j < |tasks| ==> tasks[i].name != tasks[j].name
  }

  lemma {:induction false} CountAboutAppend(a: seq<Dispatch>, b: seq<Dispatch>, user: string, channel: Channel, taskName: string)
    ensures CountAbout(a + b, user, channel, taskName) == CountAbout(a, user, channel, taskName) + CountAbout(b, user, channel, taskName)
    decreases |b|
  {
    if b == [] {
      assert a + b == a;
    } else {
      CountAboutAppend(a, b[..|b| - 1], user, channel, taskName);
      assert (a + b)[..|a + b| - 1] == a + b[..|b| - 1];
    }
  }

  /** Dispatches that all concern one task count only for that task, where they count as CountTo does. */
  lemma {:induction false} CountAboutOneTask(sent: seq<Dispatch>, user: string, channel: Channel, taskName: string, name: string)
    requires forall d :: d in sent ==> d.taskName == name
    ensures CountAbout(sent, user, channel, taskName) == if taskName == name then CountTo(sent, user, channel) else 0
    decreases |sent|
  {
    if sent != [] {
      var init := sent[..|sent| - 1];
      assert forall d :: d in init ==> d in sent;
      CountAboutOneTask(init, user, channel, taskName, name);
      assert sent[|sent| - 1] in sent;
    }
  }

  /** notify_scheduled_tasks: for every task due today, the same recipients as for a change are sent a
      reminder, one per channel; tasks due on other days cause nothing. */
  method NotifyScheduledTasks(rows: seq<ServiceTask>, today: Day, roleHolders: string -> seq<string>) returns (sent: seq<Dispatch>)
    ensures |sent| == ReminderCount(DueOn(rows, today), roleHolders)
    ensures forall d :: d in sent ==> IsReminder(d, DueOn(rows, today), roleHolders)
    ensures forall user, channel, taskName ::
      CountAbout(sent, user, channel, taskName) == ExpectedReminders(DueOn(rows, today), user, taskName, roleHolders)
    ensures UniqueNames(rows) ==> forall t, user, channel :: t in rows ==>
      CountAbout(sent, user, channel, t.name)
        == if t.dueDate == IsoDate(today) && user in RecipientSet(t, roleHolders) then 1 else 0
  {
    var tasks := DueOn(rows, today);
    sent := RemindAll(tasks, roleHolders);
    if UniqueNames(rows) {
      forall t, user, channel | t in rows
        ensures CountAbout(sent, user, channel, t.name)
          == if t.dueDate == IsoDate(today) && user in RecipientSet(t, roleHolders) then 1 else 0
      {
        DueRemindersExactly(rows, today, roleHolders, t, user);
      }
    }
  }

  /** The loop over the tasks due today: task by task, each recipient gets one dispatch per channel. */
  method RemindAll(tasks: seq<ServiceTask>, roleHolders: string -> seq<string>) returns (sent: seq<Dispatch>)
    ensures |sent| == ReminderCount(tasks, roleHolders)
    ensures forall d :: d in sent ==> IsReminder(d, tasks, roleHolders)
    ensures forall user, channel, taskName ::
      CountAbout(sent, user, channel, taskName) == ExpectedReminders(tasks, user, taskName, roleHolders)
  {
    sent := [];
    for i := 0 to |tasks|
      invariant |sent| == ReminderCount(tasks[..i], roleHolders)
      invariant forall d :: d in sent ==> IsReminder(d, tasks, roleHolders)
      invariant forall user, channel, taskName ::
        CountAbout(sent, user, channel, taskName) == ExpectedReminders(tasks[..i], user, taskName, roleHolders)
    {
      var more := RemindOne(tasks[i], roleHolders);
      RemindersAppend(sent, more, tasks, i, roleHolders);
      RemindCountStep(sent, more, tasks, i, roleHolders);
      sent := sent + more;
    }
    assert tasks[..|tasks|] == tasks;
  }

  lemma RemindersAppend(sent: seq<Dispatch>, more: seq<Dispatch>, tasks: seq<ServiceTask>, i: nat, roleHolders: string -> seq<string>)
    requires i < |tasks|
    requires forall d :: d in sent ==> IsReminder(d, tasks, roleHolders)
    requires forall d :: d in more ==> d.occasion == DueToday && d.taskName == tasks[i].name && d.user in RecipientSet(tasks[i], roleHolders)
    ensures forall d :: d in sent + more ==> IsReminder(d, tasks, roleHolders)
  {
    forall d | d in sent + more
      ensures IsReminder(d, tasks, roleHolders)
    {
      if d !in sent {
        assert d in more;
        assert tasks[i] in tasks;
      }
    }
  }

  /** The reminders of one more task add one dispatch per channel for each of its recipients. */
  lemma RemindCountStep(sent: seq<Dispatch>, more: seq<Dispatch>, tasks: seq<ServiceTask>, i: nat, roleHolders: string -> seq<string>)
    requires i < |tasks|
    requires forall user, channel, taskName ::
      CountAbout(sent, user, channel, taskName) == ExpectedReminders(tasks[..i], user, taskName, roleHolders)
    requires forall d :: d in more ==> d.taskName == tasks[i].name
    requires forall user, channel :: CountTo(more, user, channel) == if user in RecipientSet(tasks[i], roleHolders) then 1 else 0
    requires |sent| == ReminderCount(tasks[..i], roleHolders) && |more| == 3 * |RecipientSet(tasks[i], roleHolders)|
    ensures |sent + more| == ReminderCount(tasks[..i + 1], roleHolders)
    ensures forall user, channel, taskName ::
      CountAbout(sent + more, user, channel, taskName) == ExpectedReminders(tasks[..i + 1], user, taskName, roleHolders)
  {
    assert tasks[..i + 1][..i] == tasks[..i];
    forall user, channel, taskName
      ensures CountAbout(sent + more, user, channel, taskName) == ExpectedReminders(tasks[..i + 1], user, taskName, roleHolders)
    {
      CountAboutAppend(sent, more, user, channel, taskName);
      CountAboutOneTask(more, user, channel, taskName, tasks[i].name);
    }
  }

  /** The reminder for one task due today: each recipient gets one realtime event, one e-mail and one
      alert log; nobody else gets anything. */
  method RemindOne(task: ServiceTask, roleHolders: string -> seq<string>) returns (sent: seq<Dispatch>)
    ensures |sent| == 3 * |RecipientSet(task, roleHolders)|
    ensures forall user, channel :: CountTo(sent, user, channel) == if user in RecipientSet(task, roleHolders) then 1 else 0
    ensures forall d :: d in sent ==> d.occasion == DueToday && d.taskName == task.name && d.user in RecipientSet(task, roleHolders)
  {
    var recipients := CollectRecipients(task, roleHolders);
    sent := [];
    if recipients != {} {
      sent := Dispatch3(recipients, task.name, DueToday);
    }
  }

  lemma ExpectedSnoc(tasks: seq<ServiceTask>, last: ServiceTask, user: string, taskName: string, roleHolders: string -> seq<string>)
    ensures ExpectedReminders(tasks + [last], user, taskName, roleHolders)
      == ExpectedReminders(tasks, user, taskName, roleHolders) + (if last.name == taskName && user in RecipientSet(last, roleHolders) then 1 else 0)
  {
    assert (tasks + [last])[..|tasks|] == tasks;
  }

  /** A name no task carries is owed no reminder. */
  lemma {:induction false} ExpectedAbsent(tasks: seq<ServiceTask>, user: string, taskName: string, roleHolders: string -> seq<string>)
    requires forall t :: t in tasks ==> t.name != taskName
    ensures ExpectedReminders(tasks, user, taskName, roleHolders) == 0
    decreases |tasks|
  {
    if tasks != [] {
      var init := tasks[..|tasks| - 1];
      assert forall t :: t in init ==> t in tasks;
      ExpectedAbsent(init, user, taskName, roleHolders);
      assert tasks[|tasks| - 1] in tasks;
    }
  }

  /** One more row adds to what the reminder owes only when it is due today. */
  lemma DueSnoc(rows: seq<ServiceTask>, today: Day, roleHolders: string -> seq<string>, taskName: string, user: string)
    requires rows != []
    ensures ExpectedReminders(DueOn(rows, today), user, taskName, roleHolders)
      == ExpectedReminders(DueOn(rows[..|rows| - 1], today), user, taskName, roleHolders)
        + (if rows[|rows| - 1].dueDate == IsoDate(today) && rows[|rows| - 1].name == taskName
             && user in RecipientSet(rows[|rows| - 1], roleHolders) then 1 else 0)
  {
    var last := rows[|rows| - 1];
    var due := DueOn(rows[..|rows| - 1], today);
    if last.dueDate == IsoDate(today) {
      ExpectedSnoc(due, last, user, taskName, roleHolders);
    } else {
      assert DueOn(rows, today) == due;
    }
  }

  lemma UniqueInit(rows: seq<ServiceTask>)
    requires rows != [] && UniqueNames(rows)
    ensures UniqueNames(rows[..|rows| - 1])
    ensures forall t :: t in rows[..|rows| - 1] ==> t.name != rows[|rows| - 1].name
  {
    var init := rows[..|rows| - 1];
    forall t | t in init
      ensures t.name != rows[|rows| - 1].name
    {
      var j :| 0 <= j < |init| && init[j] == t;
      assert rows[j] == t;
    }
  }

  lemma LastOrEarlier(rows: seq<ServiceTask>, t: ServiceTask)
    requires t in rows
    ensures t in rows[..|rows| - 1] || t == rows[|rows| - 1]
  {
    assert rows == rows[..|rows| - 1] + [rows[|rows| - 1]];
  }

  /** The last row's name is owed nothing by the rows before it. */
  lemma NothingOwedBeforeLast(rows: seq<ServiceTask>, today: Day, roleHolders: string -> seq<string>, user: string)
    requires rows != [] && UniqueNames(rows)
    ensures ExpectedReminders(DueOn(rows[..|rows| - 1], today), user, rows[|rows| - 1].name, roleHolders) == 0
  {
    UniqueInit(rows);
    ExpectedAbsent(DueOn(rows[..|rows| - 1], today), user, rows[|rows| - 1].name, roleHolders);
  }

  /** With unique names, a task's recipient is owed one reminder per channel exactly when the task is
      due today; anyone else, and any task due another day, none. */
  lemma {:induction false} DueRemindersExactly(rows: seq<ServiceTask>, today: Day, roleHolders: string -> seq<string>,
                                               t: ServiceTask, user: string)
    requires UniqueNames(rows) && t in rows
    ensures ExpectedReminders(DueOn(rows, today), user, t.name, roleHolders)
      == if t.dueDate == IsoDate(today) && user in RecipientSet(t, roleHolders) then 1 else 0
    decreases |rows|
  {
    var init := rows[..|rows| - 1];
    DueSnoc(rows, today, roleHolders, t.name, user);
    UniqueInit(rows);
    LastOrEarlier(rows, t);
    if t in init {
      DueRemindersExactly(init, today, roleHolders, t, user);
    } else {
      NothingOwedBeforeLast(rows, today, roleHolders, user);
    }
  }

  /** A reminder always concerns a task due on that day, and goes to one of its recipients. */
  lemma RemindersOnlyForToday(d: Dispatch, rows: seq<ServiceTask>, today: Day, roleHolders: string -> seq<string>)
    requires IsReminder(d, DueOn(rows, today), roleHolders)
    ensures exists t :: t in rows && t.dueDate == IsoDate(today) && t.name == d.taskName && d.user in RecipientSet(t, roleHolders)
  {
  }
}
