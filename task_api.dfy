/** The task API: who may see and edit a task, how a task is presented, how the "my tasks" query and
    its statistics are filtered, and the whitelisted updates, the batch update, creation and deletion.
    The database is a map from task name to row; `tr` stands for the translation function `_` and
    `escape` for frappe.db.escape. */
module TaskApi {
  import opened Wrappers
  import opened Text
  import opened Dates
  import opened ServiceTaskDoctype
  import opened AutoGenerateTasks

  /** The TaskAPI object: the session user and the roles frappe.get_roles gives for that user. */
  datatype Session = Session(currentUser: string, userRoles: seq<string>)

  const ADMIN_ROLES := ["System Manager", "Administrator"]

  /** `any(role in roles for role in candidates)` */
  function AnyIn(candidates: seq<string>, roles: seq<string>): (b: bool)
    ensures b <==> exists i :: 0 <= i < |candidates| && candidates[i] in roles
  {
    if candidates == [] then false
    else candidates[0] in roles || AnyIn(candidates[1..], roles)
  }

  /** _check_if_admin */
  function CheckIfAdmin(roles: seq<string>): (b: bool)
    ensures b <==> "System Manager" in roles || "Administrator" in roles
  {
    assert ADMIN_ROLES[0] == "System Manager" && ADMIN_ROLES[1] == "Administrator";
    AnyIn(ADMIN_ROLES, roles)
  }

  predicate IsAdmin(s: Session)
  {
    CheckIfAdmin(s.userRoles)
  }

  /** _can_edit_task: an assignee takes precedence over the role, and a task with neither is editable by
      administrators only. */
  predicate CanEditTask(s: Session, t: ServiceTask)
  {
    if IsAdmin(s) then true
    else if t.assignedTo != "" then t.assignedTo == s.currentUser
    else if t.assignedRole != "" then t.assignedRole in s.userRoles
    else false
  }

  /** The view rule of get_task_details and get_task_history. An unset `assigned_to` (None) never
      equals the session user, hence the first conjunct. */
  predicate CanViewTask(s: Session, t: ServiceTask)
  {
    IsAdmin(s)
    || (t.assignedTo != "" && t.assignedTo == s.currentUser)
    || (t.assignedRole != "" && t.assignedRole in s.userRoles && t.assignedTo == "")
  }

  /** The two rules, written differently, admit exactly the same tasks. */
  lemma ViewIffEdit(s: Session, t: ServiceTask)
    ensures CanViewTask(s, t) <==> CanEditTask(s, t)
  {
  }

  /** A task assigned to someone is closed to everyone else who is not an administrator, whatever role
      it names and whatever roles they hold. */
  lemma AssigneeExcludesOthers(s: Session, t: ServiceTask)
    requires t.assignedTo != "" && t.assignedTo != s.currentUser
    ensures CanEditTask(s, t) <==> "System Manager" in s.userRoles || "Administrator" in s.userRoles
  {
  }

  // ---------------------------------------------------------------------------------------------
  // _format_task

  /** `_("...{0}...").format(arg)`: the translated template with its placeholder filled. */
  function FormatWith(template: string, arg: string): string
  {
    ReplaceAll(template, "{0}", arg)
  }

  /** The four ways _format_task translates a title. */
  datatype TitleKind =
    | AutoTask(datePart: string)
    | GeneratedDaily(datePart: string)
    | GeneratedEveryXDays(datePart: string)
    | Verbatim

  const AUTO_PREFIX := "Auto Task for"
  const GENERATED_MARKER := "Task generated for"

  /** `title.split(" on ")[-1] if " on " in title else ""` */
  function AfterLastOn(title: string): string
  {
    if Contains(title, " on ") then LastPiece(title, " on ") else ""
  }

  function ClassifyTitle(title: string): (k: TitleKind)
    ensures k.AutoTask? <==> StartsWith(title, AUTO_PREFIX)
    ensures k.GeneratedDaily? ==> Contains(title, GENERATED_MARKER) && Contains(title, "Daily")
    ensures k.GeneratedEveryXDays? ==> Contains(title, GENERATED_MARKER) && Contains(title, EVERY_X_DAYS)
    ensures k == Verbatim <==>
      (!StartsWith(title, AUTO_PREFIX)
       && (!Contains(title, GENERATED_MARKER) || (!Contains(title, "Daily") && !Contains(title, EVERY_X_DAYS))))
  {
    if StartsWith(title, AUTO_PREFIX) then AutoTask(ReplaceAll(title, "Auto Task for ", ""))
    else if Contains(title, GENERATED_MARKER) then
      if Contains(title, "Daily") then GeneratedDaily(AfterLastOn(title))
      else if Contains(title, EVERY_X_DAYS) then GeneratedEveryXDays(AfterLastOn(title))
      else Verbatim
    else Verbatim
  }

  function TranslatedTitle(title: string, tr: string -> string): string
  {
    match ClassifyTitle(title)
    case AutoTask(d) => FormatWith(tr("Auto Task for {0}"), d)
    case GeneratedDaily(d) => FormatWith(tr("Task generated for Daily on {0}"), d)
    case GeneratedEveryXDays(d) => FormatWith(tr("Task generated for Every X Days on {0}"), d)
    case Verbatim => tr(title)
  }

  /** The presented task. The row's creation and modified timestamps are not part of this model. */
  datatype FormattedTask = FormattedTask(
    name: string,
    title: string,
    dueDate: string,
    localDueDate: string,
    status: string,
    assignedTo: string,
    assignedRole: string,
    notes: string,
    parent: string,
    canEdit: bool,
    statusTranslated: string,
    titleTranslated: string)

  function FormatTask(s: Session, t: ServiceTask, tr: string -> string): FormattedTask
  {
    var title := if t.title != "" then t.title else tr("Untitled");
    var status := if t.status != "" then t.status else PENDING;
    FormattedTask(t.name, title, t.dueDate, t.localDueDate, status, t.assignedTo, t.assignedRole,
                  t.notes, t.parent, CanEditTask(s, t), tr(status), TranslatedTitle(title, tr))
  }

  /** Presenting a task keeps its fields, fills the empty title and status with their defaults, and
      marks it editable exactly when the edit rule allows. */
  lemma FormatTaskFields(s: Session, t: ServiceTask, tr: string -> string)
    ensures var f := FormatTask(s, t, tr);
      && f.status != "" && (t.status != "" ==> f.status == t.status) && (t.status == "" ==> f.status == PENDING)
      && (t.title != "" ==> f.title == t.title) && (t.title == "" ==> f.title == tr("Untitled"))
      && f.statusTranslated == tr(f.status)
      && f.canEdit == CanEditTask(s, t)
      && (f.name, f.dueDate, f.localDueDate, f.assignedTo, f.assignedRole, f.notes, f.parent)
         == (t.name, t.dueDate, t.localDueDate, t.assignedTo, t.assignedRole, t.notes, t.parent)
  {
  }

  /** The date part recovered from an automatic title is the date it was built from. */
  lemma AutoTitleRoundTrip(day: Day)
    ensures ClassifyTitle(AutoTitle(day)) == AutoTask(IsoDate(day))
  {
    var date := IsoDate(day);
    var title := AutoTitle(day);
    assert title[..|AUTO_PREFIX|] == AUTO_PREFIX;
    assert title[..|"Auto Task for "|] == "Auto Task for ";
    assert title[|"Auto Task for "|..] == date;
    forall i | 0 <= i < |date|
      ensures date[i] != "Auto Task for "[0]
    {
      assert IsDateChar(date[i]);
    }
    ReplaceAbsent(date, "Auto Task for ", "");
  }

  /** A row the save hook generated is presented as Pending, its title translated around its own due
      date, and editable by an administrator or a holder of its role. */
  lemma FormatGeneratedRow(s: Session, schedule: string, role: string, day: Day, tr: string -> string)
    ensures var f := FormatTask(s, Row(Generated(schedule, role), day), tr);
      && f.status == PENDING
      && f.dueDate == IsoDate(day)
      && f.titleTranslated == FormatWith(tr("Auto Task for {0}"), IsoDate(day))
      && (f.canEdit <==> IsAdmin(s) || (role != "" && role in s.userRoles))
  {
    AutoTitleRoundTrip(day);
  }

  // ---------------------------------------------------------------------------------------------
  // get_my_tasks: the WHERE clause and the statistics clause

  /** `[f"assigned_role = {escape(role)}" for role in roles]` */
  function RoleEquals(roles: seq<string>, escape: string -> string): (r: seq<string>)
    ensures |r| == |roles|
    ensures forall i :: 0 <= i < |roles| ==> r[i] == "assigned_role = " + escape(roles[i])
  {
    if roles == [] then [] else ["assigned_role = " + escape(roles[0])] + RoleEquals(roles[1..], escape)
  }

  function AssigneeCondition(s: Session, escape: string -> string): string
  {
    "assigned_to = " + escape(s.currentUser)
  }

  /** The non-administrator filter: assigned to the user, or to one of the user's roles and to nobody. */
  function UserRoleCondition(s: Session, escape: string -> string): string
  {
    if s.userRoles != [] then
      "(" + AssigneeCondition(s, escape) + " OR " + "(" + Join(RoleEquals(s.userRoles, escape), " OR ") + ") AND assigned_to IS NULL" + ")"
    else AssigneeCondition(s, escape)
  }

  /** The due-date filter; `addMonths` stands for frappe's add_months(today, 1). */
  function DueConditions(dueFilter: string, today: Day, escape: string -> string, addMonths: Day -> Day): (r: seq<string>)
    ensures |r| == if dueFilter == "overdue" then 2
                   else if dueFilter in ["today", "week", "month"] then 1 else 0
  {
    var now := escape(IsoDate(today));
    if dueFilter == "" || dueFilter == "all" then []
    else if dueFilter == "today" then ["due_date = " + now]
    else if dueFilter == "week" then ["due_date BETWEEN " + now + " AND " + escape(IsoDate(today + 7))]
    else if dueFilter == "month" then ["due_date BETWEEN " + now + " AND " + escape(IsoDate(addMonths(today)))]
    else if dueFilter == "overdue" then ["due_date < " + now, "status != 'Completed'"]
    else []
  }

  function SearchCondition(searchTerm: string, escape: string -> string): string
  {
    var pattern := escape("%" + searchTerm + "%");
    "(task_title LIKE " + pattern + " OR notes LIKE " + pattern + ")"
  }

  /** The conditions get_my_tasks collects, in the order it appends them. A parameter left empty stands
      for one the caller did not pass. */
  function WhereConditions(s: Session, status: string, dueFilter: string, searchTerm: string, today: Day,
                           escape: string -> string, addMonths: Day -> Day): seq<string>
  {
    (if !IsAdmin(s) then [UserRoleCondition(s, escape)] else [])
    + (if status != "" && status != "All" then ["status = " + escape(status)] else [])
    + DueConditions(dueFilter, today, escape, addMonths)
    + (if searchTerm != "" then [SearchCondition(searchTerm, escape)] else [])
  }

  const DUE_DATE := "due_date"

  /** What each due filter asks of the due date: equality with today's escaped date; between today and
      seven days on; between today and a month on; or before today and not Completed. A due-date
      comparison appears among the conditions if and only if one of those four filters is chosen. */
  lemma DueFilterMeaning(s: Session, status: string, dueFilter: string, searchTerm: string, today: Day,
                         escape: string -> string, addMonths: Day -> Day)
    ensures var c := WhereConditions(s, status, dueFilter, searchTerm, today, escape, addMonths);
      var now := escape(IsoDate(today));
      && (dueFilter == "today" ==> "due_date = " + now in c)
      && (dueFilter == "week" ==> "due_date BETWEEN " + now + " AND " + escape(IsoDate(today + 7)) in c)
      && (dueFilter == "month" ==> "due_date BETWEEN " + now + " AND " + escape(IsoDate(addMonths(today))) in c)
      && (dueFilter == "overdue" ==> "due_date < " + now in c && "status != 'Completed'" in c)
      && ((exists x :: x in c && StartsWith(x, DUE_DATE)) <==> dueFilter in ["today", "week", "month", "overdue"])
  {
    var c := WhereConditions(s, status, dueFilter, searchTerm, today, escape, addMonths);
    var due := DueConditions(dueFilter, today, escape, addMonths);
    OtherConditionsNotDue(s, status, dueFilter, searchTerm, today, escape, addMonths);
    DueConditionsCompare(dueFilter, today, escape, addMonths);
    if due != [] {
      assert StartsWith(due[0], DUE_DATE) && due[0] in c;
    }
  }

  /** Every condition get_my_tasks collects either comes from the due filter or does not compare the due
      date. */
  lemma OtherConditionsNotDue(s: Session, status: string, dueFilter: string, searchTerm: string, today: Day,
                              escape: string -> string, addMonths: Day -> Day)
    ensures var c := WhereConditions(s, status, dueFilter, searchTerm, today, escape, addMonths);
      var due := DueConditions(dueFilter, today, escape, addMonths);
      && (forall x :: x in due ==> x in c)
      && (forall x :: x in c && StartsWith(x, DUE_DATE) ==> x in due)
  {
    var c := WhereConditions(s, status, dueFilter, searchTerm, today, escape, addMonths);
    var user := if !IsAdmin(s) then [UserRoleCondition(s, escape)] else [];
    var byStatus := if status != "" && status != "All" then ["status = " + escape(status)] else [];
    var due := DueConditions(dueFilter, today, escape, addMonths);
    var search := if searchTerm != "" then [SearchCondition(searchTerm, escape)] else [];
    assert c == user + byStatus + due + search;
    OtherConditionsStart(s, status, searchTerm, escape);
    OnlyMiddleStartsDue(user, byStatus, due, search);
  }

  /** Among four runs of conditions, if only the third can begin like a due-date comparison, every
      due-date comparison of the whole comes from it. */
  lemma OnlyMiddleStartsDue(a: seq<string>, b: seq<string>, d: seq<string>, e: seq<string>)
    requires forall x :: x in a ==> |x| > 0 && x[0] != DUE_DATE[0]
    requires forall x :: x in b ==> |x| > 0 && x[0] != DUE_DATE[0]
    requires forall x :: x in e ==> |x| > 0 && x[0] != DUE_DATE[0]
    ensures forall x :: x in d ==> x in a + b + d + e
    ensures forall x :: x in a + b + d + e && StartsWith(x, DUE_DATE) ==> x in d
  {
    forall x | x in a + b + d + e
      ensures x in d || x in a || x in b || x in e
    {
      assert x in a + b + d + e <==> x in a + b + d || x in e;
      assert x in a + b + d <==> x in a + b || x in d;
    }
    forall x | x in d
      ensures x in a + b + d + e
    {
      assert x in a + b + d;
    }
  }

  /** The user filter, the status filter and the search begin with a letter other than the due date's. */
  lemma OtherConditionsStart(s: Session, status: string, searchTerm: string, escape: string -> string)
    ensures var u := UserRoleCondition(s, escape);
      var st := "status = " + escape(status);
      var se := SearchCondition(searchTerm, escape);
      && |u| > 0 && u[0] != DUE_DATE[0]
      && |st| > 0 && st[0] != DUE_DATE[0]
      && |se| > 0 && se[0] != DUE_DATE[0]
  {
  }

  /** The due filter's own conditions: the comparisons it names, the first of them always on the due
      date, and nothing for any other filter. */
  lemma DueConditionsCompare(dueFilter: string, today: Day, escape: string -> string, addMonths: Day -> Day)
    ensures var due := DueConditions(dueFilter, today, escape, addMonths);
      var now := escape(IsoDate(today));
      && (dueFilter == "today" ==> "due_date = " + now in due)
      && (dueFilter == "week" ==> "due_date BETWEEN " + now + " AND " + escape(IsoDate(today + 7)) in due)
      && (dueFilter == "month" ==> "due_date BETWEEN " + now + " AND " + escape(IsoDate(addMonths(today))) in due)
      && (dueFilter == "overdue" ==> "due_date < " + now in due && "status != 'Completed'" in due)
      && (due != [] <==> dueFilter in ["today", "week", "month", "overdue"])
      && (due != [] ==> StartsWith(due[0], DUE_DATE))
  {
  }

  /** `" AND ".join(conditions) if conditions else "1=1"` */
  function WhereClause(conditions: seq<string>): string
  {
    if conditions == [] then "1=1" else Join(conditions, " AND ")
  }

  /** One condition per filter in use: the user filter for non-administrators, status unless it is
      absent or "All", one or two for the due date, one for a search. */
  lemma WhereConditionsCount(s: Session, status: string, dueFilter: string, searchTerm: string, today: Day,
                             escape: string -> string, addMonths: Day -> Day)
    ensures |WhereConditions(s, status, dueFilter, searchTerm, today, escape, addMonths)|
      == (if IsAdmin(s) then 0 else 1)
       + (if status == "" || status == "All" then 0 else 1)
       + (if dueFilter == "overdue" then 2 else if dueFilter in ["today", "week", "month"] then 1 else 0)
       + (if searchTerm == "" then 0 else 1)
  {
  }

  /** A non-administrator's query is always restricted to their own and their roles' unassigned tasks:
      the clause begins with that filter. An administrator's is unrestricted ("1=1") when no filter is
      in use. */
  lemma WhereClauseRestrictsNonAdmins(s: Session, status: string, dueFilter: string, searchTerm: string, today: Day,
                                      escape: string -> string, addMonths: Day -> Day)
    ensures var clause := WhereClause(WhereConditions(s, status, dueFilter, searchTerm, today, escape, addMonths));
      && (!IsAdmin(s) ==> StartsWith(clause, UserRoleCondition(s, escape)))
      && (clause == "1=1" <== IsAdmin(s) && (status == "" || status == "All")
                              && dueFilter !in ["today", "week", "month", "overdue"] && searchTerm == "")
  {
    var conditions := WhereConditions(s, status, dueFilter, searchTerm, today, escape, addMonths);
    WhereConditionsCount(s, status, dueFilter, searchTerm, today, escape, addMonths);
    if !IsAdmin(s) {
      JoinStartsWithFirst(conditions, " AND ");
    }
  }

  /** A condition the statistics query leaves out, as written: anything mentioning a LIKE on the title
      or the notes. */
  predicate MentionsSearch(condition: string)
  {
    Contains(condition, "task_title LIKE") || Contains(condition, "notes LIKE")
  }

  /** The conditions `keep` admits, in their order. */
  function Filter(conditions: seq<string>, keep: string -> bool): (r: seq<string>)
    ensures forall c :: c in r <==> c in conditions && keep(c)
  {
    if conditions == [] then []
    else
      var last := conditions[|conditions| - 1];
      Filter(conditions[..|conditions| - 1], keep) + (if keep(last) then [last] else [])
  }

  /** A filter that admits every condition keeps the list whole. */
  lemma {:induction false} FilterKeepsAll(conditions: seq<string>, keep: string -> bool)
    requires forall i :: 0 <= i < |conditions| ==> keep(conditions[i])
    ensures Filter(conditions, keep) == conditions
    decreases |conditions|
  {
    if conditions != [] {
      var init, last := conditions[..|conditions| - 1], conditions[|conditions| - 1];
      FilterKeepsAll(init, keep);
      assert keep(last);
      assert init + [last] == conditions;
    }
  }

  /** A filter that admits no condition leaves nothing. */
  lemma {:induction false} FilterDropsAll(conditions: seq<string>, keep: string -> bool)
    requires forall i :: 0 <= i < |conditions| ==> !keep(conditions[i])
    ensures Filter(conditions, keep) == []
    decreases |conditions|
  {
    if conditions != [] {
      FilterDropsAll(conditions[..|conditions| - 1], keep);
      assert !keep(conditions[|conditions| - 1]);
    }
  }

  /** `[c for c in conditions if "task_title LIKE" not in c and "notes LIKE" not in c]` */
  function WithoutSearchMentions(conditions: seq<string>): (r: seq<string>)
    ensures forall c :: c in r <==> c in conditions && !MentionsSearch(c)
  {
    Filter(conditions, c => !MentionsSearch(c))
  }

  /** The statistics conditions as get_my_tasks computes them. */
  function StatsConditionsAsWritten(s: Session, status: string, dueFilter: string, searchTerm: string, today: Day,
                                    escape: string -> string, addMonths: Day -> Day): seq<string>
  {
    var conditions := WhereConditions(s, status, dueFilter, searchTerm, today, escape, addMonths);
    if searchTerm != "" then WithoutSearchMentions(conditions) else conditions
  }

  /** The statistics conditions as intended: the task list's conditions without the search. */
  function StatsConditions(s: Session, status: string, dueFilter: string, today: Day,
                           escape: string -> string, addMonths: Day -> Day): seq<string>
  {
    WhereConditions(s, status, dueFilter, "", today, escape, addMonths)
  }

  /** The intended statistics use every condition of the task list except the search, and only that. */
  lemma StatsDropExactlySearch(s: Session, status: string, dueFilter: string, searchTerm: string, today: Day,
                               escape: string -> string, addMonths: Day -> Day)
    ensures WhereConditions(s, status, dueFilter, searchTerm, today, escape, addMonths)
      == StatsConditions(s, status, dueFilter, today, escape, addMonths)
       + (if searchTerm != "" then [SearchCondition(searchTerm, escape)] else [])
  {
  }

  /** Filtering a list none of whose conditions mention a LIKE keeps it whole. */
  lemma NoMentionsKept(conditions: seq<string>)
    requires forall c :: c in conditions ==> !MentionsSearch(c)
    ensures WithoutSearchMentions(conditions) == conditions
  {
    FilterKeepsAll(conditions, c => !MentionsSearch(c));
  }

  /** The search condition mentions a LIKE on the title. */
  lemma SearchConditionMentionsSearch(searchTerm: string, escape: string -> string)
    ensures MentionsSearch(SearchCondition(searchTerm, escape))
  {
    var c := SearchCondition(searchTerm, escape);
    assert c[1..1 + |"task_title LIKE"|] == "task_title LIKE";
    ContainsAt(c, "task_title LIKE", 1);
  }

  /** As written and as intended agree whenever no other condition happens to contain the text
      "task_title LIKE" or "notes LIKE". */
  lemma StatsAsWrittenAgreesWithoutMentions(s: Session, status: string, dueFilter: string, searchTerm: string, today: Day,
                                            escape: string -> string, addMonths: Day -> Day)
    requires forall c :: c in StatsConditions(s, status, dueFilter, today, escape, addMonths) ==> !MentionsSearch(c)
    ensures StatsConditionsAsWritten(s, status, dueFilter, searchTerm, today, escape, addMonths)
      == StatsConditions(s, status, dueFilter, today, escape, addMonths)
  {
    var kept := StatsConditions(s, status, dueFilter, today, escape, addMonths);
    StatsDropExactlySearch(s, status, dueFilter, searchTerm, today, escape, addMonths);
    if searchTerm != "" {
      var all := kept + [SearchCondition(searchTerm, escape)];
      SearchConditionMentionsSearch(searchTerm, escape);
      NoMentionsKept(kept);
      assert all[..|all| - 1] == kept;
    }
  }

  /** An administrator session, a quoting escape and a month that adds nothing, for the example below. */
  const EXAMPLE_ADMIN := Session("Administrator", ["Administrator"])

  function QuoteLiteral(x: string): string { "'" + x + "'" }

  function SameDay(d: Day): Day { d }

  /** The example's status filter is one that mentions a LIKE. */
  lemma ExampleStatusMentionsSearch()
    ensures MentionsSearch("status = 'notes LIKE'")
  {
    var statusCondition := "status = 'notes LIKE'";
    assert statusCondition[10..10 + |"notes LIKE"|] == "notes LIKE";
    ContainsAt(statusCondition, "notes LIKE", 10);
  }

  /** The example's conditions: the status filter and then the search. */
  lemma ExampleConditions()
    ensures WhereConditions(EXAMPLE_ADMIN, "notes LIKE", "", "x", 0, QuoteLiteral, SameDay)
      == ["status = 'notes LIKE'", SearchCondition("x", QuoteLiteral)]
  {
    assert IsAdmin(EXAMPLE_ADMIN);
    assert "status = " + QuoteLiteral("notes LIKE") == "status = 'notes LIKE'";
  }

  /** A status filter whose value contains "notes LIKE" is dropped from the statistics as written (the
      statistics then count every status), while the intended statistics keep it. */
  lemma StatsAsWrittenDropsStatusFilter()
    ensures WhereClause(StatsConditionsAsWritten(EXAMPLE_ADMIN, "notes LIKE", "", "x", 0, QuoteLiteral, SameDay)) == "1=1"
    ensures WhereClause(StatsConditions(EXAMPLE_ADMIN, "notes LIKE", "", 0, QuoteLiteral, SameDay)) == "status = 'notes LIKE'"
  {
    ExampleConditions();
    ExampleStatusMentionsSearch();
    SearchConditionMentionsSearch("x", QuoteLiteral);
    var all := WhereConditions(EXAMPLE_ADMIN, "notes LIKE", "", "x", 0, QuoteLiteral, SameDay);
    FilterDropsAll(all, c => !MentionsSearch(c));
    StatsDropExactlySearch(EXAMPLE_ADMIN, "notes LIKE", "", "x", 0, QuoteLiteral, SameDay);
    assert all == StatsConditions(EXAMPLE_ADMIN, "notes LIKE", "", 0, QuoteLiteral, SameDay) + [SearchCondition("x", QuoteLiteral)];
  }

  /** The statistics row after get_my_tasks has replaced every NULL by 0 (`int()` of an integer is the
      integer). */
  method NormalizeStats(raw: map<string, Option<int>>) returns (stats: map<string, int>)
    ensures stats.Keys == raw.Keys
    ensures forall k :: k in raw && raw[k].None? ==> stats[k] == 0
    ensures forall k :: k in raw && raw[k].Some? ==> stats[k] == raw[k].value
  {
    stats := map[];
    var remaining := raw.Keys;
    while remaining != {}
      invariant remaining <= raw.Keys
      invariant stats.Keys == raw.Keys - remaining
      invariant forall k :: k in stats ==> stats[k] == raw[k].GetOr(0)
      decreases remaining
    {
      var key :| key in remaining;
      stats := stats[key := if raw[key].None? then 0 else raw[key].value];
      remaining := remaining - {key};
    }
  }

  // ---------------------------------------------------------------------------------------------
  // Updates

  /** The fields batch_update_tasks applies. */
  const BATCH_FIELDS := ["status", "assigned_to", "assigned_role", "notes"]

  /** The fields update_task applies. */
  const UPDATE_FIELDS := ["task_title", "due_date", "local_due_date", "assigned_to", "assigned_role", "notes", "status"]

  /** A field's value after the updates: the requested value when the field is allowed and requested. */
  function Updated(current: string, field: string, updates: map<string, string>, allowed: seq<string>): string
  {
    if field in allowed && field in updates then updates[field] else current
  }

  /** `setattr(task, field, value)`, the field named by its database name. */
  function SetField(t: ServiceTask, field: string, value: string): ServiceTask
  {
    t.(name := if field == "name" then value else t.name,
       title := if field == "task_title" then value else t.title,
       dueDate := if field == "due_date" then value else t.dueDate,
       localDueDate := if field == "local_due_date" then value else t.localDueDate,
       assignedTo := if field == "assigned_to" then value else t.assignedTo,
       assignedRole := if field == "assigned_role" then value else t.assignedRole,
       status := if field == "status" then value else t.status,
       notes := if field == "notes" then value else t.notes,
       organization := if field == "organization" then value else t.organization,
       parent := if field == "parent" then value else t.parent)
  }

  /** The row after every requested update to an allowed field. */
  function ApplyUpdates(t: ServiceTask, updates: map<string, string>, allowed: seq<string>): ServiceTask
  {
    t.(name := Updated(t.name, "name", updates, allowed),
       title := Updated(t.title, "task_title", updates, allowed),
       dueDate := Updated(t.dueDate, "due_date", updates, allowed),
       localDueDate := Updated(t.localDueDate, "local_due_date", updates, allowed),
       assignedTo := Updated(t.assignedTo, "assigned_to", updates, allowed),
       assignedRole := Updated(t.assignedRole, "assigned_role", updates, allowed),
       status := Updated(t.status, "status", updates, allowed),
       notes := Updated(t.notes, "notes", updates, allowed),
       organization := Updated(t.organization, "organization", updates, allowed),
       parent := Updated(t.parent, "parent", updates, allowed))
  }

  /** One more requested field: applied by setattr when it is allowed, skipped otherwise. */
  lemma ApplyOneMore(t: ServiceTask, done: map<string, string>, field: string, value: string, allowed: seq<string>)
    requires field !in done
    ensures ApplyUpdates(t, done[field := value], allowed)
      == if field in allowed then SetField(ApplyUpdates(t, done, allowed), field, value) else ApplyUpdates(t, done, allowed)
  {
    var more := done[field := value];
    UpdatedOneMore(t.name, "name", done, field, value, allowed);
    UpdatedOneMore(t.title, "task_title", done, field, value, allowed);
    UpdatedOneMore(t.dueDate, "due_date", done, field, value, allowed);
    UpdatedOneMore(t.localDueDate, "local_due_date", done, field, value, allowed);
    UpdatedOneMore(t.assignedTo, "assigned_to", done, field, value, allowed);
    UpdatedOneMore(t.assignedRole, "assigned_role", done, field, value, allowed);
    UpdatedOneMore(t.status, "status", done, field, value, allowed);
    UpdatedOneMore(t.notes, "notes", done, field, value, allowed);
    UpdatedOneMore(t.organization, "organization", done, field, value, allowed);
    UpdatedOneMore(t.parent, "parent", done, field, value, allowed);
  }

  lemma UpdatedOneMore(current: string, g: string, done: map<string, string>, field: string, value: string, allowed: seq<string>)
    requires field !in done
    ensures Updated(current, g, done[field := value], allowed)
      == if g == field && field in allowed then value else Updated(current, g, done, allowed)
  {
  }

  /** `for field, value in updates.items(): if field in allowed: setattr(task, field, value)` */
  method SetAllowedFields(t: ServiceTask, updates: map<string, string>, allowed: seq<string>) returns (u: ServiceTask)
    ensures u == ApplyUpdates(t, updates, allowed)
  {
    u := t;
    var remaining := updates.Keys;
    ghost var done: map<string, string> := map[];
    while remaining != {}
      invariant remaining <= updates.Keys
      invariant done.Keys == updates.Keys - remaining
      invariant forall k :: k in done ==> done[k] == updates[k]
      invariant u == ApplyUpdates(t, done, allowed)
      decreases remaining
    {
      var field :| field in remaining;
      ApplyOneMore(t, done, field, updates[field], allowed);
      if field in allowed {
        u := SetField(u, field, updates[field]);
      }
      done := done[field := updates[field]];
      remaining := remaining - {field};
    }
    assert done == updates;
  }

  /** A batch update sets only the status, the assignee, the role and the notes, each to the requested
      value when one was sent. */
  lemma BatchFieldsOnly(t: ServiceTask, updates: map<string, string>)
    ensures ApplyUpdates(t, updates, BATCH_FIELDS)
      == t.(status := if "status" in updates then updates["status"] else t.status,
            assignedTo := if "assigned_to" in updates then updates["assigned_to"] else t.assignedTo,
            assignedRole := if "assigned_role" in updates then updates["assigned_role"] else t.assignedRole,
            notes := if "notes" in updates then updates["notes"] else t.notes)
  {
  }

  /** update_task never touches the organization, the parent or the name. */
  lemma UpdateFieldsOnly(t: ServiceTask, updates: map<string, string>)
    ensures var u := ApplyUpdates(t, updates, UPDATE_FIELDS);
      u == t.(title := u.title, dueDate := u.dueDate, localDueDate := u.localDueDate, assignedTo := u.assignedTo,
              assignedRole := u.assignedRole, notes := u.notes, status := u.status)
  {
  }

  /** The reply of a single-task endpoint. */
  datatype Reply = Reply(success: bool, message: string, task: Option<FormattedTask>)

  function Failed(message: string): Reply { Reply(false, message, None) }

  const VALID_STATUSES := ["Open", "In Progress", "Pending", "Completed", "Cancelled"]

  /** update_task_status: the status is checked before the task is looked up. */
  function UpdateTaskStatus(s: Session, rows: map<string, ServiceTask>, name: string, newStatus: string,
                            tr: string -> string): (r: (Reply, map<string, ServiceTask>))
  {
    if newStatus !in VALID_STATUSES then
      (Failed(FormatWith(tr("Invalid status. Allowed statuses: {0}"), Join(VALID_STATUSES, ", "))), rows)
    else if name !in rows then (Failed(tr("Task does not exist")), rows)
    else if !CanEditTask(s, rows[name]) then (Failed(tr("You don't have permission to modify this task")), rows)
    else (Reply(true, FormatWith(tr("Task status updated to {0}"), newStatus), None),
          rows[name := rows[name].(status := newStatus)])
  }

  /** A status change succeeds exactly for a listed status on an existing task the user may edit; it
      then changes that task's status and nothing else, and otherwise changes nothing. An unlisted
      status is refused with the same message whether or not the task exists. */
  lemma UpdateTaskStatusContract(s: Session, rows: map<string, ServiceTask>, name: string, newStatus: string, tr: string -> string)
    ensures var (reply, after) := UpdateTaskStatus(s, rows, name, newStatus, tr);
      && (reply.success <==> newStatus in VALID_STATUSES && name in rows && CanEditTask(s, rows[name]))
      && (reply.success ==> after == rows[name := rows[name].(status := newStatus)])
      && (!reply.success ==> after == rows)
      && (newStatus !in VALID_STATUSES ==> reply == UpdateTaskStatus(s, map[], name, newStatus, tr).0)
  {
  }

  /** update_task */
  function UpdateTask(s: Session, rows: map<string, ServiceTask>, name: string, updates: map<string, string>,
                      tr: string -> string): (r: (Reply, map<string, ServiceTask>))
  {
    if name !in rows then (Failed(tr("Task does not exist")), rows)
    else if !CanEditTask(s, rows[name]) then (Failed(tr("You don't have permission to modify this task")), rows)
    else
      var t := ApplyUpdates(rows[name], updates, UPDATE_FIELDS);
      (Reply(true, tr("Task updated successfully"), Some(FormatTask(s, t, tr))), rows[name := t])
  }

  /** An update succeeds exactly on an existing task the user may edit; it never changes the name,
      organization or parent, and never any other task. */
  lemma UpdateTaskContract(s: Session, rows: map<string, ServiceTask>, name: string, updates: map<string, string>, tr: string -> string)
    ensures var (reply, after) := UpdateTask(s, rows, name, updates, tr);
      && (reply.success <==> name in rows && CanEditTask(s, rows[name]))
      && (!reply.success ==> after == rows)
      && (reply.success ==>
            && after.Keys == rows.Keys
            && (forall k :: k in rows && k != name ==> after[k] == rows[k])
            && after[name] == rows[name].(title := after[name].title, dueDate := after[name].dueDate,
                 localDueDate := after[name].localDueDate, assignedTo := after[name].assignedTo,
                 assignedRole := after[name].assignedRole, notes := after[name].notes, status := after[name].status)
            && reply.task == Some(FormatTask(s, after[name], tr)))
  {
    if name in rows && CanEditTask(s, rows[name]) {
      UpdateFieldsOnly(rows[name], updates);
    }
  }

  /** A valid status change has the same effect on the task as update_task with only the status, as far
      as the endpoints' own checks go: update_task's save() also runs the has_permission hook, which
      update_task_status's set_value skips, and that check is not part of this model. */
  lemma StatusChangeIsStatusUpdate(s: Session, rows: map<string, ServiceTask>, name: string, newStatus: string, tr: string -> string)
    requires newStatus in VALID_STATUSES
    ensures UpdateTaskStatus(s, rows, name, newStatus, tr).1 == UpdateTask(s, rows, name, map["status" := newStatus], tr).1
  {
    if name in rows && CanEditTask(s, rows[name]) {
      var t := rows[name];
      UpdateFieldsOnly(t, map["status" := newStatus]);
    }
  }

  /** create_task. `data` holds the keys the caller sent; `newName` is the name the insert assigns. The
      endpoint checks no permission of its own and sets no organization. */
  function CreateTask(s: Session, rows: map<string, ServiceTask>, data: map<string, string>, newName: string,
                      tr: string -> string): (r: (Reply, map<string, ServiceTask>))
  {
    var get := (k: string) => if k in data then data[k] else "";
    if get("task_title") == "" then (Failed(FormatWith(tr("Field {0} is required"), "task_title")), rows)
    else if get("due_date") == "" then (Failed(FormatWith(tr("Field {0} is required"), "due_date")), rows)
    else
      var t := ServiceTask(newName, get("task_title"), get("due_date"), get("local_due_date"), get("assigned_to"),
                           get("assigned_role"), if "status" in data then data["status"] else "Open", get("notes"),
                           "", get("parent"));
      (Reply(true, tr("Task created successfully"), Some(FormatTask(s, t, tr))), rows[newName := t])
  }

  /** Creation succeeds exactly when a title and a due date are given, and the endpoint's own code does not
      look at the session; the new row copies the given fields, is Open when no status key was sent, and
      has no organization. */
  lemma CreateTaskContract(s: Session, rows: map<string, ServiceTask>, data: map<string, string>, newName: string, tr: string -> string)
    ensures var (reply, after) := CreateTask(s, rows, data, newName, tr);
      && (reply.success <==> "task_title" in data && data["task_title"] != "" && "due_date" in data && data["due_date"] != "")
      && (reply.success == CreateTask(Session("", []), rows, data, newName, tr).0.success)
      && (!reply.success ==> after == rows)
      && (reply.success ==>
            && after == rows[newName := after[newName]]
            && after[newName].title == data["task_title"] && after[newName].dueDate == data["due_date"]
            && after[newName].status == (if "status" in data then data["status"] else "Open")
            && after[newName].organization == "")
  {
  }

  /** delete_task: the task is looked up before the administrator check. */
  function DeleteTask(s: Session, rows: map<string, ServiceTask>, name: string, tr: string -> string): (r: (Reply, map<string, ServiceTask>))
  {
    if name !in rows then (Failed(tr("Task does not exist")), rows)
    else if !IsAdmin(s) then (Failed(tr("Only administrators can delete tasks")), rows)
    else (Reply(true, tr("Task deleted successfully"), None), rows - {name})
  }

  /** Only an administrator can delete, and a deletion removes exactly the named task. */
  lemma DeleteTaskContract(s: Session, rows: map<string, ServiceTask>, name: string, tr: string -> string)
    ensures var (reply, after) := DeleteTask(s, rows, name, tr);
      && (reply.success <==> name in rows && ("System Manager" in s.userRoles || "Administrator" in s.userRoles))
      && (reply.success ==> after.Keys == rows.Keys - {name} && forall k :: k in after ==> after[k] == rows[k])
      && (!reply.success ==> after == rows)
  {
  }

  // ---------------------------------------------------------------------------------------------
  // batch_update_tasks

  datatype FailedTask = FailedTask(task: string, error: string)

  datatype BatchReply =
    | BatchRejected(message: string)
    | BatchDone(updated: nat, failed: seq<FailedTask>, message: string)

  /** One task of the batch: `notFound` is the error text of the lookup that fails. */
  function BatchStep(s: Session, rows: map<string, ServiceTask>, name: string, updates: map<string, string>,
                     tr: string -> string, notFound: string): (map<string, ServiceTask>, Option<FailedTask>)
  {
    if name !in rows then (rows, Some(FailedTask(name, notFound)))
    else if !CanEditTask(s, rows[name]) then (rows, Some(FailedTask(name, tr("No permission"))))
    else (rows[name := ApplyUpdates(rows[name], updates, BATCH_FIELDS)], None)
  }

  /** The rows and the failures after processing `names` in order. */
  function BatchRun(s: Session, rows: map<string, ServiceTask>, names: seq<string>, updates: map<string, string>,
                    tr: string -> string, notFound: string): (map<string, ServiceTask>, seq<FailedTask>)
  {
    if names == [] then (rows, [])
    else
      var (before, failed) := BatchRun(s, rows, names[..|names| - 1], updates, tr, notFound);
      var (after, failure) := BatchStep(s, before, names[|names| - 1], updates, tr, notFound);
      (after, failed + (if failure.Some? then [failure.value] else []))
  }

  lemma BatchRunSnoc(s: Session, rows: map<string, ServiceTask>, names: seq<string>, i: nat,
                     updates: map<string, string>, tr: string -> string, notFound: string)
    requires i < |names|
    ensures var (before, failed) := BatchRun(s, rows, names[..i], updates, tr, notFound);
      var (after, failure) := BatchStep(s, before, names[i], updates, tr, notFound);
      BatchRun(s, rows, names[..i + 1], updates, tr, notFound) == (after, failed + (if failure.Some? then [failure.value] else []))
  {
    assert names[..i + 1][..i] == names[..i];
  }

  /** batch_update_tasks on already-decoded arguments. The source tests for emptiness before it decodes
      JSON text, so over RPC "[]" and "{}" are not rejected; that path is not modelled. */
  method BatchUpdateTasks(s: Session, rows: map<string, ServiceTask>, names: seq<string>, updates: map<string, string>,
                          tr: string -> string, notFound: string)
    returns (reply: BatchReply, after: map<string, ServiceTask>)
    ensures names == [] || updates == map[] ==>
      reply == BatchRejected(tr("No tasks or updates provided")) && after == rows
    ensures names != [] && updates != map[] ==>
      && reply.BatchDone?
      && (after, reply.failed) == BatchRun(s, rows, names, updates, tr, notFound)
      && reply.updated + |reply.failed| == |names|
      && reply.message == FormatWith(tr("Updated {0} tasks successfully"), NatToString(reply.updated))
  {
    if names == [] || updates == map[] {
      return BatchRejected(tr("No tasks or updates provided")), rows;
    }
    var successCount: nat := 0;
    var failedTasks: seq<FailedTask> := [];
    after := rows;
    for i := 0 to |names|
      invariant after == BatchRun(s, rows, names[..i], updates, tr, notFound).0
      invariant failedTasks == BatchRun(s, rows, names[..i], updates, tr, notFound).1
      invariant successCount + |failedTasks| == i
    {
      BatchRunSnoc(s, rows, names, i, updates, tr, notFound);
      var name := names[i];
      if name !in after {
        failedTasks := failedTasks + [FailedTask(name, notFound)];
        continue;
      }
      var task := after[name];
      if !CanEditTask(s, task) {
        failedTasks := failedTasks + [FailedTask(name, tr("No permission"))];
        continue;
      }
      var updatedTask := SetAllowedFields(task, updates, BATCH_FIELDS);
      after := after[name := updatedTask];
      successCount := successCount + 1;
    }
    assert names[..|names|] == names;
    reply := BatchDone(successCount, failedTasks, FormatWith(tr("Updated {0} tasks successfully"), NatToString(successCount)));
  }

  /** The batch keeps the set of tasks, leaves every task it was not asked about as it was, changes
      only the four whitelisted fields of the others, and reports only names it was given. */
  lemma {:induction false} BatchRunFrame(s: Session, rows: map<string, ServiceTask>, names: seq<string>,
                                         updates: map<string, string>, tr: string -> string, notFound: string)
    ensures var (after, failed) := BatchRun(s, rows, names, updates, tr, notFound);
      && after.Keys == rows.Keys
      && (forall k :: k in rows && k !in names ==> after[k] == rows[k])
      && (forall k :: k in rows ==>
            after[k] == rows[k].(status := after[k].status, assignedTo := after[k].assignedTo,
                                 assignedRole := after[k].assignedRole, notes := after[k].notes))
      && (forall f :: f in failed ==> f.task in names)
      && |failed| <= |names|
    decreases |names|
  {
    if names != [] {
      var init := names[..|names| - 1];
      var name := names[|names| - 1];
      BatchRunFrame(s, rows, init, updates, tr, notFound);
      var (before, failed) := BatchRun(s, rows, init, updates, tr, notFound);
      assert forall k :: k in init ==> k in names;
      if name in before && CanEditTask(s, before[name]) {
        BatchFieldsOnly(before[name], updates);
      }
    }
  }

  /** For an administrator every task that exists is updated: the only failures are missing names. */
  lemma {:induction false} AdminBatchFailsOnlyMissing(s: Session, rows: map<string, ServiceTask>, names: seq<string>,
                                                      updates: map<string, string>, tr: string -> string, notFound: string)
    requires IsAdmin(s)
    ensures forall f :: f in BatchRun(s, rows, names, updates, tr, notFound).1 ==> f.task !in rows && f.error == notFound
    decreases |names|
  {
    if names != [] {
      var init := names[..|names| - 1];
      AdminBatchFailsOnlyMissing(s, rows, init, updates, tr, notFound);
      BatchRunFrame(s, rows, init, updates, tr, notFound);
    }
  }
}
