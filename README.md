# service_planner core, modelled in Dafny

service_planner is a Frappe application that plans recurring service work. A **Service Project**
holds a schedule (`Daily`, `Weekly` or `Every X Days`), a start date, an interval, a default role
and an organization. Its child table lists **Service Task** rows. This project models the logic
around those two document types:

- **Task generation.** The `before_save` and `validate` hooks and the `regenerate_tasks` endpoint
  in `auto_generate_tasks.py` build a task list. The older `on_submit` hook in
  `service_project_scheduler.py` does the same. Both use a fixed seven-day window from the
  project's start date.
- **Organization backfill.** `ServiceProject.before_save` fills in each task's organization in
  place.
- **List and record permissions.** The Service Project and Service Task doctypes and the
  `permission_query` server script build these conditions. They are modelled as the SQL condition
  texts they return and the booleans they compute. `hooks.py` assigns the list conditions twice; the
  second assignment wins, so Frappe applies the `permission_query` task condition to Service Task
  lists, and service_task.py's own condition is modelled but not applied. Its `has_permission`
  record rule is applied.
- **The task API** in `task_api.py`:
  - the administrator, edit and view rules;
  - how a task is presented, including title classification;
  - the WHERE clause and the statistics clause of `get_my_tasks`, and the normalised statistics;
  - the status whitelist and the field whitelists of the update endpoints;
  - creation, the administrator gate on deletion, and the accounting of `batch_update_tasks`.
- **The TimezoneManager.** It keeps a per-user cache of resolved zone names. Its conversions fall
  back to their input on error. `get_timezone_offset` renders an offset as `±HH:MM`; it is modelled
  as written, beside a corrected rendering (see Findings).
- **The notification scripts.** They decide who is told about a task. Each recipient gets one
  realtime event, one e-mail and one alert log entry.
- **The My Tasks page helpers:**
  - the CSV export serialiser, which quotes fields as section 2 rule 7 of RFC 4180 asks;
  - the status badge map;
  - the simple date format.

**How the model represents the source:**

- Dates are day numbers: day 0 is 0001-01-01, so `add_days(d, n)` is `d + n`. A date is rendered
  as `YYYY-MM-DD`, the way Python's `str(date)` renders it.
- `nowdate()` is a parameter `today`.
- A document field that is not set is the empty string. The source only tests such fields for
  truthiness.
- Calls into Frappe or pytz are function parameters:
  - `frappe.db.escape` is `escape`;
  - translation `_()` is `tr`;
  - `frappe.get_roles` is `rolesOf`, or the session's role list;
  - the User organization field is `orgOf`;
  - the users holding a role are `roleHolders`;
  - `add_months` is `addMonths`;
  - the zone database is the `Context` and `ZoneOps` records.
- Imperative code is kept imperative:
  - A Service Project is a class whose `serviceTasks` sequence the hooks reassign.
  - The TimezoneManager is a class with a `cache` map.
  - The loops of `generate_service_tasks`, `on_submit`, `before_save`,
    `task_permission_query_conditions`, `batch_update_tasks`, the statistics normalisation and
    the notification scripts are `while`/`for` loops. Each is proved against a function of its
    inputs.

Modules, one per source file:

| module | file |
|---|---|
| `AutoGenerateTasks` | `auto_generate_tasks.dfy` |
| `ServiceProjectScheduler` | `project_scheduler.dfy` |
| `ServiceProjectDoctype` | `service_project.dfy` |
| `ServiceTaskDoctype` | `service_task.dfy` |
| `PermissionQuery` | `permission_query.dfy` |
| `TaskApi` | `task_api.dfy` |
| `TimezoneUtils` | `timezone_utils.dfy` |
| `TaskNotifications` | `task_notifications.dfy` |
| `MyTasks` | `my_tasks.dfy` |

They share three helper modules:

- `Text`: joining, replacing, padding and number rendering;
- `Dates`: day numbers and ISO dates;
- `Wrappers`: `Option` and `Result`.

## Model

| member | source | states |
|---|---|---|
| AutoGenerateTasks.Interval | service_planner/server_script/auto_generate_tasks.py:29 | an empty or zero `interval_days` counts as 1, so the interval used is never 0 |
| AutoGenerateTasks.TaskDate | service_planner/server_script/auto_generate_tasks.py:37-44 | the if/elif chain picks `start + i` exactly when the schedule emits offset `i` (Daily always, Weekly when `i % 7 == 0`, Every X Days when `i % interval == 0`), and no date otherwise |
| AutoGenerateTasks.AppendWindow | service_planner/server_script/auto_generate_tasks.py:36-54 | the `range(7)` loop appends, after the rows already there, one row per emitting offset in ascending order |
| AutoGenerateTasks.GenerateServiceTasks | service_planner/server_script/auto_generate_tasks.py:23-54 | previous tasks are discarded: the list afterwards is exactly the generated window for the project's schedule, start (today when unset), interval and role |
| AutoGenerateTasks.Execute | service_planner/server_script/auto_generate_tasks.py:4-20 | on a first save tasks are generated only when the list is empty, and an existing list is kept; on a later save the list is regenerated if and only if `default_role` changed, and is otherwise unchanged |
| AutoGenerateTasks.ValidateScheduleConfiguration | service_planner/server_script/auto_generate_tasks.py:76-85 | the configuration is rejected if and only if the schedule is Every X Days with a missing or non-positive interval; an accepted one carries a warning if and only if the start date is in the past |
| AutoGenerateTasks.RegenerateTasks | service_planner/server_script/auto_generate_tasks.py:57-73 | without write permission nothing changes and the permission error is raised; otherwise the list is regenerated, a rejected configuration raises its message, and an accepted one is backfilled with the organization and reports the number of generated tasks |
| AutoGenerateTasks.OffsetsExactly | service_planner/server_script/auto_generate_tasks.py:36-44 | the offsets that get a task are exactly the emitting ones below the window size, strictly ascending, at most one per day |
| AutoGenerateTasks.DailyOffsets | service_planner/server_script/auto_generate_tasks.py:39-40 | Daily emits every offset 0 .. n-1 in order |
| AutoGenerateTasks.WeeklyOffsets | service_planner/server_script/auto_generate_tasks.py:41-42 | within seven days, Weekly emits offset 0 only |
| AutoGenerateTasks.EmitsEveryXDays | service_planner/server_script/auto_generate_tasks.py:43-44 | Every X Days emits an offset if and only if the interval divides it |
| AutoGenerateTasks.EveryXDaysOffsets | service_planner/server_script/auto_generate_tasks.py:43-44 | with a positive interval the offsets are k·interval for k = 0 .. L-1, where L = ⌈n/interval⌉ |
| AutoGenerateTasks.UnknownScheduleOffsets | service_planner/server_script/auto_generate_tasks.py:39-44 | any other schedule type emits no offset |
| AutoGenerateTasks.NegativeIntervalActsAsMagnitude | service_planner/server_script/auto_generate_tasks.py:43 | a negative interval emits the same offsets as its magnitude (Python's `%` is zero exactly when the divisor divides) |
| AutoGenerateTasks.WindowPointwise | service_planner/server_script/auto_generate_tasks.py:36-54 | row k of the window is the row built for the k-th emitting offset |
| AutoGenerateTasks.WindowDaily | service_planner/server_script/auto_generate_tasks.py:39-40 | Daily yields exactly seven rows dated start .. start+6, ascending |
| AutoGenerateTasks.WindowWeekly | service_planner/server_script/auto_generate_tasks.py:41-42 | Weekly yields exactly one row, dated start |
| AutoGenerateTasks.WindowEveryXDays | service_planner/server_script/auto_generate_tasks.py:43-44 | Every X Days yields L = ⌈7/interval⌉ rows, row k dated start + k·interval |
| AutoGenerateTasks.EveryXDaysRows | service_planner/server_script/auto_generate_tasks.py:43-47 | the same for a window of any positive length n |
| AutoGenerateTasks.WindowUnknown | service_planner/server_script/auto_generate_tasks.py:36-46 | an unknown schedule type yields no row |
| AutoGenerateTasks.GeneratedTaskFields | service_planner/server_script/auto_generate_tasks.py:46-54 | at most seven tasks; each is Pending, unassigned, without organization, carries the role, is due on a day of the window, titled "Auto Task for <date>" and noted "Task generated for <schedule> on <date>" |
| AutoGenerateTasks.WindowDays | service_planner/server_script/auto_generate_tasks.py:36-47 | every row of the window is built for a day in [start, start+7), and there are at most seven |
| AutoGenerateTasks.ValidatedEveryXDaysGenerates | service_planner/server_script/auto_generate_tasks.py:80-82 | a project that passes validation as Every X Days uses its own positive interval and gets at least one task, the first dated on the start day |
| AutoGenerateTasks.RowShapesAgree | service_planner/server_script/service_project_scheduler.py:18-23 | the row on_submit appends for a day is the save hook's row with role "Engineer" and no notes |
| ServiceProjectScheduler.OnSubmit | service_planner/server_script/service_project_scheduler.py:3-23 | on_submit keeps the existing list and appends the window's rows for the schedule, start (today when unset) and interval (1 when empty or 0) |
| ServiceProjectScheduler.SubmittedMatchesGenerated | service_planner/server_script/service_project_scheduler.py:8-16 | on_submit emits on the same days as the save hook, including nothing for an unknown schedule; row by row it differs only in role ("Engineer") and notes (none) |
| ServiceProjectScheduler.SubmitOnlyAppends | service_planner/server_script/service_project_scheduler.py:18-23 | the existing tasks stay a prefix; at most seven are added, all Pending with role "Engineer" whatever the project's default role |
| ServiceProjectDoctype.ServiceProject.constructor | service_planner/service_planner/doctype/service_project/service_project.py:4 | a project document holds the given schedule, start, interval, role, organization and task list |
| ServiceProjectDoctype.ServiceProject.BeforeSave | service_planner/service_planner/doctype/service_project/service_project.py:5-8 | the loop replaces the list by its backfill: every task without an organization takes the project's |
| ServiceProjectDoctype.BackfillPointwise | service_planner/service_planner/doctype/service_project/service_project.py:6-8 | count and order are kept; a task without an organization receives the project's, a task with one keeps it, and no other field changes |
| ServiceProjectDoctype.BackfillIdempotent | service_planner/service_planner/doctype/service_project/service_project.py:5-8 | backfilling twice equals backfilling once |
| ServiceProjectDoctype.BackfillLeavesNoTaskWithoutOrganization | service_planner/service_planner/doctype/service_project/service_project.py:6-8 | when the project has an organization, no task lacks one afterwards |
| ServiceProjectDoctype.PermissionQueryCondition | service_planner/service_planner/doctype/service_project/service_project.py:11-18 | "1=0" without an organization, otherwise equality with the user's organization |
| ServiceTaskDoctype.EscapeAll | service_planner/service_planner/doctype/service_task/service_task.py:17 | every role escaped, in order |
| ServiceTaskDoctype.PermissionQueryConditions | service_planner/service_planner/doctype/service_task/service_task.py:3-22 | service_task.py's own condition (replaced in hooks.py): "1=0" if and only if the organization or the role list is missing; otherwise the condition holds both the role list restriction and the organization equality |
| ServiceTaskDoctype.PermissionIgnoresPtype | service_planner/service_planner/doctype/service_task/service_task.py:24-34 | has_permission gives the same answer for every permission type |
| ServiceTaskDoctype.NoSystemManagerBypass | service_planner/service_planner/doctype/service_task/service_task.py:3-34 | has_permission refuses a System Manager a task of another organization, and service_task.py's own list condition (replaced in hooks.py) still restricts them to their organization |
| ServiceTaskDoctype.GrantedTaskNotDeniedOutright | service_planner/service_planner/doctype/service_task/service_task.py:3-34 | for a task has_permission grants, service_task.py's own list condition (replaced in hooks.py) is "1=0" only when neither the task nor the user has an organization |
| PermissionQuery.ProjectConditions | service_planner/server_script/permission_query.py:3-15 | "" (no restriction) if and only if the user (the session user when none is given) is a System Manager; otherwise the same as the doctype's condition: "1=0" without an organization, else organization equality |
| PermissionQuery.HeldAmong | service_planner/server_script/permission_query.py:30-34 | the kept roles are exactly the candidates the user holds, in candidate order |
| PermissionQuery.HeldTaskRolesInOrder | service_planner/server_script/permission_query.py:30-34 | the held task roles are drawn from Engineer, Analyst, Account Manager in that order |
| PermissionQuery.RoleClauses | service_planner/server_script/permission_query.py:31-34 | one `assigned_role` clause per held role, in order |
| PermissionQuery.CollectRoleConditions | service_planner/server_script/permission_query.py:29-34 | the loop over the three task roles collects the clause of each role the user holds, in order |
| PermissionQuery.TaskPermissionQueryConditions | service_planner/server_script/permission_query.py:18-43 | the imperative version returns the task condition |
| PermissionQuery.TaskConditionsShape | service_planner/server_script/permission_query.py:18-43 | "" if and only if System Manager; "1=0" without an organization; otherwise the condition begins with the parent-in-organization clause, equals it if and only if no task role is held, and otherwise contains the assignee clause and every held role's clause |
| PermissionQuery.RestrictedShape | service_planner/server_script/permission_query.py:36-43 | joining the parent clause with the optional alternative gives exactly those facts |
| PermissionQuery.AlternativeNamesAll | service_planner/server_script/permission_query.py:40-41 | the parenthesised alternative names the user and every held role |
| PermissionQuery.NoTaskRoleMeansWholeOrganization | service_planner/server_script/permission_query.py:36-43 | a user with an organization but none of the three task roles gets the organization restriction alone |
| PermissionQuery.ProjectDenies | service_planner/server_script/permission_query.py:3-15 | the project condition is "1=0" if and only if the user is no System Manager and has no organization |
| PermissionQuery.TaskDenies | service_planner/server_script/permission_query.py:18-28 | the task condition is "" if and only if System Manager, and "1=0" if and only if no System Manager and no organization |
| PermissionQuery.ProjectAndTaskAgree | service_planner/server_script/permission_query.py:3-43 | the project and task conditions agree on who is unrestricted and who is shut out |
| PermissionQuery.SystemManagerListedButRefused | service_planner/server_script/permission_query.py:18-24 | the task condition hooks.py installs lists every task to a System Manager, while has_permission still refuses them a task of another organization |
| TaskApi.AnyIn | service_planner/api/task_api.py:19 | `any(...)` is true if and only if some candidate is among the roles |
| TaskApi.CheckIfAdmin | service_planner/api/task_api.py:17-19 | administrator if and only if the roles include "System Manager" or "Administrator" |
| TaskApi.ViewIffEdit | service_planner/api/task_api.py:304-307 | the view rule of get_task_details and get_task_history admits exactly the tasks `_can_edit_task` admits |
| TaskApi.AssigneeExcludesOthers | service_planner/api/task_api.py:64-79 | a task assigned to another user is editable only by an administrator, whatever its role |
| TaskApi.ClassifyTitle | service_planner/api/task_api.py:46-60 | a title starting "Auto Task for" is an automatic task; "Task generated for" titles split into Daily and Every X Days by substring; every other title is translated verbatim |
| TaskApi.FormatTaskFields | service_planner/api/task_api.py:21-62 | presenting keeps the fields, defaults an empty status to "Pending" and an empty title to "Untitled", translates the status, and sets `can_edit` to the edit rule |
| TaskApi.AutoTitleRoundTrip | service_planner/api/task_api.py:46-48 | the date part taken from an automatic title is the date it was built from |
| TaskApi.FormatGeneratedRow | service_planner/api/task_api.py:21-62 | a generated row is presented as Pending, with its title translated around its own due date, and editable by an administrator or a holder of its role |
| TaskApi.RoleEquals | service_planner/api/task_api.py:141-143 | one `assigned_role = <escaped role>` per role of the user, in order |
| TaskApi.DueConditions | service_planner/api/task_api.py:159-172 | two conditions for "overdue", one for today/week/month, none otherwise |
| TaskApi.DueFilterMeaning | service_planner/api/task_api.py:159-172 | "today" asks for equality with today's escaped date, "week" for a date between today and today+7, "month" between today and add_months(today, 1), "overdue" for a date before today and a status other than Completed; a due-date condition appears if and only if one of these filters is chosen |
| TaskApi.WhereConditionsCount | service_planner/api/task_api.py:135-177 | one condition per filter in use: the user filter for non-administrators, status unless absent or "All", one or two for the due date, one for a search |
| TaskApi.WhereClauseRestrictsNonAdmins | service_planner/api/task_api.py:135-180 | a non-administrator's clause always begins with the user/role filter; an administrator with no filter gets "1=1" |
| TaskApi.Filter | service_planner/api/task_api.py:209 | a condition is kept if and only if it was there and the filter admits it |
| TaskApi.WithoutSearchMentions | service_planner/api/task_api.py:209 | the kept conditions are exactly those mentioning neither "task_title LIKE" nor "notes LIKE" |
| TaskApi.StatsDropExactlySearch | service_planner/api/task_api.py:208-210 | the intended statistics conditions are the list conditions without the search condition |
| TaskApi.NoMentionsKept | service_planner/api/task_api.py:209 | conditions that mention no LIKE all survive the filter, in order |
| TaskApi.SearchConditionMentionsSearch | service_planner/api/task_api.py:175-177 | the search condition is one the filter removes |
| TaskApi.StatsAsWrittenAgreesWithoutMentions | service_planner/api/task_api.py:208-210 | the statistics as written equal the intended ones whenever no other condition contains a LIKE mention |
| TaskApi.StatsAsWrittenDropsStatusFilter | service_planner/api/task_api.py:208-210 | a status value containing "notes LIKE" is dropped from the statistics as written ("1=1"), and kept by the intended ones |
| TaskApi.NormalizeStats | service_planner/api/task_api.py:229-233 | every statistic keeps its key; NULL becomes 0 and a number stays itself |
| TaskApi.SetAllowedFields | service_planner/api/task_api.py:547-549 | the loop over the requested updates sets exactly the allowed fields that were requested |
| TaskApi.ApplyOneMore | service_planner/api/task_api.py:810-812 | one more requested field is set when allowed and skipped otherwise |
| TaskApi.BatchFieldsOnly | service_planner/api/task_api.py:547-549 | a batch update changes only status, assignee, role and notes, each to the requested value when one was sent |
| TaskApi.UpdateFieldsOnly | service_planner/api/task_api.py:806-812 | update_task never changes the name, organization or parent |
| TaskApi.UpdateTaskStatusContract | service_planner/api/task_api.py:411-440 | success if and only if the status is one of Open, In Progress, Pending, Completed, Cancelled and the task exists and is editable; only that task's status changes; an unlisted status is refused before the task is looked up |
| TaskApi.UpdateTaskContract | service_planner/api/task_api.py:786-815 | success if and only if the task exists and is editable; no other task and no name, organization or parent changes; the reply presents the updated task |
| TaskApi.StatusChangeIsStatusUpdate | service_planner/api/task_api.py:435 | a valid status change has the same effect on the rows as update_task with only the status, when save()'s own permission check is set aside |
| TaskApi.CreateTaskContract | service_planner/api/task_api.py:737-770 | creation succeeds if and only if a title and a due date are given, whatever the session (the endpoint checks no permission of its own); the new row copies them, is "Open" when no status key was sent, and has no organization |
| TaskApi.DeleteTaskContract | service_planner/api/task_api.py:839-860 | deletion succeeds if and only if the task exists and the user is an administrator; it removes exactly that task |
| TaskApi.BatchUpdateTasks | service_planner/api/task_api.py:514-565 | for already-decoded input, empty names or updates are rejected with nothing changed; otherwise the loop's result is the in-order batch, and updated + len(failed) == len(task_names) |
| TaskApi.BatchRunFrame | service_planner/api/task_api.py:534-558 | the batch keeps the set of tasks, leaves tasks it was not asked about alone, changes only the four whitelisted fields, and reports only names it was given |
| TaskApi.AdminBatchFailsOnlyMissing | service_planner/api/task_api.py:534-558 | for an administrator the only failures are names of missing tasks |
| TimezoneUtils.CacheKeysDistinct | service_planner/utils/timezone_utils.py:17 | two users never share a cache key |
| TimezoneUtils.PreferredZone | service_planner/utils/timezone_utils.py:23-25 | the user's zone, else the system zone, else "UTC"; never empty |
| TimezoneUtils.LookupEffect | service_planner/utils/timezone_utils.py:12-33 | a hit returns the cached zone and changes nothing; a miss caches the preferred zone under "timezone_<user>" only when the database accepts it, and otherwise returns "UTC" with the cache unchanged |
| TimezoneUtils.LookupTwice | service_planner/utils/timezone_utils.py:17-19 | asking twice gives the same zone, and the second time changes nothing |
| TimezoneUtils.LookupKeepsCacheSound | service_planner/utils/timezone_utils.py:27-33 | only accepted zones are ever cached, and a lookup returns an accepted zone or "UTC" |
| TimezoneUtils.ConversionFallbacks | service_planner/utils/timezone_utils.py:35-80 | when the zone database raises, the conversions return their input and formatting returns `str()` of it |
| TimezoneUtils.ToUtcIsConversionOrInput | service_planner/utils/timezone_utils.py:35-48 | convert_to_utc returns the database's conversion or the input as it stood when it raised |
| TimezoneUtils.FormatOffset | service_planner/utils/timezone_utils.py:86-91 | the corrected rendering is six characters for offsets under 100 hours |
| TimezoneUtils.FormatOffsetRoundTrip | service_planner/utils/timezone_utils.py:86-91 | the corrected `±HH:MM` reads back as the offset, for every whole-minute offset under 100 hours |
| TimezoneUtils.AsWrittenAgreesEastOfUtc | service_planner/utils/timezone_utils.py:86-91 | east of UTC the source's arithmetic gives the corrected text |
| TimezoneUtils.AsWrittenAgreesOnWholeAndHalfHoursWest | service_planner/utils/timezone_utils.py:86-91 | west of UTC it does too for whole and half hours of at least one hour |
| TimezoneUtils.AsWrittenSignLost | service_planner/utils/timezone_utils.py:87-90 | an offset of -30 minutes is printed "+00:30" |
| TimezoneUtils.AsWrittenMinutesWrong | service_planner/utils/timezone_utils.py:87-91 | an offset of -2:45 is printed "-02:15" |
| TimezoneUtils.AsWrittenReadsBackEast | service_planner/utils/timezone_utils.py:86-91 | east of UTC the source's text of a whole-minute offset reads back as the offset |
| TimezoneUtils.AsWrittenReadsBackWest | service_planner/utils/timezone_utils.py:86-91 | west of UTC the source's text of a whole or half hour of at least one hour reads back as the offset |
| TimezoneUtils.TimezoneOffsetReadsBack | service_planner/utils/timezone_utils.py:82-95 | as written: an error gives "+00:00"; a whole-minute offset east of UTC, or a whole or half hour at least one hour west of it, reads back as the zone's offset |
| TimezoneUtils.TimezoneOffsetCorrectedReadsBack | service_planner/utils/timezone_utils.py:82-95 | corrected: an error gives "+00:00"; every whole-minute offset under 100 hours reads back as the zone's offset |
| TimezoneUtils.TimezoneManager.constructor | service_planner/utils/timezone_utils.py:7-10 | a new manager has an empty cache |
| TimezoneUtils.TimezoneManager.GetUserTimezone | service_planner/utils/timezone_utils.py:12-33 | the zone and the new cache are those of the lookup on the old cache |
| TimezoneUtils.TimezoneManager.ConvertToUtc | service_planner/utils/timezone_utils.py:35-48 | with a source zone the cache is untouched; without one the user's zone is looked up and cached |
| TimezoneUtils.TimezoneManager.ConvertToLocal | service_planner/utils/timezone_utils.py:50-63 | the same for the target zone |
| TimezoneUtils.TimezoneManager.FormatDatetime | service_planner/utils/timezone_utils.py:65-80 | the same for the display zone |
| TimezoneUtils.TimezoneManager.ClearCache | service_planner/utils/timezone_utils.py:108-110 | the cache is empty afterwards |
| TaskNotifications.RecipientsExactly | service_planner/server_script/task_notifications.py:5-22 | a user is a recipient if and only if they hold the task's role or are its assignee, and are neither Guest nor Administrator |
| TaskNotifications.CollectRecipients | service_planner/server_script/task_notifications.py:5-22 | the set grown by the loop and filtered is the recipient set |
| TaskNotifications.TriplesCount | service_planner/server_script/task_notifications.py:31-57 | visiting users in an order sends each user one dispatch per channel for every occurrence |
| TaskNotifications.TriplesAddressed | service_planner/server_script/task_notifications.py:31-57 | every dispatch goes to a visited user, about the task |
| TaskNotifications.Dispatch3 | service_planner/server_script/task_notifications.py:25-57 | every recipient gets exactly one realtime event, one e-mail and one alert log; nobody else gets anything |
| TaskNotifications.NotifyTaskUpdate | service_planner/server_script/task_notifications.py:4-57 | one dispatch per channel for each recipient, about the changed task; with no recipients nothing is sent |
| TaskNotifications.DueOn | service_planner/server_script/task_notifications.py:62-67 | the tasks considered are exactly those due today |
| TaskNotifications.RemindOne | service_planner/server_script/task_notifications.py:70-117 | the reminder for one task sends each of its recipients exactly one realtime event, one e-mail and one alert log, and nobody else anything |
| TaskNotifications.RemindAll | service_planner/server_script/task_notifications.py:69-117 | the loop over the tasks sends three dispatches per recipient of each, all reminders of those tasks; per user, channel and task name, as many dispatches as tasks of that name count the user as a recipient |
| TaskNotifications.NotifyScheduledTasks | service_planner/server_script/task_notifications.py:60-117 | the daily reminder sends three dispatches per recipient of each task due today, and only such reminders; with unique task names, each recipient of a task due today gets exactly one dispatch per channel about it, and nothing about a task due another day |
| TaskNotifications.DueRemindersExactly | service_planner/server_script/task_notifications.py:60-117 | with unique task names, a user is owed one reminder per channel about a task exactly when the task is due today and counts the user as a recipient |
| TaskNotifications.CountAboutOneTask | service_planner/server_script/task_notifications.py:94-117 | dispatches about one task count only for that task's name |
| TaskNotifications.RemindersOnlyForToday | service_planner/server_script/task_notifications.py:62-86 | every reminder concerns a task due today and goes to one of its recipients |
| MyTasks.Keys | service_planner/public/js/my_tasks.js:436 | `Object.keys` gives the row's keys in order |
| MyTasks.Lookup | service_planner/public/js/my_tasks.js:441 | a value is found if and only if its key is present |
| MyTasks.CellText | service_planner/public/js/my_tasks.js:441-442 | a falsy value becomes the empty text, any other its `toString()` |
| MyTasks.CellTexts | service_planner/public/js/my_tasks.js:440-441 | one cell per header of the first row |
| MyTasks.QuoteAll | service_planner/public/js/my_tasks.js:442 | every cell quoted, with embedded quotes doubled |
| MyTasks.CsvLines | service_planner/public/js/my_tasks.js:439-444 | one line per row, in order |
| MyTasks.ConvertToCsv | service_planner/public/js/my_tasks.js:433-447 | absent or empty data gives '' and nothing else does |
| MyTasks.CsvStartsWithHeader | service_planner/public/js/my_tasks.js:436-437 | the export starts with the first row's keys joined by ',' and a line feed |
| MyTasks.CsvLinesInOrder | service_planner/public/js/my_tasks.js:439-446 | the export is the header line and one line per row, separated by line feeds, with no final line feed |
| MyTasks.QuoteRoundTrip | service_planner/public/js/my_tasks.js:442 | a field escaped as RFC 4180 asks reads back to itself |
| MyTasks.LineRoundTrip | service_planner/public/js/my_tasks.js:440-443 | a line of escaped fields reads back to its fields: no quote, comma or line feed in a value can shift a column |
| MyTasks.CsvRowsReadBack | service_planner/public/js/my_tasks.js:439-444 | every data line reads back to the row's cell texts, one per column of the first row |
| MyTasks.StatusClassDistinguishesKnown | service_planner/public/js/my_tasks.js:268-276 | Pending, In Progress, Completed and Open get four different badges, and any other status gets "secondary" |
| MyTasks.FormatDateSimple | service_planner/public/js/my_tasks.js:238-243 | a missing, empty or unparsable date gives "—" |
| MyTasks.FormatDateSimpleReadsBack | service_planner/public/js/my_tasks.js:245-251 | otherwise the text is `dd/mm/yyyy hh:mm` with two-digit day, month, hours and minutes, and each field reads back as its value |

## Left out

- Database, ORM and RPC plumbing is not modelled:
  - `frappe.get_doc`, `db.sql`, `set_value`, `commit`, `insert`, `save`, `delete` and `@frappe.whitelist`;
  - the task table is a map from name to row, and the project's task list is a sequence;
  - the JSON-string decoding of `task_names`, `updates` and `task_data` is left out: inputs arrive decoded.
- `frappe.db.escape`, translation `_()`, `frappe.get_roles`, the User organization field, the
  role holders, `add_months` and `nowdate()` are parameters, so their behaviour is not part of
  this model.
- `str.format` with one argument is modelled as replacing every `{0}` in the translated template.
- Exceptions are not modelled:
  - The `DoesNotExistError` branches are modelled: update_task, update_task_status and
    delete_task answer "Task does not exist" for a missing task. In a batch, a missing task fails
    with `notFound`, the text of the exception.
  - The generic `except Exception` branches are left out. They catch database errors on save,
    insert or commit, and validation errors raised when `batch_update_tasks` saves a task.
  - Frappe's own permission check on `insert()`, `save()` and `delete()` is not modelled. That
    check consults the Service Task has_permission hook (ServiceTaskDoctype.HasPermission) for every
    user other than Administrator, and raises on refusal. The generic `except` turns the refusal into
    a failed reply, or into an entry of `failed` in `batch_update_tasks`. `frappe.db.set_value`, which
    update_task_status uses, runs no such check.
- TaskApi.CreateTaskContract: success describes the endpoint's own checks; in Frappe the insert can
  still be refused by has_permission.
- TaskApi.UpdateTaskContract: likewise, the save can still be refused by has_permission.
- TaskApi.StatusChangeIsStatusUpdate: the equality holds only because the permission check on
  `save()` is not modelled. update_task_status writes with `set_value` and skips that check, so in
  Frappe the two differ when has_permission refuses, for instance for the assignee of a task whose
  role they do not hold.
- TaskApi.DeleteTaskContract: success describes the endpoint's own checks; in Frappe `delete()` can
  still be refused by has_permission for any administrator other than the Administrator user.
- TaskApi.BatchUpdateTasks: the emptiness test runs on the arguments before they are decoded from
  JSON. Over RPC `frappe.call` sends them as the texts "[]" and "{}", which are not empty, so the
  source goes on: an empty name list gives success with 0 updated, and an empty update map saves
  every named task the user may edit and counts it as updated. The rejection the contract states
  holds only for callers that pass decoded values.
- TaskApi.AdminBatchFailsOnlyMissing: in Frappe an administrator's batch can also fail on a task
  when `save()` is refused by has_permission or rejects a field value (such as a status outside the
  Select options); neither check is modelled.
- The zone database (pytz) is not modelled: the success paths of `localize`, `astimezone` and
  `strftime` and the zone's current offset are uninterpreted functions.
  - `is_dst_active`, `get_user_timezone_info` and `convert_timezone` (the latter two in
    `time_management.py`) depend on it and on the wall clock, and are left out.
  - TimezoneManager.GetUserTimezone: the exception path is modelled as "the database rejects the
    preferred name". A failure of the User lookup itself is not modelled.
- The other endpoints of `task_api.py` are left out. They are queries and reports without
  decision logic of their own beyond what is modelled:
  - `get_user_performance` (floating-point percentages);
  - `get_task_statistics_by_period` (calendar month arithmetic);
  - `get_task_stats`, `mark_task_completed`, `search_tasks`, `export_tasks`,
    `get_dashboard_data`, `get_task_reminders` and `get_task_filters`.
- The `creation` and `modified` fields of a task are not modelled.
- The `stats_result` empty fallback in get_my_tasks (task_api.py:224-226) is left out. An
  aggregate query always returns one row.
- The text of the notification messages and subjects, and their delivery (realtime, e-mail, alert
  log insert), are not modelled. Each dispatch records its channel, recipient, task and occasion.
- `frappe.msgprint` is shown as the warning list of an accepted validation.
- The save in regenerate_tasks is modelled as the validate hook followed by the controller's
  before_save. The `execute` hook runs on that save too but changes nothing, because the stored
  default role is the current one. Frappe's own ordering of hooks is not otherwise modelled.
- My Tasks page:
  - Values are integers, strings, booleans and null. Floating-point numbers and NaN are not
    modelled in the CSV export.
  - `new Date(dateStr)` is a parameter `parse`. The `catch` branch of formatDateSimple is left
    out, since `new Date` does not throw on a string.
  - `renderTasks`, `loadTasks`, `isOverdue`, the Vue fetch and the other DOM code are left out.
    So are the form scripts (`service_task_client.js`, `service_project_restrict_edit.js`,
    `service_project_form.js`, both `service_project.js`, `lock_main_fields.js`,
    `service_project_list.js`, both `service_task.js`): they are UI event handlers over form and
    DOM state.
- `hooks.py` (configuration), `utils.py` (translation file loading) and the doctype
  `notifications.py` (e-mail lookup and send) are not part of this model.
- A Python `None` and an empty string are both modelled as "".
  - TaskApi.CanViewTask: `task.assigned_to == current_user` with an unset assignee and an empty
    session user is modelled as false.
  - PermissionQuery.EffectiveUser: `user or frappe.session.user` treats "" as missing, as the
    source does.
- TaskApi.NormalizeStats: `int()` of an integer statistic is the identity. Decimal values from
  `SUM` are modelled as integers.
- ServiceTaskDoctype.PermissionQueryConditions: the contract says which role-list and
  organization texts the condition contains, not its full whitespace layout.

## Findings

| source | as written | input that shows it | evidently intended | confidence | as-written member | corrected member |
|---|---|---|---|---|---|---|
| service_planner/utils/timezone_utils.py:87-91 | the hours are truncated toward zero and give the sign, while the minutes come from Python's floor remainder | an offset of -1800 s prints "+00:30"; -9900 s prints "-02:15" | the sign of the offset, then its magnitude in hours and minutes: "-00:30" and "-02:45" | high, not executed | TimezoneUtils.AsWrittenSignLost | TimezoneUtils.FormatOffsetRoundTrip |
| service_planner/api/task_api.py:208-210 | every condition whose text contains "task_title LIKE" or "notes LIKE" is dropped from the statistics, not only the search condition | an administrator filtering on status "notes LIKE" with search "x": the statistics clause becomes "1=1" | only the search condition is dropped: "status = 'notes LIKE'" | low, not executed | TaskApi.StatsAsWrittenDropsStatusFilter | TaskApi.StatsDropExactlySearch |
