/** The Service Project doctype: the project document with its child task list, its before_save
    organization backfill, and its list permission condition. */
module ServiceProjectDoctype {
  import opened Wrappers
  import opened Dates
  import opened ServiceTaskDoctype

  /** A Service Project document as the save hooks see it. `startDate` and `intervalDays` are
      None when the form leaves them empty. */
  class ServiceProject {
    var scheduleType: string
    var startDate: Option<Day>
    var intervalDays: Option<int>
    var defaultRole: string
    var organization: string
    var serviceTasks: seq<ServiceTask>

    constructor (scheduleType: string, startDate: Option<Day>, intervalDays: Option<int>,
                 defaultRole: string, organization: string, serviceTasks: seq<ServiceTask>)
      ensures this.scheduleType == scheduleType && this.startDate == startDate
      ensures this.intervalDays == intervalDays && this.defaultRole == defaultRole
      ensures this.organization == organization && this.serviceTasks == serviceTasks
    {
      this.scheduleType := scheduleType;
      this.startDate := startDate;
      this.intervalDays := intervalDays;
      this.defaultRole := defaultRole;
      this.organization := organization;
      this.serviceTasks := serviceTasks;
    }

    /** before_save: every task without an organization takes the project's, in place. */
    method BeforeSave()
      modifies this`serviceTasks
      ensures serviceTasks == WithOrganization(old(serviceTasks), organization)
    {
      var i := 0;
      while i < |serviceTasks|
        invariant 0 <= i <= |serviceTasks| == |old(serviceTasks)|
        invariant serviceTasks[..i] == WithOrganization(old(serviceTasks)[..i], organization)
        invariant serviceTasks[i..] == old(serviceTasks)[i..]
      {
        BackfillStep(old(serviceTasks), organization, i);
        assert serviceTasks[i] == old(serviceTasks)[i];
        if serviceTasks[i].organization == "" {
          serviceTasks := serviceTasks[i := serviceTasks[i].(organization := organization)];
        }
        assert serviceTasks[..i + 1] == serviceTasks[..i] + [serviceTasks[i]];
        assert serviceTasks[i + 1..] == serviceTasks[i..][1..];
        i := i + 1;
      }
      assert serviceTasks == serviceTasks[..i];
      assert old(serviceTasks) == old(serviceTasks)[..i];
    }
  }

  /** One more task backfilled. */
  lemma BackfillStep(tasks: seq<ServiceTask>, organization: string, i: nat)
    requires i < |tasks|
    ensures WithOrganization(tasks[..i + 1], organization)
      == WithOrganization(tasks[..i], organization) + [Backfilled(tasks[i], organization)]
  {
    assert tasks[..i + 1][..i] == tasks[..i];
  }

  /** The task a backfill leaves: its organization if it has one, the project's otherwise. */
  function Backfilled(task: ServiceTask, organization: string): ServiceTask
  {
    if task.organization == "" then task.(organization := organization) else task
  }

  /** The task list before_save leaves. */
  function WithOrganization(tasks: seq<ServiceTask>, organization: string): seq<ServiceTask>
  {
    if tasks == [] then []
    else WithOrganization(tasks[..|tasks| - 1], organization) + [Backfilled(tasks[|tasks| - 1], organization)]
  }

  /** before_save keeps the number and order of tasks; a task without an organization receives the
      project's, a task with one keeps it, and no other field changes. */
  lemma {:induction false} BackfillPointwise(tasks: seq<ServiceTask>, organization: string)
    ensures |WithOrganization(tasks, organization)| == |tasks|
    ensures forall k :: 0 <= k < |tasks| ==>
      var t, b := tasks[k], WithOrganization(tasks, organization)[k];
      && b.organization == (if t.organization == "" then organization else t.organization)
      && b == t.(organization := b.organization)
    decreases |tasks|
  {
    if tasks != [] {
      BackfillPointwise(tasks[..|tasks| - 1], organization);
    }
  }

  /** Running before_save a second time changes nothing. */
  lemma BackfillIdempotent(tasks: seq<ServiceTask>, organization: string)
    ensures WithOrganization(WithOrganization(tasks, organization), organization) == WithOrganization(tasks, organization)
  {
    var once := WithOrganization(tasks, organization);
    BackfillPointwise(tasks, organization);
    BackfillPointwise(once, organization);
  }

  /** After before_save no task lacks an organization, provided the project has one. */
  lemma BackfillLeavesNoTaskWithoutOrganization(tasks: seq<ServiceTask>, organization: string)
    requires organization != ""
    ensures forall t :: t in WithOrganization(tasks, organization) ==> t.organization != ""
  {
    BackfillPointwise(tasks, organization);
  }

  /** The Service Project table as SQL names it. */
  const PROJECT_TABLE := "`tabService Project`"

  /** The clause restricting Service Project rows to one organization (no escaping is applied). */
  function OrganizationClause(userOrg: string): string
  {
    PROJECT_TABLE + ".organization = '" + userOrg + "'"
  }

  /** permission_query_condition: `userOrg` is the organization field of the user's User document. */
  function PermissionQueryCondition(userOrg: string): (r: string)
    ensures userOrg == "" ==> r == DENY_ALL
    ensures userOrg != "" ==> r == OrganizationClause(userOrg)
  {
    if userOrg == "" then DENY_ALL else OrganizationClause(userOrg)
  }
}
