/** The Service Task doctype: its row type and the record-level permission rules of its controller. */
module ServiceTaskDoctype {
  import opened Text

  /** One Service Task row. Every field holds the string Frappe stores; a field that is not set is ""
      (the source only ever tests these fields for truthiness). */
  datatype ServiceTask = ServiceTask(
    name: string,
    title: string,
    dueDate: string,
    localDueDate: string,
    assignedTo: string,
    assignedRole: string,
    status: string,
    notes: string,
    organization: string,
    parent: string)

  /** The condition that matches no row. */
  const DENY_ALL := "1=0"

  /** `[escape(r) for r in roles]` */
  function EscapeAll(roles: seq<string>, escape: string -> string): (r: seq<string>)
    ensures |r| == |roles|
    ensures forall i :: 0 <= i < |roles| ==> r[i] == escape(roles[i])
  {
    if roles == [] then [] else [escape(roles[0])] + EscapeAll(roles[1..], escape)
  }

  /** service_task.py's own get_permission_query_conditions: `userRoles` and `userOrg` are what
      frappe.get_roles and the cached User.organization give for the (session-defaulted) user; `escape`
      is frappe.db.escape. hooks.py assigns `permission_query_conditions` twice and the second
      assignment installs the permission_query server script's task condition
      (PermissionQuery.TaskConditions) for Service Task, so Frappe does not call this function. */
  function PermissionQueryConditions(userRoles: seq<string>, userOrg: string, escape: string -> string): (r: string)
    ensures r == DENY_ALL <==> userOrg == "" || userRoles == []
    ensures r != DENY_ALL ==>
      Contains(r, "assigned_role IN ('" + Join(EscapeAll(userRoles, escape), "', '") + "')")
      && Contains(r, "AND organization = " + escape(userOrg))
  {
    if userOrg == "" || userRoles == [] then DENY_ALL
    else
      var roleList := "assigned_role IN ('" + Join(EscapeAll(userRoles, escape), "', '") + "')";
      var orgClause := "AND organization = " + escape(userOrg);
      var r := "\n        " + roleList + "\n        " + orgClause + "\n    ";
      assert r[0] == '\n';
      ContainsAt(r, roleList, 9);
      ContainsAt(r, orgClause, 9 + |roleList| + 9);
      r
  }

  /** has_permission: the permission type is not consulted and no role bypasses the rule. */
  predicate HasPermission(task: ServiceTask, ptype: string, userRoles: seq<string>, userOrg: string)
  {
    task.assignedRole in userRoles && task.organization == userOrg
  }

  /** Whatever the permission type, the answer is the same. */
  lemma PermissionIgnoresPtype(task: ServiceTask, p1: string, p2: string, userRoles: seq<string>, userOrg: string)
    ensures HasPermission(task, p1, userRoles, userOrg) == HasPermission(task, p2, userRoles, userOrg)
  {
  }

  /** Holding "System Manager" grants nothing by itself: has_permission refuses a task of another
      organization, and service_task.py's own list condition (replaced in hooks.py) still restricts the
      user to their organization. The condition Frappe applies lists every task to a System Manager
      (PermissionQuery.SystemManagerListedButRefused). */
  lemma NoSystemManagerBypass(task: ServiceTask, ptype: string, userRoles: seq<string>, userOrg: string, escape: string -> string)
    requires "System Manager" in userRoles && userOrg != ""
    requires task.organization != userOrg
    ensures !HasPermission(task, ptype, userRoles, userOrg)
    ensures Contains(PermissionQueryConditions(userRoles, userOrg, escape), "AND organization = " + escape(userOrg))
  {
  }

  /** For a task the record rule grants, service_task.py's own list condition (replaced in hooks.py) is
      the deny-all "1=0" only when neither the task nor the user has an organization (the record rule
      compares the two unset values as equal). */
  lemma GrantedTaskNotDeniedOutright(task: ServiceTask, ptype: string, userRoles: seq<string>, userOrg: string, escape: string -> string)
    requires HasPermission(task, ptype, userRoles, userOrg)
    ensures PermissionQueryConditions(userRoles, userOrg, escape) == DENY_ALL <==> userOrg == "" && task.organization == ""
  {
  }
}
