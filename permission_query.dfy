/** The list conditions the permission_query server script adds to Service Project and Service Task
    queries. `rolesOf` and `orgOf` stand for frappe.get_roles and the organization field of a User. */
module PermissionQuery {
  import opened Text
  import opened ServiceTaskDoctype
  import opened ServiceProjectDoctype

  const SYSTEM_MANAGER := "System Manager"
  /** The roles, in this order, that open the role alternative of the task condition. */
  const TASK_ROLES := ["Engineer", "Analyst", "Account Manager"]

  /** `user or frappe.session.user` */
  function EffectiveUser(user: string, sessionUser: string): string
  {
    if user == "" then sessionUser else user
  }

  /** get_permission_query_conditions (Service Project). */
  function ProjectConditions(user: string, sessionUser: string, rolesOf: string -> seq<string>, orgOf: string -> string): (r: string)
    ensures var u := EffectiveUser(user, sessionUser);
      && (r == "" <==> SYSTEM_MANAGER in rolesOf(u))
      && (SYSTEM_MANAGER !in rolesOf(u) ==> r == PermissionQueryCondition(orgOf(u)))
  {
    var u := EffectiveUser(user, sessionUser);
    if SYSTEM_MANAGER in rolesOf(u) then ""
    else if orgOf(u) == "" then DENY_ALL
    else OrganizationClause(orgOf(u))
  }

  /** The candidates the user holds, in candidate order. */
  function HeldAmong(candidates: seq<string>, roles: seq<string>): (held: seq<string>)
    ensures forall r :: r in held <==> r in candidates && r in roles
    ensures |held| <= |candidates|
  {
    if candidates == [] then []
    else
      var last := candidates[|candidates| - 1];
      HeldAmong(candidates[..|candidates| - 1], roles) + (if last in roles then [last] else [])
  }

  /** The task roles the user holds, written out case by case. */
  lemma HeldTaskRolesInOrder(roles: seq<string>)
    ensures HeldAmong(TASK_ROLES, roles)
      == (if "Engineer" in roles then ["Engineer"] else [])
       + (if "Analyst" in roles then ["Analyst"] else [])
       + (if "Account Manager" in roles then ["Account Manager"] else [])
  {
    var e := if "Engineer" in roles then ["Engineer"] else [];
    var a := if "Analyst" in roles then ["Analyst"] else [];
    assert ["Engineer"][..0] == [];
    assert HeldAmong(["Engineer"], roles) == e;
    assert ["Engineer", "Analyst"][..1] == ["Engineer"];
    assert HeldAmong(["Engineer", "Analyst"], roles) == e + a;
    assert TASK_ROLES[..2] == ["Engineer", "Analyst"];
  }

  /** The Service Task table as SQL names it. */
  const TASK_TABLE := "`tabService Task`"

  function ParentClause(org: string): string
  {
    TASK_TABLE + ".`parent` IN (SELECT name FROM " + PROJECT_TABLE + " WHERE organization = '" + org + "')"
  }

  function RoleClause(role: string): string
  {
    TASK_TABLE + ".`assigned_role` = '" + role + "'"
  }

  function AssigneeClause(user: string): string
  {
    TASK_TABLE + ".`assigned_to` = '" + user + "'"
  }

  function RoleClauses(roles: seq<string>): (clauses: seq<string>)
    ensures |clauses| == |roles|
    ensures forall i :: 0 <= i < |roles| ==> clauses[i] == RoleClause(roles[i])
  {
    if roles == [] then [] else [RoleClause(roles[0])] + RoleClauses(roles[1..])
  }

  /** task_permission_query_conditions, step by step: the role clauses are collected in a loop over
      the three task roles, then joined under the organization restriction. */
  method TaskPermissionQueryConditions(user: string, sessionUser: string, rolesOf: string -> seq<string>, orgOf: string -> string)
    returns (r: string)
    ensures r == TaskConditions(user, sessionUser, rolesOf, orgOf)
  {
    var u := EffectiveUser(user, sessionUser);
    if SYSTEM_MANAGER in rolesOf(u) {
      return "";
    }
    var userOrg := orgOf(u);
    if userOrg == "" {
      return DENY_ALL;
    }
    var roleConditions := CollectRoleConditions(rolesOf(u));
    ghost var held := HeldAmong(TASK_ROLES, rolesOf(u));
    var conditions := [ParentClause(userOrg)];
    if roleConditions != [] {
      conditions := conditions + ["(" + Join(roleConditions, " OR ") + " OR " + AssigneeClause(u) + ")"];
      assert conditions == [ParentClause(userOrg)] + [RoleAlternative(held, u)];
    } else {
      assert held == [];
    }
    r := Join(conditions, " AND ");
  }

  /** The loop over the three task roles, keeping the clause of each role the user holds. */
  method CollectRoleConditions(userRoles: seq<string>) returns (roleConditions: seq<string>)
    ensures roleConditions == RoleClauses(HeldAmong(TASK_ROLES, userRoles))
  {
    roleConditions := [];
    for i := 0 to |TASK_ROLES|
      invariant roleConditions == RoleClauses(HeldAmong(TASK_ROLES[..i], userRoles))
    {
      var role := TASK_ROLES[i];
      assert TASK_ROLES[..i + 1][..i] == TASK_ROLES[..i];
      if role in userRoles {
        RoleClausesSnoc(HeldAmong(TASK_ROLES[..i], userRoles), role);
        roleConditions := roleConditions + [RoleClause(role)];
      }
    }
    assert TASK_ROLES[..|TASK_ROLES|] == TASK_ROLES;
  }

  lemma RoleClausesSnoc(roles: seq<string>, role: string)
    ensures RoleClauses(roles + [role]) == RoleClauses(roles) + [RoleClause(role)]
  {
  }

  /** The parenthesised alternative: one of the held roles, or assigned to the user. */
  function RoleAlternative(held: seq<string>, user: string): string
  {
    "(" + Join(RoleClauses(held), " OR ") + " OR " + AssigneeClause(user) + ")"
  }

  /** task_permission_query_conditions (Service Task). */
  function TaskConditions(user: string, sessionUser: string, rolesOf: string -> seq<string>, orgOf: string -> string): (r: string)
  {
    var u := EffectiveUser(user, sessionUser);
    if SYSTEM_MANAGER in rolesOf(u) then ""
    else if orgOf(u) == "" then DENY_ALL
    else
      var held := HeldAmong(TASK_ROLES, rolesOf(u));
      Join([ParentClause(orgOf(u))] + (if held != [] then [RoleAlternative(held, u)] else []), " AND ")
  }

  /** What the task condition admits: nothing is filtered for a System Manager, nothing is admitted
      without an organization; otherwise the condition always restricts to the organization's projects,
      and adds the role alternative exactly when the user holds one of the three task roles. That
      alternative names every held role and the user. */
  lemma TaskConditionsShape(user: string, sessionUser: string, rolesOf: string -> seq<string>, orgOf: string -> string)
    ensures var u := EffectiveUser(user, sessionUser);
      var r := TaskConditions(user, sessionUser, rolesOf, orgOf);
      var held := HeldAmong(TASK_ROLES, rolesOf(u));
      && (r == "" <==> SYSTEM_MANAGER in rolesOf(u))
      && (SYSTEM_MANAGER !in rolesOf(u) && orgOf(u) == "" ==> r == DENY_ALL)
      && (SYSTEM_MANAGER !in rolesOf(u) && orgOf(u) != "" ==>
            && StartsWith(r, ParentClause(orgOf(u)))
            && (r == ParentClause(orgOf(u)) <==> held == [])
            && (held != [] ==> Contains(r, AssigneeClause(u)))
            && (forall role :: role in held ==> Contains(r, RoleClause(role))))
  {
    var u := EffectiveUser(user, sessionUser);
    if SYSTEM_MANAGER !in rolesOf(u) {
      if orgOf(u) == "" {
        assert DENY_ALL != "" by { assert |DENY_ALL| > 0; }
      } else {
        var parent := ParentClause(orgOf(u));
        RestrictedShape(parent, HeldAmong(TASK_ROLES, rolesOf(u)), u);
        assert parent != "" by { assert |parent| > 0; }
      }
    }
  }

  /** The organization restriction, joined with the role alternative when some role is held: it starts
      with the restriction, is longer exactly when a role is held, and then names every held role and
      the user. */
  lemma RestrictedShape(parent: string, held: seq<string>, u: string)
    ensures var r := Join([parent] + (if held != [] then [RoleAlternative(held, u)] else []), " AND ");
      && StartsWith(r, parent)
      && (r == parent <==> held == [])
      && (held != [] ==> Contains(r, AssigneeClause(u)))
      && forall role :: role in held ==> Contains(r, RoleClause(role))
  {
    if held == [] {
      assert [parent] + [] == [parent];
    } else {
      var alt := RoleAlternative(held, u);
      var r := parent + " AND " + alt;
      JoinTwo(parent, alt, " AND ");
      assert r == (parent + " AND ") + alt;
      assert r[..|parent|] == parent;
      assert |r| > |parent|;
      AlternativeNamesAll(held, u);
      ContainsAfterPrefix(parent + " AND ", alt, AssigneeClause(u));
      forall role | role in held
        ensures Contains(r, RoleClause(role))
      {
        ContainsAfterPrefix(parent + " AND ", alt, RoleClause(role));
      }
    }
  }

  /** The role alternative names the user and every held role. */
  lemma AlternativeNamesAll(held: seq<string>, u: string)
    ensures Contains(RoleAlternative(held, u), AssigneeClause(u))
    ensures forall role :: role in held ==> Contains(RoleAlternative(held, u), RoleClause(role))
  {
    var alt := RoleAlternative(held, u);
    var joined := Join(RoleClauses(held), " OR ");
    var assignee := AssigneeClause(u);
    var tail := " OR " + assignee + ")";
    assert alt == ("(" + joined) + tail;
    ContainsAt(alt, assignee, |alt| - |assignee| - 1);
    JoinContainsParts(RoleClauses(held), " OR ");
    forall role | role in held
      ensures Contains(alt, RoleClause(role))
    {
      var i :| 0 <= i < |held| && held[i] == role;
      assert RoleClauses(held)[i] == RoleClause(role);
      ContainsAfterPrefix("(", joined, RoleClause(role));
      ContainsBeforeSuffix("(" + joined, tail, RoleClause(role));
    }
  }

  /** A user who holds none of the three task roles is not narrowed by role or assignee: the condition
      is the organization restriction alone. */
  lemma NoTaskRoleMeansWholeOrganization(user: string, sessionUser: string, rolesOf: string -> seq<string>, orgOf: string -> string)
    requires var u := EffectiveUser(user, sessionUser);
      SYSTEM_MANAGER !in rolesOf(u) && orgOf(u) != "" && forall role :: role in TASK_ROLES ==> role !in rolesOf(u)
    ensures TaskConditions(user, sessionUser, rolesOf, orgOf) == ParentClause(orgOf(EffectiveUser(user, sessionUser)))
  {
    HeldTaskRolesInOrder(rolesOf(EffectiveUser(user, sessionUser)));
  }

  /** The project and task conditions agree on who is unrestricted and who is shut out. */
  lemma ProjectAndTaskAgree(user: string, sessionUser: string, rolesOf: string -> seq<string>, orgOf: string -> string)
    ensures (ProjectConditions(user, sessionUser, rolesOf, orgOf) == "") == (TaskConditions(user, sessionUser, rolesOf, orgOf) == "")
    ensures (ProjectConditions(user, sessionUser, rolesOf, orgOf) == DENY_ALL) == (TaskConditions(user, sessionUser, rolesOf, orgOf) == DENY_ALL)
  {
    ProjectDenies(user, sessionUser, rolesOf, orgOf);
    TaskDenies(user, sessionUser, rolesOf, orgOf);
  }

  /** The project condition shuts everyone out exactly when the user is no System Manager and has no
      organization. */
  lemma ProjectDenies(user: string, sessionUser: string, rolesOf: string -> seq<string>, orgOf: string -> string)
    ensures var u := EffectiveUser(user, sessionUser);
      ProjectConditions(user, sessionUser, rolesOf, orgOf) == DENY_ALL <==> SYSTEM_MANAGER !in rolesOf(u) && orgOf(u) == ""
  {
    var u := EffectiveUser(user, sessionUser);
    if SYSTEM_MANAGER !in rolesOf(u) && orgOf(u) != "" {
      assert |OrganizationClause(orgOf(u))| > 3;
    }
  }

  /** The task condition shuts everyone out exactly when the user is no System Manager and has no
      organization. */
  lemma TaskDenies(user: string, sessionUser: string, rolesOf: string -> seq<string>, orgOf: string -> string)
    ensures var u := EffectiveUser(user, sessionUser);
      && (TaskConditions(user, sessionUser, rolesOf, orgOf) == "" <==> SYSTEM_MANAGER in rolesOf(u))
      && (TaskConditions(user, sessionUser, rolesOf, orgOf) == DENY_ALL <==> SYSTEM_MANAGER !in rolesOf(u) && orgOf(u) == "")
  {
    var u := EffectiveUser(user, sessionUser);
    if SYSTEM_MANAGER !in rolesOf(u) && orgOf(u) != "" {
      var parent := ParentClause(orgOf(u));
      var held := HeldAmong(TASK_ROLES, rolesOf(u));
      var parts := [parent] + (if held != [] then [RoleAlternative(held, u)] else []);
      JoinStartsWithFirst(parts, " AND ");
      assert |parent| > 3;
    }
  }

  /** The task condition hooks.py installs puts no restriction on a System Manager's lists, while the
      Service Task has_permission hook still refuses them a task of another organization. */
  lemma SystemManagerListedButRefused(user: string, sessionUser: string, rolesOf: string -> seq<string>, orgOf: string -> string,
                                      task: ServiceTask, ptype: string)
    requires var u := EffectiveUser(user, sessionUser); SYSTEM_MANAGER in rolesOf(u) && task.organization != orgOf(u)
    ensures TaskConditions(user, sessionUser, rolesOf, orgOf) == ""
    ensures !HasPermission(task, ptype, rolesOf(EffectiveUser(user, sessionUser)), orgOf(EffectiveUser(user, sessionUser)))
  {
    TaskDenies(user, sessionUser, rolesOf, orgOf);
  }
}
