/**
 * Object-level permission on issues (issues/permissions.py) and the permission list each
 * IssueViewSet action runs (IssueViewSet.get_permissions in issues/views.py).
 */
module Permissions {
  import opened Common
  import opened Issues

  /** The action names of IssueViewSet. */
  datatype Action = List | Create | Retrieve | Update | PartialUpdate | Destroy | CreateForProject | UpdateStatus | Assign

  datatype Permission = IsAuthenticated | IsReporterOrAssignee

  /** IsReporterOrAssignee.message */
  const DENIED_MESSAGE := "You do not have permission to perform this action."

  /** get_permissions: the reporter-or-assignee check is added for `update` and `partial_update` only. */
  function PermissionsFor(action: Action): (ps: seq<Permission>)
    ensures IsAuthenticated in ps
    ensures IsReporterOrAssignee in ps <==> action in {Update, PartialUpdate}
  {
    if action == PartialUpdate || action == Update then [IsAuthenticated, IsReporterOrAssignee]
    else [IsAuthenticated]
  }

  /**
   * has_object_permission of each permission for an authenticated caller. IsAuthenticated
   * inherits the framework default, which grants every object.
   */
  predicate HasObjectPermission(p: Permission, caller: nat, issue: Issue) {
    match p
    case IsAuthenticated => true
    case IsReporterOrAssignee => issue.reporter == Some(caller) || issue.assignee == Some(caller)
  }

  /** check_object_permissions passes when every permission of the action grants the object. */
  predicate ObjectPermitted(action: Action, caller: nat, issue: Issue) {
    forall p :: p in PermissionsFor(action) ==> HasObjectPermission(p, caller, issue)
  }

  /** The message of the first permission that refuses, if any refuses. */
  function DenialMessage(action: Action, caller: nat, issue: Issue): (m: Option<string>)
    ensures m.None? <==> ObjectPermitted(action, caller, issue)
    ensures m.Some? ==> m.value == DENIED_MESSAGE
  {
    if ObjectPermitted(action, caller, issue) then None else Some(DENIED_MESSAGE)
  }

  /** On an update, the permission is exactly "the caller is the reporter or the assignee". */
  lemma UpdatePermittedIff(action: Action, caller: nat, issue: Issue)
    requires action in {Update, PartialUpdate}
    ensures ObjectPermitted(action, caller, issue) <==> issue.reporter == Some(caller) || issue.assignee == Some(caller)
  {
    assert IsReporterOrAssignee in PermissionsFor(action);
  }

  lemma ReporterPermitted(action: Action, caller: nat, issue: Issue)
    requires issue.reporter == Some(caller)
    ensures ObjectPermitted(action, caller, issue)
  {
  }

  lemma AssigneePermitted(action: Action, caller: nat, issue: Issue)
    requires issue.assignee == Some(caller)
    ensures ObjectPermitted(action, caller, issue)
  {
  }

  /** Neither reporter nor assignee: an update is refused, with the fixed message. */
  lemma StrangerDenied(action: Action, caller: nat, issue: Issue)
    requires action in {Update, PartialUpdate}
    requires issue.reporter != Some(caller) && issue.assignee != Some(caller)
    ensures !ObjectPermitted(action, caller, issue)
    ensures DenialMessage(action, caller, issue) == Some(DENIED_MESSAGE)
  {
    UpdatePermittedIff(action, caller, issue);
  }

  /** With nobody assigned, only the reporter may update. */
  lemma UnassignedOnlyReporter(action: Action, caller: nat, issue: Issue)
    requires action in {Update, PartialUpdate}
    requires issue.assignee.None?
    ensures ObjectPermitted(action, caller, issue) <==> issue.reporter == Some(caller)
  {
    UpdatePermittedIff(action, caller, issue);
  }

  /**
   * The gap in the code as written: every other action, among them `update_status`, `assign`
   * and `destroy`, grants any authenticated caller, owner or not.
   */
  lemma OwnershipCheckedOnlyOnUpdate(action: Action, caller: nat, issue: Issue)
    requires action !in {Update, PartialUpdate}
    ensures ObjectPermitted(action, caller, issue)
  {
    forall p | p in PermissionsFor(action) ensures HasObjectPermission(p, caller, issue) {
      assert p == IsAuthenticated;
    }
  }
}
