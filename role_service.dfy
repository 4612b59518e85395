/** roleService.js: the permission checks over the caller's session roles and
    the orchestration of the store's SQL functions. A `{success, error}` answer
    is a `Reply`; an exception that escapes the service is `Threw`. */
module RoleService {
  import opened Schema
  import opened RoleLists
  import opened RoleRepository
  import opened UserRepository

  /** The `error` of a `{success: false}` answer, one per message. */
  datatype Reason =
    | AssignerNotDelegable              // the role to assign is "Asignador"
    | CallerNotAssigner                 // assign: the caller lacks "Asignador"
    | CallerLacksRole(roleName: Option<string>)  // assign: the caller lacks the role itself
    | NoAccess                          // shared-role listing without "Asignador"
    | OldRoleNotRemoved                 // edit: no grant to replace
    | EditFailed                        // edit: an exception was caught
    | RemoverNotAssigner                // remove: the caller lacks "Asignador"
    | TargetLacksRole(roleName: Option<string>)  // remove: the user does not hold the role

  datatype Reply<+T> = Success(value: T) | Failure(error: Reason)

  /** The three checks of assignRole, in order; `None` lets the assignment
      through. `roleName` is what getRoleNameById resolved. */
  function AssignDenial(callerRoles: seq<RoleRef>, roleName: Option<string>): (d: Option<Reason>)
    ensures roleName == Some(Assigner) ==> d == Some(AssignerNotDelegable)
    ensures roleName != Some(Assigner) && !UserHasRoleByName(callerRoles, Assigner) ==> d == Some(CallerNotAssigner)
    ensures roleName.None? ==> d.Some?
    ensures roleName != Some(Assigner) && UserHasRoleByName(callerRoles, Assigner) && d.Some?
            ==> d == Some(CallerLacksRole(roleName))
    ensures d.None? <==> roleName.Some? && roleName.value != Assigner
                         && UserHasRoleByName(callerRoles, Assigner)
                         && UserHasRoleByName(callerRoles, roleName.value)
  {
    if roleName == Some(Assigner) then Some(AssignerNotDelegable)
    else if !UserHasRoleByName(callerRoles, Assigner) then Some(CallerNotAssigner)
    // `userHasRoleByName(roles, null)` is false: no session role is named null
    else if !(roleName.Some? && UserHasRoleByName(callerRoles, roleName.value)) then Some(CallerLacksRole(roleName))
    else None
  }

  /** The two checks of removeUserRoleA; `targetHolds` is what userHasRole answered. */
  function RemoveDenial(callerRoles: seq<RoleRef>, roleName: Option<string>, targetHolds: bool): (d: Option<Reason>)
    ensures !UserHasRoleByName(callerRoles, Assigner) ==> d == Some(RemoverNotAssigner)
    ensures UserHasRoleByName(callerRoles, Assigner) && !targetHolds ==> d == Some(TargetLacksRole(roleName))
    ensures d.None? <==> UserHasRoleByName(callerRoles, Assigner) && targetHolds
  {
    if !UserHasRoleByName(callerRoles, Assigner) then Some(RemoverNotAssigner)
    else if !targetHolds then Some(TargetLacksRole(roleName))
    else None
  }

  /** `assignRole`. */
  method AssignRole(store: RoleStore, caller: CurrentUser, userId: int, roleId: int, fault: TxFault)
    returns (r: Outcome<Reply<()>>)
    modifies store
    ensures store.roleNames == old(store.roleNames) && store.users == old(store.users)
    ensures old(store.trace) <= store.trace
    ensures AssignDenial(caller.roles, old(store.RoleNameById(roleId))).Some? ==>
              r == Returned(Failure(AssignDenial(caller.roles, old(store.RoleNameById(roleId))).value))
              && store.grants == old(store.grants) && store.trace == old(store.trace)
    ensures AssignDenial(caller.roles, old(store.RoleNameById(roleId))).None? && fault == Healthy ==>
              r == Returned(Success(()))
              && store.grants == old(store.grants) + [Grant(userId, roleId)]
              && store.trace == old(store.trace) + [TraceEntry(userId, roleId, Assign, caller.userId)]
    ensures AssignDenial(caller.roles, old(store.RoleNameById(roleId))).None? && fault != Healthy ==>
              r == Threw && store.grants == old(store.grants) && store.trace == old(store.trace)
  {
    var roleNameToAssign := store.RoleNameById(roleId);
    if roleNameToAssign == Some(Assigner) {
      return Returned(Failure(AssignerNotDelegable));
    }
    if !UserHasRoleByName(caller.roles, Assigner) {
      return Returned(Failure(CallerNotAssigner));
    }
    if !(roleNameToAssign.Some? && UserHasRoleByName(caller.roles, roleNameToAssign.value)) {
      return Returned(Failure(CallerLacksRole(roleNameToAssign)));
    }
    var written := store.AssignRoleToUser(userId, roleId, caller.userId, fault);
    if written.Threw? {
      return Threw;
    }
    r := Returned(Success(()));
  }

  /** `getSharedRoleUsers`: the listing is for "Asignador" holders only. */
  function GetSharedRoleUsers(caller: CurrentUser, store: RoleStore): (r: Reply<seq<SharedUser>>)
    reads store
    ensures r.Failure? <==> !UserHasRoleByName(caller.roles, Assigner)
    ensures r.Failure? ==> r.error == NoAccess
    ensures r.Success? ==>
              r.value == GetUsersWithSharedRoles(caller.userId, caller.roles, store.users, store.roleNames, store.grants)
  {
    if !UserHasRoleByName(caller.roles, Assigner) then Failure(NoAccess)
    else Success(GetUsersWithSharedRoles(caller.userId, caller.roles, store.users, store.roleNames, store.grants))
  }

  /** A caller whose only role is "Asignador" may list, and sees nobody. */
  lemma OnlyAssignerSeesNobody(caller: CurrentUser, store: RoleStore)
    requires |caller.roles| > 0
    requires forall i :: 0 <= i < |caller.roles| ==> caller.roles[i].roleName == Assigner
    ensures GetSharedRoleUsers(caller, store) == Success([])
  {
    assert caller.roles[0].roleName == Assigner;
  }

  /** `getUsersWithoutAssignedRoles`: always a success, listing every bi_user
      row without a grant. */
  function GetUsersWithoutAssignedRoles(store: RoleStore): (r: Reply<seq<User>>)
    reads store
    ensures r.Success?
    ensures forall u :: u in r.value <==>
              u in store.users && forall g :: g in store.grants ==> g.userId != u.userId
  {
    Success(GetUsersWithoutRoles(store.users, store.grants))
  }

  /** `editUserRole`. It never looks at the caller's roles; the old grant is
      removed without a trace row, and the new grant is written with an EDIT
      row by a separate transaction. Every exception is caught. */
  method EditUserRole(store: RoleStore, caller: CurrentUser, userId: int, currentRoleId: int, newRoleId: int,
                      removeFails: bool, fault: TxFault)
    returns (r: Reply<()>)
    modifies store
    ensures store.roleNames == old(store.roleNames) && store.users == old(store.users)
    ensures old(store.trace) <= store.trace
    ensures removeFails ==>
              r == Failure(EditFailed) && store.grants == old(store.grants) && store.trace == old(store.trace)
    ensures !removeFails && Grant(userId, currentRoleId) !in old(store.grants) ==>
              r == Failure(OldRoleNotRemoved) && store.grants == old(store.grants) && store.trace == old(store.trace)
    ensures !removeFails && Grant(userId, currentRoleId) in old(store.grants) && fault == Healthy ==>
              r == Success(())
              && store.grants == Without(old(store.grants), Grant(userId, currentRoleId)) + [Grant(userId, newRoleId)]
              && store.trace == old(store.trace) + [TraceEntry(userId, newRoleId, Edit, caller.userId)]
    // the old grant is gone although the caller is told the edit failed
    ensures !removeFails && Grant(userId, currentRoleId) in old(store.grants) && fault != Healthy ==>
              r == Failure(EditFailed)
              && store.grants == Without(old(store.grants), Grant(userId, currentRoleId))
              && store.trace == old(store.trace)
  {
    var roleAssigned := store.RemoveUserRole(userId, currentRoleId, removeFails);
    if roleAssigned.Threw? {
      return Failure(EditFailed);
    }
    if !roleAssigned.value {
      return Failure(OldRoleNotRemoved);
    }
    var written := store.AssignNewUserRole(userId, newRoleId, caller.userId, fault);
    if written.Threw? {
      return Failure(EditFailed);
    }
    r := Success(());
  }

  /** `removeUserRoleA`. The target is checked by role NAME and the DELETE is
      by role ID; the DELETE and the REMOVE trace row are two statements
      outside any transaction. */
  method RemoveUserRoleA(store: RoleStore, caller: CurrentUser, userId: int, roleId: int,
                         deleteFails: bool, logFails: bool)
    returns (r: Outcome<Reply<()>>)
    modifies store
    ensures store.roleNames == old(store.roleNames) && store.users == old(store.users)
    ensures old(store.trace) <= store.trace
    ensures !UserHasRoleByName(caller.roles, Assigner) ==>
              r == Returned(Failure(RemoverNotAssigner))
              && store.grants == old(store.grants) && store.trace == old(store.trace)
    ensures var name := old(store.RoleNameById(roleId));
            var d := RemoveDenial(caller.roles, name, old(store.UserHasRole(userId, name)));
            d.Some? ==> r == Returned(Failure(d.value))
                        && store.grants == old(store.grants) && store.trace == old(store.trace)
    ensures var name := old(store.RoleNameById(roleId));
            var d := RemoveDenial(caller.roles, name, old(store.UserHasRole(userId, name)));
            d.None? && deleteFails ==> r == Threw
                                       && store.grants == old(store.grants) && store.trace == old(store.trace)
    // the grant is gone but no REMOVE row was written
    ensures var name := old(store.RoleNameById(roleId));
            var d := RemoveDenial(caller.roles, name, old(store.UserHasRole(userId, name)));
            d.None? && !deleteFails && logFails ==>
              r == Threw
              && store.grants == Without(old(store.grants), Grant(userId, roleId))
              && store.trace == old(store.trace)
    ensures var name := old(store.RoleNameById(roleId));
            var d := RemoveDenial(caller.roles, name, old(store.UserHasRole(userId, name)));
            d.None? && !deleteFails && !logFails ==>
              r == Returned(Success(()))
              && store.grants == Without(old(store.grants), Grant(userId, roleId))
              && store.trace == old(store.trace) + [TraceEntry(userId, roleId, Remove, caller.userId)]
  {
    if !UserHasRoleByName(caller.roles, Assigner) {
      return Returned(Failure(RemoverNotAssigner));
    }
    var roleName := store.RoleNameById(roleId);
    var hasRole := store.UserHasRole(userId, roleName);
    if !hasRole {
      return Returned(Failure(TargetLacksRole(roleName)));
    }
    var deleted := store.DeleteUserRole(userId, roleId, deleteFails);
    if deleted.Threw? {
      return Threw;
    }
    var logged := store.LogRoleRemoval(userId, roleId, caller.userId, logFails);
    if logged.Threw? {
      return Threw;
    }
    r := Returned(Success(()));
  }
}
