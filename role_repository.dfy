/** The grant/trace store: the tables bi_role, bi_user, bi_user_role and
    bi_user_role_trace held in place, with one method per SQL function of
    roleRepository.js. Database failures are inputs: a `TxFault` for the two
    statements run inside BEGIN ... COMMIT, a `dbFails` flag for a statement
    run on its own. */
module RoleRepository {
  import opened Schema

  /** Which step, if any, of a two-insert transaction the database rejects.
      A failing getConnection or BEGIN ends like `GrantInsertFails`: the call
      throws and neither table has changed. */
  datatype TxFault = Healthy | GrantInsertFails | TraceInsertFails | CommitFails

  /** `DELETE FROM bi_user_role WHERE user_id = ? AND role_id = ?`: every copy
      of the pair goes, every other row stays with its multiplicity. */
  function Without(grants: seq<Grant>, g: Grant): (r: seq<Grant>)
    ensures g !in r
    ensures forall x :: x != g ==> multiset(r)[x] == multiset(grants)[x]
    ensures |r| == |grants| - multiset(grants)[g]
    ensures g !in grants ==> r == grants
  {
    if |grants| == 0 then []
    else
      assert grants == [grants[0]] + grants[1..];
      if grants[0] == g then Without(grants[1..], g)
      else [grants[0]] + Without(grants[1..], g)
  }

  /** Some grant of the user points at a role row with that name. */
  ghost predicate HoldsNamed(roleNames: map<int, string>, grants: seq<Grant>, userId: int, name: string)
  {
    exists i :: 0 <= i < |grants| && grants[i].userId == userId
                && grants[i].roleId in roleNames && roleNames[grants[i].roleId] == name
  }

  /** The COUNT(*) of `bi_user_role ur JOIN bi_role r ON ur.role_id = r.role_id
      WHERE ur.user_id = ? AND r.role_name = ?`. */
  function CountNamedGrants(roleNames: map<int, string>, grants: seq<Grant>, userId: int, name: string): (n: nat)
    ensures n <= |grants|
    ensures n > 0 <==> HoldsNamed(roleNames, grants, userId, name)
  {
    if |grants| == 0 then 0
    else
      var g := grants[0];
      (if g.userId == userId && g.roleId in roleNames && roleNames[g.roleId] == name then 1 else 0)
      + CountNamedGrants(roleNames, grants[1..], userId, name)
  }

  class RoleStore {
    /** bi_role: role_id to role_name. */
    var roleNames: map<int, string>
    /** bi_user, read but never written by this core. */
    var users: seq<User>
    /** bi_user_role. */
    var grants: seq<Grant>
    /** bi_user_role_trace, oldest first. */
    var trace: seq<TraceEntry>

    constructor (roleNames: map<int, string>, users: seq<User>, grants: seq<Grant>, trace: seq<TraceEntry>)
      ensures this.roleNames == roleNames && this.users == users
      ensures this.grants == grants && this.trace == trace
    {
      this.roleNames := roleNames;
      this.users := users;
      this.grants := grants;
      this.trace := trace;
    }

    /** `getRoleNameById`: `rows[0]?.role_name || null`, so a missing row and
        an empty name both come back as `null`. */
    function RoleNameById(roleId: int): (name: Option<string>)
      reads this
      ensures name.Some? <==> roleId in roleNames && roleNames[roleId] != ""
      ensures name.Some? ==> name.value == roleNames[roleId]
    {
      if roleId in roleNames && roleNames[roleId] != "" then Some(roleNames[roleId]) else None
    }

    /** `userHasRole`: the count of the user's grants whose role carries the
        name is positive. A `null` name matches nothing (`role_name = NULL`). */
    function UserHasRole(userId: int, roleName: Option<string>): (b: bool)
      reads this
      ensures b <==> roleName.Some? && HoldsNamed(roleNames, grants, userId, roleName.value)
    {
      roleName.Some? && CountNamedGrants(roleNames, grants, userId, roleName.value) > 0
    }

    /** The transaction shared by assignRoleToUser and assignNewUserRole:
        insert the grant, insert the trace row, commit; on any failure roll
        back to the state seen at BEGIN and rethrow. */
    method InsertGrantWithTrace(userId: int, roleId: int, action: Action, performedBy: int, fault: TxFault)
      returns (r: Outcome<bool>)
      modifies this
      ensures roleNames == old(roleNames) && users == old(users)
      ensures fault == Healthy ==> r == Returned(true)
      ensures fault == Healthy ==> grants == old(grants) + [Grant(userId, roleId)]
      ensures fault == Healthy ==> trace == old(trace) + [TraceEntry(userId, roleId, action, performedBy)]
      ensures fault != Healthy ==> r == Threw && grants == old(grants) && trace == old(trace)
    {
      // beginTransaction: the committed state a rollback returns to
      var committedGrants, committedTrace := grants, trace;
      var failed := fault == GrantInsertFails;
      if !failed {
        grants := grants + [Grant(userId, roleId)];
        failed := fault == TraceInsertFails;
      }
      if !failed {
        trace := trace + [TraceEntry(userId, roleId, action, performedBy)];
        failed := fault == CommitFails;
      }
      if failed {
        grants, trace := committedGrants, committedTrace;
        r := Threw;
      } else {
        r := Returned(true);
      }
    }

    /** `assignRoleToUser`: one grant and one ASSIGN trace row, all or nothing. */
    method AssignRoleToUser(userId: int, roleId: int, performedBy: int, fault: TxFault) returns (r: Outcome<bool>)
      modifies this
      ensures roleNames == old(roleNames) && users == old(users) && old(trace) <= trace
      ensures fault == Healthy ==> r == Returned(true)
      ensures fault == Healthy ==> grants == old(grants) + [Grant(userId, roleId)]
      ensures fault == Healthy ==> trace == old(trace) + [TraceEntry(userId, roleId, Assign, performedBy)]
      ensures fault != Healthy ==> r == Threw && grants == old(grants) && trace == old(trace)
    {
      r := InsertGrantWithTrace(userId, roleId, Assign, performedBy, fault);
    }

    /** `assignNewUserRole`: as AssignRoleToUser, but the trace row says EDIT. */
    method AssignNewUserRole(userId: int, roleId: int, performedBy: int, fault: TxFault) returns (r: Outcome<bool>)
      modifies this
      ensures roleNames == old(roleNames) && users == old(users) && old(trace) <= trace
      ensures fault == Healthy ==> r == Returned(true)
      ensures fault == Healthy ==> grants == old(grants) + [Grant(userId, roleId)]
      ensures fault == Healthy ==> trace == old(trace) + [TraceEntry(userId, roleId, Edit, performedBy)]
      ensures fault != Healthy ==> r == Threw && grants == old(grants) && trace == old(trace)
    {
      r := InsertGrantWithTrace(userId, roleId, Edit, performedBy, fault);
    }

    /** `removeUserRole`: a single DELETE outside any transaction; returns
        whether it affected a row, and writes no trace. */
    method RemoveUserRole(userId: int, roleId: int, dbFails: bool) returns (r: Outcome<bool>)
      modifies this
      ensures roleNames == old(roleNames) && users == old(users) && trace == old(trace)
      ensures dbFails ==> r == Threw && grants == old(grants)
      ensures !dbFails ==> r == Returned(Grant(userId, roleId) in old(grants))
      ensures !dbFails ==> grants == Without(old(grants), Grant(userId, roleId))
    {
      if dbFails {
        return Threw;
      }
      var before := |grants|;
      grants := Without(grants, Grant(userId, roleId));
      var affectedRows := before - |grants|;
      r := Returned(affectedRows > 0);
    }

    /** `deleteUserRole`: the same DELETE, with no result. */
    method DeleteUserRole(userId: int, roleId: int, dbFails: bool) returns (r: Outcome<()>)
      modifies this
      ensures roleNames == old(roleNames) && users == old(users) && trace == old(trace)
      ensures dbFails ==> r == Threw && grants == old(grants)
      ensures !dbFails ==> r == Returned(()) && grants == Without(old(grants), Grant(userId, roleId))
    {
      if dbFails {
        return Threw;
      }
      grants := Without(grants, Grant(userId, roleId));
      r := Returned(());
    }

    /** `logRoleRemoval`: a single INSERT of a REMOVE trace row. */
    method LogRoleRemoval(userId: int, roleId: int, performedBy: int, dbFails: bool) returns (r: Outcome<()>)
      modifies this
      ensures roleNames == old(roleNames) && users == old(users) && grants == old(grants) && old(trace) <= trace
      ensures dbFails ==> r == Threw && trace == old(trace)
      ensures !dbFails ==> r == Returned(()) && trace == old(trace) + [TraceEntry(userId, roleId, Remove, performedBy)]
    {
      if dbFails {
        return Threw;
      }
      trace := trace + [TraceEntry(userId, roleId, Remove, performedBy)];
      r := Returned(());
    }
  }

  /** No two role ids carry the same name. */
  ghost predicate NamesUnique(roleNames: map<int, string>)
  {
    forall a, b :: a in roleNames && b in roleNames && a != b ==> roleNames[a] != roleNames[b]
  }

  /** With unique role names, "the user holds a role named like `roleId`"
      (the check removeUserRoleA makes) means the pair `(userId, roleId)` is
      really a grant, so the DELETE that follows removes a row. */
  lemma NameCheckFindsGrant(store: RoleStore, userId: int, roleId: int)
    requires NamesUnique(store.roleNames)
    requires store.UserHasRole(userId, store.RoleNameById(roleId))
    ensures Grant(userId, roleId) in store.grants
  {
    var i :| 0 <= i < |store.grants| && store.grants[i].userId == userId
             && store.grants[i].roleId in store.roleNames
             && store.roleNames[store.grants[i].roleId] == store.roleNames[roleId];
    assert store.grants[i] == Grant(userId, roleId);
  }

  /** Conversely, a grant whose role row exists with a non-empty name passes
      the check. */
  lemma NameCheckCoversGrant(store: RoleStore, userId: int, roleId: int)
    requires Grant(userId, roleId) in store.grants
    requires roleId in store.roleNames && store.roleNames[roleId] != ""
    ensures store.UserHasRole(userId, store.RoleNameById(roleId))
  {
    var i :| 0 <= i < |store.grants| && store.grants[i] == Grant(userId, roleId);
  }

  /** A grant whose role is named "" fails the check, because the name
      resolves to `null`, although the DELETE by id would remove it. */
  lemma NameCheckMissesEmptyName(store: RoleStore)
    requires store.roleNames == map[5 := ""] && store.grants == [Grant(7, 5)]
    ensures !store.UserHasRole(7, store.RoleNameById(5))
    ensures Grant(7, 5) in store.grants
  {
    assert store.grants[0] == Grant(7, 5);
  }

  /** Without unique names the check is answered by another role: two ids
      named "Viewer", the user holds only id 2, and the check for id 1 passes
      although `(7, 1)` is not a grant. */
  lemma NameCheckWithSharedName(store: RoleStore)
    requires store.roleNames == map[1 := "Viewer", 2 := "Viewer"] && store.grants == [Grant(7, 2)]
    ensures store.UserHasRole(7, store.RoleNameById(1))
    ensures Grant(7, 1) !in store.grants
  {
    assert store.grants[0].userId == 7 && store.roleNames[store.grants[0].roleId] == "Viewer";
  }
}
