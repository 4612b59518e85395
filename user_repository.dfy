/** The read-only queries of userRepository.js, as functions over the tables'
    contents: `users` is bi_user, `roleNames` is bi_role and `grants` is
    bi_user_role. */
module UserRepository {
  import opened Schema
  import opened RoleLists

  /** One row of getUsersWithSharedRoles: the user and the aggregated roles. */
  datatype SharedUser = SharedUser(userId: int, name: string, email: string, roles: seq<RoleRef>)

  /** `getUserByEmail`: the first bi_user row with that email, or `null`. */
  function GetUserByEmail(users: seq<User>, email: string): (r: Option<User>)
    ensures r.None? <==> forall u :: u in users ==> u.email != email
    ensures r.Some? ==> r.value in users && r.value.email == email
  {
    if |users| == 0 then None
    else if users[0].email == email then Some(users[0])
    else GetUserByEmail(users[1..], email)
  }

  /** `getUserRoles`: one `{role_id, role_name}` per grant of the user whose
      role id has a bi_role row (the inner JOIN drops dangling grants). */
  function GetUserRoles(roleNames: map<int, string>, grants: seq<Grant>, userId: int): (r: seq<RoleRef>)
    ensures |r| <= |grants|
    ensures forall x :: x in r <==> Grant(userId, x.roleId) in grants && x.roleId in roleNames
                                    && roleNames[x.roleId] == x.roleName
  {
    if |grants| == 0 then []
    else
      var g := grants[0];
      assert grants == [g] + grants[1..];
      (if g.userId == userId && g.roleId in roleNames then [RoleRef(g.roleId, roleNames[g.roleId])] else [])
      + GetUserRoles(roleNames, grants[1..], userId)
  }

  /** The JOIN yields one row per copy of a grant: duplicate grants give
      duplicate role rows. */
  lemma {:induction false} GetUserRolesCounts(roleNames: map<int, string>, grants: seq<Grant>, userId: int, x: RoleRef)
    ensures multiset(GetUserRoles(roleNames, grants, userId))[x]
            == if x.roleId in roleNames && roleNames[x.roleId] == x.roleName
               then multiset(grants)[Grant(userId, x.roleId)] else 0
  {
    if |grants| > 0 {
      assert grants == [grants[0]] + grants[1..];
      GetUserRolesCounts(roleNames, grants[1..], userId, x);
    }
  }

  /** The sub-query of getUsersWithSharedRoles: the user holds a grant whose
      role is named "Asignador". */
  predicate HoldsAssigner(roleNames: map<int, string>, grants: seq<Grant>, userId: int)
    ensures HoldsAssigner(roleNames, grants, userId) <==>
              exists id :: Grant(userId, id) in grants && id in roleNames && roleNames[id] == Assigner
  {
    var roles := GetUserRoles(roleNames, grants, userId);
    assert (exists id :: Grant(userId, id) in grants && id in roleNames && roleNames[id] == Assigner)
           ==> UserHasRoleByName(roles, Assigner) by {
      if exists id :: Grant(userId, id) in grants && id in roleNames && roleNames[id] == Assigner {
        var id :| Grant(userId, id) in grants && id in roleNames && roleNames[id] == Assigner;
        assert RoleRef(id, Assigner) in roles;
      }
    }
    UserHasRoleByName(roles, Assigner)
  }

  /** `rolesToFilter`: the names of the caller's roles other than "Asignador". */
  function NamesToFilter(userRoles: seq<RoleRef>): (names: seq<string>)
    ensures forall n :: n in names <==> n != Assigner && UserHasRoleByName(userRoles, n)
  {
    var kept := WithoutAssigner(userRoles);
    forall n ensures n in NamesOf(kept) <==> n != Assigner && UserHasRoleByName(userRoles, n) {
      if n != Assigner && UserHasRoleByName(userRoles, n) {
        var i :| 0 <= i < |userRoles| && userRoles[i].roleName == n;
        assert multiset(userRoles)[userRoles[i]] > 0;
        assert userRoles[i] in kept;
      }
      if n in NamesOf(kept) {
        var i :| 0 <= i < |kept| && kept[i].roleName == n;
        assert kept[i] in kept;
        assert multiset(userRoles)[kept[i]] > 0;
        assert kept[i] in userRoles;
      }
    }
    NamesOf(kept)
  }

  /** `WHERE r.role_name IN (?)`: the entries whose name is in the list, in order. */
  function RolesNamedIn(roles: seq<RoleRef>, names: seq<string>): (r: seq<RoleRef>)
    ensures IsSubsequence(r, roles)
    ensures forall x :: x in r <==> x in roles && x.roleName in names
  {
    if |roles| == 0 then []
    else
      assert roles == [roles[0]] + roles[1..];
      if roles[0].roleName in names then [roles[0]] + RolesNamedIn(roles[1..], names)
      else RolesNamedIn(roles[1..], names)
  }

  /** The `IN` filter keeps every copy of a role whose name is listed. */
  lemma {:induction false} RolesNamedInCounts(roles: seq<RoleRef>, names: seq<string>, x: RoleRef)
    ensures multiset(RolesNamedIn(roles, names))[x] == if x.roleName in names then multiset(roles)[x] else 0
  {
    if |roles| > 0 {
      assert roles == [roles[0]] + roles[1..];
      RolesNamedInCounts(roles[1..], names, x);
    }
  }

  /** The roles of `userId` that the JOIN keeps once the `IN` filter has run:
      `JSON_ARRAYAGG` aggregates exactly these. */
  function CommonRoles(roleNames: map<int, string>, grants: seq<Grant>, userId: int, names: seq<string>): (r: seq<RoleRef>)
    ensures forall x :: x in r <==> Grant(userId, x.roleId) in grants && x.roleId in roleNames
                                    && roleNames[x.roleId] == x.roleName && x.roleName in names
  {
    RolesNamedIn(GetUserRoles(roleNames, grants, userId), names)
  }

  /** The WHERE clause, per user: not the caller, not an "Asignador" holder,
      and at least one joined row survives the name filter. */
  predicate Qualifies(u: User, callerId: int, names: seq<string>, roleNames: map<int, string>, grants: seq<Grant>)
    ensures Qualifies(u, callerId, names, roleNames, grants) <==>
              u.userId != callerId && !HoldsAssigner(roleNames, grants, u.userId)
              && exists id :: Grant(u.userId, id) in grants && id in roleNames && roleNames[id] in names
  {
    var common := CommonRoles(roleNames, grants, u.userId, names);
    assert |common| > 0 <==> exists id :: Grant(u.userId, id) in grants && id in roleNames && roleNames[id] in names by {
      if exists id :: Grant(u.userId, id) in grants && id in roleNames && roleNames[id] in names {
        var id :| Grant(u.userId, id) in grants && id in roleNames && roleNames[id] in names;
        assert RoleRef(id, roleNames[id]) in common;
      }
      if |common| > 0 {
        assert common[0] in common;
      }
    }
    u.userId != callerId && !HoldsAssigner(roleNames, grants, u.userId) && |common| > 0
  }

  function SharedRow(u: User, names: seq<string>, roleNames: map<int, string>, grants: seq<Grant>): SharedUser
  {
    SharedUser(u.userId, u.name, u.email, CommonRoles(roleNames, grants, u.userId, names))
  }

  /** `GROUP BY u.user_id` over bi_user: one row per qualifying user. */
  function SharedRows(users: seq<User>, callerId: int, names: seq<string>, roleNames: map<int, string>, grants: seq<Grant>)
    : (r: seq<SharedUser>)
    ensures |r| <= |users|
    ensures forall x :: x in r ==> exists i :: 0 <= i < |users| && x == SharedRow(users[i], names, roleNames, grants)
                                              && Qualifies(users[i], callerId, names, roleNames, grants)
    ensures forall i :: 0 <= i < |users| && Qualifies(users[i], callerId, names, roleNames, grants)
                        ==> SharedRow(users[i], names, roleNames, grants) in r
  {
    if |users| == 0 then []
    else
      var rest := SharedRows(users[1..], callerId, names, roleNames, grants);
      assert forall x :: x in rest ==> exists i :: 1 <= i < |users| && x == SharedRow(users[i], names, roleNames, grants)
                                                   && Qualifies(users[i], callerId, names, roleNames, grants) by {
        forall x | x in rest
          ensures exists i :: 1 <= i < |users| && x == SharedRow(users[i], names, roleNames, grants)
                              && Qualifies(users[i], callerId, names, roleNames, grants)
        {
          var j :| 0 <= j < |users[1..]| && x == SharedRow(users[1..][j], names, roleNames, grants)
                   && Qualifies(users[1..][j], callerId, names, roleNames, grants);
          assert users[1..][j] == users[j + 1];
        }
      }
      assert forall i :: 1 <= i < |users| ==> users[i] == users[1..][i - 1];
      (if Qualifies(users[0], callerId, names, roleNames, grants) then [SharedRow(users[0], names, roleNames, grants)] else [])
      + rest
  }

  /** `getUsersWithSharedRoles(userId, userRoles)`. */
  function GetUsersWithSharedRoles(callerId: int, userRoles: seq<RoleRef>, users: seq<User>,
                                   roleNames: map<int, string>, grants: seq<Grant>): (r: seq<SharedUser>)
    // no role other than "Asignador": the query is not run
    ensures (forall i :: 0 <= i < |userRoles| ==> userRoles[i].roleName == Assigner) ==> r == []
    // never the caller, never an "Asignador" holder, always a bi_user row
    ensures forall x :: x in r ==> x.userId != callerId
    ensures forall x :: x in r ==> !HoldsAssigner(roleNames, grants, x.userId)
    ensures forall x :: x in r ==> User(x.userId, x.name, x.email) in users
    // the aggregated roles are exactly the user's roles shared with the caller, and there is one
    ensures forall x :: x in r ==> |x.roles| > 0
    ensures forall x, rr :: x in r ==>
              (rr in x.roles <==>
                 rr in GetUserRoles(roleNames, grants, x.userId) && rr.roleName != Assigner
                 && UserHasRoleByName(userRoles, rr.roleName))
    // every other qualifying user is returned
    ensures forall u, rr :: u in users && u.userId != callerId && !HoldsAssigner(roleNames, grants, u.userId)
                            && rr in GetUserRoles(roleNames, grants, u.userId)
                            && rr.roleName != Assigner && UserHasRoleByName(userRoles, rr.roleName)
                            ==> SharedRow(u, NamesToFilter(userRoles), roleNames, grants) in r
  {
    var names := NamesToFilter(userRoles);
    if |names| == 0 then []
    else
      var r := SharedRows(users, callerId, names, roleNames, grants);
      assert forall u, rr :: u in users && u.userId != callerId && !HoldsAssigner(roleNames, grants, u.userId)
                             && rr in GetUserRoles(roleNames, grants, u.userId)
                             && rr.roleName != Assigner && UserHasRoleByName(userRoles, rr.roleName)
                             ==> SharedRow(u, names, roleNames, grants) in r by {
        forall u, rr | u in users && u.userId != callerId && !HoldsAssigner(roleNames, grants, u.userId)
                       && rr in GetUserRoles(roleNames, grants, u.userId)
                       && rr.roleName != Assigner && UserHasRoleByName(userRoles, rr.roleName)
          ensures SharedRow(u, names, roleNames, grants) in r
        {
          assert rr in CommonRoles(roleNames, grants, u.userId, names);
          var i :| 0 <= i < |users| && users[i] == u;
          assert Qualifies(users[i], callerId, names, roleNames, grants);
        }
      }
      r
  }

  ghost predicate DistinctIds(rows: seq<SharedUser>)
  {
    forall i, j :: 0 <= i < j < |rows| ==> rows[i].userId != rows[j].userId
  }

  /** The rows of getUsersWithSharedRoles carry distinct user ids, as
      `GROUP BY u.user_id` over the primary key of bi_user promises. */
  lemma {:induction false} SharedRowsDistinct(users: seq<User>, callerId: int, names: seq<string>,
                                              roleNames: map<int, string>, grants: seq<Grant>)
    requires UserIdsUnique(users)
    ensures DistinctIds(SharedRows(users, callerId, names, roleNames, grants))
  {
    if |users| > 0 {
      var tail := users[1..];
      assert UserIdsUnique(tail) by {
        forall i, j | 0 <= i < j < |tail| ensures tail[i].userId != tail[j].userId {
          assert tail[i] == users[i + 1] && tail[j] == users[j + 1];
        }
      }
      SharedRowsDistinct(tail, callerId, names, roleNames, grants);
      var rest := SharedRows(tail, callerId, names, roleNames, grants);
      var head := if Qualifies(users[0], callerId, names, roleNames, grants)
                  then [SharedRow(users[0], names, roleNames, grants)] else [];
      assert SharedRows(users, callerId, names, roleNames, grants) == head + rest;
      forall x, y | x in head && y in rest ensures x.userId != y.userId {
        var k :| 0 <= k < |tail| && y == SharedRow(tail[k], names, roleNames, grants)
                 && Qualifies(tail[k], callerId, names, roleNames, grants);
        assert tail[k] == users[k + 1];
      }
      DistinctPrepend(head, rest);
    }
  }

  lemma DistinctPrepend(head: seq<SharedUser>, rest: seq<SharedUser>)
    requires |head| <= 1 && DistinctIds(rest)
    requires forall x, y :: x in head && y in rest ==> x.userId != y.userId
    ensures DistinctIds(head + rest)
  {
    var r := head + rest;
    forall i, j | 0 <= i < j < |r| ensures r[i].userId != r[j].userId {
      if i < |head| {
        assert r[i] in head && r[j] == rest[j - |head|] && r[j] in rest;
      } else {
        assert r[i] == rest[i - |head|] && r[j] == rest[j - |head|];
      }
    }
  }

  /** Each user appears at most once in getUsersWithSharedRoles. */
  lemma SharedUsersDistinct(callerId: int, userRoles: seq<RoleRef>, users: seq<User>,
                            roleNames: map<int, string>, grants: seq<Grant>)
    requires UserIdsUnique(users)
    ensures DistinctIds(GetUsersWithSharedRoles(callerId, userRoles, users, roleNames, grants))
  {
    var names := NamesToFilter(userRoles);
    SharedRowsDistinct(users, callerId, names, roleNames, grants);
    if |names| > 0 {
      assert GetUsersWithSharedRoles(callerId, userRoles, users, roleNames, grants)
          == SharedRows(users, callerId, names, roleNames, grants);
    }
  }

  /** `getUsersWithoutRoles`: `LEFT JOIN bi_user_role ... WHERE ur.role_id IS NULL`. */
  function GetUsersWithoutRoles(users: seq<User>, grants: seq<Grant>): (r: seq<User>)
    ensures IsSubsequence(r, users)
    ensures forall u :: u in r <==> u in users && forall g :: g in grants ==> g.userId != u.userId
  {
    if |users| == 0 then []
    else
      assert users == [users[0]] + users[1..];
      if forall g :: g in grants ==> g.userId != users[0].userId
      then [users[0]] + GetUsersWithoutRoles(users[1..], grants)
      else GetUsersWithoutRoles(users[1..], grants)
  }
}
