/** Row types of the portal's relational store (tables bi_user, bi_role,
    bi_user_role and bi_user_role_trace), the caller identity injected by the
    authentication layer, and the small wrappers used to model JavaScript's
    `null` and thrown exceptions. */
module Schema {

  /** The sentinel privileged role. */
  const Assigner: string := "Asignador"

  /** A JavaScript value that may be `null`/`undefined` (None). */
  datatype Option<+T> = None | Some(value: T)

  /** How an awaited call ends: it returns a value, or it throws. */
  datatype Outcome<+T> = Returned(value: T) | Threw

  /** A row of bi_user. */
  datatype User = User(userId: int, name: string, email: string)

  /** A `{role_id, role_name}` object, as carried in the session and returned by queries. */
  datatype RoleRef = RoleRef(roleId: int, roleName: string)

  /** A row of bi_user_role: the user currently holds the role. No uniqueness
      constraint exists, so the same pair may occur several times. */
  datatype Grant = Grant(userId: int, roleId: int)

  datatype Action = Assign | Edit | Remove

  /** A row of bi_user_role_trace (its auto-generated id and timestamp are not modelled). */
  datatype TraceEntry = TraceEntry(userId: int, roleId: int, action: Action, performedBy: int)

  /** The authenticated caller: `{userId, roles: [{role_id, role_name}, ...]}`. */
  datatype CurrentUser = CurrentUser(userId: int, roles: seq<RoleRef>)

  /** The primary key of bi_user: no two rows share a user id. */
  ghost predicate UserIdsUnique(users: seq<User>)
  {
    forall i, j :: 0 <= i < j < |users| ==> users[i].userId != users[j].userId
  }
}
