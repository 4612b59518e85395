# Role-grant engine of the BI reporting portal

This project models the part of the portal's backend that decides who may
change whose roles, applies those changes to the grant relation
`bi_user_role` and the audit trail `bi_user_role_trace`, and answers the
read queries over those relations. It also models the two pure
transformations that turn Power BI answers into a map from role name to
member list.

- **Schema** (`schema.dfy`). The row types of bi_user, bi_role,
  bi_user_role and bi_user_role_trace, and the caller identity that the
  authentication layer supplies. It also defines `Option` for JavaScript
  `null`/`undefined` and `Outcome` for an awaited call that may throw. The
  privileged role is named `"Asignador"`.
- **RoleLists** (`role_lists.dfy`). Membership tests and filters over a
  caller's `{role_id, role_name}` list.
- **RoleRepository** (`role_repository.dfy`). The class `RoleStore` holds
  the tables in place: `roleNames` (bi_role), `users` (bi_user), `grants`
  (bi_user_role, a sequence because duplicate rows are allowed) and `trace`
  (bi_user_role_trace, oldest first). Each SQL function of
  roleRepository.js is a method with `modifies this` or a `reads this`
  function. Database failures are inputs. A `TxFault` says which step of a
  transaction fails: the grant INSERT, the trace INSERT or the COMMIT. A
  failing getConnection or BEGIN ends like a failing grant INSERT (the call
  throws and no table has changed), so it has no value of its own. A
  `dbFails` flag says whether a single statement fails.
- **UserRepository** (`user_repository.dfy`). The read-only SELECTs, as
  functions over the table contents.
- **RoleService** (`role_service.dfy`). The guards are pure functions:
  `AssignDenial` for assign and `RemoveDenial` for remove. The service
  operations are methods that walk through the same checks and then call
  the store's methods. A `{success, error}` answer is a `Reply`.
- **JsObject** (`js_object.dfy`). The object that
  `rows.forEach(r => obj[key] = value)` builds, with its keys and its
  last-write-wins values proved.
- **RolesService** (`roles_service.dfy`). The join of TMSCHEMA_ROLES rows
  with TMSCHEMA_ROLE_MEMBERSHIP rows into a map from role name to members.
- **RolePowerBiService** (`role_powerbi_service.dfy`). The map built from
  the dataset's direct `/roles` answer, and the fallback lookup in the
  scanner result.
- **Scenarios** (`scenarios.dfy`). Concrete runs over a small store that
  show the guards and the source's gaps on named inputs.

Behaviours of the code that are modelled exactly as written:

- `editUserRole` never looks at the caller's roles. It removes the old
  grant without a trace row, and then writes the new grant with an EDIT row
  in a separate transaction. When that second step fails, the caller is
  told the edit failed, yet the old grant is already gone.
- `removeUserRoleA` runs its DELETE and its REMOVE trace insert as two
  independent statements. When the insert fails, the grant is gone and no
  trace row records it.
- `removeUserRoleA` checks the target's role by NAME and then deletes by
  role ID. The check and the DELETE agree when role names are unique and
  the role row exists with a non-empty name: passing the check then means
  the pair is a grant (`NameCheckFindsGrant`), and a grant passes the check
  (`NameCheckCoversGrant`). When two role ids share a name, the check passes
  for a pair that is not a grant (`NameCheckWithSharedName`). A grant whose
  role is named "" is refused, because the name resolves to `null`
  (`NameCheckMissesEmptyName`). A grant whose role row is missing is refused
  in the same way.

## Model

| member | source | states |
|---|---|---|
| RoleLists.UserHasRoleByName | src/services/roleService.js:10-12 | true exactly when some entry of the list carries the name |
| RoleLists.WithoutAssigner | src/services/roleService.js:127-129 | the result is a subsequence of the caller's roles (order kept); no entry is named "Asignador"; every other entry keeps its multiplicity |
| RoleLists.NamesOf | src/repositories/userRepository.js:36 | one name per role, same length, and a name occurs exactly when some role carries it |
| RoleService.AssignDenial | src/services/roleService.js:22-35 | "Asignador" as the target is refused even for an Asignador holder; a caller without "Asignador" is refused; an unknown role (null name) is always refused; past the first two checks, the refusal names the role; the assignment is let through exactly when all three checks pass |
| RoleService.AssignRole | src/services/roleService.js:21-40 | when a check fails, that refusal is returned and neither grants nor trace change; when all pass and the database is healthy, exactly one grant (userId, roleId) and one ASSIGN row by the caller are appended; a database fault rethrows with both tables unchanged; roles and users never change and the trace only grows |
| RoleService.GetSharedRoleUsers | src/services/roleService.js:49-56 | refused with the no-access reason exactly when the caller lacks "Asignador"; otherwise the peers of getUsersWithSharedRoles |
| RoleService.OnlyAssignerSeesNobody | src/services/roleService.js:49-56 | a caller whose only roles are "Asignador" is let in and sees an empty list |
| RoleService.GetUsersWithoutAssignedRoles | src/services/roleService.js:116-119 | always a success, listing exactly the users with no grant row |
| RoleService.EditUserRole | src/services/roleService.js:67-85 | a failing DELETE is caught as a failure with nothing changed; no old grant gives the "not removed" failure and adds nothing; otherwise every copy of the old grant goes, and with a healthy database the new grant and one EDIT row by the caller are added; a failing insert leaves the old grant removed and reports failure; the caller's roles are never consulted |
| RoleService.RemoveDenial | src/services/roleService.js:96-104 | refused when the caller lacks "Asignador"; a caller with "Asignador" and a target without the role gets the refusal naming that role; let through exactly when the caller holds "Asignador" and the target holds the role |
| RoleService.RemoveUserRoleA | src/services/roleService.js:95-110 | without "Asignador" the call is refused before any lookup and nothing changes; a target without the role is refused and nothing changes; otherwise every copy of the grant is deleted and one REMOVE row by the caller is appended; a failing DELETE rethrows with nothing changed; a failing trace insert rethrows with the grant already deleted |
| RoleRepository.Without | src/repositories/roleRepository.js:55 | the pair no longer occurs; every other row keeps its multiplicity; the length drops by the number of copies removed; a pair that was absent leaves the rows as they were |
| UserRepository.HoldsAssigner | src/repositories/userRepository.js:48-53 | true exactly when the user has a grant whose bi_role row is named "Asignador" |
| UserRepository.CommonRoles | src/repositories/userRepository.js:42-46 | the aggregated list holds exactly the (role_id, role_name) pairs of the user's grants whose name is in the filter list |
| UserRepository.Qualifies | src/repositories/userRepository.js:46-53 | the WHERE clause holds exactly when the user is not the caller, holds no "Asignador" grant, and has a grant whose role name is in the filter list |
| RoleRepository.CountNamedGrants | src/repositories/roleRepository.js:30-35 | the count is positive exactly when the user holds a grant whose role row carries the name |
| RoleRepository.RoleStore.RoleNameById | src/repositories/roleRepository.js:40-43 | the stored name when the row exists and the name is non-empty, otherwise null |
| RoleRepository.RoleStore.UserHasRole | src/repositories/roleRepository.js:29-38 | true exactly when the name is not null and some grant of the user points at a role row carrying that name |
| RoleRepository.RoleStore.InsertGrantWithTrace | src/repositories/roleRepository.js:5-23 | healthy: returns true and appends exactly one grant and one trace row; any failing step: rolls back to the state at BEGIN and rethrows |
| RoleRepository.RoleStore.AssignRoleToUser | src/repositories/roleRepository.js:3-27 | healthy: appends exactly one grant (userId, roleId) and one ASSIGN row by performedBy; on failure both tables are as before; roles and users unchanged |
| RoleRepository.RoleStore.AssignNewUserRole | src/repositories/roleRepository.js:70-96 | as AssignRoleToUser, with an EDIT row |
| RoleRepository.RoleStore.RemoveUserRole | src/repositories/roleRepository.js:51-67 | deletes every copy of (userId, roleId); returns true exactly when some row was deleted; the trace is untouched; a failing statement rethrows with nothing changed |
| RoleRepository.RoleStore.DeleteUserRole | src/repositories/roleRepository.js:106-108 | deletes every copy of the pair; leaves the trace unchanged |
| RoleRepository.RoleStore.LogRoleRemoval | src/repositories/roleRepository.js:116-122 | appends one REMOVE row; leaves the grants unchanged |
| RoleRepository.NameCheckFindsGrant | src/services/roleService.js:100-106 | with unique role names, the by-name check of removeUserRoleA passing means (userId, roleId) is a grant, so the DELETE by id removes a row |
| RoleRepository.NameCheckCoversGrant | src/services/roleService.js:100-106 | a grant whose role row exists with a non-empty name passes the by-name check |
| RoleRepository.NameCheckMissesEmptyName | src/repositories/roleRepository.js:40-43 | a grant whose role is named "" fails the check, because the name resolves to null, although the DELETE by id would remove it |
| RoleRepository.NameCheckWithSharedName | src/services/roleService.js:100-106 | with two role ids named alike, the check passes for role 1 although only role 2 is granted |
| UserRepository.GetUserByEmail | src/repositories/userRepository.js:3-6 | null exactly when no user has the email; otherwise a bi_user row with that email |
| UserRepository.GetUserRoles | src/repositories/userRepository.js:13-22 | a pair (role_id, role_name) is listed exactly when the user holds that role id and bi_role names it so; no more rows than grants |
| UserRepository.GetUserRolesCounts | src/repositories/userRepository.js:13-22 | each (role_id, role_name) pair occurs as often as the user holds that grant, when bi_role gives the role that name, and never otherwise |
| UserRepository.NamesToFilter | src/repositories/userRepository.js:34-36 | a name is kept exactly when the caller has a role of that name and it is not "Asignador" |
| UserRepository.RolesNamedIn | src/repositories/userRepository.js:46 | a subsequence of the roles, keeping exactly those whose name is in the filter list |
| UserRepository.RolesNamedInCounts | src/repositories/userRepository.js:46 | a role whose name is listed keeps every copy, and any other role has none |
| UserRepository.SharedRows | src/repositories/userRepository.js:40-55 | every row is a qualifying bi_user row (not the caller, no "Asignador", at least one matching role) with its matching roles, and every qualifying user has its row |
| UserRepository.GetUsersWithSharedRoles | src/repositories/userRepository.js:32-64 | empty when every caller role is "Asignador"; never the caller; never an "Asignador" holder; every row is a bi_user row with at least one role; the aggregated roles are exactly the user's roles shared with the caller other than "Asignador"; every other qualifying user is returned |
| UserRepository.SharedRowsDistinct | src/repositories/userRepository.js:54 | with distinct bi_user ids, the rows carry distinct user ids |
| UserRepository.SharedUsersDistinct | src/repositories/userRepository.js:41-54 | each user appears at most once in getUsersWithSharedRoles |
| UserRepository.GetUsersWithoutRoles | src/repositories/userRepository.js:70-79 | a subsequence of bi_user holding exactly the users with no grant row |
| JsObject.FromEntries | src/services/rolesService.js:44-49 | the object that the forEach fills, one assignment per pair in order; it has no contract of its own, and FromEntriesKeys, FromEntriesLast and FromEntriesOrigin state what it holds |
| JsObject.FromEntriesKeys | src/services/rolesService.js:44-49 | the object's keys are exactly the keys assigned |
| JsObject.FromEntriesLast | src/services/rolesService.js:44-49 | under a key sits the value of the last assignment with that key |
| JsObject.FromEntriesOrigin | src/services/rolesService.js:44-49 | every key of the object comes from an assignment that is the last with that key |
| RolesService.MembersOf | src/services/rolesService.js:46-48 | a name is listed exactly when some membership row with that role id carries it; an absent roleId on both sides counts as equal, as `undefined === undefined` does |
| RolesService.MembersOfConcat | src/services/rolesService.js:46-48 | the filter keeps input order: the members of a concatenation are those of each part, in turn |
| RolesService.RoleMemberMap | src/services/rolesService.js:40-51 | with no role rows the answer is exactly the single key "Sin roles RLS" with an empty list; otherwise its keys are exactly the role-row names (RoleMemberMapSpec states the values) |
| RolesService.RoleMemberMapSpec | src/services/rolesService.js:44-51 | the keys are exactly the role-row names, and each holds the members of the last role row with that name |
| RolesService.MissingIdsMatchAll | src/services/rolesService.js:46-48 | when no membership row carries roleId, a role row without roleId receives every member name |
| RolesService.UnmatchedMemberIgnored | src/services/rolesService.js:46-48 | a membership row matching no role row can be dropped without changing the answer |
| RolePowerBiService.DirectMembers | src/services/rolePowerBiService.js:30 | no members gives []; otherwise one label per member, the email when truthy and the identifier otherwise |
| RolePowerBiService.DirectMap | src/services/rolePowerBiService.js:28-31 | the keys of the direct map are exactly the role names (DirectMapSpec states the values) |
| RolePowerBiService.DirectMapSpec | src/services/rolePowerBiService.js:28-31 | the direct map's keys are the role names, each holding the labels of the last role with that name |
| RolePowerBiService.DirectAttempt | src/services/rolePowerBiService.js:27-37 | the direct map is used exactly when the answer arrived and is non-empty |
| RolePowerBiService.FindById | src/services/rolePowerBiService.js:66-70 | null exactly when no element has the id; otherwise the first element with it, and the first element with it is always the answer |
| RolePowerBiService.TruthyEmails | src/services/rolePowerBiService.js:82 | only truthy emails, and exactly the truthy emails of the users |
| RolePowerBiService.TruthyEmailsCounts | src/services/rolePowerBiService.js:82 | each truthy email occurs as often as the users carry it, and a falsy one never |
| RolePowerBiService.DatasetRoleMap | src/services/rolePowerBiService.js:72-88 | roles present: a map; no roles but users: the single key "Acceso General" with the truthy emails; an error exactly when there are neither roles nor users |
| RolePowerBiService.ScanRolesSpec | src/services/rolePowerBiService.js:74-77 | with roles, the keys are the role names, and each name holds one entry per member of the last role with that name, its memberName, in order |
| RolePowerBiService.ScanLookup | src/services/rolePowerBiService.js:66-88 | "workspace not found" exactly when no workspace has the group id; "dataset not found" exactly when the first such workspace has no dataset with the id; when both are found, the map built from the first matching dataset of the first matching workspace |
| RolePowerBiService.RolesFromPowerBI | src/services/rolePowerBiService.js:27-88 | a non-empty direct answer gives the direct map; otherwise the result of the scan lookup |
| Scenarios.AssignRoleNotHeld | src/services/roleService.js:33-35 | an Asignador holder without Editor cannot hand out Editor; nothing is written |
| Scenarios.AssignRoleHeld | src/services/roleService.js:21-40 | an Asignador holder with Editor gives it: one grant and one ASSIGN row by the caller |
| Scenarios.AssignAssignerRefused | src/services/roleService.js:22-25 | "Asignador" cannot be handed out, even by its holder; no grant and no trace row is written |
| Scenarios.RemoveRoleNotHeld | src/services/roleService.js:100-104 | removing a role the target lacks is refused and nothing is written |
| Scenarios.EditReplacesRole | src/services/roleService.js:67-79 | the old grant is replaced by the new one with one EDIT row |
| Scenarios.EditWithoutAnyRole | src/services/roleService.js:67-79 | a caller with no role at all still edits, even granting "Asignador", and the EDIT row names that caller |
| Scenarios.EditHalfApplied | src/services/roleService.js:70-83 | the failing EDIT transaction leaves the user with neither the old nor the new role, and no trace row |
| Scenarios.RemoveUntraced | src/services/roleService.js:106-107 | a failing REMOVE insert leaves both duplicate grants deleted and no trace row |
| Scenarios.SharedRolesExample | src/repositories/userRepository.js:32-64 | three users: only the peer without "Asignador" is listed, with only the role shared with the caller |

## Left out

- HTTP, token acquisition and the scanner's polling loop in the Power BI services are not modelled. They are network I/O and timing. The direct `/roles` answer and the scan result are inputs, and a failed or thrown direct request is an absent answer.
- The scanner's "Failed" status error is not modelled, because it comes from the polling loop.
- RolePowerBiService.ScanLookup: errors that the code throws are returned as `Err` values.
- RoleService.AssignDenial: assumes every session role carries a `role_name`. A session role whose name is `null` would match the `null` that an unknown role id resolves to, so the third check would let that assignment through; the model has no such role, because role names are strings.
- RoleLists.UserHasRoleByName: compares names as strings only, so a missing `role_name` on either side is not modelled.
- RolePowerBiService.DatasetRoleMap: a scanned role without `members` would throw a TypeError at `role.members.map`, and so would a workspace without `datasets` at `ws.datasets.find`. Both arrays are modelled as always present, so those throws are not modelled; likewise a direct role without `name` would be stored under the key "undefined", and role names are modelled as present strings.
- RolesService.RoleMemberMap: a role row without `name` would be stored under the key "undefined"; role names are modelled as present strings.
- Express routes, controllers and app wiring are not modelled. The update endpoint's check for missing ids is not a precondition of `EditUserRole`, because the service itself accepts any ids.
- `getAllUsersService` is imported by the role controller; the file that defines it is not part of this model.
- Read queries are total: a SELECT that fails is not modelled, because the service code never catches such a failure differently from a crash.
- The id and timestamp columns of bi_user_role_trace are not modelled, because nothing in the core reads them.
- MySQL collation is not modelled: name and email comparisons are exact, whereas MySQL may compare them case-insensitively.
- UserRepository.GetUsersWithSharedRoles: the order of the rows and of each `JSON_ARRAYAGG` list is the input order here, while MySQL leaves both unspecified.
- UserRepository.GetUserByEmail: states that a matching row is returned, not which one, because `SELECT *` without `ORDER BY` fixes no order.
- Concurrent requests are not modelled: the duplicate-assign race appears only as duplicate rows being allowed in `grants`.
- Connection-pool acquire and release, and `console` logging, are not modelled, because they change no modelled state.
- JavaScript prototype keys such as `__proto__` used as a role name are not modelled: every string is an ordinary key of the built object.
