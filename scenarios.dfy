/** Concrete runs of the service over a small store: roles 1 "Asignador",
    2 "Viewer", 3 "Editor"; user A is 10 and user B is 20. Each method builds
    its own store and states what the answer and the tables are afterwards;
    the proofs use only the contracts of RoleService and RoleRepository. */
module Scenarios {
  import opened Schema
  import opened RoleRepository
  import opened RoleService
  import opened RoleLists
  import opened UserRepository

  const Roles: map<int, string> := map[1 := "Asignador", 2 := "Viewer", 3 := "Editor"]
  const People: seq<User> := [User(10, "A", "a@example.org"), User(20, "B", "b@example.org")]
  const AssignerRef: RoleRef := RoleRef(1, "Asignador")
  const ViewerRef: RoleRef := RoleRef(2, "Viewer")
  const EditorRef: RoleRef := RoleRef(3, "Editor")

  /** A holds Asignador and Viewer and tries to give B Editor: refused, nothing written. */
  method AssignRoleNotHeld() returns (r: Outcome<Reply<()>>, grants: seq<Grant>, trace: seq<TraceEntry>)
    ensures r == Returned(Failure(CallerLacksRole(Some("Editor"))))
    ensures grants == [Grant(10, 1), Grant(10, 2)] && trace == []
  {
    var store := new RoleStore(Roles, People, [Grant(10, 1), Grant(10, 2)], []);
    r := AssignRole(store, CurrentUser(10, [AssignerRef, ViewerRef]), 20, 3, Healthy);
    grants, trace := store.grants, store.trace;
  }

  /** A holds Asignador and Editor and gives B Editor: one grant, one ASSIGN row by A. */
  method AssignRoleHeld() returns (r: Outcome<Reply<()>>, grants: seq<Grant>, trace: seq<TraceEntry>)
    ensures r == Returned(Success(()))
    ensures grants == [Grant(20, 3)] && trace == [TraceEntry(20, 3, Assign, 10)]
  {
    var store := new RoleStore(Roles, People, [], []);
    var roles := [AssignerRef, EditorRef];
    assert roles[0].roleName == Assigner && roles[1].roleName == "Editor";
    r := AssignRole(store, CurrentUser(10, roles), 20, 3, Healthy);
    grants, trace := store.grants, store.trace;
  }

  /** Even an Asignador holder cannot hand out Asignador. */
  method AssignAssignerRefused() returns (r: Outcome<Reply<()>>, grants: seq<Grant>, trace: seq<TraceEntry>)
    ensures r == Returned(Failure(AssignerNotDelegable)) && grants == [] && trace == []
  {
    var store := new RoleStore(Roles, People, [], []);
    r := AssignRole(store, CurrentUser(10, [AssignerRef]), 20, 1, Healthy);
    grants, trace := store.grants, store.trace;
  }

  /** A holds only Asignador and removes Viewer from B, who lacks it: refused, nothing written. */
  method RemoveRoleNotHeld() returns (r: Outcome<Reply<()>>, grants: seq<Grant>, trace: seq<TraceEntry>)
    ensures r == Returned(Failure(TargetLacksRole(Some("Viewer"))))
    ensures grants == [Grant(20, 3)] && trace == []
  {
    var store := new RoleStore(Roles, People, [Grant(20, 3)], []);
    r := RemoveUserRoleA(store, CurrentUser(10, [AssignerRef]), 20, 2, false, false);
    grants, trace := store.grants, store.trace;
  }

  /** A replaces B's Viewer with Editor: the old grant goes, the new one comes, one EDIT row. */
  method EditReplacesRole() returns (r: Reply<()>, grants: seq<Grant>, trace: seq<TraceEntry>)
    ensures r == Success(())
    ensures grants == [Grant(20, 3)] && trace == [TraceEntry(20, 3, Edit, 10)]
  {
    var store := new RoleStore(Roles, People, [Grant(20, 2)], []);
    r := EditUserRole(store, CurrentUser(10, [AssignerRef, EditorRef]), 20, 2, 3, false, Healthy);
    grants, trace := store.grants, store.trace;
  }

  /** A caller with no role at all edits B's roles all the same, even to Asignador. */
  method EditWithoutAnyRole() returns (r: Reply<()>, grants: seq<Grant>, trace: seq<TraceEntry>)
    ensures r == Success(()) && grants == [Grant(20, 1)] && trace == [TraceEntry(20, 1, Edit, 30)]
  {
    var store := new RoleStore(Roles, People, [Grant(20, 2)], []);
    r := EditUserRole(store, CurrentUser(30, []), 20, 2, 1, false, Healthy);
    grants, trace := store.grants, store.trace;
  }

  /** When the insert of the new grant fails, the caller hears "failed" and B
      has lost the old role. */
  method EditHalfApplied() returns (r: Reply<()>, grants: seq<Grant>, trace: seq<TraceEntry>)
    ensures r == Failure(EditFailed) && grants == [] && trace == []
  {
    var store := new RoleStore(Roles, People, [Grant(20, 2)], []);
    r := EditUserRole(store, CurrentUser(10, [AssignerRef]), 20, 2, 3, false, TraceInsertFails);
    grants, trace := store.grants, store.trace;
  }

  /** When the REMOVE row cannot be written, the grant is already gone and untraced. */
  method RemoveUntraced() returns (r: Outcome<Reply<()>>, grants: seq<Grant>, trace: seq<TraceEntry>)
    ensures r == Threw && grants == [] && trace == []
  {
    var store := new RoleStore(Roles, People, [Grant(20, 2), Grant(20, 2)], []);
    r := RemoveUserRoleA(store, CurrentUser(10, [AssignerRef]), 20, 2, false, true);
    grants, trace := store.grants, store.trace;
  }

  const ExampleGrants: seq<Grant> := [Grant(20, 2), Grant(20, 3), Grant(30, 1), Grant(30, 2)]

  lemma ExampleFilterNames()
    ensures NamesToFilter([AssignerRef, ViewerRef]) == ["Viewer"]
  {
    var callerRoles := [AssignerRef, ViewerRef];
    assert callerRoles[1..] == [ViewerRef] && [ViewerRef][1..] == [];
    assert WithoutAssigner(callerRoles) == [ViewerRef];
  }

  lemma ExampleTailRoles()
    ensures GetUserRoles(Roles, ExampleGrants[2..], 20) == []
    ensures GetUserRoles(Roles, ExampleGrants[2..], 30) == [AssignerRef, ViewerRef]
  {
    var g := ExampleGrants[2..];
    assert g == [Grant(30, 1), Grant(30, 2)];
    assert g[1..] == [Grant(30, 2)] && g[1..][1..] == [];
  }

  lemma ExampleUserRoles()
    ensures GetUserRoles(Roles, ExampleGrants, 20) == [ViewerRef, EditorRef]
    ensures GetUserRoles(Roles, ExampleGrants, 30) == [AssignerRef, ViewerRef]
  {
    ExampleTailRoles();
    var g := ExampleGrants;
    assert g[1..][1..] == g[2..];
  }

  lemma ExampleCommonRoles()
    ensures CommonRoles(Roles, ExampleGrants, 20, ["Viewer"]) == [ViewerRef]
  {
    ExampleUserRoles();
    var names := ["Viewer"];
    var tail := [EditorRef];
    assert "Editor" != "Viewer" && "Editor" !in names;
    assert tail[1..] == [];
    assert RolesNamedIn(tail, names) == [];
    var roles := [ViewerRef, EditorRef];
    assert roles[1..] == tail;
    assert RolesNamedIn(roles, names) == [ViewerRef];
  }

  lemma ExampleAssignerHolders()
    ensures !HoldsAssigner(Roles, ExampleGrants, 20)
    ensures HoldsAssigner(Roles, ExampleGrants, 30)
  {
    ExampleUserRoles();
    assert [AssignerRef, ViewerRef][0].roleName == Assigner;
  }

  lemma ExampleRowsOfC()
    ensures SharedRows([User(30, "C", "c")], 10, ["Viewer"], Roles, ExampleGrants) == []
  {
    var c := User(30, "C", "c");
    assert Grant(30, 1) in ExampleGrants && Roles[1] == Assigner;
    assert HoldsAssigner(Roles, ExampleGrants, c.userId);
    assert !Qualifies(c, 10, ["Viewer"], Roles, ExampleGrants);
    var users := [c];
    assert users[0] == c && users[1..] == [];
  }

  lemma ExampleRowsOfBC()
    ensures SharedRows([User(20, "B", "b"), User(30, "C", "c")], 10, ["Viewer"], Roles, ExampleGrants)
            == [SharedUser(20, "B", "b", [ViewerRef])]
  {
    ExampleRowsOfC();
    ExampleCommonRoles();
    ExampleAssignerHolders();
    var users := [User(20, "B", "b"), User(30, "C", "c")];
    assert users[1..] == [User(30, "C", "c")];
    assert Qualifies(users[0], 10, ["Viewer"], Roles, ExampleGrants);
  }

  /** A holds Asignador and Viewer; B holds Viewer and Editor; C holds
      Asignador and Viewer. A's peers are B alone, listed with Viewer only:
      C is an Asignador holder, and Editor is not shared with A. */
  lemma SharedRolesExample()
    ensures GetUsersWithSharedRoles(10, [AssignerRef, ViewerRef],
                                    [User(10, "A", "a"), User(20, "B", "b"), User(30, "C", "c")], Roles, ExampleGrants)
            == [SharedUser(20, "B", "b", [ViewerRef])]
  {
    ExampleFilterNames();
    ExampleRowsOfBC();
    var users := [User(10, "A", "a"), User(20, "B", "b"), User(30, "C", "c")];
    assert users[1..] == [User(20, "B", "b"), User(30, "C", "c")];
    assert !Qualifies(users[0], 10, ["Viewer"], Roles, ExampleGrants);
  }
}
