/** The pure part of rolePowerBiService.getRolesFromPowerBI: the object of
    role name to members built from the dataset's /roles answer, and, when
    that answer is empty or missing, the lookup in the scanner's result. The
    member lists hold JavaScript values that may be `undefined`, so their
    elements are `Option<string>`. */
module RolePowerBiService {
  import opened Schema
  import opened JsObject

  type RoleMap = map<string, seq<Option<string>>>

  /** A value JavaScript treats as true: present and not the empty string. */
  predicate Truthy(v: Option<string>)
  {
    v.Some? && v.value != ""
  }

  // ---- the dataset's /roles answer ----

  datatype DirectMember = DirectMember(emailAddress: Option<string>, identifier: Option<string>)
  datatype DirectRole = DirectRole(name: string, members: Option<seq<DirectMember>>)

  /** `m.emailAddress || m.identifier`. */
  function MemberLabel(m: DirectMember): Option<string>
  {
    if Truthy(m.emailAddress) then m.emailAddress else m.identifier
  }

  /** `r.members?.map(m => m.emailAddress || m.identifier) || []`. */
  function DirectMembers(r: DirectRole): (labels: seq<Option<string>>)
    ensures r.members.None? ==> labels == []
    ensures r.members.Some? ==> |labels| == |r.members.value|
    ensures r.members.Some? ==> forall k :: 0 <= k < |labels| ==>
              (Truthy(r.members.value[k].emailAddress) ==> labels[k] == r.members.value[k].emailAddress)
              && (!Truthy(r.members.value[k].emailAddress) ==> labels[k] == r.members.value[k].identifier)
  {
    match r.members
    case None => []
    case Some(ms) => seq(|ms|, k requires 0 <= k < |ms| => MemberLabel(ms[k]))
  }

  /** The `directMap` the forEach fills. */
  function DirectMap(roles: seq<DirectRole>): (m: RoleMap)
    ensures m.Keys == set k | 0 <= k < |roles| :: roles[k].name
  {
    var e := seq(|roles|, i requires 0 <= i < |roles| => (roles[i].name, DirectMembers(roles[i])));
    FromEntriesKeys(e);
    var written := set k | 0 <= k < |e| :: e[k].0;
    var names := set k | 0 <= k < |roles| :: roles[k].name;
    assert written == names by {
      forall n | n in names ensures n in written {
        var k :| 0 <= k < |roles| && roles[k].name == n;
        assert e[k].0 == n;
      }
    }
    FromEntries(e)
  }

  /** The keys of the direct map are the role names, and each name holds the
      labels of the last role carrying it. */
  lemma DirectMapSpec(roles: seq<DirectRole>, i: int)
    requires 0 <= i < |roles|
    requires forall j :: i < j < |roles| ==> roles[j].name != roles[i].name
    ensures DirectMap(roles).Keys == set k | 0 <= k < |roles| :: roles[k].name
    ensures DirectMap(roles)[roles[i].name] == DirectMembers(roles[i])
  {
    var e := seq(|roles|, i requires 0 <= i < |roles| => (roles[i].name, DirectMembers(roles[i])));
    assert IsLastKey(e, i);
    FromEntriesLast(e, i);
  }

  /** `if (roles?.length) return directMap`: the direct answer is used only
      when it arrived (`None` also stands for a request that threw) and is not
      empty. */
  function DirectAttempt(response: Option<seq<DirectRole>>): (r: Option<RoleMap>)
    ensures r.Some? <==> response.Some? && |response.value| > 0
    ensures r.Some? ==> r.value == DirectMap(response.value)
  {
    if response.Some? && |response.value| > 0 then Some(DirectMap(response.value)) else None
  }

  // ---- the scanner's result ----

  datatype ScanMember = ScanMember(memberName: Option<string>)
  datatype ScanRole = ScanRole(name: string, members: seq<ScanMember>)
  datatype ScanUser = ScanUser(emailAddress: Option<string>)
  datatype Dataset = Dataset(id: string, roles: Option<seq<ScanRole>>, users: Option<seq<ScanUser>>)
  datatype Workspace = Workspace(id: string, datasets: seq<Dataset>)

  /** The errors thrown on the scan path. */
  datatype ScanError = WorkspaceNotFound | DatasetNotFound | NoRolesNorUsers

  datatype Result<+T> = Ok(value: T) | Err(error: ScanError)

  const GeneralAccessKey: string := "Acceso General"

  /** `xs.find(x => idOf(x) === id)`: the first element with that id. */
  function FindById<T>(xs: seq<T>, idOf: T -> string, id: string): (r: Option<T>)
    ensures r.None? <==> forall i :: 0 <= i < |xs| ==> idOf(xs[i]) != id
    ensures r.Some? ==> exists i :: 0 <= i < |xs| && xs[i] == r.value && idOf(xs[i]) == id
                                    && forall j :: 0 <= j < i ==> idOf(xs[j]) != id
    ensures forall i :: 0 <= i < |xs| && idOf(xs[i]) == id && (forall j :: 0 <= j < i ==> idOf(xs[j]) != id)
                        ==> r == Some(xs[i])
  {
    if |xs| == 0 then None
    else if idOf(xs[0]) == id then Some(xs[0])
    else
      var r := FindById(xs[1..], idOf, id);
      assert forall i :: 1 <= i < |xs| ==> xs[i] == xs[1..][i - 1];
      assert r.Some? ==> exists i :: 1 <= i < |xs| && xs[i] == r.value && idOf(xs[i]) == id
                                     && forall j :: 0 <= j < i ==> idOf(xs[j]) != id by {
        if r.Some? {
          var i :| 0 <= i < |xs[1..]| && xs[1..][i] == r.value && idOf(xs[1..][i]) == id
                   && forall j :: 0 <= j < i ==> idOf(xs[1..][j]) != id;
          assert forall j :: 1 <= j < i + 1 ==> idOf(xs[j]) != id by {
            forall j | 1 <= j < i + 1 ensures idOf(xs[j]) != id {
              assert xs[j] == xs[1..][j - 1];
            }
          }
        }
      }
      r
  }

  /** `role.members.map(m => m.memberName)`. */
  function MemberNames(role: ScanRole): (names: seq<Option<string>>)
    ensures |names| == |role.members|
    ensures forall k :: 0 <= k < |names| ==> names[k] == role.members[k].memberName
  {
    seq(|role.members|, k requires 0 <= k < |role.members| => role.members[k].memberName)
  }

  /** `ds.users.map(u => u.emailAddress)`. */
  function Emails(users: seq<ScanUser>): (r: seq<Option<string>>)
    ensures |r| == |users|
    ensures forall i :: 0 <= i < |users| ==> r[i] == users[i].emailAddress
  {
    if |users| == 0 then [] else [users[0].emailAddress] + Emails(users[1..])
  }

  /** `ds.users.map(u => u.emailAddress).filter(Boolean)`. */
  function TruthyEmails(users: seq<ScanUser>): (r: seq<Option<string>>)
    ensures |r| <= |users|
    ensures forall v :: v in r ==> Truthy(v)
    ensures forall v :: v in r <==> Truthy(v) && exists i :: 0 <= i < |users| && users[i].emailAddress == v
  {
    if |users| == 0 then []
    else
      assert forall i :: 1 <= i < |users| ==> users[i] == users[1..][i - 1];
      (if Truthy(users[0].emailAddress) then [users[0].emailAddress] else []) + TruthyEmails(users[1..])
  }

  /** `.filter(Boolean)` keeps each truthy email as often as users carry it. */
  lemma {:induction false} TruthyEmailsCounts(users: seq<ScanUser>, v: Option<string>)
    ensures multiset(TruthyEmails(users))[v] == if Truthy(v) then multiset(Emails(users))[v] else 0
  {
    if |users| > 0 {
      assert Emails(users) == [users[0].emailAddress] + Emails(users[1..]);
      TruthyEmailsCounts(users[1..], v);
    }
  }

  /** The `rolesMap` built from the dataset found by the scan. */
  function DatasetRoleMap(ds: Dataset): (r: Result<RoleMap>)
    ensures ds.roles.Some? && |ds.roles.value| > 0 ==> r.Ok?
    ensures !(ds.roles.Some? && |ds.roles.value| > 0) && ds.users.Some? && |ds.users.value| > 0
            ==> r == Ok(map[GeneralAccessKey := TruthyEmails(ds.users.value)])
    ensures r == Err(NoRolesNorUsers) <==>
              !(ds.roles.Some? && |ds.roles.value| > 0) && !(ds.users.Some? && |ds.users.value| > 0)
  {
    if ds.roles.Some? && |ds.roles.value| > 0 then
      var roles := ds.roles.value;
      Ok(FromEntries(seq(|roles|, i requires 0 <= i < |roles| => (roles[i].name, MemberNames(roles[i])))))
    else if ds.users.Some? && |ds.users.value| > 0 then
      Ok(map[GeneralAccessKey := TruthyEmails(ds.users.value)])
    else
      Err(NoRolesNorUsers)
  }

  /** When the dataset has roles, their names are the keys and each holds the
      member names of the last role carrying it. */
  lemma ScanRolesSpec(ds: Dataset, i: int)
    requires ds.roles.Some? && 0 <= i < |ds.roles.value|
    requires forall j :: i < j < |ds.roles.value| ==> ds.roles.value[j].name != ds.roles.value[i].name
    ensures DatasetRoleMap(ds).Ok?
    ensures DatasetRoleMap(ds).value.Keys == set k | 0 <= k < |ds.roles.value| :: ds.roles.value[k].name
    ensures DatasetRoleMap(ds).value[ds.roles.value[i].name] == MemberNames(ds.roles.value[i])
    ensures |DatasetRoleMap(ds).value[ds.roles.value[i].name]| == |ds.roles.value[i].members|
    ensures forall k :: 0 <= k < |ds.roles.value[i].members| ==>
              DatasetRoleMap(ds).value[ds.roles.value[i].name][k] == ds.roles.value[i].members[k].memberName
  {
    var roles := ds.roles.value;
    var e := seq(|roles|, i requires 0 <= i < |roles| => (roles[i].name, MemberNames(roles[i])));
    FromEntriesKeys(e);
    var written := set k | 0 <= k < |e| :: e[k].0;
    var names := set k | 0 <= k < |roles| :: roles[k].name;
    assert written == names by {
      forall n | n in names ensures n in written {
        var k :| 0 <= k < |roles| && roles[k].name == n;
        assert e[k].0 == n;
      }
    }
    assert IsLastKey(e, i);
    FromEntriesLast(e, i);
  }

  function WorkspaceId(w: Workspace): string { w.id }
  function DatasetId(d: Dataset): string { d.id }

  /** The scan path from `result.workspaces.find(...)` to `return rolesMap`. */
  function ScanLookup(workspaces: seq<Workspace>, groupId: string, datasetId: string): (r: Result<RoleMap>)
    ensures r == Err(WorkspaceNotFound) <==> forall i :: 0 <= i < |workspaces| ==> workspaces[i].id != groupId
    ensures r == Err(DatasetNotFound) <==>
              exists i :: 0 <= i < |workspaces| && workspaces[i].id == groupId
                          && (forall j :: 0 <= j < i ==> workspaces[j].id != groupId)
                          && forall k :: 0 <= k < |workspaces[i].datasets| ==> workspaces[i].datasets[k].id != datasetId
    // both found: the map built from the first matching dataset of the first matching workspace
    ensures forall i, k :: 0 <= i < |workspaces| && workspaces[i].id == groupId
                           && (forall j :: 0 <= j < i ==> workspaces[j].id != groupId)
                           && 0 <= k < |workspaces[i].datasets| && workspaces[i].datasets[k].id == datasetId
                           && (forall j :: 0 <= j < k ==> workspaces[i].datasets[j].id != datasetId)
                           ==> r == DatasetRoleMap(workspaces[i].datasets[k])
  {
    match FindById(workspaces, WorkspaceId, groupId)
    case None => Err(WorkspaceNotFound)
    case Some(ws) =>
      match FindById(ws.datasets, DatasetId, datasetId)
      case None => Err(DatasetNotFound)
      case Some(ds) => DatasetRoleMap(ds)
  }

  /** getRolesFromPowerBI after its network calls: the direct answer when it
      is non-empty, the scan's otherwise. */
  function RolesFromPowerBI(direct: Option<seq<DirectRole>>, workspaces: seq<Workspace>,
                            groupId: string, datasetId: string): (r: Result<RoleMap>)
    ensures direct.Some? && |direct.value| > 0 ==> r == Ok(DirectMap(direct.value))
    ensures !(direct.Some? && |direct.value| > 0) ==> r == ScanLookup(workspaces, groupId, datasetId)
  {
    match DirectAttempt(direct)
    case Some(m) => Ok(m)
    case None => ScanLookup(workspaces, groupId, datasetId)
  }
}
