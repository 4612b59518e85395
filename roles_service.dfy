/** The join at the end of rolesService.getRolesFromPowerBI: the rows of
    TMSCHEMA_ROLES and of TMSCHEMA_ROLE_MEMBERSHIP, as the executeQueries
    call returns them, become an object from role name to member names. */
module RolesService {
  import opened Schema
  import opened JsObject

  /** A row of the roles table: `{roleId, name}`. A property the row lacks
      reads as `undefined` (None), and `undefined === undefined` holds. */
  datatype RoleRow = RoleRow(roleId: Option<int>, name: string)
  /** A row of the membership table: `{roleId, memberName}`. */
  datatype MemberRow = MemberRow(roleId: Option<int>, memberName: Option<string>)

  /** The single key of the answer when the model defines no role. */
  const NoRlsKey: string := "Sin roles RLS"

  /** `membersRows.filter(m => m.roleId === roleId).map(m => m.memberName)`. */
  function MembersOf(members: seq<MemberRow>, roleId: Option<int>): (r: seq<Option<string>>)
    ensures |r| <= |members|
    ensures forall n :: n in r <==> exists i :: 0 <= i < |members| && members[i].roleId == roleId
                                                && members[i].memberName == n
  {
    if |members| == 0 then []
    else
      assert forall i :: 1 <= i < |members| ==> members[i] == members[1..][i - 1];
      (if members[0].roleId == roleId then [members[0].memberName] else []) + MembersOf(members[1..], roleId)
  }

  /** The filter keeps input order: the members of a concatenation are the
      members of each part, one after the other. */
  lemma {:induction false} MembersOfConcat(a: seq<MemberRow>, b: seq<MemberRow>, roleId: Option<int>)
    ensures MembersOf(a + b, roleId) == MembersOf(a, roleId) + MembersOf(b, roleId)
  {
    if |a| == 0 {
      assert a + b == b;
    } else {
      assert (a + b)[0] == a[0] && (a + b)[1..] == a[1..] + b;
      MembersOfConcat(a[1..], b, roleId);
    }
  }

  /** The pairs `(r.name, members of r)` that the forEach assigns, in row order. */
  function Entries(rolesRows: seq<RoleRow>, membersRows: seq<MemberRow>): (e: seq<(string, seq<Option<string>>)>)
    ensures |e| == |rolesRows|
    ensures forall i :: 0 <= i < |e| ==> e[i] == (rolesRows[i].name, MembersOf(membersRows, rolesRows[i].roleId))
  {
    seq(|rolesRows|, i requires 0 <= i < |rolesRows| => (rolesRows[i].name, MembersOf(membersRows, rolesRows[i].roleId)))
  }

  /** The object the join returns. */
  function RoleMemberMap(rolesRows: seq<RoleRow>, membersRows: seq<MemberRow>): (m: map<string, seq<Option<string>>>)
    ensures |rolesRows| == 0 ==> m == map[NoRlsKey := []]
    ensures |rolesRows| > 0 ==> m.Keys == set k | 0 <= k < |rolesRows| :: rolesRows[k].name
  {
    if |rolesRows| == 0 then map[NoRlsKey := []]
    else
      var e := Entries(rolesRows, membersRows);
      FromEntriesKeys(e);
      var written := set k | 0 <= k < |e| :: e[k].0;
      var names := set k | 0 <= k < |rolesRows| :: rolesRows[k].name;
      assert written == names by {
        forall n | n in names ensures n in written {
          var k :| 0 <= k < |rolesRows| && rolesRows[k].name == n;
          assert e[k].0 == n;
        }
      }
      FromEntries(e)
  }

  /** Otherwise the keys are the role names, and each name holds the members
      of the last role row carrying it (an earlier row with the same name is
      overwritten). */
  lemma RoleMemberMapSpec(rolesRows: seq<RoleRow>, membersRows: seq<MemberRow>, i: int)
    requires 0 <= i < |rolesRows|
    requires forall j :: i < j < |rolesRows| ==> rolesRows[j].name != rolesRows[i].name
    ensures RoleMemberMap(rolesRows, membersRows).Keys == set k | 0 <= k < |rolesRows| :: rolesRows[k].name
    ensures RoleMemberMap(rolesRows, membersRows)[rolesRows[i].name] == MembersOf(membersRows, rolesRows[i].roleId)
  {
    var e := Entries(rolesRows, membersRows);
    assert IsLastKey(e, i);
    FromEntriesLast(e, i);
  }

  /** A membership row whose roleId matches no role row changes nothing. */
  lemma UnmatchedMemberIgnored(rolesRows: seq<RoleRow>, membersRows: seq<MemberRow>, j: int)
    requires 0 <= j < |membersRows|
    requires forall i :: 0 <= i < |rolesRows| ==> rolesRows[i].roleId != membersRows[j].roleId
    ensures RoleMemberMap(rolesRows, membersRows) == RoleMemberMap(rolesRows, membersRows[..j] + membersRows[j + 1..])
  {
    var rest := membersRows[..j] + membersRows[j + 1..];
    assert membersRows == membersRows[..j] + [membersRows[j]] + membersRows[j + 1..];
    forall i | 0 <= i < |rolesRows| ensures MembersOf(membersRows, rolesRows[i].roleId) == MembersOf(rest, rolesRows[i].roleId) {
      var id := rolesRows[i].roleId;
      MembersOfConcat(membersRows[..j] + [membersRows[j]], membersRows[j + 1..], id);
      MembersOfConcat(membersRows[..j], [membersRows[j]], id);
      MembersOfConcat(membersRows[..j], membersRows[j + 1..], id);
      assert MembersOf([membersRows[j]], id) == [];
    }
    assert Entries(rolesRows, membersRows) == Entries(rolesRows, rest);
  }

  /** A role row and membership rows that all lack `roleId` match one
      another: the role receives every member. */
  lemma {:induction false} MissingIdsMatchAll(membersRows: seq<MemberRow>)
    requires forall j :: 0 <= j < |membersRows| ==> membersRows[j].roleId.None?
    ensures |MembersOf(membersRows, None)| == |membersRows|
    ensures forall j :: 0 <= j < |membersRows| ==> membersRows[j].memberName in MembersOf(membersRows, None)
  {
    if |membersRows| > 0 {
      assert forall j :: 1 <= j < |membersRows| ==> membersRows[j] == membersRows[1..][j - 1];
      MissingIdsMatchAll(membersRows[1..]);
    }
  }
}
