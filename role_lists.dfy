/** Pure functions over a caller's role list `[{role_id, role_name}, ...]`:
    the `.some` membership test of roleService.js and the filter that drops
    every "Asignador" entry (roleService.js and userRepository.js both use it). */
module RoleLists {
  import opened Schema

  /** `xs` can be obtained from `ys` by deleting elements: order is kept. */
  ghost predicate IsSubsequence<T>(xs: seq<T>, ys: seq<T>)
  {
    if |xs| == 0 then true
    else if |ys| == 0 then false
    else if xs[0] == ys[0] then IsSubsequence(xs[1..], ys[1..])
    else IsSubsequence(xs, ys[1..])
  }

  /** `userHasRoleByName`: some entry of the list carries the name. */
  function UserHasRoleByName(roles: seq<RoleRef>, name: string): (b: bool)
    ensures b <==> exists i :: 0 <= i < |roles| && roles[i].roleName == name
  {
    if |roles| == 0 then false
    else roles[0].roleName == name || UserHasRoleByName(roles[1..], name)
  }

  /** `roles.filter(role => role.role_name !== 'Asignador')`: the same entries
      in the same order, with every "Asignador" entry removed; the other
      entries keep their multiplicity. */
  function WithoutAssigner(roles: seq<RoleRef>): (r: seq<RoleRef>)
    ensures IsSubsequence(r, roles)
    ensures forall x :: x in r ==> x.roleName != Assigner
    ensures forall x :: multiset(r)[x] == if x.roleName == Assigner then 0 else multiset(roles)[x]
    ensures !UserHasRoleByName(r, Assigner)
  {
    if |roles| == 0 then []
    else
      assert roles == [roles[0]] + roles[1..];
      if roles[0].roleName == Assigner then WithoutAssigner(roles[1..])
      else [roles[0]] + WithoutAssigner(roles[1..])
  }

  /** `.map(role => role.role_name)`. */
  function NamesOf(roles: seq<RoleRef>): (names: seq<string>)
    ensures |names| == |roles|
    ensures forall n :: n in names <==> exists i :: 0 <= i < |roles| && roles[i].roleName == n
  {
    if |roles| == 0 then [] else [roles[0].roleName] + NamesOf(roles[1..])
  }
}
