/**
 The authorization resolver of an admin user: role membership, the
 administrator override, permission checks and the aggregate permission list.
 Every operation is total; a missing role or permission yields false.
 */
module HasPermissions {
  import opened Models
  import opened Collection
  import Policy

  /** The permission collection of each role, in role order. */
  function PermissionsOfRoles(roles: seq<Role>): (blocks: seq<seq<Permission>>)
    ensures |blocks| == |roles|
    ensures forall i :: 0 <= i < |roles| ==> blocks[i] == roles[i].permissions
  {
    if |roles| == 0 then [] else [roles[0].permissions] + PermissionsOfRoles(roles[1..])
  }

  /** Every permission of every held role, in role order, followed by the
      direct permissions. */
  function AllPermissions(u: User): (r: seq<Permission>)
    ensures forall q :: q in r <==>
      q in u.permissions || exists i :: 0 <= i < |u.roles| && q in u.roles[i].permissions
    ensures multiset(r) == Policy.EffectiveGrants(u)
    ensures |r| == Policy.GrantOffset(u.roles, |u.roles|) + |u.permissions|
    ensures forall i :: 0 <= i < |u.roles| ==> Policy.RoleRecordsAt(u.roles, r, i)
    ensures r[Policy.GrantOffset(u.roles, |u.roles|)..] == u.permissions
  {
    var blocks := PermissionsOfRoles(u.roles);
    var roleRecords := Flatten(blocks);
    RoleBlocksGrants(u.roles);
    RoleBlocksOffsets(u.roles, |u.roles|);
    var r := roleRecords + u.permissions;
    assert forall i :: 0 <= i < |u.roles| ==> Policy.RoleRecordsAt(u.roles, r, i) by {
      forall i | 0 <= i < |u.roles|
        ensures Policy.RoleRecordsAt(u.roles, r, i)
      {
        RoleBlocksOffsets(u.roles, i);
        RoleBlocksOffsets(u.roles, i + 1);
        assert BlockAt(blocks, roleRecords, i);
        assert r[..|roleRecords|] == roleRecords;
      }
    }
    r
  }

  /** Laying the role blocks end to end puts block `i` at the role's grant
      offset. */
  lemma {:induction false} RoleBlocksOffsets(roles: seq<Role>, i: nat)
    requires i <= |roles|
    ensures Offset(PermissionsOfRoles(roles), i) == Policy.GrantOffset(roles, i)
  {
    if i > 0 {
      RoleBlocksOffsets(roles, i - 1);
    }
  }

  lemma {:induction false} RoleBlocksGrants(roles: seq<Role>)
    ensures multiset(Flatten(PermissionsOfRoles(roles))) == Policy.RoleGrants(roles)
  {
    if |roles| > 0 {
      var n := |roles| - 1;
      RoleBlocksGrants(roles[..n]);
      assert PermissionsOfRoles(roles)[..n] == PermissionsOfRoles(roles[..n]);
    }
  }

  /** Some role in `roles` grants `p`; scans the roles in order and stops at
      the first that does. */
  function SomeRoleCan(roles: seq<Role>, p: string): (r: bool)
    ensures r <==> exists i :: 0 <= i < |roles| && RoleCan(roles[i], p)
  {
    if |roles| == 0 then false
    else if RoleCan(roles[0], p) then true
    else
      assert forall i :: 1 <= i < |roles| ==> roles[i] == roles[1..][i - 1];
      SomeRoleCan(roles[1..], p)
  }

  function IsRole(u: User, role: string): (r: bool)
    ensures r <==> Policy.HoldsRole(u, role)
  {
    role in KeyBy(u.roles, RoleSlug)
  }

  function IsAdministrator(u: User): (r: bool)
    ensures r <==> Policy.Administrator(u)
  {
    IsRole(u, AdministratorSlug)
  }

  /** Administrator first, then the direct permissions, then the roles. */
  function Can(u: User, p: string): (r: bool)
    ensures r <==> Policy.Granted(u, p)
  {
    if IsAdministrator(u) then true
    else if p in KeyBy(u.permissions, PermissionSlug) then true
    else SomeRoleCan(u.roles, p)
  }

  function Cannot(u: User, p: string): (r: bool)
    ensures r <==> !Policy.Granted(u, p)
  {
    !Can(u, p)
  }

  /** Some slug in `roles` names a held role; an empty list names none. */
  function InRoles(u: User, roles: seq<string> := []): (r: bool)
    ensures r <==> Policy.HoldsAnyOf(u, roles)
  {
    var granted := KeyBy(u.roles, RoleSlug);
    HasAny(granted, roles)
  }

  /** UI gate: an empty role list restricts nothing; otherwise holders of a
      listed role and administrators see the element. */
  function Visible(u: User, roles: seq<Role>): (r: bool)
    ensures r <==> Policy.VisibleTo(u, roles)
  {
    if |roles| == 0 then true
    else
      var slugs := SlugsOf(roles);
      InRoles(u, slugs) || IsAdministrator(u)
  }
}
