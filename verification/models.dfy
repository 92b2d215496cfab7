/**
 The records the authorization trait reads. Persistence supplies them already
 loaded: a user's roles, the user's direct permissions, and each role's
 permissions. Roles and permissions are looked up by their slug only.
 */
module Models {

  datatype Permission = Permission(slug: string)

  datatype Role = Role(slug: string, permissions: seq<Permission>)

  datatype User = User(roles: seq<Role>, permissions: seq<Permission>)

  /** The reserved role slug that overrides every permission check. */
  const AdministratorSlug: string := "administrator"

  function PermissionSlug(p: Permission): string { p.slug }

  function RoleSlug(role: Role): string { role.slug }

  /** The slug column of a list of role records, in order. */
  function SlugsOf(roles: seq<Role>): (slugs: seq<string>)
    ensures |slugs| == |roles|
    ensures forall i :: 0 <= i < |roles| ==> slugs[i] == roles[i].slug
  {
    if |roles| == 0 then [] else [roles[0].slug] + SlugsOf(roles[1..])
  }

  /** Whether a role grants a permission. The role model is not part of this
      model; a role is taken to grant exactly the slugs of its own
      permission records. */
  predicate RoleCan(role: Role, permission: string)
  {
    exists j :: 0 <= j < |role.permissions| && role.permissions[j].slug == permission
  }
}
