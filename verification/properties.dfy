/**
 Properties of the authorization resolver that relate its operations to each
 other: the administrator override, the negation in `Cannot`, the empty-list
 asymmetry between `InRoles` and `Visible`, and the agreement between `Can`
 and `AllPermissions`.
 */
module PermissionProperties {
  import opened Models
  import opened HasPermissions

  /** `Cannot` never diverges from `Can`. */
  lemma CannotIsNegation(u: User, p: string)
    ensures Cannot(u, p) == !Can(u, p)
  {
  }

  /** Holding the administrator role grants every permission and shows every
      element, whatever the direct and role permissions are. */
  lemma AdministratorOverrides(u: User, i: int)
    requires 0 <= i < |u.roles| && u.roles[i].slug == AdministratorSlug
    ensures IsAdministrator(u)
    ensures forall p :: Can(u, p) && !Cannot(u, p)
    ensures forall roles :: Visible(u, roles)
  {
  }

  /** A user who is not an administrator and holds no record with slug `p`,
      directly or through a role, is denied `p`. */
  lemma NoGrantDenies(u: User, p: string)
    requires !IsAdministrator(u)
    requires forall j :: 0 <= j < |u.permissions| ==> u.permissions[j].slug != p
    requires forall i, j :: 0 <= i < |u.roles| && 0 <= j < |u.roles[i].permissions|
                            ==> u.roles[i].permissions[j].slug != p
    ensures !Can(u, p) && Cannot(u, p)
  {
  }

  /** An empty list, which is also the default argument of `InRoles`, names
      no held role, yet restricts no element. */
  lemma EmptyRoleListAsymmetry(u: User)
    ensures !InRoles(u) && !InRoles(u, [])
    ensures Visible(u, [])
  {
  }

  /** For a non-empty list, visibility is membership in one of the listed
      roles or the administrator override. */
  lemma VisibleIsInRolesOrAdministrator(u: User, roles: seq<Role>)
    requires |roles| > 0
    ensures Visible(u, roles) == (InRoles(u, SlugsOf(roles)) || IsAdministrator(u))
  {
  }

  /** A non-administrator sees a restricted element exactly when one of the
      listed roles has the slug of a role the user holds. */
  lemma VisibleForNonAdministrator(u: User, roles: seq<Role>)
    requires !IsAdministrator(u) && |roles| > 0
    ensures Visible(u, roles) <==>
      exists k, i :: 0 <= k < |roles| && 0 <= i < |u.roles| && roles[k].slug == u.roles[i].slug
  {
  }

  /** `Can` agrees with the aggregate list: apart from the administrator
      override, `p` is granted iff some record in `AllPermissions` has slug `p`. */
  lemma CanMatchesAllPermissions(u: User, p: string)
    ensures Can(u, p) <==> IsAdministrator(u) || exists q :: q in AllPermissions(u) && q.slug == p
  {
  }

  /** The aggregate list is a concatenation, not a set: a permission held both
      directly and through a role appears twice. */
  lemma AllPermissionsKeepsDuplicates(p: Permission)
    ensures AllPermissions(User([Role("editor", [p])], [p])) == [p, p]
  {
  }
}
