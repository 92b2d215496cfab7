/**
 The access policy stated declaratively, without the lookup structures the
 trait builds. Each operation of the trait is proved equal to one of these.
 */
module Policy {
  import opened Models

  /** The user holds a role whose slug is exactly `slug`. */
  ghost predicate HoldsRole(u: User, slug: string)
  {
    exists i :: 0 <= i < |u.roles| && u.roles[i].slug == slug
  }

  ghost predicate Administrator(u: User)
  {
    HoldsRole(u, AdministratorSlug)
  }

  /** `p` is the slug of one of the user's own permission records. */
  ghost predicate DirectlyGranted(u: User, p: string)
  {
    exists j :: 0 <= j < |u.permissions| && u.permissions[j].slug == p
  }

  /** `p` is the slug of a permission record of one of the user's roles. */
  ghost predicate GrantedByRole(u: User, p: string)
  {
    exists i, j :: 0 <= i < |u.roles| && 0 <= j < |u.roles[i].permissions|
                   && u.roles[i].permissions[j].slug == p
  }

  /** The user may do `p`: administrator, direct grant, or role grant. */
  ghost predicate Granted(u: User, p: string)
  {
    Administrator(u) || DirectlyGranted(u, p) || GrantedByRole(u, p)
  }

  /** The user holds at least one of the listed role slugs. */
  ghost predicate HoldsAnyOf(u: User, slugs: seq<string>)
  {
    exists k :: 0 <= k < |slugs| && HoldsRole(u, slugs[k])
  }

  /** A UI element restricted to `roles` is shown: no restriction, an
      administrator, or a holder of one of the listed roles. */
  ghost predicate VisibleTo(u: User, roles: seq<Role>)
  {
    |roles| == 0 || Administrator(u) || exists k :: 0 <= k < |roles| && HoldsRole(u, roles[k].slug)
  }

  /** Every permission record reachable through the roles, counted once per
      role that carries it. */
  ghost function RoleGrants(roles: seq<Role>): multiset<Permission>
  {
    if |roles| == 0 then multiset{}
    else RoleGrants(roles[..|roles| - 1]) + multiset(roles[|roles| - 1].permissions)
  }

  /** Where the records of role `i` start when the records of every role are
      listed in role order: the number of records of the roles before it. */
  ghost function GrantOffset(roles: seq<Role>, i: nat): nat
    requires i <= |roles|
  {
    if i == 0 then 0 else GrantOffset(roles, i - 1) + |roles[i - 1].permissions|
  }

  /** The records of role `i` occupy, in order, the stretch of `r` from that
      role's offset to the next role's. */
  ghost predicate RoleRecordsAt(roles: seq<Role>, r: seq<Permission>, i: nat)
    requires i < |roles|
  {
    GrantOffset(roles, i + 1) <= |r|
    && r[GrantOffset(roles, i)..GrantOffset(roles, i + 1)] == roles[i].permissions
  }

  /** The user's permission records with multiplicity: every role's records
      plus the direct ones, no deduplication. */
  ghost function EffectiveGrants(u: User): multiset<Permission>
  {
    RoleGrants(u.roles) + multiset(u.permissions)
  }
}
