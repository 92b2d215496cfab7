# Authorization resolver of laravel-admin users

This project models the `HasPermissions` trait of laravel-admin's admin user
(`src/Auth/Database/HasPermissions.php`). The trait decides what an admin user
may do. It combines three sources:

- an administrator override: holding the role with slug `administrator`
  grants everything;
- permissions granted directly to the user, matched by slug;
- permissions inherited through the user's roles.

It also answers role-membership queries (`isRole`, `inRoles`), the UI gate
`visible`, and the aggregate `allPermissions`.

The model is functional. A `User` holds a sequence of `Role`s and a sequence
of direct `Permission`s. A `Role` holds its slug and its permissions. The
persistence layer supplies these collections already loaded, so they are plain
inputs here.

Modules:

- `Collection` (`collection.dfy`) models the two collection idioms the trait
  uses. `KeyBy` indexes a collection by an attribute, and the key-membership
  test is `in` on that map; later elements win on a shared key
  (`KeyByKeepsLast`). `Flatten`
  concatenates nested collections and keeps duplicates.
- `Models` (`models.dfy`) holds the records, the reserved slug
  `administrator`, and `RoleCan`. `RoleCan` stands in for the role model's own
  `can`, which is not part of this model. **Assumption:** a role grants a
  permission iff one of its own permission records has that slug.
- `Policy` (`policy.dfy`) states the access policy declaratively, with
  quantifiers over the collections. These are the reference definitions each
  operation is proved against.
- `HasPermissions` (`has_permissions.dfy`) holds the trait's operations. Each
  one follows the source's branch order and short-circuiting. Each is proved
  equal to its `Policy` counterpart.
- `PermissionProperties` (`properties.dfy`) relates the operations to each
  other.
- `PermissionScenarios` (`scenarios.dfy`) works through concrete users.

`allPermissions`: the code maps each role to its permissions, flattens the
result into a base collection, and merges in the direct permissions. On a base
collection with numeric keys, that merge appends. So the result is a list, not
a set: role permissions in role order, then the direct ones. A permission
reached both directly and through a role appears twice
(`AllPermissionsKeepsDuplicates`).
`AllPermissions` is specified position by position: each role's records sit
in one stretch, in role order, and the direct records form the tail.

The `method_exists($this, 'permissions')` guard in `can` always holds for
this trait, because the trait itself defines `permissions()`. So direct
permissions are always consulted.

## Model

| member | source | states |
|---|---|---|
| Collection.KeyBy | src/Auth/Database/HasPermissions.php:124 | a slug is a key of the keyed collection iff some element has that slug, and the element stored under a key carries that key and comes from the collection |
| Collection.HasAny | src/Auth/Database/HasPermissions.php:137-143 | the loop over requested slugs returns true iff at least one of them is a key of the granted-role index; an empty list yields false |
| Collection.KeyByKeepsLast | src/Auth/Database/HasPermissions.php:124 | the element stored under a key is the last element of the collection carrying that key |
| Collection.Flatten | src/Auth/Database/HasPermissions.php:60-62 | the flattened collection is the inner collections laid end to end in order: block i occupies exactly the positions from the total length of the blocks before it to the next offset, and the result holds exactly their elements |
| Models.SlugsOf | src/Auth/Database/HasPermissions.php:159 | the slug column has one entry per role record, and entry i is the slug of role i |
| HasPermissions.PermissionsOfRoles | src/Auth/Database/HasPermissions.php:60-61 | mapping roles to their permission collections keeps one block per role, in role order |
| HasPermissions.AllPermissions | src/Auth/Database/HasPermissions.php:58-63 | a record is in the result iff it is a direct permission or a permission of some held role; the result's multiset is every role's permissions plus the direct ones, without deduplication; the records of role i occupy, in order, the stretch after the records of roles 0..i-1; the direct permissions form the tail after all role records |
| HasPermissions.RoleBlocksGrants | src/Auth/Database/HasPermissions.php:60-61 | flattening the role permission blocks yields, with multiplicity, the permissions of all roles |
| HasPermissions.SomeRoleCan | src/Auth/Database/HasPermissions.php:84-88 | the loop over held roles returns true iff some role grants the permission |
| HasPermissions.IsRole | src/Auth/Database/HasPermissions.php:122-125 | true iff some held role's slug is exactly the given string |
| HasPermissions.IsAdministrator | src/Auth/Database/HasPermissions.php:110-113 | true iff the user holds a role with slug `administrator` |
| HasPermissions.Can | src/Auth/Database/HasPermissions.php:72-91 | true iff the user is an administrator, or holds a direct permission with that slug, or holds a role granting it; false otherwise |
| HasPermissions.Cannot | src/Auth/Database/HasPermissions.php:100-103 | true iff the policy does not grant the permission to the user |
| HasPermissions.InRoles | src/Auth/Database/HasPermissions.php:134-144 | true iff some listed slug is the slug of a held role; the list defaults to empty |
| HasPermissions.Visible | src/Auth/Database/HasPermissions.php:153-166 | true iff the role list is empty, or the user is an administrator, or the user holds one of the listed roles |
| PermissionProperties.CannotIsNegation | src/Auth/Database/HasPermissions.php:100-103 | `cannot` is exactly the negation of `can` for every user and slug |
| PermissionProperties.AdministratorOverrides | src/Auth/Database/HasPermissions.php:74-76 | a holder of the administrator role is granted every permission, is never refused, and sees every element, whatever else they hold |
| PermissionProperties.NoGrantDenies | src/Auth/Database/HasPermissions.php:78-90 | a non-administrator with no record of that slug, direct or via a role, is denied it and `cannot` holds |
| PermissionProperties.EmptyRoleListAsymmetry | src/Auth/Database/HasPermissions.php:134-157 | an empty list, given explicitly or by default, names no held role in `inRoles` but leaves the element visible in `visible` |
| PermissionProperties.VisibleIsInRolesOrAdministrator | src/Auth/Database/HasPermissions.php:159-165 | for a non-empty list, visibility equals membership in one of the listed slugs or being an administrator |
| PermissionProperties.VisibleForNonAdministrator | src/Auth/Database/HasPermissions.php:159-165 | a non-administrator sees a restricted element iff some listed role shares its slug with a held role |
| PermissionProperties.CanMatchesAllPermissions | src/Auth/Database/HasPermissions.php:58-91 | apart from the administrator override, `can` grants a slug iff some record in `allPermissions` carries it |
| PermissionProperties.AllPermissionsKeepsDuplicates | src/Auth/Database/HasPermissions.php:58-63 | a permission held both directly and through a role appears twice in `allPermissions` |
| PermissionScenarios.EditorScenario | src/Auth/Database/HasPermissions.php:58-91 | an editor with role grant `post.edit` and direct grant `comment.delete` may do both, not `post.delete`, and `allPermissions` lists the two in that order |
| PermissionScenarios.AdministratorScenario | src/Auth/Database/HasPermissions.php:153-165 | an administrator with nothing else may do anything and sees an element restricted to `editor` |
| PermissionScenarios.ViewerScenario | src/Auth/Database/HasPermissions.php:153-165 | a permissionless viewer is denied `post.edit`, sees an element listing `viewer`, and does not see one listing only `editor` |
| PermissionScenarios.RoleSlugIsCaseSensitive | src/Auth/Database/HasPermissions.php:122-125 | `Editor` does not match a held role `editor` |

## Left out

- `getAvatarAttribute` (lines 16-23): builds a storage URL or asset path through storage and configuration. This is I/O, not authorization.
- `roles()` and `permissions()` (lines 30-51): relationship definitions that read table and model names from configuration. Their results are the given sequences `User.roles` and `User.permissions`.
- The role model's `can`: that file is not part of this model. `Models.RoleCan` abstracts it as slug membership in the role's permission list.
- The `method_exists` check in `can` (line 78): it always holds for this trait, so the model has no branch for it.
- PHP array-key coercion in `keyBy`/`has`: numeric-string slugs become integer keys. Slugs here are plain strings compared exactly.
- `array_column` skipping entries that lack a `slug` (line 159): every role record here has a slug.
- `empty($roles)` on non-array values such as `null` or `""` (line 155): the argument is typed as a sequence of role records, so empty means length zero.
- Non-array arguments to `inRoles`, and non-string elements in its array: `inRoles` takes a sequence of strings.
- An array passed to `isRole` or `can`, where the collection's `has` then requires every listed key to be present: `isRole` and `can` take one string.
- The O(1) lookup cost of `keyBy` indexing: membership is modelled as map membership, with no performance claim.
