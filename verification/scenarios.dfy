/**
 Concrete users and the decisions the resolver reaches for them.
 */
module PermissionScenarios {
  import opened Models
  import opened HasPermissions

  /** An editor whose role carries `post.edit` and who holds `comment.delete`
      directly. */
  lemma EditorScenario()
    ensures var u := User([Role("editor", [Permission("post.edit")])], [Permission("comment.delete")]);
      && Can(u, "post.edit")
      && Can(u, "comment.delete")
      && !Can(u, "post.delete")
      && AllPermissions(u) == [Permission("post.edit"), Permission("comment.delete")]
  {
  }

  /** An administrator with nothing else is granted anything and sees an
      element restricted to a role they do not hold. */
  lemma AdministratorScenario()
    ensures var u := User([Role("administrator", [])], []);
      && Can(u, "anything.random")
      && Visible(u, [Role("editor", [])])
  {
  }

  /** A viewer with no permissions: denied `post.edit`, shown an element
      listing `viewer`, hidden from one listing only `editor`. */
  lemma ViewerScenario()
    ensures var u := User([Role("viewer", [])], []);
      && !Can(u, "post.edit")
      && Visible(u, [Role("editor", []), Role("viewer", [])])
      && !Visible(u, [Role("editor", [])])
  {
  }

  /** Role slugs match exactly: `Editor` is not `editor`. */
  lemma RoleSlugIsCaseSensitive()
    ensures var u := User([Role("editor", [])], []);
      IsRole(u, "editor") && !IsRole(u, "Editor")
  {
  }
}
