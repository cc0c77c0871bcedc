/** The REST framework permission classes built on profiles: a view's
    required profile permission, the NSFW object gate, and the moderator
    and admin-panel gates. The request's user is a stored user or the
    anonymous user, never missing. */
module Checkers {
  import opened Wrappers
  import opened Accounts
  import opened UserProfiles

  /** `HasProfilePermission.has_permission`; `required` is the view's
      `required_permission` attribute, None when it has none. */
  function HasProfilePermissionCheck(u: User, required: Option<string>, perms: GroupPerms): (r: bool)
    ensures !u.isAuthenticated || u.profile.None? ==> !r
    ensures u.isAuthenticated && u.profile.Some? && (required.None? || required.value == "") ==> r
    ensures u.isAuthenticated && u.profile.Some? && required.Some? && required.value != "" ==>
              (r <==> HasProfilePermission(u, perms, required.value))
  {
    if !u.isAuthenticated then false
    else if u.profile.None? then false
    else if required.None? || required.value == "" then true
    else HasProfilePermission(u, perms, required.value)
  }

  /** `CanViewNSFW.has_object_permission`; `erotico` is the object's flag
      (False when the object has none). */
  function CanViewNsfwCheck(u: User, erotico: bool, perms: GroupPerms): (r: bool)
    ensures !erotico ==> r
    ensures erotico ==> (r <==> u.isAuthenticated && u.profile.Some? && CanViewNsfw(u, perms))
  {
    if !erotico then true
    else u.isAuthenticated && u.profile.Some? && CanViewNsfw(u, perms)
  }

  /** `IsModeratorOrAdmin.has_permission`. */
  function IsModeratorOrAdminCheck(u: User): (r: bool)
    ensures r <==> u.isAuthenticated && u.profile.Some? && u.profile.value in ["moderator", "admin"]
  {
    u.isAuthenticated && u.profile.Some? && IsModeratorOrHigher(u.profile.value)
  }

  /** `CanAccessAdminPanel.has_permission`. */
  function CanAccessAdminPanelCheck(u: User, perms: GroupPerms): (r: bool)
    ensures r ==> u.isAuthenticated && u.profile.Some? && u.isActive
    ensures u.isAuthenticated && u.profile.Some? ==> (r <==> CanAccessAdmin(u, perms))
  {
    u.isAuthenticated && u.profile.Some? && CanAccessAdmin(u, perms)
  }

  /** The anonymous user passes none of the gates, except the NSFW gate on
      an object that is not erotic. */
  lemma AnonymousGates(required: Option<string>, erotico: bool, perms: GroupPerms)
    ensures !HasProfilePermissionCheck(Anonymous, required, perms)
    ensures CanViewNsfwCheck(Anonymous, erotico, perms) <==> !erotico
    ensures !IsModeratorOrAdminCheck(Anonymous)
    ensures !CanAccessAdminPanelCheck(Anonymous, perms)
  {
  }
}
