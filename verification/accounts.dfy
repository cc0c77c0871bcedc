/** The identity records the core consumes: Django's `User` (with the
    one-to-one `UserProfile.profile` value folded in as `profile`) and
    DRF's anonymous user, plus Django's `User.has_perm` as its default
    model backend decides it. */
module Accounts {
  import opened Wrappers

  type UserId = nat
  type GroupName = string

  /** A request's user. `isAuthenticated` is true for every stored user and
      false only for `Anonymous`; `profile` is None when the user has no
      `UserProfile` row (`hasattr(user, 'userprofile')` is false). */
  datatype User = User(
    id: UserId,
    username: string,
    email: string,
    isSuperuser: bool,
    isStaff: bool,
    isActive: bool,
    isAuthenticated: bool,
    groups: set<GroupName>,
    userPerms: set<string>,
    profile: Option<string>)

  /** DRF's `AnonymousUser`: not authenticated, no groups, no profile. */
  const Anonymous := User(0, "", "", false, false, false, false, {}, {}, None)

  /** Django's auth group-permission table: codenames attached to each group. */
  type GroupPerms = map<GroupName, set<string>>

  /** Codenames a user holds through its groups. */
  ghost predicate HeldByGroup(u: User, groupPerms: GroupPerms, codename: string) {
    exists g :: g in u.groups && g in groupPerms && codename in groupPerms[g]
  }

  /** `user.has_perm('ApiCore.<codename>')` with Django's model backend:
      an inactive user has nothing, an active superuser has everything, any
      other user has its own and its groups' permissions. */
  function HasPerm(u: User, groupPerms: GroupPerms, codename: string): (r: bool)
    ensures r <==> u.isActive && (u.isSuperuser || codename in u.userPerms || HeldByGroup(u, groupPerms, codename))
  {
    u.isActive
    && (u.isSuperuser
        || codename in u.userPerms
        || exists g | g in u.groups :: g in groupPerms && codename in groupPerms[g])
  }
}
