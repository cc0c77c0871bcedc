/** `UserProfile`: the profile value kept beside each user, the group
    synchronisation every save runs, the profile predicates, and the
    post-save signal that creates a profile for each new user.

    The profile row is folded into the user record (`User.profile`). */
module UserProfiles {
  import opened Wrappers
  import opened Accounts
  import opened Profiles

  /** The choices of the `profile` field. */
  const ProfileChoices: seq<string> := ["home_only", "premium", "moderator", "admin"]

  const DefaultProfile: string := "home_only"

  /** A new profile starts as 'home_only', one of exactly four choices,
      each of which has a group. */
  lemma ProfileChoicesTable(p: string)
    ensures DefaultProfile in ProfileChoices && |ProfileChoices| == 4
    ensures p in ProfileChoices <==> ProfileGroup(p).Some?
  {
  }

  /** `sync_groups` as written: every group of the user is removed, not
      only the profile groups, and then the profile's group (if any) is
      added. */
  function SyncGroupsAsWritten(u: User): (r: User)
    requires u.profile.Some?
    ensures r == u.(groups := r.groups)
    ensures ProfileGroup(u.profile.value).Some? ==> r.groups == {ProfileGroup(u.profile.value).value}
    ensures ProfileGroup(u.profile.value).None? ==> r.groups == {}
  {
    var cleared := u.(groups := {});
    match ProfileGroup(u.profile.value)
    case Some(g) => cleared.(groups := cleared.groups + {g})
    case None => cleared
  }

  /** A group added by hand to a user is lost on the user's next save. */
  lemma SyncGroupsAsWrittenDropsOtherGroups()
    ensures var u := User(1, "reader", "", false, false, true, true, {"Editors"}, {}, Some("home_only"));
            "Editors" !in SyncGroupsAsWritten(u).groups
  {
  }

  /** The profile groups, as a set. */
  function ProfileGroupSet(): set<GroupName> {
    set g | g in ProfileGroupNames
  }

  /** `sync_groups` as its comment describes it: the user leaves the
      profile groups only, then joins the profile's group. */
  function SyncGroups(u: User): (r: User)
    requires u.profile.Some?
    ensures r == u.(groups := r.groups)
    ensures forall g :: g !in ProfileGroupSet() ==> (g in r.groups <==> g in u.groups)
    ensures forall g :: g in ProfileGroupSet() ==> (g in r.groups <==> ProfileGroup(u.profile.value) == Some(g))
  {
    var kept := u.groups - ProfileGroupSet();
    match ProfileGroup(u.profile.value)
    case Some(g) =>
      assert g in ProfileGroupNames;
      u.(groups := kept + {g})
    case None => u.(groups := kept)
  }

  /** Both versions agree whenever the user belongs to profile groups
      only, and both are idempotent. */
  lemma SyncGroupsAgree(u: User)
    requires u.profile.Some?
    ensures u.groups <= ProfileGroupSet() ==> SyncGroups(u) == SyncGroupsAsWritten(u)
    ensures SyncGroups(SyncGroups(u)) == SyncGroups(u)
    ensures SyncGroupsAsWritten(SyncGroupsAsWritten(u)) == SyncGroupsAsWritten(u)
  {
    var a := SyncGroups(u).groups;
    var b := SyncGroupsAsWritten(u).groups;
    if u.groups <= ProfileGroupSet() {
      assert a == b;
    }
    assert SyncGroups(SyncGroups(u)).groups == a;
  }

  /** `UserProfile.save`: store the row, then synchronise the groups as
      written. Afterwards the user belongs to the profile's group and to
      no other group at all; a second save changes nothing. */
  function SaveProfile(u: User): (r: User)
    requires u.profile.Some?
    ensures r == u.(groups := r.groups)
    ensures forall g :: g in r.groups <==> ProfileGroup(u.profile.value) == Some(g)
    ensures r.profile.Some? && SyncGroupsAsWritten(r) == r
  {
    SyncGroupsAgree(u);
    SyncGroupsAsWritten(u)
  }

  /** `UserProfile.save` over the corrected synchronisation: the groups
      outside the profile table survive the save. */
  function SaveProfileCorrected(u: User): (r: User)
    requires u.profile.Some?
    ensures r.profile == u.profile
    ensures ProfileGroup(u.profile.value).Some? ==> ProfileGroup(u.profile.value).value in r.groups
    ensures forall g :: g !in ProfileGroupSet() ==> (g in r.groups <==> g in u.groups)
    ensures r.profile.Some? && SyncGroups(r) == r
  {
    SyncGroupsAgree(u);
    SyncGroups(u)
  }

  /** The two post-save receivers of User, in registration order: a new
      user gets its profile with the default value (whose creation saves
      it); then, if the user has a profile, that profile is saved. Each
      save runs the synchronisation as written, so a user with a profile
      ends up in exactly the profile's group. */
  function UserPostSave(u: User, created: bool): (r: User)
    requires created ==> u.profile.None?
    ensures created ==> r.profile == Some(DefaultProfile) && r.groups == {HomeOnly}
    ensures !created ==> r.profile == u.profile
    ensures !created && u.profile.Some? ==>
              forall g :: g in r.groups <==> ProfileGroup(u.profile.value) == Some(g)
    ensures u.profile.None? && !created ==> r == u
    ensures r.id == u.id && r.isSuperuser == u.isSuperuser && r.isStaff == u.isStaff
  {
    var u1 := if created then SaveProfile(u.(profile := Some(DefaultProfile))) else u;
    if u1.profile.Some? then SaveProfile(u1) else u1
  }

  /** The receivers over the corrected synchronisation: groups outside the
      profile table are kept. */
  function UserPostSaveCorrected(u: User, created: bool): (r: User)
    requires created ==> u.profile.None?
    ensures created ==> r.profile == Some(DefaultProfile) && HomeOnly in r.groups
    ensures !created ==> r.profile == u.profile
    ensures forall g :: g !in ProfileGroupSet() ==> (g in r.groups <==> g in u.groups)
    ensures u.profile.None? && !created ==> r == u
    ensures r.id == u.id && r.isSuperuser == u.isSuperuser && r.isStaff == u.isStaff
  {
    var u1 := if created then SaveProfileCorrected(u.(profile := Some(DefaultProfile))) else u;
    if u1.profile.Some? then SaveProfileCorrected(u1) else u1
  }

  /** `has_profile_permission(codename)`: Django's `user.has_perm`. */
  function HasProfilePermission(u: User, perms: GroupPerms, codename: string): (r: bool)
    ensures r <==> u.isActive && (u.isSuperuser || codename in u.userPerms || HeldByGroup(u, perms, codename))
  {
    HasPerm(u, perms, codename)
  }

  function CanViewNsfw(u: User, perms: GroupPerms): bool {
    HasProfilePermission(u, perms, "view_nsfw_content")
  }

  function CanAccessAdmin(u: User, perms: GroupPerms): bool {
    HasProfilePermission(u, perms, "access_admin_panel")
  }

  /** `is_moderator_or_higher`. */
  function IsModeratorOrHigher(profile: string): (r: bool)
    ensures r <==> profile == "moderator" || profile == "admin"
  {
    profile in ["moderator", "admin"]
  }

  /** With the groups set up from the table, an active user synchronised
      to a premium or higher profile may view NSFW content, and one
      synchronised to 'home_only' without its own grant may not (the save
      has removed every other group). */
  lemma NsfwByProfile(u: User, groups: set<GroupName>, perms: GroupPerms, existing: set<string>)
    requires u.profile.Some? && u.isActive && !u.isSuperuser
    requires "view_nsfw_content" in existing
    ensures var p := SetupGroupsAndPermissions(groups, perms, existing).1;
            var v := SaveProfile(u);
            && (u.profile.value in ["premium", "moderator", "admin"] ==> CanViewNsfw(v, p))
            && ((u.profile.value == "home_only" && "view_nsfw_content" !in u.userPerms)
                ==> !CanViewNsfw(v, p))
  {
    if u.profile.value in ["premium", "moderator", "admin"] {
      NsfwGranted(u, groups, perms, existing);
    }
    if u.profile.value == "home_only" && "view_nsfw_content" !in u.userPerms {
      NsfwDenied(u, groups, perms, existing);
    }
  }

  lemma NsfwGranted(u: User, groups: set<GroupName>, perms: GroupPerms, existing: set<string>)
    requires u.profile.Some? && u.isActive && !u.isSuperuser
    requires "view_nsfw_content" in existing
    requires u.profile.value in ["premium", "moderator", "admin"]
    ensures CanViewNsfw(SaveProfile(u), SetupGroupsAndPermissions(groups, perms, existing).1)
  {
    var p := SetupGroupsAndPermissions(groups, perms, existing).1;
    var v := SaveProfile(u);
    var g := ProfileGroup(u.profile.value).value;
    assert g in ProfileGroupNames && g in v.groups;
    assert "view_nsfw_content" in ProfilePermissions(g);
    assert g in p && "view_nsfw_content" in p[g];
  }

  lemma NsfwDenied(u: User, groups: set<GroupName>, perms: GroupPerms, existing: set<string>)
    requires u.profile.Some? && u.isActive && !u.isSuperuser
    requires "view_nsfw_content" in existing
    requires u.profile.value == "home_only"
    requires "view_nsfw_content" !in u.userPerms
    ensures !CanViewNsfw(SaveProfile(u), SetupGroupsAndPermissions(groups, perms, existing).1)
  {
    var p := SetupGroupsAndPermissions(groups, perms, existing).1;
    var v := SaveProfile(u);
    assert v.groups == {HomeOnly};
    assert "view_nsfw_content" !in p[HomeOnly];
  }
}
