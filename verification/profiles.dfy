/** The fixed profile table: which auth group each of the four profiles
    maps to, which auth permission codenames each group carries, and the
    setup routine that installs those permissions on the groups. */
module Profiles {
  import opened Wrappers
  import opened Accounts
  import Ordering

  const HomeOnly: GroupName := "HomeOnly"
  const Premium: GroupName := "Premium"
  const Moderator: GroupName := "Moderator"
  const Admin: GroupName := "Admin"

  /** The four profile keys, in the table's order. */
  const ProfileKeys: seq<string> := ["home_only", "premium", "moderator", "admin"]

  /** The four profile groups, in the same order. */
  const ProfileGroupNames: seq<GroupName> := [HomeOnly, Premium, Moderator, Admin]

  /** `PROFILE_GROUPS.get(profile)`. */
  function ProfileGroup(profile: string): Option<GroupName> {
    if profile == "home_only" then Some(HomeOnly)
    else if profile == "premium" then Some(Premium)
    else if profile == "moderator" then Some(Moderator)
    else if profile == "admin" then Some(Admin)
    else None
  }

  /** The table is defined on exactly the four keys, maps the i-th key to
      the i-th group, and is injective. */
  lemma ProfileGroupTable(p: string, q: string)
    ensures ProfileGroup(p).Some? <==> p in ProfileKeys
    ensures forall i :: 0 <= i < 4 ==> ProfileGroup(ProfileKeys[i]) == Some(ProfileGroupNames[i])
    ensures ProfileGroup(p).Some? && ProfileGroup(p) == ProfileGroup(q) ==> p == q
    ensures ProfileGroup(p).Some? ==> ProfileGroup(p).value in ProfileGroupNames
  {
  }

  const PremiumPerms: seq<string> := ["view_nsfw_content", "view_premium_content"]

  const ModeratorPerms: seq<string> := [
    "view_nsfw_content", "view_premium_content",
    "moderate_comments", "moderate_reports", "access_admin_panel", "view_analytics"]

  const AdminPerms: seq<string> := [
    "view_nsfw_content", "view_premium_content", "access_admin_panel",
    "manage_users", "manage_manga", "manage_chapters",
    "moderate_comments", "moderate_reports", "view_analytics"]

  /** `PROFILE_PERMISSIONS.get(group, [])`. */
  function ProfilePermissions(group: GroupName): seq<string> {
    if group == HomeOnly then []
    else if group == Premium then PremiumPerms
    else if group == Moderator then ModeratorPerms
    else if group == Admin then AdminPerms
    else []
  }

  /** HomeOnly has nothing, Premium is within Moderator, Moderator within
      Admin, and the manage_* codenames belong to Admin alone. */
  lemma ProfilePermissionsNested(g: GroupName, c: string)
    ensures ProfilePermissions(HomeOnly) == []
    ensures c in ProfilePermissions(Premium) ==> c in ProfilePermissions(Moderator)
    ensures c in ProfilePermissions(Moderator) ==> c in ProfilePermissions(Admin)
    ensures c in ["manage_users", "manage_manga", "manage_chapters"] && c in ProfilePermissions(g) ==> g == Admin
  {
  }

  // ----- setup_groups_and_permissions -----

  /** The inner loop for one group: the codenames that exist are attached,
      the missing ones are reported, in list order. */
  function AttachExisting(codenames: seq<string>, existing: set<string>): (r: (set<string>, seq<string>))
    ensures forall c :: c in r.0 <==> c in codenames && c in existing
    ensures forall c :: c in r.1 <==> c in codenames && c !in existing
    ensures Ordering.IsSubsequence(r.1, codenames)
  {
    if |codenames| == 0 then ({}, [])
    else
      var (added, missing) := AttachExisting(codenames[1..], existing);
      var c := codenames[0];
      assert forall x :: x in codenames <==> x == c || x in codenames[1..];
      if c in existing then ({c} + added, missing)
      else
        assert ([c] + missing)[1..] == missing;
        (added, [c] + missing)
  }

  /** The setup loop over the given groups, in order. */
  function SetupGroups(groupNames: seq<GroupName>, groups: set<GroupName>, perms: GroupPerms, existing: set<string>)
    : (r: (set<GroupName>, GroupPerms, seq<string>))
    ensures r.0 == groups + set g | g in groupNames
    ensures forall g :: g in groupNames ==> g in r.1 && r.1[g] == AttachExisting(ProfilePermissions(g), existing).0
    ensures forall g :: g !in groupNames ==> (g in r.1 <==> g in perms) && (g in perms ==> r.1[g] == perms[g])
    ensures forall c :: c in r.2 ==> c !in existing
    ensures forall g, c :: g in groupNames && c in ProfilePermissions(g) && c !in existing ==> c in r.2
    decreases |groupNames|
  {
    if |groupNames| == 0 then (groups, perms, [])
    else
      var g := groupNames[|groupNames| - 1];
      var (groups1, perms1, warnings1) := SetupGroups(groupNames[..|groupNames| - 1], groups, perms, existing);
      var (added, missing) := AttachExisting(ProfilePermissions(g), existing);
      assert forall h :: h in groupNames <==> h == g || h in groupNames[..|groupNames| - 1];
      (groups1 + {g}, perms1[g := added], warnings1 + missing)
  }

  /** `setup_groups_and_permissions()`: the four profile groups exist, each
      group's permission set is cleared and then holds exactly its table
      entries that exist as permissions; every other group is untouched.
      The third component lists the skipped (missing) codenames. */
  function SetupGroupsAndPermissions(groups: set<GroupName>, perms: GroupPerms, existing: set<string>)
    : (r: (set<GroupName>, GroupPerms, seq<string>))
    ensures forall g :: g in ProfileGroupNames ==> g in r.0 && g in r.1
    ensures forall g, c :: g in ProfileGroupNames ==> (c in r.1[g] <==> c in ProfilePermissions(g) && c in existing)
    ensures forall g :: g !in ProfileGroupNames ==> (g in r.0 <==> g in groups)
    ensures forall g :: g !in ProfileGroupNames ==> (g in r.1 <==> g in perms) && (g in perms ==> r.1[g] == perms[g])
    ensures forall c :: c in r.2 ==> c !in existing
    ensures forall g, c :: g in ProfileGroupNames && c in ProfilePermissions(g) && c !in existing ==> c in r.2
  {
    SetupGroups(ProfileGroupNames, groups, perms, existing)
  }
}
