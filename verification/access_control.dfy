/** The discretionary access-control engine: the permission registry, grant
    upserts, group profiles and the `has_permission` decision with its fixed
    precedence (anonymous, superuser, owner, registered codename, user tier,
    group tier, default deny), plus the view decorator and the REST
    framework permission class built on it.

    Database failures are explicit: `Faults` says which of the decision's
    queries raise. The source wraps those queries in `try/except` blocks, so
    a failure never propagates; it only decides which branch is taken. */
module AccessControl {
  import opened Wrappers
  import opened Accounts
  import opened DacModels
  import Ordering

  /** The DAC tables. Permissions and grants are kept in insertion order,
      owners as a set (their whole row is their unique key), and `groups`
      holds the names of the auth groups that exist. */
  datatype Store = Store(
    permissions: seq<Permission>,
    grants: seq<AccessGrant>,
    owners: set<Owner>,
    groups: set<GroupName>)

  const EmptyStore := Store([], [], {}, {})

  predicate Registered(db: Store, codename: string) {
    exists i | 0 <= i < |db.permissions| :: db.permissions[i].codename == codename
  }

  /** The invariant the stores modelled here keep: unique codenames (a
      database constraint), at most one grant per five-field key, and every
      grant's permission row exists. The database does not enforce the key:
      user grants have no group and group grants no user, and SQL unique
      constraints never count NULLs as equal. It holds because every write
      modelled here goes through `get_or_create`. */
  predicate Valid(db: Store) {
    && UniqueCodenames(db.permissions)
    && UniqueGrantKeys(db.grants)
    && (forall i | 0 <= i < |db.grants| :: Registered(db, db.grants[i].permission))
  }

  /** Which of the decision's queries raise. `ownerQuery` covers the
      content-type lookup and the Owner query; `grantQuery` the Permission
      lookup and the user-tier AccessGrant query; `groupQuery` the group
      listing and the group-tier query. */
  datatype Faults = Faults(ownerQuery: bool, grantQuery: bool, groupQuery: bool)

  const NoFaults := Faults(false, false, false)

  // ----- grant matching -----

  /** A grant row filtered by `object_id__in=(obj_id, '*')` on the target. */
  predicate OnTarget(g: AccessGrant, t: Target, codename: string) {
    g.contentType == t.contentType
    && (g.objectId == t.objectId || g.objectId == Wildcard)
    && g.permission == codename
  }

  /** The user tier's query: rows whose `user` column is this user. */
  predicate UserGrant(g: AccessGrant, uid: UserId, t: Target, codename: string) {
    g.user == Some(uid) && OnTarget(g, t, codename)
  }

  /** The group tier's query: rows whose `group` column is one of `groups`. */
  predicate GroupGrant(g: AccessGrant, groups: set<GroupName>, t: Target, codename: string) {
    g.group.Some? && g.group.value in groups && OnTarget(g, t, codename)
  }

  /** Some user-tier row on the target carries `allow == verdict`. */
  predicate UserHas(grants: seq<AccessGrant>, uid: UserId, t: Target, codename: string, verdict: bool) {
    exists i | 0 <= i < |grants| :: UserGrant(grants[i], uid, t, codename) && grants[i].allow == verdict
  }

  /** Some group-tier row on the target carries `allow == verdict`. */
  predicate GroupHas(grants: seq<AccessGrant>, groups: set<GroupName>, t: Target, codename: string, verdict: bool) {
    exists i | 0 <= i < |grants| :: GroupGrant(grants[i], groups, t, codename) && grants[i].allow == verdict
  }

  /** The owner check succeeds. Filtering by a user that is not a stored
      user raises, and the `except` skips that tier. */
  predicate OwnsTarget(db: Store, u: User, t: Target, f: Faults) {
    !f.ownerQuery && u.isAuthenticated && Owner(u.id, t.contentType, t.objectId) in db.owners
  }

  /** `has_permission(user, obj, codename)`. */
  function HasPermission(db: Store, user: Option<User>, t: Target, codename: string, f: Faults): bool {
    match user
    case None => false
    case Some(u) =>
      if u.isSuperuser then true
      else if OwnsTarget(db, u, t, f) then true
      // the outer try: Permission lookup, then the user-tier query
      else if f.grantQuery || !Registered(db, codename) || !u.isAuthenticated then false
      else if UserHas(db.grants, u.id, t, codename, false) then false
      else if UserHas(db.grants, u.id, t, codename, true) then true
      // the inner try: group listing, then the group-tier query
      else if f.groupQuery || |u.groups| == 0 then false
      else if GroupHas(db.grants, u.groups, t, codename, false) then false
      else GroupHas(db.grants, u.groups, t, codename, true)
  }

  // ----- properties of the decision -----

  lemma NoUserDenied(db: Store, t: Target, codename: string, f: Faults)
    ensures !HasPermission(db, None, t, codename, f)
  {
  }

  /** An anonymous user (not a stored user) is denied everything: every
      query filtered by it raises and is swallowed. */
  lemma AnonymousDenied(db: Store, t: Target, codename: string, f: Faults)
    ensures !HasPermission(db, Some(Anonymous), t, codename, f)
  {
  }

  lemma SuperuserAllowed(db: Store, u: User, t: Target, codename: string, f: Faults)
    requires u.isSuperuser
    ensures HasPermission(db, Some(u), t, codename, f)
  {
  }

  /** An owner row passes before the codename is looked up, so even an
      unregistered codename is allowed. */
  lemma OwnerAllowed(db: Store, u: User, t: Target, codename: string)
    requires u.isAuthenticated
    requires Owner(u.id, t.contentType, t.objectId) in db.owners
    ensures HasPermission(db, Some(u), t, codename, NoFaults)
  {
  }

  /** For anyone but a superuser or owner an unregistered codename is
      denied; checking never registers it. */
  lemma UnregisteredDenied(db: Store, u: User, t: Target, codename: string, f: Faults)
    requires !u.isSuperuser && !OwnsTarget(db, u, t, f)
    requires !Registered(db, codename)
    ensures !HasPermission(db, Some(u), t, codename, f)
  {
  }

  /** User tier: a deny on the object or on '*' wins over any allow, at
      either tier. */
  lemma UserDenyWins(db: Store, u: User, t: Target, codename: string, f: Faults)
    requires !u.isSuperuser && !OwnsTarget(db, u, t, f)
    requires UserHas(db.grants, u.id, t, codename, false)
    ensures !HasPermission(db, Some(u), t, codename, f)
  {
  }

  /** User tier: without a user deny, a user allow decides, so it beats a
      group-level deny. */
  lemma UserAllowBeatsGroupDeny(db: Store, u: User, t: Target, codename: string)
    requires u.isAuthenticated && Registered(db, codename)
    requires !UserHas(db.grants, u.id, t, codename, false)
    requires UserHas(db.grants, u.id, t, codename, true)
    ensures HasPermission(db, Some(u), t, codename, NoFaults)
  {
  }

  /** Group tier, reached when the user tier is silent: a group deny wins,
      otherwise a group allow grants. */
  lemma GroupTier(db: Store, u: User, t: Target, codename: string)
    requires !u.isSuperuser && !OwnsTarget(db, u, t, NoFaults)
    requires u.isAuthenticated && Registered(db, codename)
    requires !UserHas(db.grants, u.id, t, codename, false)
    requires !UserHas(db.grants, u.id, t, codename, true)
    ensures HasPermission(db, Some(u), t, codename, NoFaults)
        <==> !GroupHas(db.grants, u.groups, t, codename, false) && GroupHas(db.grants, u.groups, t, codename, true)
  {
  }

  /** Everything that ends up allowed is allowed for one of four reasons. */
  lemma AllowedOnlyFor(db: Store, user: Option<User>, t: Target, codename: string, f: Faults)
    requires HasPermission(db, user, t, codename, f)
    ensures user.Some?
    ensures || user.value.isSuperuser
            || Owner(user.value.id, t.contentType, t.objectId) in db.owners
            || UserHas(db.grants, user.value.id, t, codename, true)
            || GroupHas(db.grants, user.value.groups, t, codename, true)
  {
  }

  /** A failing query never turns a denial into an allow. */
  lemma FaultsNeverGrant(db: Store, user: Option<User>, t: Target, codename: string, f: Faults)
    requires HasPermission(db, user, t, codename, f)
    ensures HasPermission(db, user, t, codename, NoFaults)
  {
  }

  // ----- the decision as a single scan of the grant table -----

  /** `has_permission` evaluated by one pass over the grant rows, collecting
      the four `exists()` answers at once. */
  method CheckPermission(db: Store, user: Option<User>, t: Target, codename: string, f: Faults) returns (r: bool)
    ensures r == HasPermission(db, user, t, codename, f)
  {
    if user.None? {
      return false;
    }
    var u := user.value;
    if u.isSuperuser || OwnsTarget(db, u, t, f) {
      return true;
    }
    var registered := false;
    var k := 0;
    while k < |db.permissions|
      invariant 0 <= k <= |db.permissions|
      invariant registered <==> exists i | 0 <= i < k :: db.permissions[i].codename == codename
    {
      registered := registered || db.permissions[k].codename == codename;
      k := k + 1;
    }
    if f.grantQuery || !registered || !u.isAuthenticated {
      return false;
    }
    var userDeny, userAllow, groupDeny, groupAllow := false, false, false, false;
    var n := 0;
    while n < |db.grants|
      invariant 0 <= n <= |db.grants|
      invariant userDeny == UserHas(db.grants[..n], u.id, t, codename, false)
      invariant userAllow == UserHas(db.grants[..n], u.id, t, codename, true)
      invariant groupDeny == GroupHas(db.grants[..n], u.groups, t, codename, false)
      invariant groupAllow == GroupHas(db.grants[..n], u.groups, t, codename, true)
    {
      var g := db.grants[n];
      assert db.grants[..n + 1] == db.grants[..n] + [g];
      if UserGrant(g, u.id, t, codename) {
        if g.allow { userAllow := true; } else { userDeny := true; }
      }
      if GroupGrant(g, u.groups, t, codename) {
        if g.allow { groupAllow := true; } else { groupDeny := true; }
      }
      n := n + 1;
    }
    assert db.grants[..n] == db.grants;
    if userDeny {
      r := false;
    } else if userAllow {
      r := true;
    } else if f.groupQuery || |u.groups| == 0 {
      r := false;
    } else {
      r := !groupDeny && groupAllow;
    }
  }

  // ----- the permission registry -----

  /** Index of the Permission row with this codename. */
  function FindPermission(perms: seq<Permission>, codename: string): (r: Option<nat>)
    ensures r.Some? ==> r.value < |perms| && perms[r.value].codename == codename
    ensures r.None? ==> forall i :: 0 <= i < |perms| ==> perms[i].codename != codename
  {
    if |perms| == 0 then None
    else if perms[|perms| - 1].codename == codename then Some(|perms| - 1)
    else FindPermission(perms[..|perms| - 1], codename)
  }

  /** `get_permission(codename)`: `get_or_create` with the codename as the
      default name. */
  function GetPermission(db: Store, codename: string): (r: (Store, Permission))
    requires Valid(db)
    ensures Valid(r.0)
    ensures r.1.codename == codename && Registered(r.0, codename)
    ensures r.0.grants == db.grants && r.0.owners == db.owners && r.0.groups == db.groups
    ensures Registered(db, codename) ==> r.0 == db && r.1 in db.permissions
    ensures !Registered(db, codename) ==> r.0.permissions == db.permissions + [Permission(codename, codename)]
    ensures forall c :: Registered(r.0, c) <==> Registered(db, c) || c == codename
  {
    match FindPermission(db.permissions, codename)
    case Some(i) => (db, db.permissions[i])
    case None =>
      var p := Permission(codename, codename);
      var db' := db.(permissions := db.permissions + [p]);
      assert db'.permissions[|db.permissions|] == p;
      assert forall c :: Registered(db, c) ==> Registered(db', c) by {
        forall c | Registered(db, c) ensures Registered(db', c) {
          var i :| 0 <= i < |db.permissions| && db.permissions[i].codename == c;
          assert db'.permissions[i].codename == c;
        }
      }
      (db', p)
  }

  // ----- grant upserts -----

  /** Index of the grant row with this key. */
  function FindGrant(grants: seq<AccessGrant>, key: GrantKey): (r: Option<nat>)
    ensures r.Some? ==> r.value < |grants| && KeyOf(grants[r.value]) == key
    ensures r.None? ==> forall i :: 0 <= i < |grants| ==> KeyOf(grants[i]) != key
  {
    if |grants| == 0 then None
    else if KeyOf(grants[|grants| - 1]) == key then Some(|grants| - 1)
    else FindGrant(grants[..|grants| - 1], key)
  }

  /** `get_or_create(key, defaults={'allow': allow})` followed by setting
      `allow` when the row existed with the other value. */
  function UpsertGrant(grants: seq<AccessGrant>, key: GrantKey, allow: bool): (r: (seq<AccessGrant>, AccessGrant))
    requires UniqueGrantKeys(grants)
    ensures UniqueGrantKeys(r.0)
    ensures KeyOf(r.1) == key && r.1.allow == allow && r.1 in r.0
    ensures forall i :: 0 <= i < |r.0| && KeyOf(r.0[i]) == key ==> r.0[i] == r.1
    ensures forall g :: KeyOf(g) != key ==> (g in r.0 <==> g in grants)
    ensures |r.0| == |grants| || r.0 == grants + [r.1]
  {
    var g := NewGrant(key).(allow := allow);
    match FindGrant(grants, key)
    case Some(i) =>
      var r := grants[i := g];
      assert forall j :: 0 <= j < |r| ==> KeyOf(r[j]) == KeyOf(grants[j]);
      assert forall j :: 0 <= j < |r| && j != i ==> KeyOf(r[j]) != key;
      assert forall h :: KeyOf(h) != key ==> (h in r <==> h in grants) by {
        forall h | KeyOf(h) != key ensures h in r <==> h in grants {
          if h in grants {
            var j :| 0 <= j < |grants| && grants[j] == h;
            assert r[j] == h;
          }
        }
      }
      (r, g)
    case None =>
      (grants + [g], g)
  }

  /** `get_or_create(key, defaults={'allow': True})` alone: an existing row,
      whatever its `allow`, is returned unchanged. */
  function GetOrCreateGrant(grants: seq<AccessGrant>, key: GrantKey): (r: (seq<AccessGrant>, AccessGrant))
    requires UniqueGrantKeys(grants)
    ensures UniqueGrantKeys(r.0)
    ensures KeyOf(r.1) == key && r.1 in r.0
    ensures r.1 in grants ==> r.0 == grants
    ensures r.1 !in grants ==> r.0 == grants + [r.1] && r.1.allow
    ensures forall i :: 0 <= i < |grants| ==> KeyOf(grants[i]) == key ==> r.1 == grants[i]
  {
    match FindGrant(grants, key)
    case Some(i) =>
      assert forall j :: 0 <= j < |grants| ==> KeyOf(grants[j]) == key ==> j == i;
      (grants, grants[i])
    case None =>
      var g := NewGrant(key);
      (grants + [g], g)
  }

  /** `get_or_create` on the grant table of a store that has the key's
      permission row: the table only grows at its end. */
  function GetOrCreateIn(db: Store, key: GrantKey): (r: (Store, AccessGrant))
    requires Valid(db) && Registered(db, key.permission)
    ensures Valid(r.0)
    ensures r.0.permissions == db.permissions && r.0.owners == db.owners && r.0.groups == db.groups
    ensures KeyOf(r.1) == key && r.1 in r.0.grants
    ensures |db.grants| <= |r.0.grants| && r.0.grants[..|db.grants|] == db.grants
    ensures r.1 in db.grants ==> r.0 == db
    ensures r.1 !in db.grants ==> r.0.grants == db.grants + [r.1] && r.1.allow
    ensures forall i :: 0 <= i < |db.grants| ==> KeyOf(db.grants[i]) == key ==> r.1 == db.grants[i]
  {
    var (grants, g) := GetOrCreateGrant(db.grants, key);
    var db2 := db.(grants := grants);
    assert Valid(db2) by {
      forall i | 0 <= i < |grants| ensures Registered(db2, grants[i].permission) {
        if i < |db.grants| {
          assert grants[i] == db.grants[i];
        }
      }
    }
    assert grants[..|db.grants|] == db.grants;
    (db2, g)
  }

  /** Registering the codename keeps every grant's permission row present. */
  lemma RegistryGrows(db: Store, db': Store)
    requires forall c :: Registered(db, c) ==> Registered(db', c)
    requires forall i | 0 <= i < |db.grants| :: Registered(db, db.grants[i].permission)
    ensures forall i | 0 <= i < |db.grants| :: Registered(db', db.grants[i].permission)
  {
  }

  /** Store after `GetPermission` then `UpsertGrant` on `key`. */
  function GrantWith(db: Store, key: GrantKey, allow: bool): (r: (Store, AccessGrant))
    requires Valid(db)
    ensures Valid(r.0)
    ensures KeyOf(r.1) == key && r.1.allow == allow && r.1 in r.0.grants
    ensures Registered(r.0, key.permission)
    ensures forall i :: 0 <= i < |r.0.grants| && KeyOf(r.0.grants[i]) == key ==> r.0.grants[i] == r.1
    ensures forall g :: KeyOf(g) != key ==> (g in r.0.grants <==> g in db.grants)
    ensures r.0.owners == db.owners && r.0.groups == db.groups
    ensures forall c :: Registered(r.0, c) <==> Registered(db, c) || c == key.permission
  {
    var (db1, _) := GetPermission(db, key.permission);
    var (grants, g) := UpsertGrant(db1.grants, key, allow);
    var db2 := db1.(grants := grants);
    assert forall i | 0 <= i < |grants| :: Registered(db2, grants[i].permission) by {
      forall i | 0 <= i < |grants| ensures Registered(db2, grants[i].permission) {
        if KeyOf(grants[i]) != key {
          assert grants[i] in db1.grants;
          var j :| 0 <= j < |db1.grants| && db1.grants[j] == grants[i];
          assert Registered(db1, db1.grants[j].permission);
        }
      }
    }
    (db2, g)
  }

  /** `grant_permission(user, obj, codename, allow)`: afterwards exactly one
      row has the key (user, no group, target, codename), with `allow`
      equal to the argument; every other row is unchanged. */
  function GrantPermission(db: Store, uid: UserId, t: Target, codename: string, allow: bool): (r: (Store, AccessGrant))
    requires Valid(db)
    ensures Valid(r.0)
    ensures r.1.user == Some(uid) && r.1.group.None?
    ensures r.1.contentType == t.contentType && r.1.objectId == t.objectId && r.1.permission == codename
    ensures r.1.allow == allow && r.1 in r.0.grants
    ensures forall i :: 0 <= i < |r.0.grants| && KeyOf(r.0.grants[i]) == KeyOf(r.1) ==> r.0.grants[i] == r.1
    ensures forall g :: KeyOf(g) != KeyOf(r.1) ==> (g in r.0.grants <==> g in db.grants)
    ensures Registered(r.0, codename)
    ensures r.0.owners == db.owners
  {
    GrantWith(db, GrantKey(Some(uid), None, t.contentType, t.objectId, codename), allow)
  }

  /** `grant_group_permission(group, obj, codename, allow)`. */
  function GrantGroupPermission(db: Store, group: GroupName, t: Target, codename: string, allow: bool): (r: (Store, AccessGrant))
    requires Valid(db)
    ensures Valid(r.0)
    ensures r.1.user.None? && r.1.group == Some(group)
    ensures r.1.contentType == t.contentType && r.1.objectId == t.objectId && r.1.permission == codename
    ensures r.1.allow == allow && r.1 in r.0.grants
    ensures forall i :: 0 <= i < |r.0.grants| && KeyOf(r.0.grants[i]) == KeyOf(r.1) ==> r.0.grants[i] == r.1
    ensures forall g :: KeyOf(g) != KeyOf(r.1) ==> (g in r.0.grants <==> g in db.grants)
    ensures Registered(r.0, codename)
    ensures r.0.owners == db.owners
  {
    GrantWith(db, GrantKey(None, Some(group), t.contentType, t.objectId, codename), allow)
  }

  /** Granting twice with the same arguments changes nothing the second time. */
  lemma GrantIdempotent(db: Store, uid: UserId, t: Target, codename: string, allow: bool)
    requires Valid(db)
    ensures GrantPermission(GrantPermission(db, uid, t, codename, allow).0, uid, t, codename, allow).0
         == GrantPermission(db, uid, t, codename, allow).0
  {
    var (db1, g) := GrantPermission(db, uid, t, codename, allow);
    var key := KeyOf(g);
    var i := FindGrant(db1.grants, key).value;
    assert db1.grants[i] == g;
    assert db1.grants[i := g] == db1.grants;
    assert FindPermission(db1.permissions, codename).Some?;
  }

  /** Granting a deny to a user who is neither superuser nor owner makes
      `has_permission` for that user, target and codename fail. */
  lemma GrantDenyThenCheck(db: Store, u: User, t: Target, codename: string)
    requires Valid(db) && !u.isSuperuser
    requires Owner(u.id, t.contentType, t.objectId) !in db.owners
    ensures !HasPermission(GrantPermission(db, u.id, t, codename, false).0, Some(u), t, codename, NoFaults)
  {
    var (db1, g) := GrantPermission(db, u.id, t, codename, false);
    var i :| 0 <= i < |db1.grants| && db1.grants[i] == g;
    assert UserGrant(db1.grants[i], u.id, t, codename);
  }

  /** Granting an allow makes `has_permission` pass, provided no other user-tier
      row on the object or on '*' denies it. */
  lemma GrantAllowThenCheck(db: Store, u: User, t: Target, codename: string)
    requires Valid(db) && u.isAuthenticated
    requires forall i :: 0 <= i < |db.grants| && UserGrant(db.grants[i], u.id, t, codename)
                && KeyOf(db.grants[i]) != GrantKey(Some(u.id), None, t.contentType, t.objectId, codename)
                ==> db.grants[i].allow
    ensures HasPermission(GrantPermission(db, u.id, t, codename, true).0, Some(u), t, codename, NoFaults)
  {
    var (db1, g) := GrantPermission(db, u.id, t, codename, true);
    var i :| 0 <= i < |db1.grants| && db1.grants[i] == g;
    assert UserGrant(db1.grants[i], u.id, t, codename);
  }

  // ----- group profiles -----

  /** One requested permission of `create_profile`: a codename and a model,
      None standing for the site-wide grant. */
  type ProfilePermission = (string, Option<ContentType>)

  /** The content type of a profile grant: the model's, or Group's as the
      sentinel for a site-wide grant. */
  function ProfileContentType(model: Option<ContentType>): ContentType {
    model.GetOr(GroupType)
  }

  function ProfileKey(name: GroupName, p: ProfilePermission): GrantKey {
    GrantKey(None, Some(name), ProfileContentType(p.1), Wildcard, p.0)
  }

  /** Some row of `grants` has `key`. */
  predicate HasKey(grants: seq<AccessGrant>, key: GrantKey) {
    exists i | 0 <= i < |grants| :: KeyOf(grants[i]) == key
  }

  /** `r` keeps every row of `db` in place and only appends wildcard allow
      rows for group `name`; the registry only grows. */
  ghost predicate AppendsProfileRows(db: Store, r: Store, name: GroupName) {
    && |db.grants| <= |r.grants| && r.grants[..|db.grants|] == db.grants
    && (forall i | |db.grants| <= i < |r.grants| ::
          r.grants[i].allow && r.grants[i].group == Some(name) && r.grants[i].user.None?
          && r.grants[i].objectId == Wildcard)
    && (forall c :: Registered(db, c) ==> Registered(r, c))
    && r.owners == db.owners && r.groups == db.groups
  }

  lemma {:induction false} AppendsProfileRowsTrans(a: Store, b: Store, c: Store, name: GroupName, key: GrantKey)
    requires AppendsProfileRows(a, b, name) && AppendsProfileRows(b, c, name)
    ensures AppendsProfileRows(a, c, name)
    ensures HasKey(b.grants, key) ==> HasKey(c.grants, key)
  {
    assert c.grants[..|a.grants|] == c.grants[..|b.grants|][..|a.grants|];
    if HasKey(b.grants, key) {
      var i :| 0 <= i < |b.grants| && KeyOf(b.grants[i]) == key;
      assert c.grants[..|b.grants|][i] == b.grants[i];
    }
  }

  /** One iteration of `create_profile`'s loop. */
  function AddProfileGrant(db: Store, name: GroupName, p: ProfilePermission): (r: Store)
    requires Valid(db)
    ensures Valid(r)
    ensures AppendsProfileRows(db, r, name)
    ensures HasKey(r.grants, ProfileKey(name, p))
    ensures Registered(r, p.0)
  {
    var (db1, _) := GetPermission(db, p.0);
    GetOrCreateIn(db1, ProfileKey(name, p)).0
  }

  /** The loop of `create_profile`, one permission at a time. */
  function AddProfileGrants(db: Store, name: GroupName, perms: seq<ProfilePermission>): (r: Store)
    requires Valid(db)
    ensures Valid(r)
    ensures AppendsProfileRows(db, r, name)
    ensures forall p | p in perms :: HasKey(r.grants, ProfileKey(name, p)) && Registered(r, p.0)
    decreases |perms|
  {
    if |perms| == 0 then
      assert db.grants[..|db.grants|] == db.grants;
      db
    else
      var db1 := AddProfileGrant(db, name, perms[0]);
      var r := AddProfileGrants(db1, name, perms[1..]);
      AppendsProfileRowsTrans(db, db1, r, name, ProfileKey(name, perms[0]));
      assert forall q | q in perms :: q == perms[0] || q in perms[1..];
      r
  }

  /** `create_profile(name, permissions)`: the group exists afterwards; each
      listed permission has a wildcard row for the group, created with
      `allow=True` when new; rows that existed before are untouched. */
  function CreateProfile(db: Store, name: GroupName, perms: seq<ProfilePermission>): (r: Store)
    requires Valid(db)
    ensures Valid(r)
    ensures r.groups == db.groups + {name}
    ensures |db.grants| <= |r.grants| && r.grants[..|db.grants|] == db.grants
    ensures forall i | |db.grants| <= i < |r.grants| :: r.grants[i].allow && r.grants[i].objectId == Wildcard
    ensures forall p | p in perms :: HasKey(r.grants, ProfileKey(name, p)) && Registered(r, p.0)
  {
    AddProfileGrants(db.(groups := db.groups + {name}), name, perms)
  }

  /** An existing deny row for the profile is left as it was. */
  lemma CreateProfileKeepsDeny(db: Store, name: GroupName, perms: seq<ProfilePermission>, i: nat)
    requires Valid(db) && i < |db.grants| && !db.grants[i].allow
    ensures CreateProfile(db, name, perms).grants[i] == db.grants[i]
    ensures !CreateProfile(db, name, perms).grants[i].allow
  {
    var r := CreateProfile(db, name, perms);
    assert r.grants[..|db.grants|][i] == db.grants[i];
  }

  // ----- the view decorator -----

  datatype ViewOutcome = RunView | Forbidden(message: string)

  /** The `pk` or `id` keyword argument of the view: `kwargs.get('pk') or
      kwargs.get('id')`, where an empty string is falsy. */
  function PkArgument(pk: Option<string>, id: Option<string>): Option<string> {
    if pk.Some? && pk.value != "" then pk else id
  }

  /** `require_permission(codename)` around a view: without a target object
      the view is refused (the decorator cannot resolve objects itself);
      otherwise it runs exactly when `has_permission` allows it. */
  function RequirePermission(db: Store, user: Option<User>, target: Option<Target>,
                             pk: Option<string>, id: Option<string>, codename: string, f: Faults): (r: ViewOutcome)
    ensures target.None? && PkArgument(pk, id).None? ==> r == Forbidden("Missing target object for permission check")
    ensures target.None? && PkArgument(pk, id).Some? ==> r == Forbidden("Cannot resolve object for permission check")
    ensures target.Some? ==> (r == RunView <==> HasPermission(db, user, target.value, codename, f))
    ensures target.Some? && r != RunView ==> r == Forbidden("Permission denied")
  {
    match target
    case None =>
      if PkArgument(pk, id).None? then Forbidden("Missing target object for permission check")
      else Forbidden("Cannot resolve object for permission check")
    case Some(t) =>
      if HasPermission(db, user, t, codename, f) then RunView else Forbidden("Permission denied")
  }

  // ----- the REST framework permission class -----

  /** REST framework's SAFE_METHODS. */
  predicate IsSafeMethod(verb: string) {
    verb == "GET" || verb == "HEAD" || verb == "OPTIONS"
  }

  /** `DRFDACPermission.has_permission` (view level). */
  function ViewPermission(verb: string, user: Option<User>): (r: bool)
    ensures IsSafeMethod(verb) ==> r
    ensures verb == "POST" ==> (r <==> user.Some? && user.value.isAuthenticated)
    ensures !IsSafeMethod(verb) && verb != "POST" ==> r
  {
    if IsSafeMethod(verb) then true
    else if verb == "POST" then user.Some? && user.value.isAuthenticated
    else true
  }

  /** `DRFDACPermission.has_object_permission`: writes need 'write'. */
  function ObjectPermission(db: Store, verb: string, user: Option<User>, t: Target, f: Faults): (r: bool)
    ensures IsSafeMethod(verb) ==> r
    ensures !IsSafeMethod(verb) ==> r == HasPermission(db, user, t, "write", f)
  {
    if IsSafeMethod(verb) then true else HasPermission(db, user, t, "write", f)
  }

  /** A request on one object passes both levels. */
  function Authorize(db: Store, verb: string, user: Option<User>, t: Target, f: Faults): bool {
    ViewPermission(verb, user) && ObjectPermission(db, verb, user, t, f)
  }

  /** Reads pass for anyone; an anonymous POST is refused; any other write
      on an object is exactly the 'write' permission. */
  lemma AuthorizeCases(db: Store, verb: string, user: Option<User>, t: Target, f: Faults)
    ensures IsSafeMethod(verb) ==> Authorize(db, verb, user, t, f)
    ensures verb == "POST" && (user.None? || !user.value.isAuthenticated) ==> !Authorize(db, verb, user, t, f)
    ensures !IsSafeMethod(verb) && verb != "POST" ==> (Authorize(db, verb, user, t, f) <==> HasPermission(db, user, t, "write", f))
  {
  }
}
