/** The profile administration endpoints: profiles are auth groups; staff
    alone may create, change or delete them; the extra actions add and
    remove users and grant permissions to a profile.

    The actions carry an `IsAdminUser` permission-classes decorator under
    `@action`; the REST framework reads the permission classes of a
    viewset action from the `@action` arguments only, so the gate that
    applies is the viewset's `IsAuthenticatedOrReadOnly`. */
module DacView {
  import opened Wrappers
  import opened Accounts
  import opened DacModels
  import opened AccessControl
  import opened UserProfiles
  import opened Profiles
  import opened Text
  import opened JsValues

  /** A JSON reply: status code and `detail`. */
  datatype Reply = Reply(status: int, detail: string)

  datatype ProfileAction = CreateProfileAction | UpdateProfileAction | PartialUpdateProfileAction | DestroyProfileAction

  /** The staff gate of the four write actions: None lets the default
      implementation run. */
  function StaffGate(user: Option<User>, action: ProfileAction): (r: Option<Reply>)
    ensures r.None? <==> user.Some? && user.value.isStaff
    ensures r.Some? ==> r.value.status == 403
  {
    if user.Some? && user.value.isStaff then None
    else
      Some(Reply(403, match action
        case CreateProfileAction => "Only administrators can create profiles"
        case UpdateProfileAction => "Only administrators can modify profiles"
        case PartialUpdateProfileAction => "Only administrators can modify profiles"
        case DestroyProfileAction => "Only administrators can delete profiles"))
  }

  /** The gate the extra actions actually get: `IsAuthenticatedOrReadOnly`. */
  function ActionGateAsWritten(verb: string, user: User): bool {
    IsSafeMethod(verb) || user.isAuthenticated
  }

  /** Any signed-in user, staff or not, passes the gate of the POST
      actions (add-user, remove-user, grant). */
  lemma ActionGateAsWrittenAdmitsNonStaff()
    ensures var u := User(7, "reader", "", false, false, true, true, {}, {}, Some("home_only"));
            ActionGateAsWritten("POST", u) && !u.isStaff
  {
  }

  /** The gate the `IsAdminUser` decorator asks for: staff users only. */
  function ActionGate(verb: string, user: User): (r: bool)
    ensures r <==> user.isStaff
  {
    user.isStaff
  }

  // ----- add-user / remove-user -----

  /** The users table. */
  type Users = map<UserId, User>

  /** `request.data.get('user_id')`: a decoded JSON value, or the text of
      a form field (`Str`); a missing key reads as `Undefined`. */
  type UserIdArg = JsVal

  /** Python truthiness of a decoded value: null, false, zero, empty
      text, an empty list and an empty dict are false. */
  predicate PyTruthy(v: JsVal) {
    match v
    case Undefined => false
    case Null => false
    case Bool(b) => b
    case Num(n) => n != 0
    case Str(s) => s != ""
    case Arr(items) => items != []
    case Obj(fields) => fields != map[]
  }

  /** The key `User.objects.get(pk=v)` looks up: the id field converts
      with `int(v)`; a bool counts as 0 or 1, text is parsed, and lists
      and dicts have no integer value. */
  function PkOf(v: JsVal): Option<int> {
    match v
    case Bool(b) => Some(if b then 1 else 0)
    case Num(n) => Some(n)
    case Str(s) => PyInt(s)
    case _ => None
  }

  /** The message of the error the id field raises for a value it cannot
      convert; the project's exception handler answers it with a 500. */
  const PkErrorDetail: string := "Field 'id' expected a number"

  datatype Result = Failed(reply: Reply) | Found(id: UserId, user: User)

  /** The outcome of validating `user_id`: a reply, or the user. */
  function LookupUser(users: Users, userId: UserIdArg): (r: Result)
    ensures !PyTruthy(userId) <==> r == Failed(Reply(400, "user_id required"))
    ensures PyTruthy(userId) && PkOf(userId).None? ==> r == Failed(Reply(500, PkErrorDetail))
    ensures PyTruthy(userId) && PkOf(userId).Some? && (PkOf(userId).value < 0 || PkOf(userId).value !in users) ==>
              r == Failed(Reply(404, "user not found"))
    ensures r.Found? ==> PyTruthy(userId) && PkOf(userId) == Some(r.id as int) && r.id in users && r.user == users[r.id]
  {
    if !PyTruthy(userId) then Failed(Reply(400, "user_id required"))
    else match PkOf(userId)
      case None => Failed(Reply(500, PkErrorDetail))
      case Some(n) =>
        if n < 0 || n !in users then Failed(Reply(404, "user not found"))
        else Found(n, users[n])
  }

  /** A form field holding the decimal text of an id finds what the JSON
      number finds, except for 0: the number is falsy, the text "0" is not. */
  lemma LookupUserFormText(users: Users, n: int)
    ensures n != 0 ==> LookupUser(users, Str(IntText(n))) == LookupUser(users, Num(n))
    ensures LookupUser(users, Num(0)) == Failed(Reply(400, "user_id required"))
    ensures 0 !in users ==> LookupUser(users, Str(IntText(0))) == Failed(Reply(404, "user not found"))
  {
    TextKey(n);
    TextKey(0);
    if n != 0 {
      SameKeySameLookup(users, Str(IntText(n)), Num(n));
    }
  }

  /** The decimal text of an id is truthy and converts back to the id. */
  lemma TextKey(n: int)
    ensures PyTruthy(Str(IntText(n))) && PkOf(Str(IntText(n))) == Some(n)
  {
    PyIntText(n);
  }

  /** The lookup sees only the value's truthiness and its key. */
  lemma SameKeySameLookup(users: Users, a: UserIdArg, b: UserIdArg)
    requires PyTruthy(a) == PyTruthy(b) && PkOf(a) == PkOf(b)
    ensures LookupUser(users, a) == LookupUser(users, b)
  {
  }

  /** JSON `true` finds the user with id 1; text that is not a number
      fails with the server error, not with 404. */
  lemma LookupUserOddValues(users: Users, s: string)
    requires s != "" && forall i :: 0 <= i < |s| ==> !IsDigit(s[i])
    ensures LookupUser(users, Bool(true)) == LookupUser(users, Num(1))
    ensures LookupUser(users, Str(s)) == Failed(Reply(500, PkErrorDetail))
  {
    SameKeySameLookup(users, Bool(true), Num(1));
    if PyInt(s).Some? {
      PyIntNeedsDigit(s);
    }
  }

  /** `user.save()`: the post-save receivers re-save the profile, whose
      group synchronisation as written leaves a user with a profile in
      exactly the profile's group. */
  function SaveUser(u: User): (r: User)
    ensures r.profile == u.profile && r.id == u.id
    ensures u.profile.Some? ==> forall g :: g in r.groups <==> ProfileGroup(u.profile.value) == Some(g)
    ensures u.profile.None? ==> r == u
  {
    UserPostSave(u, false)
  }

  /** `user.save()` with the corrected synchronisation: every group
      outside the profile table is kept. */
  function SaveUserCorrected(u: User): (r: User)
    ensures forall g :: g !in ProfileGroupSet() ==> (g in r.groups <==> g in u.groups)
    ensures r.profile == u.profile && r.id == u.id
  {
    UserPostSaveCorrected(u, false)
  }

  /** `add_user` as written: the group is added, then the save clears all
      groups of a user with a profile and re-adds only the profile's. */
  function AddUserAsWritten(users: Users, group: GroupName, userId: UserIdArg): (r: (Users, Reply))
    ensures r.1.status != 200 ==> r.0 == users
    ensures r.1.status == 200 <==> LookupUser(users, userId).Found?
    ensures r.1.status == 200 ==>
              var id := LookupUser(users, userId).id;
              var u := users[id];
              && r.1.detail == "user added"
              && id in r.0 && r.0.Keys == users.Keys
              && (u.profile.Some? ==> forall g :: g in r.0[id].groups <==> ProfileGroup(u.profile.value) == Some(g))
              && (u.profile.None? ==> r.0[id].groups == u.groups + {group})
  {
    match LookupUser(users, userId)
    case Failed(reply) => (users, reply)
    case Found(id, u) => (users[id := SaveUser(u.(groups := u.groups + {group}))], Reply(200, "user added"))
  }

  /** Adding a user with a profile to a group that is not their profile's
      group reports success but leaves them outside it. */
  lemma AddUserAsWrittenLosesGroup()
    ensures var u := User(1, "reader", "", false, false, true, true, {}, {}, Some("home_only"));
            var r := AddUserAsWritten(map[1 := u], "Editors", Num(1));
            r.1 == Reply(200, "user added") && "Editors" !in r.0[1].groups
  {
  }

  /** `add_user` with the profile synchronisation limited to profile
      groups: on success the user is in the group (unless it is another
      profile's group, which the profile decides) and keeps every other
      non-profile group. */
  function AddUser(users: Users, group: GroupName, userId: UserIdArg): (r: (Users, Reply))
    ensures r.1.status != 200 ==> r.0 == users
    ensures r.1.status == 200 <==> LookupUser(users, userId).Found?
    ensures r.1.status == 200 ==>
              var id := LookupUser(users, userId).id;
              && r.1.detail == "user added"
              && id in r.0 && r.0.Keys == users.Keys
              && (group !in ProfileGroupSet() ==> group in r.0[id].groups)
              && (forall g :: g !in ProfileGroupSet() && g in users[id].groups ==> g in r.0[id].groups)
  {
    match LookupUser(users, userId)
    case Failed(reply) => (users, reply)
    case Found(id, u) => (users[id := SaveUserCorrected(u.(groups := u.groups + {group}))], Reply(200, "user added"))
  }

  /** `remove_user`: the group is removed, then the user is saved. The
      save as written removes every other group of a user with a profile
      too, leaving only the profile's group. */
  function RemoveUser(users: Users, group: GroupName, userId: UserIdArg): (r: (Users, Reply))
    ensures r.1.status != 200 ==> r.0 == users
    ensures r.1.status == 200 <==> LookupUser(users, userId).Found?
    ensures r.1.status == 200 ==>
              var id := LookupUser(users, userId).id;
              var u := users[id];
              && r.1.detail == "user removed"
              && id in r.0 && r.0.Keys == users.Keys
              && (group !in ProfileGroupSet() ==> group !in r.0[id].groups)
              && (u.profile.Some? ==> forall g :: g in r.0[id].groups <==> ProfileGroup(u.profile.value) == Some(g))
              && (u.profile.None? ==> r.0[id].groups == u.groups - {group})
  {
    match LookupUser(users, userId)
    case Failed(reply) => (users, reply)
    case Found(id, u) => (users[id := SaveUser(u.(groups := u.groups - {group}))], Reply(200, "user removed"))
  }

  /** `remove_user` with the corrected synchronisation: only the named
      group is left (a profile's own group comes back with the profile). */
  function RemoveUserCorrected(users: Users, group: GroupName, userId: UserIdArg): (r: (Users, Reply))
    ensures r.1.status != 200 ==> r.0 == users
    ensures r.1.status == 200 <==> LookupUser(users, userId).Found?
    ensures r.1.status == 200 ==>
              var id := LookupUser(users, userId).id;
              && r.1.detail == "user removed"
              && id in r.0 && r.0.Keys == users.Keys
              && (forall g :: g !in ProfileGroupSet() ==> (g in r.0[id].groups <==> g in users[id].groups && g != group))
  {
    match LookupUser(users, userId)
    case Failed(reply) => (users, reply)
    case Found(id, u) => (users[id := SaveUserCorrected(u.(groups := u.groups - {group}))], Reply(200, "user removed"))
  }

  // ----- grant / grants -----

  /** `request.data.get('object_id', '*')`: absent, JSON null, or a value
      given by its `str()`. */
  datatype ObjectIdArg = Absent | Null | Given(text: string)

  /** `str(object_id)` after the default. */
  function ObjectIdText(arg: ObjectIdArg): string {
    match arg
    case Absent => Wildcard
    case Null => UnsavedId
    case Given(s) => s
  }

  /** `MODEL_MAP`. */
  function ModelType(key: string): Option<ContentType> {
    if key == "manga" then Some(MangaType)
    else if key == "chapter" then Some(ChapterType)
    else None
  }

  datatype GrantReply = GrantRefused(reply: Reply) | Granted(grant: AccessGrant)

  /** `grant`. After validation it upserts an allow row for the group on an
      unsaved instance (object id "None", whatever was requested), then
      returns `get_or_create` on the requested object id with default
      `allow=True`: an existing row, even a deny, is returned unchanged,
      and a new row allows. No other row of the table changes. */
  function Grant(db: Store, group: GroupName, codename: Option<string>, modelKey: Option<string>, objectId: ObjectIdArg)
    : (r: (Store, GrantReply))
    requires Valid(db)
    ensures Valid(r.0)
    ensures codename.None? || codename.value == "" || modelKey.None? || modelKey.value == "" ==>
              r == (db, GrantRefused(Reply(400, "codename and model required")))
    ensures codename.Some? && codename.value != "" && modelKey.Some? && modelKey.value != ""
            && ModelType(modelKey.value).None? ==>
              r == (db, GrantRefused(Reply(400, "unknown model " + modelKey.value)))
    ensures codename.Some? && codename.value != "" && modelKey.Some? && ModelType(modelKey.value).Some? ==>
              r.1.Granted?
    ensures r.1.Granted? ==>
              var ct := ModelType(modelKey.value).value;
              var key := GrantKey(None, Some(group), ct, ObjectIdText(objectId), codename.value);
              var unsavedKey := GrantKey(None, Some(group), ct, UnsavedId, codename.value);
              && KeyOf(r.1.grant) == key && r.1.grant in r.0.grants
              && Registered(r.0, codename.value)
              && r.0.owners == db.owners
              && (exists i :: 0 <= i < |r.0.grants| && r.0.grants[i] == NewGrant(unsavedKey).(allow := true))
              && (ObjectIdText(objectId) != UnsavedId ==>
                    forall i :: 0 <= i < |db.grants| && KeyOf(db.grants[i]) == key ==> r.1.grant == db.grants[i])
              && ((ObjectIdText(objectId) == UnsavedId || forall i :: 0 <= i < |db.grants| ==> KeyOf(db.grants[i]) != key) ==>
                    r.1.grant.allow)
              && (forall g :: g in db.grants && KeyOf(g) != unsavedKey ==> g in r.0.grants)
              && (forall g :: g in r.0.grants ==> g in db.grants || KeyOf(g) == unsavedKey || g == r.1.grant)
  {
    if codename.None? || codename.value == "" || modelKey.None? || modelKey.value == "" then
      (db, GrantRefused(Reply(400, "codename and model required")))
    else match ModelType(modelKey.value)
      case None => (db, GrantRefused(Reply(400, "unknown model " + modelKey.value)))
      case Some(ct) =>
        var (db1, _) := GetPermission(db, codename.value);
        var (db2, unsaved) := GrantGroupPermission(db1, group, Target(ct, UnsavedId), codename.value, true);
        var key := GrantKey(None, Some(group), ct, ObjectIdText(objectId), codename.value);
        var (db3, g) := GetOrCreateIn(db2, key);
        GrantRows(db, db1, db2, db3, unsaved, g, key);
        (db3, Granted(g))
  }

  /** The row bookkeeping of `Grant`, one step at a time. */
  lemma GrantRows(db: Store, db1: Store, db2: Store, db3: Store, unsaved: AccessGrant, g: AccessGrant, key: GrantKey)
    requires db1.grants == db.grants && db1.owners == db.owners
    requires Valid(db2) && Registered(db2, key.permission)
    requires unsaved.allow && unsaved in db2.grants && db2.owners == db.owners
    requires forall i :: 0 <= i < |db2.grants| && KeyOf(db2.grants[i]) == KeyOf(unsaved) ==> db2.grants[i] == unsaved
    requires forall h :: KeyOf(h) != KeyOf(unsaved) ==> (h in db2.grants <==> h in db1.grants)
    requires (db3, g) == GetOrCreateIn(db2, key)
    ensures db3.owners == db.owners
    ensures exists i :: 0 <= i < |db3.grants| && db3.grants[i] == unsaved
    ensures key != KeyOf(unsaved) ==>
              forall i :: 0 <= i < |db.grants| && KeyOf(db.grants[i]) == key ==> g == db.grants[i]
    ensures (key == KeyOf(unsaved) || forall i :: 0 <= i < |db.grants| ==> KeyOf(db.grants[i]) != key) ==> g.allow
    ensures forall h :: h in db.grants && KeyOf(h) != KeyOf(unsaved) ==> h in db3.grants
    ensures forall h :: h in db3.grants ==> h in db.grants || KeyOf(h) == KeyOf(unsaved) || h == g
  {
    forall h | h in db2.grants ensures h in db3.grants {
      var j :| 0 <= j < |db2.grants| && db2.grants[j] == h;
      assert db3.grants[..|db2.grants|][j] == h;
    }
    if key != KeyOf(unsaved) {
      forall i | 0 <= i < |db.grants| && KeyOf(db.grants[i]) == key ensures g == db.grants[i] {
        var h := db.grants[i];
        assert h in db2.grants;
        var j :| 0 <= j < |db2.grants| && db2.grants[j] == h;
      }
    }
    if g in db2.grants {
      var j :| 0 <= j < |db2.grants| && db2.grants[j] == g;
      if key == KeyOf(unsaved) {
        assert g == unsaved;
      } else {
        assert g in db.grants;
      }
    }
  }

  /** A granted profile reaches its members through the group tier: after
      `grant` on a model and object id, a signed-in member of the profile
      with no user-tier row for the codename on that object or on '*', and
      no group row of theirs there that denies, passes `has_permission`. */
  lemma GrantThenMemberAllowed(db: Store, u: User, group: GroupName, codename: string, modelKey: string,
                               objectId: ObjectIdArg)
    requires Valid(db) && codename != "" && ModelType(modelKey).Some?
    requires u.isAuthenticated && group in u.groups
    requires var t := Target(ModelType(modelKey).value, ObjectIdText(objectId));
             forall i :: 0 <= i < |db.grants| ==>
               !UserGrant(db.grants[i], u.id, t, codename)
               && (GroupGrant(db.grants[i], u.groups, t, codename) ==> db.grants[i].allow)
    ensures var r := Grant(db, group, Some(codename), Some(modelKey), objectId);
            HasPermission(r.0, Some(u), Target(ModelType(modelKey).value, ObjectIdText(objectId)), codename, NoFaults)
  {
    var r := Grant(db, group, Some(codename), Some(modelKey), objectId);
    var ct := ModelType(modelKey).value;
    var t := Target(ct, ObjectIdText(objectId));
    var unsavedKey := GrantKey(None, Some(group), ct, UnsavedId, codename);
    var g := r.1.grant;
    assert g.allow by {
      if g in db.grants {
        var i :| 0 <= i < |db.grants| && db.grants[i] == g;
        assert GroupGrant(db.grants[i], u.groups, t, codename);
      }
    }
    UnsavedRowAllows(db, group, codename, modelKey, objectId);
    MemberAllowedAfter(db, r.0, g, u, t, codename, unsavedKey);
  }

  /** After a grant every row on the unsaved object id of the group allows. */
  lemma UnsavedRowAllows(db: Store, group: GroupName, codename: string, modelKey: string, objectId: ObjectIdArg)
    requires Valid(db) && codename != "" && ModelType(modelKey).Some?
    ensures var r := Grant(db, group, Some(codename), Some(modelKey), objectId);
            var unsavedKey := GrantKey(None, Some(group), ModelType(modelKey).value, UnsavedId, codename);
            forall h :: h in r.0.grants && KeyOf(h) == unsavedKey ==> h.allow
  {
    var r := Grant(db, group, Some(codename), Some(modelKey), objectId);
    var unsavedKey := GrantKey(None, Some(group), ModelType(modelKey).value, UnsavedId, codename);
    var k :| 0 <= k < |r.0.grants| && r.0.grants[k] == NewGrant(unsavedKey).(allow := true);
    forall h | h in r.0.grants && KeyOf(h) == unsavedKey ensures h.allow {
      var j :| 0 <= j < |r.0.grants| && r.0.grants[j] == h;
      assert KeyOf(r.0.grants[k]) == unsavedKey;
    }
  }

  /** The decision on a table that differs from `db` only by allow rows
      without a user and by one allow row of the member's group. */
  lemma MemberAllowedAfter(db: Store, r0: Store, g: AccessGrant, u: User, t: Target, codename: string,
                           unsavedKey: GrantKey)
    requires Registered(r0, codename) && u.isAuthenticated
    requires g in r0.grants && GroupGrant(g, u.groups, t, codename) && g.allow && g.user.None?
    requires unsavedKey.user.None?
    requires forall h :: h in r0.grants ==> h in db.grants || KeyOf(h) == unsavedKey || h == g
    requires forall h :: h in r0.grants && KeyOf(h) == unsavedKey ==> h.allow
    requires forall i :: 0 <= i < |db.grants| ==>
               !UserGrant(db.grants[i], u.id, t, codename)
               && (GroupGrant(db.grants[i], u.groups, t, codename) ==> db.grants[i].allow)
    ensures HasPermission(r0, Some(u), t, codename, NoFaults)
  {
    forall i | 0 <= i < |r0.grants|
      ensures !UserGrant(r0.grants[i], u.id, t, codename)
      ensures GroupGrant(r0.grants[i], u.groups, t, codename) ==> r0.grants[i].allow
    {
      var h := r0.grants[i];
      if h in db.grants {
        var j :| 0 <= j < |db.grants| && db.grants[j] == h;
      }
    }
    var m :| 0 <= m < |r0.grants| && r0.grants[m] == g;
    assert GroupGrant(r0.grants[m], u.groups, t, codename);
  }

  /** `grants`: the rows whose group is this profile, in table order. */
  function ProfileGrants(db: Store, group: GroupName): (r: seq<AccessGrant>)
    ensures forall g :: g in r <==> g in db.grants && g.group == Some(group)
    ensures Ordering.IsSubsequence(r, db.grants)
  {
    Ordering.Filter(db.grants, (g: AccessGrant) => g.group == Some(group))
  }

  /** The `grant` action behind the staff gate: only staff can change the
      grant table through it. */
  function GuardedGrant(db: Store, user: User, group: GroupName, codename: Option<string>,
                        modelKey: Option<string>, objectId: ObjectIdArg): (r: (Store, GrantReply))
    requires Valid(db)
    ensures Valid(r.0)
    ensures !user.isStaff ==> r.0 == db && r.1.GrantRefused? && r.1.reply.status == 403
    ensures user.isStaff ==> r == Grant(db, group, codename, modelKey, objectId)
  {
    if !ActionGate("POST", user) then
      (db, GrantRefused(Reply(403, "You do not have permission to perform this action.")))
    else Grant(db, group, codename, modelKey, objectId)
  }
}
