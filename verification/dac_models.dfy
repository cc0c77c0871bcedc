/** Record shapes of the discretionary access-control tables: Permission,
    AccessGrant, Owner and AuditLog, with their uniqueness keys, field
    defaults and display labels. A target object is a content type plus the
    string form of its primary key. */
module DacModels {
  import opened Wrappers
  import opened Accounts
  import opened Text
  import Ordering

  /** Django's ContentType, reduced to the models the core refers to. */
  datatype ContentType = MangaType | ChapterType | GroupType | UserProfileType | OtherType(modelName: string)

  /** A target object: its content type and `str(obj.pk)`. */
  datatype Target = Target(contentType: ContentType, objectId: string)

  /** The object id that stands for every object of a content type. */
  const Wildcard: string := "*"

  /** `str(None)`: the object id of a model instance that was never saved. */
  const UnsavedId: string := "None"

  datatype Permission = Permission(codename: string, name: string)

  /** A grant row. The permission is referenced by its (unique) codename.
      The table allows both `user` and `group` to be null; only the helper
      constructors in the access-control module fill in exactly one. */
  datatype AccessGrant = AccessGrant(
    user: Option<UserId>,
    group: Option<GroupName>,
    contentType: ContentType,
    objectId: string,
    permission: string,
    allow: bool)

  /** The `unique_together` key of AccessGrant. */
  datatype GrantKey = GrantKey(
    user: Option<UserId>,
    group: Option<GroupName>,
    contentType: ContentType,
    objectId: string,
    permission: string)

  function KeyOf(g: AccessGrant): GrantKey {
    GrantKey(g.user, g.group, g.contentType, g.objectId, g.permission)
  }

  /** An owner row; the whole row is its `unique_together` key, so a set of
      owners holds at most one row per (user, content type, object id). */
  datatype Owner = Owner(user: UserId, contentType: ContentType, objectId: string)

  /** An audit row. `created` is the insertion timestamp supplied by the
      caller (the clock is not part of this model). */
  datatype AuditLog = AuditLog(
    user: Option<UserId>,
    path: string,
    httpMethod: string,
    viewName: string,
    contentType: Option<ContentType>,
    objectId: Option<string>,
    allowed: bool,
    statusCode: Option<int>,
    detail: string,
    created: int)

  // ----- defaults -----

  /** A grant created without an explicit `allow`. */
  function NewGrant(key: GrantKey): (g: AccessGrant)
    ensures KeyOf(g) == key
    ensures g.allow
  {
    AccessGrant(key.user, key.group, key.contentType, key.objectId, key.permission, true)
  }

  /** An audit row created with only its required fields. */
  function NewAuditLog(path: string, verb: string, created: int): (a: AuditLog)
    ensures !a.allowed
    ensures a.user.None? && a.contentType.None? && a.objectId.None? && a.statusCode.None?
    ensures a.viewName == "" && a.detail == ""
    ensures a.path == path && a.httpMethod == verb && a.created == created
  {
    AuditLog(None, path, verb, "", None, None, false, None, "", created)
  }

  // ----- uniqueness -----

  /** `Permission.codename` is unique. */
  predicate UniqueCodenames(perms: seq<Permission>) {
    forall i, j :: 0 <= i < j < |perms| ==> perms[i].codename != perms[j].codename
  }

  /** At most one AccessGrant per (user, group, content type, object id,
      permission). The `unique_together` constraint on these fields does
      not ensure it, since one of user and group is always NULL; writes
      through `get_or_create` keep it. */
  predicate UniqueGrantKeys(grants: seq<AccessGrant>) {
    forall i, j :: 0 <= i < j < |grants| ==> KeyOf(grants[i]) != KeyOf(grants[j])
  }

  // ----- labels -----

  function PermissionLabel(p: Permission): string {
    p.codename
  }

  /** `str(grant)`: who, ALLOW or DENY, the permission and the target.
      `username` and `ctName` stand for the `__str__` of User and ContentType. */
  function GrantLabel(g: AccessGrant, username: UserId -> string, ctName: ContentType -> string): (s: string)
    ensures Contains(s, if g.allow then " ALLOW " else " DENY ")
    ensures EndsWith(s, "#" + g.objectId)
  {
    var who := if g.user.Some? then username(g.user.value)
               else if g.group.Some? then g.group.value
               else "<group>";
    var verdict := if g.allow then " ALLOW " else " DENY ";
    var tail := g.permission + " on " + ctName(g.contentType) + "#" + g.objectId;
    ContainsMiddle(who, verdict, tail);
    EndsWithAppend(who + verdict + g.permission + " on " + ctName(g.contentType), "#" + g.objectId);
    assert who + verdict + tail == (who + verdict + g.permission + " on " + ctName(g.contentType)) + ("#" + g.objectId);
    who + verdict + tail
  }

  /** `str(owner)`. */
  function OwnerLabel(o: Owner, username: UserId -> string, ctName: ContentType -> string): (s: string)
    ensures StartsWith(s, "Owner: ")
    ensures EndsWith(s, "#" + o.objectId)
  {
    var s := "Owner: " + username(o.user) + " -> " + ctName(o.contentType) + "#" + o.objectId;
    StartsWithAppend("Owner: ", username(o.user) + " -> " + ctName(o.contentType) + "#" + o.objectId);
    EndsWithAppend("Owner: " + username(o.user) + " -> " + ctName(o.contentType), "#" + o.objectId);
    assert s == ("Owner: " + username(o.user) + " -> " + ctName(o.contentType)) + ("#" + o.objectId);
    assert s == "Owner: " + (username(o.user) + " -> " + ctName(o.contentType) + "#" + o.objectId);
    s
  }

  /** `str(audit_row)`: timestamp, user or "anon", method, path and verdict. */
  function AuditLabel(a: AuditLog, username: UserId -> string, iso: int -> string): (s: string)
    ensures EndsWith(s, if a.allowed then "-> ALLOWED" else "-> DENIED")
    ensures a.user.None? ==> Contains(s, "] anon ")
  {
    var head := "[" + iso(a.created);
    var who := if a.user.Some? then "] " + username(a.user.value) + " " else "] anon ";
    var tail := a.httpMethod + " " + a.path + " ";
    var verdict := if a.allowed then "-> ALLOWED" else "-> DENIED";
    LabelParts(head, who, tail, verdict);
    head + who + tail + verdict
  }

  lemma LabelParts(head: string, who: string, tail: string, verdict: string)
    ensures EndsWith(head + who + tail + verdict, verdict)
    ensures Contains(head + who + tail + verdict, who)
  {
    EndsWithAppend(head + who + tail, verdict);
    ContainsMiddle(head, who, tail + verdict);
    assert head + who + (tail + verdict) == head + who + tail + verdict;
  }

  // ----- ordering -----

  /** Newest first: the audit table's default ordering `-created`. */
  predicate NewerFirst(a: AuditLog, b: AuditLog) {
    a.created >= b.created
  }

  /** The audit table listed in its default order. */
  function AuditListing(log: seq<AuditLog>): (r: seq<AuditLog>)
    ensures multiset(r) == multiset(log)
    ensures forall i, j :: 0 <= i < j < |r| ==> r[i].created >= r[j].created
  {
    assert Ordering.TotalPreorder(NewerFirst);
    Ordering.SortBy(log, NewerFirst)
  }
}
