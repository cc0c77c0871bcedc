/** The account endpoints: who the current user is, which site-wide DAC
    permissions they hold, and the user search open to staff only. */
module AuthView {
  import opened Wrappers
  import opened Text
  import opened Accounts
  import opened DacModels
  import opened AccessControl
  import opened Ordering

  // ----- CurrentUserView -----

  datatype CurrentUser =
    | NotAuthenticated
    | Authenticated(id: UserId, username: string, email: string, isStaff: bool, isSuperuser: bool, groups: set<GroupName>)

  /** `CurrentUserView.get`. */
  function CurrentUserInfo(u: User): (r: CurrentUser)
    ensures r.NotAuthenticated? <==> !u.isAuthenticated
    ensures r.Authenticated? ==>
              && r.id == u.id && r.username == u.username && r.email == u.email
              && r.isStaff == u.isStaff && r.isSuperuser == u.isSuperuser && r.groups == u.groups
  {
    if !u.isAuthenticated then NotAuthenticated
    else Authenticated(u.id, u.username, u.email, u.isStaff, u.isSuperuser, u.groups)
  }

  // ----- CurrentUserPermissionsView -----

  datatype PermissionsInfo = PermissionsInfo(authenticated: bool, permissions: seq<string>, groups: set<GroupName>)

  /** The view's grant query: rows of the user or of one of their groups,
      on object '*', that allow. Deny rows are not consulted at all. */
  predicate GlobalAllow(g: AccessGrant, u: User) {
    (g.user == Some(u.id) || (g.group.Some? && g.group.value in u.groups))
    && g.objectId == Wildcard
    && g.allow
  }

  /** Some row of the query carries codename `c`. */
  predicate GloballyAllowed(grants: seq<AccessGrant>, u: User, c: string) {
    exists i | 0 <= i < |grants| :: GlobalAllow(grants[i], u) && grants[i].permission == c
  }

  /** Codenames of the rows the query returns, in table order. */
  function GlobalCodenames(grants: seq<AccessGrant>, u: User): (r: seq<string>)
    ensures forall c :: c in r <==> GloballyAllowed(grants, u, c)
  {
    if |grants| == 0 then []
    else
      var rest := GlobalCodenames(grants[1..], u);
      assert forall i :: 1 <= i < |grants| ==> grants[i] == grants[1..][i - 1];
      if GlobalAllow(grants[0], u) then [grants[0].permission] + rest else rest
  }

  /** `CurrentUserPermissionsView.get`; `fault` stands for a failing import
      or grant query, both of which yield an empty list. */
  function CurrentUserPermissions(db: Store, u: User, fault: bool): (r: PermissionsInfo)
    ensures !u.isAuthenticated ==> r == PermissionsInfo(false, [], {})
    ensures u.isAuthenticated ==> r.authenticated && r.groups == u.groups
    ensures u.isAuthenticated && u.isSuperuser ==> r.permissions == ["*"]
    ensures u.isAuthenticated && !u.isSuperuser && fault ==> r.permissions == []
    ensures u.isAuthenticated && !u.isSuperuser && !fault ==>
              && StrictlySorted(r.permissions)
              && forall c :: c in r.permissions <==> GloballyAllowed(db.grants, u, c)
  {
    if !u.isAuthenticated then PermissionsInfo(false, [], {})
    else if u.isSuperuser then PermissionsInfo(true, ["*"], u.groups)
    else if fault then PermissionsInfo(true, [], u.groups)
    else PermissionsInfo(true, SortedSet(GlobalCodenames(db.grants, u)), u.groups)
  }

  /** The listing is a set: it depends only on which codenames are allowed
      globally, not on the order or repetition of the grant rows. */
  lemma PermissionsListingCanonical(db1: Store, db2: Store, u: User)
    requires u.isAuthenticated && !u.isSuperuser
    requires forall c :: GloballyAllowed(db1.grants, u, c) <==> GloballyAllowed(db2.grants, u, c)
    ensures CurrentUserPermissions(db1, u, false) == CurrentUserPermissions(db2, u, false)
  {
    StrictlySortedUnique(CurrentUserPermissions(db1, u, false).permissions, CurrentUserPermissions(db2, u, false).permissions);
  }

  /** Adding a deny row never removes a codename from the listing. */
  lemma DenyDoesNotSubtract(db: Store, u: User, g: AccessGrant)
    requires u.isAuthenticated && !u.isSuperuser && !g.allow
    ensures CurrentUserPermissions(db.(grants := db.grants + [g]), u, false) == CurrentUserPermissions(db, u, false)
  {
    var db2 := db.(grants := db.grants + [g]);
    forall c ensures GloballyAllowed(db2.grants, u, c) <==> GloballyAllowed(db.grants, u, c) {
      if GloballyAllowed(db.grants, u, c) {
        var i :| 0 <= i < |db.grants| && GlobalAllow(db.grants[i], u) && db.grants[i].permission == c;
        assert db2.grants[i] == db.grants[i];
      }
    }
    PermissionsListingCanonical(db2, db, u);
  }

  // ----- UsersListView -----

  datatype UserRow = UserRow(id: UserId, username: string, email: string)

  const UsersPageSize: nat := 200

  predicate UsernameLe(a: User, b: User) {
    LexLe(a.username, b.username)
  }

  lemma UsernameOrder()
    ensures TotalPreorder(UsernameLe)
  {
    forall a: User, b: User ensures UsernameLe(a, b) || UsernameLe(b, a) {
      LexLeTotal(a.username, b.username);
    }
    forall a: User, b: User, c: User | UsernameLe(a, b) && UsernameLe(b, c) ensures UsernameLe(a, c) {
      LexLeTrans(a.username, b.username, c.username);
    }
  }

  /** `username__icontains=q`, with ASCII case folding. */
  predicate UsernameMatches(u: User, q: string) {
    Contains(Lower(u.username), Lower(q))
  }

  /** The queryset after the optional `username__icontains` filter. */
  function MatchingUsers(users: seq<User>, needle: string): (m: seq<User>)
    ensures forall u :: u in m <==> u in users && (needle == "" || UsernameMatches(u, needle))
  {
    if needle == "" then users else Filter(users, (u: User) => UsernameMatches(u, needle))
  }

  /** `order_by('username')`. */
  function ByUsername(m: seq<User>): (o: seq<User>)
    ensures SortedBy(o, UsernameLe)
    ensures forall u :: u in o <==> u in m
  {
    UsernameOrder();
    var o := SortBy(m, UsernameLe);
    assert forall u :: u in o <==> u in m by {
      forall u ensures u in o <==> u in m {
        InSortBy(m, UsernameLe, u);
      }
    }
    o
  }

  /** `values('id', 'username', 'email')`. */
  function Rows(page: seq<User>): (rows: seq<UserRow>)
    ensures |rows| == |page|
    ensures forall i :: 0 <= i < |page| ==> rows[i] == UserRow(page[i].id, page[i].username, page[i].email)
  {
    seq(|page|, i requires 0 <= i < |page| => UserRow(page[i].id, page[i].username, page[i].email))
  }

  /** `UsersListView.get`: users ordered by username, filtered by the
      stripped query when it is not empty, at most 200 of them; the count
      is the number returned. */
  function UsersList(users: seq<User>, q: string): (r: (nat, seq<UserRow>))
    ensures r.0 == |r.1| && r.0 <= UsersPageSize
    ensures forall i, j :: 0 <= i < j < |r.1| ==> LexLe(r.1[i].username, r.1[j].username)
    ensures Trim(q) != "" ==> forall i :: 0 <= i < |r.1| ==> Contains(Lower(r.1[i].username), Lower(Trim(q)))
    ensures forall i :: 0 <= i < |r.1| ==> exists u :: u in users && UserRow(u.id, u.username, u.email) == r.1[i]
    ensures |r.1| < UsersPageSize ==>
              forall u :: u in users && (Trim(q) == "" || UsernameMatches(u, Trim(q))) ==> UserRow(u.id, u.username, u.email) in r.1
    ensures |r.1| == UsersPageSize ==>
              forall u :: (u in users && (Trim(q) == "" || UsernameMatches(u, Trim(q)))
                           && UserRow(u.id, u.username, u.email) !in r.1)
                          ==> LexLe(r.1[|r.1| - 1].username, u.username)
  {
    var rows := Page(users, Trim(q));
    PageSize(users, Trim(q));
    PageSorted(users, Trim(q));
    PageMatches(users, Trim(q));
    PageComplete(users, Trim(q));
    PageSmallest(users, Trim(q));
    (|rows|, rows)
  }

  /** The view behind `permission_classes = [IsAdminUser]`: only a staff
      user gets the listing; anyone else is refused (None) before the query
      runs. */
  function AdminUsersList(viewer: User, users: seq<User>, q: string): (r: Option<(nat, seq<UserRow>)>)
    ensures r.None? <==> !viewer.isStaff
    ensures r.Some? ==> r.value == UsersList(users, q)
  {
    if viewer.isStaff then Some(UsersList(users, q)) else None
  }

  /** The rows of the matching users in username order, cut to a page. */
  function Page(users: seq<User>, needle: string): seq<UserRow> {
    Rows(Take(ByUsername(MatchingUsers(users, needle)), UsersPageSize))
  }

  lemma PageSize(users: seq<User>, needle: string)
    ensures |Page(users, needle)| <= UsersPageSize
  {
    PageRows(ByUsername(MatchingUsers(users, needle)), UsersPageSize);
  }

  lemma PageSorted(users: seq<User>, needle: string)
    ensures var r := Page(users, needle);
            forall i, j :: 0 <= i < j < |r| ==> LexLe(r[i].username, r[j].username)
  {
    var ordered := ByUsername(MatchingUsers(users, needle));
    PageRows(ordered, UsersPageSize);
  }

  lemma PageMatches(users: seq<User>, needle: string)
    ensures var r := Page(users, needle);
            (needle != "" ==> forall i :: 0 <= i < |r| ==> Contains(Lower(r[i].username), Lower(needle)))
            && forall i :: 0 <= i < |r| ==> exists u :: u in users && UserRow(u.id, u.username, u.email) == r[i]
  {
    var matching := MatchingUsers(users, needle);
    var ordered := ByUsername(matching);
    PageRows(ordered, UsersPageSize);
    var r := Page(users, needle);
    forall i | 0 <= i < |r|
      ensures ordered[i] in users && (needle == "" || UsernameMatches(ordered[i], needle))
    {
      assert ordered[i] in ordered;
    }
  }

  lemma PageComplete(users: seq<User>, needle: string)
    ensures var r := Page(users, needle);
            |r| < UsersPageSize ==>
              forall u :: u in users && (needle == "" || UsernameMatches(u, needle)) ==> UserRow(u.id, u.username, u.email) in r
  {
    PageRows(ByUsername(MatchingUsers(users, needle)), UsersPageSize);
  }

  /** A full page holds the smallest usernames: every matching user left
      out sorts at or after the last row. */
  lemma PageSmallest(users: seq<User>, needle: string)
    ensures var r := Page(users, needle);
            |r| == UsersPageSize ==>
              forall u :: (u in users && (needle == "" || UsernameMatches(u, needle))
                           && UserRow(u.id, u.username, u.email) !in r)
                          ==> LexLe(r[|r| - 1].username, u.username)
  {
    var ordered := ByUsername(MatchingUsers(users, needle));
    var r := Page(users, needle);
    PageRows(ordered, UsersPageSize);
    if |r| == UsersPageSize {
      forall u | u in users && (needle == "" || UsernameMatches(u, needle)) && UserRow(u.id, u.username, u.email) !in r
        ensures LexLe(r[|r| - 1].username, u.username)
      {
        var k :| 0 <= k < |ordered| && ordered[k] == u;
        assert UsernameLe(ordered[|r| - 1], ordered[k]);
      }
    }
  }

  /** The rows of the first `n` users: each row is the user at its
      position, and a short page holds every user. */
  lemma PageRows(ordered: seq<User>, n: nat)
    ensures var rows := Rows(Take(ordered, n));
            |rows| <= n && |rows| <= |ordered|
            && (forall i :: 0 <= i < |rows| ==> rows[i] == UserRow(ordered[i].id, ordered[i].username, ordered[i].email))
            && (|rows| < n ==> forall u :: u in ordered ==> UserRow(u.id, u.username, u.email) in rows)
  {
    var page := Take(ordered, n);
    var rows := Rows(page);
    assert forall i :: 0 <= i < |page| ==> page[i] == ordered[i];
    if |rows| < n {
      assert page == ordered;
      forall u | u in ordered ensures UserRow(u.id, u.username, u.email) in rows {
        var i :| 0 <= i < |ordered| && ordered[i] == u;
        assert rows[i] == UserRow(u.id, u.username, u.email);
      }
    }
  }
}
