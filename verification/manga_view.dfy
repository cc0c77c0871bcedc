/** The catalog endpoints: the manga queryset that hides erotic series
    from anonymous visitors, the `random` pick, the `increment-view`
    counter, and which permission gate each catalog action runs behind.

    A series row is reduced to the fields these decisions read. The
    database's random ordering is a parameter: `shuffle` is the random key
    the database gives each row. */
module MangaView {
  import opened Wrappers
  import opened Accounts
  import opened DacModels
  import opened AccessControl
  import opened Ordering
  import opened Text

  datatype Manga = Manga(id: nat, erotico: bool, vistas: int)

  /** A row the user may see through the viewset. */
  predicate Visible(m: Manga, u: User) {
    u.isAuthenticated || !m.erotico
  }

  /** The `erotico=False` filter. */
  predicate NotErotic(m: Manga) {
    !m.erotico
  }

  /** `MangaViewSet.get_queryset`: every series for a signed-in user, and
      only the non-erotic ones, in table order, for an anonymous one. */
  function Queryset(all: seq<Manga>, u: User): (qs: seq<Manga>)
    ensures u.isAuthenticated ==> qs == all
    ensures forall m :: m in qs <==> m in all && Visible(m, u)
    ensures IsSubsequence(qs, all)
  {
    SubsequenceRefl(all);
    if u.isAuthenticated then all else Filter(all, NotErotic)
  }

  /** At most five rows come back from `random`. */
  const RandomLimit: nat := 5

  function ByShuffle(shuffle: Manga -> int): (Manga, Manga) -> bool {
    (a: Manga, b: Manga) => shuffle(a) <= shuffle(b)
  }

  lemma ShuffleOrder(shuffle: Manga -> int)
    ensures TotalPreorder(ByShuffle(shuffle))
  {
  }

  /** `random`: the queryset (filtered a second time for anonymous users),
      ordered by the random key, cut to five rows. */
  function Random(all: seq<Manga>, u: User, shuffle: Manga -> int): (r: seq<Manga>)
    ensures |r| <= RandomLimit
    ensures |r| == if |Queryset(all, u)| <= RandomLimit then |Queryset(all, u)| else RandomLimit
    ensures forall m :: m in r ==> m in all && Visible(m, u)
    ensures multiset(r) <= multiset(Queryset(all, u))
  {
    var qs0 := Queryset(all, u);
    var qs := if u.isAuthenticated then qs0 else Filter(qs0, NotErotic);
    assert !u.isAuthenticated ==> qs == qs0 by {
      if !u.isAuthenticated {
        FilterKeepsAll(qs0, NotErotic);
      }
    }
    ShuffleOrder(shuffle);
    var ordered := SortBy(qs, ByShuffle(shuffle));
    var r := Take(ordered, RandomLimit);
    TakeMultiset(ordered, RandomLimit);
    assert forall m :: m in r ==> m in qs0 by {
      forall m | m in r ensures m in qs0 {
        assert m in multiset(r);
      }
    }
    r
  }

  /** Anonymous visitors never get an erotic series from `random`, whatever
      the random order. */
  lemma RandomHidesErotic(all: seq<Manga>, shuffle: Manga -> int)
    ensures forall m :: m in Random(all, Anonymous, shuffle) ==> !m.erotico
  {
  }

  // ----- increment-view -----

  /** What the viewset's filter backends (filterset, search, ordering) make
      of the request's query parameters: a test each kept row passes, or
      the validation error the filterset raises for a malformed value. */
  datatype RequestFilter = Keeps(matches: Manga -> bool) | Invalid(error: string)

  /** A row `get_object` can return: in the user's queryset and kept by
      the request's filters. */
  predicate Shown(m: Manga, u: User, matches: Manga -> bool) {
    Visible(m, u) && matches(m)
  }

  /** `get_object` on the filtered queryset: the first shown row with that
      key. Ids are never negative, so a negative key finds nothing. */
  function FindVisible(all: seq<Manga>, u: User, matches: Manga -> bool, pk: int): (r: Option<nat>)
    ensures r.Some? ==> r.value < |all| && all[r.value].id == pk && Shown(all[r.value], u, matches)
    ensures r.Some? ==> forall j :: 0 <= j < r.value ==> !(all[j].id == pk && Shown(all[j], u, matches))
    ensures r.None? <==> forall j :: 0 <= j < |all| ==> !(all[j].id == pk && Shown(all[j], u, matches))
  {
    if |all| == 0 then None
    else if all[0].id == pk && Shown(all[0], u, matches) then Some(0)
    else match FindVisible(all[1..], u, matches, pk)
      case None => None
      case Some(i) => Some(i + 1)
  }

  datatype ViewReply = Counted(id: nat, vistas: int) | BadRequest(detail: string)

  /** The message of the 404 a lookup that finds no row raises. */
  const NotFoundDetail: string := "No manga matches the given query."

  /** The message of the bare 404 raised when the URL's key does not
      convert to an id: the conversion error is replaced by an empty one. */
  const InvalidKeyDetail: string := ""

  /** `increment_view`: the URL's key text converts as the id field's
      `int()` does. The row's `vistas` goes up by exactly one and the new
      value is returned; any failure is a 400 with the error text and
      changes nothing: the filter's validation error first, then the empty
      detail of an unconvertible key, then the not-found detail. */
  function IncrementView(all: seq<Manga>, u: User, filter: RequestFilter, pk: string): (r: (seq<Manga>, ViewReply))
    ensures r.1.BadRequest? ==> r.0 == all
    ensures filter.Invalid? ==> r.1 == BadRequest(filter.error)
    ensures filter.Keeps? && PyInt(pk).None? ==> r.1 == BadRequest(InvalidKeyDetail)
    ensures filter.Keeps? && PyInt(pk).Some? && r.1.BadRequest? ==> r.1.detail == NotFoundDetail
    ensures r.1.Counted? <==>
              && filter.Keeps? && PyInt(pk).Some?
              && exists j :: 0 <= j < |all| && all[j].id == PyInt(pk).value && Shown(all[j], u, filter.matches)
    ensures r.1.Counted? ==>
              && r.1.id as int == PyInt(pk).value
              && |r.0| == |all|
              && exists j :: 0 <= j < |all| && all[j].id == r.1.id
                             && r.0 == all[j := all[j].(vistas := all[j].vistas + 1)]
                             && r.1.vistas == all[j].vistas + 1
  {
    match filter
    case Invalid(error) => (all, BadRequest(error))
    case Keeps(matches) =>
      match PyInt(pk)
      case None => (all, BadRequest(InvalidKeyDetail))
      case Some(key) => IncrementKey(all, u, matches, key)
  }

  /** The increment once the key has converted to a number. */
  function IncrementKey(all: seq<Manga>, u: User, matches: Manga -> bool, key: int): (r: (seq<Manga>, ViewReply))
    ensures r.1.BadRequest? ==> r == (all, BadRequest(NotFoundDetail))
    ensures r.1.Counted? <==> exists j :: 0 <= j < |all| && all[j].id == key && Shown(all[j], u, matches)
    ensures r.1.Counted? ==>
              && r.1.id as int == key
              && |r.0| == |all|
              && exists j :: 0 <= j < |all| && all[j].id == r.1.id
                             && r.0 == all[j := all[j].(vistas := all[j].vistas + 1)]
                             && r.1.vistas == all[j].vistas + 1
  {
    match FindVisible(all, u, matches, key)
    case None => (all, BadRequest(NotFoundDetail))
    case Some(j) =>
      var m := all[j].(vistas := all[j].vistas + 1);
      (all[j := m], Counted(all[j].id, m.vistas))
  }

  /** Two increments of the same row raise its count by two. The catalog's
      filters read no view count, so the counted row is still kept. */
  lemma IncrementTwice(all: seq<Manga>, u: User, matches: Manga -> bool, pk: string, j: nat)
    requires PyInt(pk).Some?
    requires j < |all| && all[j].id == PyInt(pk).value && Shown(all[j], u, matches)
    requires matches(all[j].(vistas := all[j].vistas + 1))
    requires forall i :: 0 <= i < |all| && i != j ==> all[i].id != all[j].id
    ensures var once := IncrementView(all, u, Keeps(matches), pk).0;
            var twice := IncrementView(once, u, Keeps(matches), pk);
            twice.1 == Counted(all[j].id, all[j].vistas + 2) && twice.0[j].vistas == all[j].vistas + 2
  {
    var key := PyInt(pk).value;
    var once := all[j := all[j].(vistas := all[j].vistas + 1)];
    ConvertedKey(all, u, matches, pk);
    IncrementAt(all, u, matches, key, j);
    assert once[j] == all[j].(vistas := all[j].vistas + 1);
    ConvertedKey(once, u, matches, pk);
    IncrementAt(once, u, matches, key, j);
  }

  /** A key that converts is looked up as that number. */
  lemma ConvertedKey(all: seq<Manga>, u: User, matches: Manga -> bool, pk: string)
    requires PyInt(pk).Some?
    ensures IncrementView(all, u, Keeps(matches), pk) == IncrementKey(all, u, matches, PyInt(pk).value)
  {
  }

  /** The increment of a row whose id no other row carries. */
  lemma IncrementAt(all: seq<Manga>, u: User, matches: Manga -> bool, key: int, j: nat)
    requires j < |all| && all[j].id == key && Shown(all[j], u, matches)
    requires forall i :: 0 <= i < |all| && i != j ==> all[i].id != all[j].id
    ensures IncrementKey(all, u, matches, key)
            == (all[j := all[j].(vistas := all[j].vistas + 1)], Counted(all[j].id, all[j].vistas + 1))
  {
    var r := FindVisible(all, u, matches, key);
    assert r == Some(j);
  }

  /** A key that is not a number is a 400 with an empty detail, while a
      negative number is looked up and found missing. */
  lemma IncrementViewKeys(all: seq<Manga>, u: User, matches: Manga -> bool, n: nat)
    ensures IncrementView(all, u, Keeps(matches), "abc") == (all, BadRequest(InvalidKeyDetail))
    ensures IncrementView(all, u, Keeps(matches), "-" + IntText(n + 1)) == (all, BadRequest(NotFoundDetail))
  {
    NoDigitNoKey("abc");
    PyIntText(-(n + 1));
    assert IntText(-(n + 1)) == "-" + IntText(n + 1);
    ConvertedKey(all, u, matches, "-" + IntText(n + 1));
  }

  lemma NoDigitNoKey(s: string)
    requires forall i :: 0 <= i < |s| ==> !IsDigit(s[i])
    ensures PyInt(s).None?
  {
    if PyInt(s).Some? {
      PyIntNeedsDigit(s);
    }
  }

  // ----- permission gates -----

  datatype CatalogViewSet = MangaSet | AltTituloSet | CoverSet | AutorSet | TagSet

  datatype CatalogAction =
    | ListAction | RetrieveAction | CreateAction | UpdateAction | PartialUpdateAction | DestroyAction
    | IncrementViewAction | RandomAction

  /** The extra actions are routed on the manga viewset only. */
  predicate Routed(vs: CatalogViewSet, a: CatalogAction) {
    (a == IncrementViewAction || a == RandomAction) ==> vs == MangaSet
  }

  function ActionVerb(a: CatalogAction): string {
    match a
    case ListAction => "GET"
    case RetrieveAction => "GET"
    case RandomAction => "GET"
    case CreateAction => "POST"
    case IncrementViewAction => "POST"
    case UpdateAction => "PUT"
    case PartialUpdateAction => "PATCH"
    case DestroyAction => "DELETE"
  }

  /** Actions on one object run the object-level check as well. */
  predicate OnObject(a: CatalogAction) {
    a == RetrieveAction || a == UpdateAction || a == PartialUpdateAction || a == DestroyAction
    || a == IncrementViewAction
  }

  /** Whether a catalog action may run: every viewset uses the DAC
      permission class, except `increment-view`, which allows anyone. */
  function CatalogGate(db: Store, vs: CatalogViewSet, a: CatalogAction, u: User, t: Target, f: Faults): (r: bool)
    requires Routed(vs, a)
    ensures a == IncrementViewAction ==> r
    ensures a != IncrementViewAction ==>
              (r <==> ViewPermission(ActionVerb(a), Some(u))
                      && (OnObject(a) ==> ObjectPermission(db, ActionVerb(a), Some(u), t, f)))
  {
    if a == IncrementViewAction then true
    else
      var verb := ActionVerb(a);
      ViewPermission(verb, Some(u)) && (!OnObject(a) || ObjectPermission(db, verb, Some(u), t, f))
  }

  /** Reads are open, creating needs a signed-in user, changing or
      deleting a row needs 'write' on it, and counting a view is open to
      all; an anonymous visitor can do nothing else. */
  lemma CatalogGateCases(db: Store, vs: CatalogViewSet, a: CatalogAction, u: User, t: Target, f: Faults)
    requires Routed(vs, a)
    ensures a in {ListAction, RetrieveAction, RandomAction, IncrementViewAction} ==> CatalogGate(db, vs, a, u, t, f)
    ensures a == CreateAction ==> (CatalogGate(db, vs, a, u, t, f) <==> u.isAuthenticated)
    ensures a in {UpdateAction, PartialUpdateAction, DestroyAction} ==>
              (CatalogGate(db, vs, a, u, t, f) <==> HasPermission(db, Some(u), t, "write", f))
    ensures CatalogGate(db, vs, a, Anonymous, t, f) ==>
              a in {ListAction, RetrieveAction, RandomAction, IncrementViewAction}
  {
    AnonymousDenied(db, t, "write", f);
  }
}
