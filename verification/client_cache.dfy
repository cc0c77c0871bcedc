/** The client's response cache: entries with an optional expiry kept in
    `localStorage` and in an in-memory map, read storage first; and the
    cache key of an endpoint with its query parameters.

    The clock is the `now` parameter. Browser storage is `ls`: None when
    it is unavailable (every call on it throws and is swallowed); a slot
    whose text does not parse as an entry is `Unreadable`. `fits` says
    whether `localStorage.setItem` succeeds (it throws when the quota is
    exceeded or the value cannot be serialised). */
module ClientCache {
  import opened Wrappers
  import opened Text
  import opened Ordering

  // ----- entries -----

  /** `{ value, expires }`; `expires` is None for `null`. */
  datatype Entry<V> = Entry(value: V, expires: Option<int>)

  datatype Slot<V> = Stored(entry: Entry<V>) | Unreadable

  datatype Cache<V> = Cache(ls: Option<map<string, Slot<V>>>, mem: map<string, Entry<V>>)

  /** `!expires || expires > now()`: no expiry (or an expiry of 0) never
      lapses. */
  predicate Live<V>(e: Entry<V>, now: int) {
    e.expires.None? || e.expires.value == 0 || e.expires.value > now
  }

  /** `ttlMs ? now() + ttlMs : null`; every falsy TTL is given as 0. */
  function ExpiresFor(ttl: int, now: int): (r: Option<int>)
    ensures r.None? <==> ttl == 0
  {
    if ttl != 0 then Some(now + ttl) else None
  }

  /** A live entry for `key` read back from storage. */
  predicate LsHit<V>(c: Cache<V>, key: string, now: int) {
    c.ls.Some? && key in c.ls.value && c.ls.value[key].Stored? && Live(c.ls.value[key].entry, now)
  }

  /** The value `get` returns (None for `null`) and the cache after it. */
  datatype Read<V> = Read(value: Option<V>, cache: Cache<V>)

  /** `get(key)`: a live stored entry wins; an expired stored entry is
      removed and the memory map consulted; an expired memory entry is
      deleted. */
  function Get<V>(c: Cache<V>, key: string, now: int): (r: Read<V>)
    ensures LsHit(c, key, now) ==> r == Read(Some(c.ls.value[key].entry.value), c)
    ensures !LsHit(c, key, now) ==>
              r.value == (if key in c.mem && Live(c.mem[key], now) then Some(c.mem[key].value) else None)
    ensures r.value.None? ==> key !in r.cache.mem
                              && (r.cache.ls.Some? && key in r.cache.ls.value ==> r.cache.ls.value[key].Unreadable?)
    ensures forall k :: k != key ==> (k in r.cache.mem <==> k in c.mem) && (k in c.mem ==> r.cache.mem[k] == c.mem[k])
    ensures r.cache.ls.Some? <==> c.ls.Some?
    ensures r.cache.ls.Some? ==> forall k :: k != key ==>
              (k in r.cache.ls.value <==> k in c.ls.value) && (k in c.ls.value ==> r.cache.ls.value[k] == c.ls.value[k])
  {
    if LsHit(c, key, now) then Read(Some(c.ls.value[key].entry.value), c)
    else
      var c1 := if c.ls.Some? && key in c.ls.value && c.ls.value[key].Stored?
                then c.(ls := Some(c.ls.value - {key})) else c;
      if key in c1.mem then
        if Live(c1.mem[key], now) then Read(Some(c1.mem[key].value), c1)
        else Read(None, c1.(mem := c1.mem - {key}))
      else Read(None, c1)
  }

  /** `set(key, value, ttlMs)` as written: the memory map always takes the
      entry; storage takes it only when `setItem` succeeds, and otherwise
      keeps whatever it held. */
  function SetAsWritten<V>(c: Cache<V>, key: string, v: V, ttl: int, now: int, fits: bool): (r: Cache<V>)
    ensures key in r.mem && r.mem[key] == Entry(v, ExpiresFor(ttl, now))
    ensures c.ls.Some? && fits ==> r.ls == Some(c.ls.value[key := Stored(Entry(v, ExpiresFor(ttl, now)))])
    ensures !fits ==> r.ls == c.ls
  {
    var e := Entry(v, ExpiresFor(ttl, now));
    var ls := if c.ls.Some? && fits then Some(c.ls.value[key := Stored(e)]) else c.ls;
    Cache(ls, c.mem[key := e])
  }

  /** After a failed `setItem` an older live stored entry still shadows
      the value just set: `get` returns the old value. */
  lemma SetAsWrittenShadowed<V>(c: Cache<V>, key: string, stale: Entry<V>, v: V, ttl: int, now: int, later: int)
    requires c.ls.Some? && key in c.ls.value && c.ls.value[key] == Stored(stale) && Live(stale, later)
    ensures Get(SetAsWritten(c, key, v, ttl, now, false), key, later).value == Some(stale.value)
  {
  }

  /** `set` with the stale copy dropped: when `setItem` throws the key is
      removed from storage, so the memory entry is the one read back. */
  function Set<V>(c: Cache<V>, key: string, v: V, ttl: int, now: int, fits: bool): (r: Cache<V>)
    ensures key in r.mem && r.mem[key] == Entry(v, ExpiresFor(ttl, now))
    ensures r.ls.Some? <==> c.ls.Some?
    ensures r.ls.Some? ==> key !in r.ls.value || r.ls.value[key] == Stored(Entry(v, ExpiresFor(ttl, now)))
    ensures forall k :: k != key ==> (k in r.mem <==> k in c.mem) && (k in c.mem ==> r.mem[k] == c.mem[k])
    ensures r.ls.Some? ==> forall k :: k != key ==>
              (k in r.ls.value <==> k in c.ls.value) && (k in c.ls.value ==> r.ls.value[k] == c.ls.value[k])
  {
    var e := Entry(v, ExpiresFor(ttl, now));
    var ls := if c.ls.None? then None
              else if fits then Some(c.ls.value[key := Stored(e)])
              else Some(c.ls.value - {key});
    Cache(ls, c.mem[key := e])
  }

  /** A `get` after a `set`, while the entry is live, returns the value
      set, whether or not storage took it. */
  lemma GetAfterSet<V>(c: Cache<V>, key: string, v: V, ttl: int, now: int, fits: bool, later: int)
    requires Live(Entry(v, ExpiresFor(ttl, now)), later)
    ensures Get(Set(c, key, v, ttl, now, fits), key, later).value == Some(v)
  {
  }

  /** The written `set` keeps that promise whenever storage takes the
      entry or is unavailable. */
  lemma GetAfterSetAsWritten<V>(c: Cache<V>, key: string, v: V, ttl: int, now: int, fits: bool, later: int)
    requires fits || c.ls.None?
    requires Live(Entry(v, ExpiresFor(ttl, now)), later)
    ensures Get(SetAsWritten(c, key, v, ttl, now, fits), key, later).value == Some(v)
  {
  }

  /** An entry set without a TTL never expires. */
  lemma NoTtlNeverExpires<V>(c: Cache<V>, key: string, v: V, now: int, fits: bool, later: int)
    ensures Get(Set(c, key, v, 0, now, fits), key, later).value == Some(v)
  {
  }

  /** An entry set with a positive TTL is gone once the TTL has passed,
      and the read removes it from both stores. */
  lemma ExpiredAfterTtl<V>(c: Cache<V>, key: string, v: V, ttl: int, now: int, fits: bool, later: int)
    requires ttl > 0 && now >= 0 && later >= now + ttl
    ensures var r := Get(Set(c, key, v, ttl, now, fits), key, later);
            && r.value.None?
            && key !in r.cache.mem
            && (r.cache.ls.Some? ==> key !in r.cache.ls.value)
  {
  }

  // ----- keyFrom -----

  /** One query parameter: its name and the JSON text of its value, None
      when `JSON.stringify` omits it (an `undefined` value). */
  datatype Param = Param(name: string, json: Option<string>)

  function Names(ps: seq<Param>): (r: seq<string>)
    ensures |r| == |ps| && forall i :: 0 <= i < |ps| ==> r[i] == ps[i].name
  {
    seq(|ps|, i requires 0 <= i < |ps| => ps[i].name)
  }

  /** A JavaScript object has each key once. */
  predicate DistinctNames(ps: seq<Param>) {
    forall i, j :: 0 <= i < j < |ps| ==> ps[i].name != ps[j].name
  }

  /** `params[k]` as JSON text. */
  function ValueOf(ps: seq<Param>, k: string): Option<string> {
    if |ps| == 0 then None
    else if ps[0].name == k then ps[0].json
    else ValueOf(ps[1..], k)
  }

  /** A canonical array index ("0", or digits without a leading zero,
      below 2^32 - 1): JavaScript lists such keys first, in numeric order. */
  predicate IsIndexKey(k: string) {
    && k != ""
    && (forall i :: 0 <= i < |k| ==> IsDigit(k[i]))
    && (k == "0" || k[0] != '0')
    && DecValue(k) < 4294967295
  }

  predicate NotIndexKey(k: string) {
    !IsIndexKey(k)
  }

  /** Numeric order of canonical indices: shorter first, then by text. */
  predicate NumLe(a: string, b: string) {
    |a| < |b| || (|a| == |b| && LexLe(a, b))
  }

  lemma NumLeTotalPreorder()
    ensures TotalPreorder(NumLe)
  {
    forall a, b ensures NumLe(a, b) || NumLe(b, a) {
      LexLeTotal(a, b);
    }
    forall a, b, c | NumLe(a, b) && NumLe(b, c) ensures NumLe(a, c) {
      if |a| == |b| == |c| {
        LexLeTrans(a, b, c);
      }
    }
  }

  /** The property order of the object built from the sorted names:
      index-like names in numeric order, then the others as inserted. */
  function PropertyOrder(sorted: seq<string>): seq<string> {
    NumLeTotalPreorder();
    SortBy(Filter(sorted, IsIndexKey), NumLe) + Filter(sorted, NotIndexKey)
  }

  /** `"name":json` for each present value, in the given order. */
  function Members(order: seq<string>, ps: seq<Param>): seq<string> {
    if |order| == 0 then []
    else
      var rest := Members(order[1..], ps);
      match ValueOf(ps, order[0])
      case None => rest
      case Some(j) => ["\"" + order[0] + "\":" + j] + rest
  }

  /** `JSON.stringify` of the object rebuilt in sorted name order. */
  function ParamsJson(ps: seq<Param>): (r: string)
    ensures StartsWith(r, "{") && EndsWith(r, "}")
  {
    "{" + Join(Members(PropertyOrder(SortedSet(Names(ps))), ps), ",") + "}"
  }

  /** `keyFrom(ep, params)`: `api:`, the endpoint, `?` and the JSON text
      of the parameters. */
  function KeyFrom(ep: string, ps: seq<Param>): (r: string)
    ensures StartsWith(r, "api:" + ep + "?{") && EndsWith(r, "}")
  {
    var r := "api:" + ep + "?" + ParamsJson(ps);
    assert r[..|"api:" + ep + "?{"|] == "api:" + ep + "?{";
    r
  }

  lemma {:induction false} ValueOfAgree(p1: seq<Param>, p2: seq<Param>, k: string)
    requires DistinctNames(p1) && DistinctNames(p2)
    requires forall x :: x in p1 <==> x in p2
    ensures ValueOf(p1, k) == ValueOf(p2, k)
  {
    ValueOfFound(p1, k);
    ValueOfFound(p2, k);
    if exists i :: 0 <= i < |p1| && p1[i].name == k {
      var i :| 0 <= i < |p1| && p1[i].name == k;
      assert p1[i] in p2;
      var j :| 0 <= j < |p2| && p2[j] == p1[i];
    } else {
      forall j | 0 <= j < |p2| ensures p2[j].name != k {
        assert p2[j] in p1;
      }
    }
  }

  /** The value of `k` is that of the one parameter named `k`. */
  lemma {:induction false} ValueOfFound(ps: seq<Param>, k: string)
    requires DistinctNames(ps)
    ensures forall i :: 0 <= i < |ps| && ps[i].name == k ==> ValueOf(ps, k) == ps[i].json
    ensures (forall i :: 0 <= i < |ps| ==> ps[i].name != k) ==> ValueOf(ps, k).None?
  {
    if |ps| > 0 {
      ValueOfFound(ps[1..], k);
      forall i | 1 <= i < |ps| ensures ps[i] == ps[1..][i - 1] { }
    }
  }

  lemma {:induction false} MembersAgree(order: seq<string>, p1: seq<Param>, p2: seq<Param>)
    requires forall k :: k in order ==> ValueOf(p1, k) == ValueOf(p2, k)
    ensures Members(order, p1) == Members(order, p2)
  {
    if |order| > 0 {
      assert order[0] in order;
      MembersAgree(order[1..], p1, p2);
    }
  }

  /** The key does not depend on the order the parameters were inserted
      in: two objects with the same entries give the same key. */
  lemma KeyFromOrderFree(ep: string, p1: seq<Param>, p2: seq<Param>)
    requires DistinctNames(p1) && DistinctNames(p2)
    requires forall x :: x in p1 <==> x in p2
    ensures KeyFrom(ep, p1) == KeyFrom(ep, p2)
  {
    assert forall z :: z in Names(p1) <==> z in Names(p2) by {
      forall z ensures z in Names(p1) <==> z in Names(p2) {
        if z in Names(p1) {
          var i :| 0 <= i < |p1| && Names(p1)[i] == z;
          assert p1[i] in p2;
          var j :| 0 <= j < |p2| && p2[j] == p1[i];
          assert Names(p2)[j] == z;
        }
        if z in Names(p2) {
          var i :| 0 <= i < |p2| && Names(p2)[i] == z;
          assert p2[i] in p1;
          var j :| 0 <= j < |p1| && p1[j] == p2[i];
          assert Names(p1)[j] == z;
        }
      }
    }
    StrictlySortedUnique(SortedSet(Names(p1)), SortedSet(Names(p2)));
    var order := PropertyOrder(SortedSet(Names(p1)));
    forall k | k in order ensures ValueOf(p1, k) == ValueOf(p2, k) {
      ValueOfAgree(p1, p2, k);
    }
    MembersAgree(order, p1, p2);
  }

  /** Text before the first `?` is determined by the whole. */
  lemma FirstSeparator(x1: string, y1: string, x2: string, y2: string)
    requires '?' !in x1 && '?' !in x2
    requires x1 + "?" + y1 == x2 + "?" + y2
    ensures x1 == x2
  {
    var k := x1 + "?" + y1;
    assert k[..|x1|] == x1 && k[..|x2|] == x2;
    assert k[|x1|] == '?' && k[|x2|] == '?';
    assert forall i :: 0 <= i < |x1| ==> k[i] != '?' by {
      forall i | 0 <= i < |x1| ensures k[i] != '?' {
        assert k[i] == x1[i];
        assert x1[i] in x1;
      }
    }
    assert forall i :: 0 <= i < |x2| ==> k[i] != '?' by {
      forall i | 0 <= i < |x2| ensures k[i] != '?' {
        assert k[i] == x2[i];
        assert x2[i] in x2;
      }
    }
    assert |x1| == |x2|;
  }

  /** Endpoints without a `?` get distinct keys, whatever the
      parameters. */
  lemma KeyFromSeparatesEndpoints(ep1: string, ep2: string, p1: seq<Param>, p2: seq<Param>)
    requires '?' !in ep1 && '?' !in ep2
    requires KeyFrom(ep1, p1) == KeyFrom(ep2, p2)
    ensures ep1 == ep2
  {
    assert '?' !in "api:" + ep1 && '?' !in "api:" + ep2;
    FirstSeparator("api:" + ep1, ParamsJson(p1), "api:" + ep2, ParamsJson(p2));
    assert ep1 == ("api:" + ep1)[4..] == ("api:" + ep2)[4..] == ep2;
  }
}
