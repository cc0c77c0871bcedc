/** The API statistics endpoints: the per-endpoint counters read back from
    the cache keys the counting middleware writes, their per-path totals,
    the ranking by total, the traffic recommendations, and the reset.

    `listing` is what `cache.keys('api_endpoint_*')` returns (every key
    that starts with the endpoint prefix, in the backend's order; an empty
    sequence for a backend without `keys`). */
module StatsView {
  import opened Wrappers
  import opened Text
  import opened Ordering
  import opened Middleware

  // ----- endpoint keys -----

  /** The key parser as written: `key.replace('api_endpoint_', '')` removes
      every occurrence of the prefix, then `rsplit('_', 1)`. */
  function ParseKeyAsWritten(key: string): Option<(string, string)> {
    RSplitOnce(ReplaceAll(key, EndpointPrefix, ""), '_')
  }

  /** A request to a path that itself contains the prefix is reported
      under another path: the parse as written has lost a copy of the
      prefix. */
  lemma ParseKeyAsWrittenMisreadsPath(path: string, verb: string)
    requires Contains(path, EndpointPrefix)
    ensures ParseKeyAsWritten(EndpointKey(path, verb)) != Some((path, verb))
  {
    var rest := path + "_" + verb;
    assert EndpointKey(path, verb) == EndpointPrefix + rest;
    ReplaceAllFront(EndpointPrefix, rest, "");
    ContainsLeft(path, "_" + verb, EndpointPrefix);
    assert rest == path + ("_" + verb);
    ReplaceAllDrops(rest, EndpointPrefix);
    var replaced := ReplaceAll(EndpointPrefix + rest, EndpointPrefix, "");
    assert |replaced| < |path + ['_'] + verb|;
    assert replaced != path + ['_'] + verb;
  }

  /** The smallest case: `/api/api_endpoint_/` is counted under
      `/api//`. */
  lemma MisreadExample(verb: string)
    ensures ParseKeyAsWritten(EndpointKey(ApiPrefix + EndpointPrefix + "/", verb))
            != Some((ApiPrefix + EndpointPrefix + "/", verb))
  {
    ContainsMiddle(ApiPrefix, EndpointPrefix, "/");
    ParseKeyAsWrittenMisreadsPath(ApiPrefix + EndpointPrefix + "/", verb);
  }

  /** The key parser with only the leading prefix stripped (every listed
      key starts with it). */
  function ParseKey(key: string): Option<(string, string)> {
    var rest := if StartsWith(key, EndpointPrefix) then key[|EndpointPrefix|..] else key;
    RSplitOnce(rest, '_')
  }

  /** Splitting at the last separator has one answer. */
  lemma LastSplitUnique(a1: string, b1: string, a2: string, b2: string, c: char)
    requires a1 + [c] + b1 == a2 + [c] + b2
    requires c !in b1 && c !in b2
    ensures a1 == a2 && b1 == b2
  {
    var s := a1 + [c] + b1;
    var t := a2 + [c] + b2;
    assert forall j :: |a1| < j < |s| ==> s[j] == b1[j - |a1| - 1];
    assert forall j :: |a2| < j < |t| ==> t[j] == b2[j - |a2| - 1];
    assert s[|a1|] == c && t[|a2|] == c;
    assert |a1| == |a2|;
    assert b1 == s[|s| - |b1|..] == b2;
    assert a1 == s[..|a1|] == a2;
  }

  /** For a method name without '_', the parser recovers exactly the path
      and method the middleware counted; and every parse of a listed key
      names the key it came from. */
  lemma ParseKeyIff(key: string, path: string, verb: string)
    requires StartsWith(key, EndpointPrefix)
    ensures ParseKey(key) == Some((path, verb)) <==> key == EndpointKey(path, verb) && '_' !in verb
  {
    if key == EndpointKey(path, verb) && '_' !in verb {
      ParseEndpointKey(path, verb);
    }
    if ParseKey(key) == Some((path, verb)) {
      ParsedKeyShape(key, path, verb);
    }
  }

  /** The round trip with the middleware's key builder. */
  lemma ParseEndpointKey(path: string, verb: string)
    requires '_' !in verb
    ensures ParseKey(EndpointKey(path, verb)) == Some((path, verb))
  {
    var rest := path + "_" + verb;
    var key := EndpointPrefix + rest;
    assert EndpointKey(path, verb) == key;
    StartsWithAppend(EndpointPrefix, rest);
    assert key[|EndpointPrefix|..] == rest;
    var (a, b) := RSplitOnce(rest, '_').value;
    LastSplitUnique(a, b, path, verb, '_');
  }

  /** A parse of a listed key names the key it came from. */
  lemma ParsedKeyShape(key: string, path: string, verb: string)
    requires StartsWith(key, EndpointPrefix)
    requires ParseKey(key) == Some((path, verb))
    ensures key == EndpointKey(path, verb) && '_' !in verb
  {
    var rest := key[|EndpointPrefix|..];
    assert key == EndpointPrefix + rest;
    assert rest == path + "_" + verb;
  }

  /** The parse as written agrees with the middleware's key whenever the
      method has no '_' and the path, with the separator after it, holds
      no copy of the prefix. */
  lemma ParseKeyAsWrittenAgrees(path: string, verb: string)
    requires '_' !in verb && !Contains(path + "_", EndpointPrefix)
    ensures ParseKeyAsWritten(EndpointKey(path, verb)) == Some((path, verb))
  {
    var rest := path + "_" + verb;
    assert EndpointKey(path, verb) == EndpointPrefix + rest;
    ReplaceAllFront(EndpointPrefix, rest, "");
    NoPrefixAcrossSeparator(path, verb);
    ReplaceAllAbsent(rest, EndpointPrefix, "");
    assert "" + rest == rest;
    var (a, b) := RSplitOnce(rest, '_').value;
    LastSplitUnique(a, b, path, verb, '_');
  }

  /** The prefix ends with '_', so a copy of it cannot reach into a method
      without '_'. */
  lemma NoPrefixAcrossSeparator(path: string, verb: string)
    requires '_' !in verb && !Contains(path + "_", EndpointPrefix)
    ensures !Contains(path + "_" + verb, EndpointPrefix)
  {
    var rest := path + "_" + verb;
    var n := |path| + 1;
    var w := |EndpointPrefix|;
    assert EndpointPrefix[w - 1] == '_';
    assert forall k :: n <= k < |rest| ==> rest[k] == verb[k - n];
    forall i | 0 <= i <= |rest| - w ensures !OccursAt(rest, EndpointPrefix, i) {
      if i + w <= n {
        assert rest[i..i + w] == (path + "_")[i..i + w];
        assert !OccursAt(path + "_", EndpointPrefix, i);
      } else {
        assert rest[i..i + w][w - 1] == rest[i + w - 1];
      }
    }
  }

  // ----- per-path method counts -----

  /** One path's counts per method, in first-seen order. */
  type MethodCounts = seq<(string, int)>

  datatype Endpoint = Endpoint(path: string, methods: MethodCounts)

  function LookupMethod(ms: MethodCounts, verb: string): Option<int> {
    if |ms| == 0 then None
    else if ms[0].0 == verb then Some(ms[0].1)
    else LookupMethod(ms[1..], verb)
  }

  /** `methods[verb] = count`. */
  function SetMethod(ms: MethodCounts, verb: string, count: int): (r: MethodCounts)
    ensures forall m :: LookupMethod(r, m) == if m == verb then Some(count) else LookupMethod(ms, m)
  {
    if |ms| == 0 then [(verb, count)]
    else if ms[0].0 == verb then [(verb, count)] + ms[1..]
    else
      var r := [ms[0]] + SetMethod(ms[1..], verb, count);
      assert r[1..] == SetMethod(ms[1..], verb, count);
      r
  }

  function LookupPath(eps: seq<Endpoint>, path: string): Option<nat> {
    if |eps| == 0 then None
    else if eps[0].path == path then Some(0)
    else match LookupPath(eps[1..], path)
      case None => None
      case Some(i) => Some(i + 1)
  }

  lemma LookupPathBound(eps: seq<Endpoint>, path: string)
    ensures LookupPath(eps, path).Some? ==> LookupPath(eps, path).value < |eps|
    ensures LookupPath(eps, path).Some? ==> eps[LookupPath(eps, path).value].path == path
    ensures LookupPath(eps, path).None? <==> forall i :: 0 <= i < |eps| ==> eps[i].path != path
  {
  }

  /** `stats['endpoints'][path][verb]`, when present. */
  function Lookup(eps: seq<Endpoint>, path: string, verb: string): Option<int> {
    LookupPathBound(eps, path);
    match LookupPath(eps, path)
    case None => None
    case Some(i) => LookupMethod(eps[i].methods, verb)
  }

  /** `if path not in endpoints: endpoints[path] = {}` then
      `endpoints[path][verb] = count`. */
  function Record(eps: seq<Endpoint>, path: string, verb: string, count: int): (r: seq<Endpoint>)
    ensures forall p, m :: Lookup(r, p, m) == if p == path && m == verb then Some(count) else Lookup(eps, p, m)
    ensures forall p :: LookupPath(r, p).Some? <==> p == path || LookupPath(eps, p).Some?
  {
    LookupPathBound(eps, path);
    match LookupPath(eps, path)
    case None =>
      var r := eps + [Endpoint(path, SetMethod([], verb, count))];
      assert forall p, m :: Lookup(r, p, m) == if p == path && m == verb then Some(count) else Lookup(eps, p, m) by {
        forall p, m ensures Lookup(r, p, m) == if p == path && m == verb then Some(count) else Lookup(eps, p, m) {
          LookupAppend(eps, Endpoint(path, SetMethod([], verb, count)), p);
          LookupPathBound(eps, p);
          if LookupPath(eps, p).Some? {
            var j := LookupPath(eps, p).value;
            assert r[j] == eps[j];
          } else if p == path {
            assert r[|eps|].methods == SetMethod([], verb, count);
          }
        }
      }
      assert forall p :: LookupPath(r, p).Some? <==> p == path || LookupPath(eps, p).Some? by {
        forall p ensures LookupPath(r, p).Some? <==> p == path || LookupPath(eps, p).Some? {
          LookupAppend(eps, Endpoint(path, SetMethod([], verb, count)), p);
        }
      }
      r
    case Some(i) =>
      var r := eps[i := Endpoint(path, SetMethod(eps[i].methods, verb, count))];
      assert forall p, m :: Lookup(r, p, m) == if p == path && m == verb then Some(count) else Lookup(eps, p, m) by {
        forall p, m ensures Lookup(r, p, m) == if p == path && m == verb then Some(count) else Lookup(eps, p, m) {
          LookupUpdate(eps, i, SetMethod(eps[i].methods, verb, count), p);
          LookupPathBound(eps, p);
          if LookupPath(eps, p).Some? {
            var j := LookupPath(eps, p).value;
            if j == i {
              assert p == path;
            } else {
              assert r[j] == eps[j];
            }
          }
        }
      }
      assert forall p :: LookupPath(r, p).Some? <==> p == path || LookupPath(eps, p).Some? by {
        forall p ensures LookupPath(r, p).Some? <==> p == path || LookupPath(eps, p).Some? {
          LookupUpdate(eps, i, SetMethod(eps[i].methods, verb, count), p);
        }
      }
      r
  }

  lemma {:induction false} LookupAppend(eps: seq<Endpoint>, e: Endpoint, p: string)
    requires LookupPath(eps, e.path).None?
    ensures LookupPath(eps + [e], p) == if LookupPath(eps, p).Some? then LookupPath(eps, p) else if p == e.path then Some(|eps|) else None
  {
    if |eps| > 0 {
      assert (eps + [e])[1..] == eps[1..] + [e];
      LookupAppend(eps[1..], e, p);
    }
  }

  lemma {:induction false} LookupUpdate(eps: seq<Endpoint>, i: nat, ms: MethodCounts, p: string)
    requires i < |eps| && LookupPath(eps, eps[i].path) == Some(i)
    ensures LookupPath(eps[i := Endpoint(eps[i].path, ms)], p) == LookupPath(eps, p)
  {
    if |eps| > 0 && i > 0 {
      assert eps[i := Endpoint(eps[i].path, ms)][1..] == eps[1..][i - 1 := Endpoint(eps[i].path, ms)];
      LookupUpdate(eps[1..], i - 1, ms, p);
    }
  }

  // ----- reading the counters back -----

  /** Every listed key carries the endpoint prefix. */
  predicate PrefixKeys(listing: seq<string>) {
    forall i | 0 <= i < |listing| :: StartsWith(listing[i], EndpointPrefix)
  }

  /** `eps` shows exactly the counters of the listed keys that parse. */
  ghost predicate Shows(eps: seq<Endpoint>, listing: seq<string>, c: Counters) {
    && (forall p, m :: Lookup(eps, p, m).Some? <==> '_' !in m && EndpointKey(p, m) in listing)
    && (forall p, m :: Lookup(eps, p, m).Some? ==> Lookup(eps, p, m).value == Count(c, EndpointKey(p, m)))
  }

  /** A key that does not parse names no endpoint and is skipped. */
  lemma SkipKeyCorrected(eps: seq<Endpoint>, init: seq<string>, key: string, c: Counters)
    requires Shows(eps, init, c)
    requires StartsWith(key, EndpointPrefix) && ParseKey(key).None?
    ensures Shows(eps, init + [key], c)
  {
    forall p, m | '_' !in m ensures EndpointKey(p, m) != key {
      ParseKeyIff(key, p, m);
    }
    assert forall k :: k in init + [key] <==> k in init || k == key;
  }

  /** A key that parses records its counter under its own endpoint. */
  lemma RecordKeyCorrected(eps: seq<Endpoint>, init: seq<string>, key: string, c: Counters)
    requires Shows(eps, init, c)
    requires StartsWith(key, EndpointPrefix) && ParseKey(key).Some?
    ensures Shows(Record(eps, ParseKey(key).value.0, ParseKey(key).value.1, Count(c, key)), init + [key], c)
  {
    var (p, m) := ParseKey(key).value;
    var r := Record(eps, p, m, Count(c, key));
    ParseKeyIff(key, p, m);
    forall p', m'
      ensures Lookup(r, p', m').Some? <==> '_' !in m' && EndpointKey(p', m') in init + [key]
      ensures Lookup(r, p', m').Some? ==> Lookup(r, p', m').value == Count(c, EndpointKey(p', m'))
    {
      ParseKeyIff(key, p', m');
      assert EndpointKey(p', m') in init + [key] <==> EndpointKey(p', m') in init || EndpointKey(p', m') == key;
    }
  }

  /** The loop over the listed keys with the corrected parser: each key
      that parses records its counter (`cache.get(key, 0)`) under the path
      and method the middleware counted. */
  function CollectCorrected(listing: seq<string>, c: Counters): (r: seq<Endpoint>)
    requires PrefixKeys(listing)
    ensures forall p, m :: Lookup(r, p, m).Some? <==> '_' !in m && EndpointKey(p, m) in listing
    ensures forall p, m :: Lookup(r, p, m).Some? ==> Lookup(r, p, m).value == Count(c, EndpointKey(p, m))
    decreases |listing|
  {
    if |listing| == 0 then []
    else
      var n := |listing| - 1;
      var key := listing[n];
      var init := listing[..n];
      assert PrefixKeys(init);
      assert listing == init + [key];
      var eps := CollectCorrected(init, c);
      match ParseKey(key)
      case None =>
        SkipKeyCorrected(eps, init, key, c);
        eps
      case Some((p, m)) =>
        RecordKeyCorrected(eps, init, key, c);
        Record(eps, p, m, Count(c, key))
  }

  /** The parse as written of every listed key. */
  function ReadAsWritten(listing: seq<string>): (r: seq<Option<(string, string)>>)
    ensures |r| == |listing|
    ensures forall i :: 0 <= i < |listing| ==> r[i] == ParseKeyAsWritten(listing[i])
  {
    seq(|listing|, i requires 0 <= i < |listing| => ParseKeyAsWritten(listing[i]))
  }

  /** Index of the last listed key that the parse as written reads as
      `(path, verb)`. */
  function LastParsedAs(listing: seq<string>, path: string, verb: string): (r: Option<nat>)
    ensures r.Some? ==> r.value < |listing| && ParseKeyAsWritten(listing[r.value]) == Some((path, verb))
    ensures r.Some? ==> forall j :: r.value < j < |listing| ==> ParseKeyAsWritten(listing[j]) != Some((path, verb))
    ensures r.None? <==> forall j :: 0 <= j < |listing| ==> ParseKeyAsWritten(listing[j]) != Some((path, verb))
  {
    var parsed := ReadAsWritten(listing);
    var r := LastIndex(parsed, Some((path, verb)));
    assert r.Some? ==> forall j :: r.value < j < |listing| ==> parsed[j] != Some((path, verb)) by {
      if r.Some? {
        forall j | r.value < j < |listing| ensures parsed[j] != Some((path, verb)) {
          assert parsed[j] == parsed[r.value + 1..][j - r.value - 1];
        }
      }
    }
    r
  }

  /** The loop over the listed keys as written: each key that the parse
      as written splits records its counter under that path and method, a
      later key overwriting an earlier one that reads the same. */
  function Collect(listing: seq<string>, c: Counters): (r: seq<Endpoint>)
    ensures forall p, m :: Lookup(r, p, m) ==
              if LastParsedAs(listing, p, m).None? then None
              else Some(Count(c, listing[LastParsedAs(listing, p, m).value]))
    decreases |listing|
  {
    if |listing| == 0 then []
    else
      var n := |listing| - 1;
      var eps := Collect(listing[..n], c);
      LastParsedAsSteps(listing);
      match ParseKeyAsWritten(listing[n])
      case None => eps
      case Some((p, m)) => Record(eps, p, m, Count(c, listing[n]))
  }

  /** The last key read as a pair is the final key when it reads so, and
      otherwise the last such key before it. */
  lemma LastParsedAsSteps(listing: seq<string>)
    requires |listing| > 0
    ensures forall p, m :: LastParsedAs(listing, p, m) ==
              if ParseKeyAsWritten(listing[|listing| - 1]) == Some((p, m)) then Some(|listing| - 1)
              else LastParsedAs(listing[..|listing| - 1], p, m)
  {
    var n := |listing| - 1;
    var parsed := ReadAsWritten(listing);
    var before := ReadAsWritten(listing[..n]);
    assert parsed[..n] == before by {
      forall j | 0 <= j < n ensures parsed[j] == before[j] {
        assert listing[..n][j] == listing[j];
      }
    }
    forall p, m ensures LastParsedAs(listing, p, m) ==
              if parsed[n] == Some((p, m)) then Some(n) else LastParsedAs(listing[..n], p, m)
    {
      assert LastParsedAs(listing, p, m) == LastIndex(parsed, Some((p, m)));
      assert LastParsedAs(listing[..n], p, m) == LastIndex(before, Some((p, m)));
    }
  }

  /** Where no listed key has a second copy of the prefix, both parsers
      read every key alike and both collectors show the same counters. */
  lemma CollectAgrees(listing: seq<string>, c: Counters)
    requires PrefixKeys(listing)
    requires forall i :: 0 <= i < |listing| ==> ParseKeyAsWritten(listing[i]) == ParseKey(listing[i])
    ensures forall p, m :: Lookup(Collect(listing, c), p, m) == Lookup(CollectCorrected(listing, c), p, m)
  {
    forall p, m ensures Lookup(Collect(listing, c), p, m) == Lookup(CollectCorrected(listing, c), p, m) {
      match LastParsedAs(listing, p, m)
      case Some(i) =>
        ParseKeyIff(listing[i], p, m);
      case None =>
        if '_' !in m && EndpointKey(p, m) in listing {
          var j :| 0 <= j < |listing| && listing[j] == EndpointKey(p, m);
          ParseKeyIff(listing[j], p, m);
        }
    }
  }

  /** Sum of the counts of one path. */
  function Sum(ms: MethodCounts): int {
    if |ms| == 0 then 0 else ms[0].1 + Sum(ms[1..])
  }

  /** One entry of `endpoints_ranked`. */
  datatype Ranked = Ranked(path: string, methods: MethodCounts, total: int)

  function Totals(eps: seq<Endpoint>): (r: seq<Ranked>)
    ensures |r| == |eps|
    ensures forall i :: 0 <= i < |eps| ==> r[i] == Ranked(eps[i].path, eps[i].methods, Sum(eps[i].methods))
  {
    seq(|eps|, i requires 0 <= i < |eps| => Ranked(eps[i].path, eps[i].methods, Sum(eps[i].methods)))
  }

  /** The ranking order: larger totals first. */
  predicate MoreCalls(a: Ranked, b: Ranked) {
    a.total >= b.total
  }

  /** `sorted(..., key=total, reverse=True)`: every path with its methods,
      each total the sum of its method counts, in descending order. */
  function Rank(eps: seq<Endpoint>): (r: seq<Ranked>)
    ensures |r| == |eps|
    ensures forall i, j :: 0 <= i < j < |r| ==> r[i].total >= r[j].total
    ensures forall x :: x in r <==> x in Totals(eps)
    ensures forall x :: x in r ==> x.total == Sum(x.methods)
    ensures multiset(r) == multiset(Totals(eps))
  {
    var t := Totals(eps);
    var r := SortBy(t, MoreCalls);
    InSortBy(t, MoreCalls, Ranked("", [], 0));
    assert forall x :: x in r <==> x in t by {
      forall x ensures x in r <==> x in t {
        InSortBy(t, MoreCalls, x);
      }
    }
    r
  }

  // ----- recommendations -----

  datatype Recommendation = Recommendation(kind: string, level: string, message: string)

  const HighTraffic: int := 10000
  const ModerateTraffic: int := 5000

  /** The daily-traffic entry, if any. */
  function UsageRecommendation(daily: int): (r: seq<Recommendation>)
    ensures daily > HighTraffic ==>
              r == [Recommendation("usage", "warning", IntText(daily) + " llamadas hoy. Alto tráfico, considera rate limiting.")]
    ensures ModerateTraffic < daily <= HighTraffic ==>
              r == [Recommendation("usage", "info", IntText(daily) + " llamadas hoy. Tráfico moderado-alto.")]
    ensures daily <= ModerateTraffic ==> r == []
  {
    if daily > HighTraffic then
      [Recommendation("usage", "warning", IntText(daily) + " llamadas hoy. Alto tráfico, considera rate limiting.")]
    else if daily > ModerateTraffic then
      [Recommendation("usage", "info", IntText(daily) + " llamadas hoy. Tráfico moderado-alto.")]
    else []
  }

  const TopHead: string := "Endpoint más usado: "

  /** The entry naming the busiest path. */
  function TopRecommendation(top: Ranked): (r: Recommendation)
    ensures r.kind == "optimization" && r.level == "info"
    ensures StartsWith(r.message, TopHead) && Contains(r.message, top.path)
  {
    var tail := " con " + IntText(top.total) + " llamadas. Prioriza su optimización.";
    StartsWithAppend(TopHead, top.path + tail);
    assert TopHead + top.path + tail == TopHead + (top.path + tail);
    ContainsMiddle(TopHead, top.path, tail);
    Recommendation("optimization", "info", TopHead + top.path + tail)
  }

  /** `get_recommendations` without its response-time entries: at most one
      usage entry (by the day's calls) and, when anything was ranked,
      exactly one optimization entry about the first-ranked path. */
  function Recommendations(daily: int, ranked: seq<Ranked>): (r: seq<Recommendation>)
    ensures |r| == (if daily > ModerateTraffic then 1 else 0) + (if |ranked| > 0 then 1 else 0)
    ensures daily > ModerateTraffic ==> r[0].kind == "usage" && r[0].level == (if daily > HighTraffic then "warning" else "info")
    ensures |ranked| > 0 ==> r[|r| - 1] == TopRecommendation(ranked[0]) && Contains(r[|r| - 1].message, ranked[0].path)
    ensures forall i :: 0 <= i < |r| ==> (r[i].kind == "optimization" <==> |ranked| > 0 && i == |r| - 1)
  {
    UsageRecommendation(daily) + (if |ranked| > 0 then [TopRecommendation(ranked[0])] else [])
  }

  // ----- the two views -----

  const ResponseCountKey: string := "api_response_count"
  const AvgTimeKey: string := "api_avg_response_time"

  /** The integer part of the statistics response. */
  datatype Stats = Stats(
    totalCalls: int,
    dailyCalls: int,
    responseCount: int,
    endpoints: seq<Endpoint>,
    ranked: seq<Ranked>,
    recommendations: seq<Recommendation>)

  /** `APIStatsView.get` with the corrected parser. */
  function GetStatsCorrected(c: Counters, listing: seq<string>, today: string): (r: Stats)
    requires PrefixKeys(listing)
    ensures r.totalCalls == Count(c, TotalKey) && r.dailyCalls == Count(c, DailyKey(today))
    ensures r.responseCount == Count(c, ResponseCountKey)
    ensures forall p, m :: Lookup(r.endpoints, p, m).Some? <==> '_' !in m && EndpointKey(p, m) in listing
    ensures forall p, m :: Lookup(r.endpoints, p, m).Some? ==> Lookup(r.endpoints, p, m).value == Count(c, EndpointKey(p, m))
    ensures r.ranked == Rank(r.endpoints)
    ensures r.recommendations == Recommendations(Count(c, DailyKey(today)), r.ranked)
  {
    var eps := CollectCorrected(listing, c);
    var ranked := Rank(eps);
    Stats(Count(c, TotalKey), Count(c, DailyKey(today)), Count(c, ResponseCountKey), eps, ranked,
          Recommendations(Count(c, DailyKey(today)), ranked))
  }

  /** `APIStatsView.get`, with `today` the formatted date: the counters,
      every listed key the parse as written splits, the ranking of those
      paths and the recommendations. */
  function GetStats(c: Counters, listing: seq<string>, today: string): (r: Stats)
    ensures r.totalCalls == Count(c, TotalKey) && r.dailyCalls == Count(c, DailyKey(today))
    ensures r.responseCount == Count(c, ResponseCountKey)
    ensures forall p, m :: Lookup(r.endpoints, p, m) ==
              if LastParsedAs(listing, p, m).None? then None
              else Some(Count(c, listing[LastParsedAs(listing, p, m).value]))
    ensures r.ranked == Rank(r.endpoints)
    ensures r.recommendations == Recommendations(Count(c, DailyKey(today)), r.ranked)
  {
    var eps := Collect(listing, c);
    var ranked := Rank(eps);
    Stats(Count(c, TotalKey), Count(c, DailyKey(today)), Count(c, ResponseCountKey), eps, ranked,
          Recommendations(Count(c, DailyKey(today)), ranked))
  }

  /** A counted request to a path without a copy of the prefix shows up in
      the statistics as written: its endpoint and method are listed, they
      carry the new count unless another listed key reads the same, and
      the total and daily calls went up by one. */
  lemma CountedRequestShown(c: Counters, path: string, verb: string, today: string, listing: seq<string>)
    requires StartsWith(path, ApiPrefix) && '_' !in verb && !Contains(path + "_", EndpointPrefix)
    requires EndpointKey(path, verb) in listing
    ensures var s := GetStats(CountRequest(c, path, verb, today), listing, today);
            && Lookup(s.endpoints, path, verb).Some?
            && ((forall k :: k in listing && ParseKeyAsWritten(k) == Some((path, verb)) ==> k == EndpointKey(path, verb))
                ==> Lookup(s.endpoints, path, verb) == Some(Count(c, EndpointKey(path, verb)) + 1))
            && s.totalCalls == Count(c, TotalKey) + 1
            && s.dailyCalls == Count(c, DailyKey(today)) + 1
  {
    var c2 := CountRequest(c, path, verb, today);
    ParseKeyAsWrittenAgrees(path, verb);
    ListedEndpointShown(c2, listing, today, path, verb);
  }

  /** A listed key that the as-written parse reads as (path, verb) puts
      that pair in the statistics, with the key's own counter when no other
      listed key reads the same. */
  lemma ListedEndpointShown(c: Counters, listing: seq<string>, today: string, path: string, verb: string)
    requires EndpointKey(path, verb) in listing && ParseKeyAsWritten(EndpointKey(path, verb)) == Some((path, verb))
    ensures var s := GetStats(c, listing, today);
            && Lookup(s.endpoints, path, verb).Some?
            && ((forall k :: k in listing && ParseKeyAsWritten(k) == Some((path, verb)) ==> k == EndpointKey(path, verb))
                ==> Lookup(s.endpoints, path, verb) == Some(Count(c, EndpointKey(path, verb))))
  {
    var key := EndpointKey(path, verb);
    var last := LastParsedAs(listing, path, verb);
    assert last.Some? by {
      var j :| 0 <= j < |listing| && listing[j] == key;
    }
    var s := GetStats(c, listing, today);
    assert Lookup(s.endpoints, path, verb) == Some(Count(c, listing[last.value]));
    assert listing[last.value] in listing;
  }

  /** With the corrected parser a counted request shows up in the
      statistics: its endpoint and method carry the new count, and the
      total and daily calls went up by one. */
  lemma CountedRequestShownCorrected(c: Counters, path: string, verb: string, today: string, listing: seq<string>)
    requires StartsWith(path, ApiPrefix) && '_' !in verb
    requires PrefixKeys(listing) && EndpointKey(path, verb) in listing
    ensures var s := GetStatsCorrected(CountRequest(c, path, verb, today), listing, today);
            && Lookup(s.endpoints, path, verb) == Some(Count(c, EndpointKey(path, verb)) + 1)
            && s.totalCalls == Count(c, TotalKey) + 1
            && s.dailyCalls == Count(c, DailyKey(today)) + 1
  {
  }

  /** `APIStatsResetView.post`: the total, the response counters, today's
      counter and every listed endpoint key are deleted; nothing else. */
  function Reset(c: Counters, listing: seq<string>, today: string): (r: Counters)
    ensures forall k :: k in r <==> (k in c && k != TotalKey && k != AvgTimeKey && k != ResponseCountKey
                                    && k != DailyKey(today) && k !in listing)
    ensures forall k :: k in r ==> r[k] == c[k]
  {
    map k | k in c && k != TotalKey && k != AvgTimeKey && k != ResponseCountKey
                   && k != DailyKey(today) && k !in listing :: c[k]
  }

  /** After a reset that listed every endpoint key, the statistics read
      zero calls, no endpoints and no recommendations. */
  lemma ResetClearsStats(c: Counters, listing: seq<string>, today: string)
    requires forall k :: k in c && StartsWith(k, EndpointPrefix) ==> k in listing
    ensures var r := Reset(c, listing, today);
            && (forall k :: k in r ==> !StartsWith(k, EndpointPrefix))
            && GetStats(r, [], today) == Stats(0, 0, 0, [], [], [])
  {
  }
}
