/** `toCdnUrl`: the client's rewrite of Backblaze B2 image URLs onto the
    Cloudflare image host, with optional width and quality parameters.

    URL parsing covers http(s) URLs in serialised form: a lower-case
    host without port or credentials, then path, query and fragment. Any
    other text counts as unparseable, which `toCdnUrl` returns unchanged.
    Percent-encoding, `+` for spaces and dot segments are not modelled. */
module Cdn {
  import opened Wrappers
  import opened Text
  import opened JsValues

  const CdnHostName: string := "img.miswebtoons.uk"
  const CdnHost: string := "https://" + CdnHostName
  const B2Hosts: seq<string> := ["s3.us-east-005.backblazeb2.com", "f005.backblazeb2.com"]

  // ----- URLs -----

  datatype Url = Url(scheme: string, host: string, path: string, query: Option<string>, fragment: Option<string>)

  /** The index of the first character in `stop`, or `|s|`. */
  function Span(s: string, stop: set<char>): (i: nat)
    ensures i <= |s|
    ensures forall j :: 0 <= j < i ==> s[j] !in stop
    ensures i < |s| ==> s[i] in stop
  {
    if |s| == 0 || s[0] in stop then 0 else 1 + Span(s[1..], stop)
  }

  /** A stretch without stop characters, followed by nothing or by a stop
      character, is exactly the span. */
  lemma {:induction false} SpanPrefix(a: string, b: string, stop: set<char>)
    requires forall j :: 0 <= j < |a| ==> a[j] !in stop
    requires |b| == 0 || b[0] in stop
    ensures Span(a + b, stop) == |a|
    decreases |a|
  {
    if |a| > 0 {
      assert (a + b)[1..] == a[1..] + b;
      SpanPrefix(a[1..], b, stop);
    } else {
      assert a + b == b;
    }
  }

  /** A host the model parses: non-empty, lower-case, no port, credentials,
      backslash or space. */
  predicate ValidHost(h: string) {
    h != "" && forall i :: 0 <= i < |h| ==> h[i] !in {':', '@', '\\'} && !IsSpace(h[i]) && !('A' <= h[i] <= 'Z')
  }

  /** `new URL(s)` on a serialised http(s) URL; None otherwise. */
  function ParseUrl(s: string): (r: Option<Url>)
    ensures r.Some? ==> ValidHost(r.value.host) && (r.value.scheme == "http" || r.value.scheme == "https")
    ensures r.Some? ==> r.value.path == "" || r.value.path[0] == '/'
  {
    if StartsWith(s, "https://") then ParseAuthority("https", s[8..])
    else if StartsWith(s, "http://") then ParseAuthority("http", s[7..])
    else None
  }

  /** The host runs up to the first `/`, `?` or `#`. */
  function ParseAuthority(scheme: string, rest: string): (r: Option<Url>)
    ensures r.Some? ==> r.value.scheme == scheme && ValidHost(r.value.host)
    ensures r.Some? ==> r.value.path == "" || r.value.path[0] == '/'
  {
    var h := Span(rest, {'/', '?', '#'});
    if !ValidHost(rest[..h]) then None
    else Some(ParseTail(scheme, rest[..h], rest[h..]))
  }

  /** Path, query and fragment of what follows the host. */
  function ParseTail(scheme: string, host: string, tail: string): (u: Url)
    requires tail == "" || tail[0] in {'/', '?', '#'}
    ensures u.scheme == scheme && u.host == host
    ensures u.path == "" || u.path[0] == '/'
  {
    var f := Span(tail, {'#'});
    var beforeFrag := tail[..f];
    var qi := Span(beforeFrag, {'?'});
    Url(scheme, host, beforeFrag[..qi],
        if qi < |beforeFrag| then Some(beforeFrag[qi + 1..]) else None,
        if f < |tail| then Some(tail[f + 1..]) else None)
  }

  /** `url.origin`. */
  function Origin(u: Url): string {
    u.scheme + "://" + u.host
  }

  /** `url.toString()`: an empty path is written as `/`. */
  function Serialize(u: Url): string {
    Origin(u) + (if u.path == "" then "/" else u.path)
    + (if u.query.Some? then "?" + u.query.value else "")
    + (if u.fragment.Some? then "#" + u.fragment.value else "")
  }

  // ----- query parameters -----

  /** `URLSearchParams` of a query: `&`-separated, empty pieces skipped,
      each split at its first `=`. */
  function ParseQuery(q: string): (r: seq<(string, string)>) {
    PairsOf(Split(q, '&'))
  }

  function PairsOf(pieces: seq<string>): seq<(string, string)> {
    if |pieces| == 0 then []
    else if pieces[0] == "" then PairsOf(pieces[1..])
    else
      var p := pieces[0];
      var pair := if '=' in p then (p[..CharIndex(p, '=')], p[CharIndex(p, '=') + 1..]) else (p, "");
      [pair] + PairsOf(pieces[1..])
  }

  /** The serialised query: `name=value` pieces joined by `&`. */
  function SerializeQuery(pairs: seq<(string, string)>): string {
    Join(PairTexts(pairs), "&")
  }

  function PairTexts(pairs: seq<(string, string)>): (r: seq<string>)
    ensures |r| == |pairs|
    ensures forall i :: 0 <= i < |r| ==> r[i] == pairs[i].0 + "=" + pairs[i].1
  {
    if |pairs| == 0 then [] else [pairs[0].0 + "=" + pairs[0].1] + PairTexts(pairs[1..])
  }

  /** Pairs that survive serialisation: a non-empty name without `&` or
      `=`, a value without `&`. */
  predicate PlainPairs(pairs: seq<(string, string)>) {
    forall i :: 0 <= i < |pairs| ==> pairs[i].0 != "" && '&' !in pairs[i].0 && '=' !in pairs[i].0 && '&' !in pairs[i].1
  }

  /** Splitting a join at a separator that no part contains gives the parts. */
  lemma {:induction false} SplitJoin(parts: seq<string>, c: char)
    requires |parts| > 0
    requires forall i :: 0 <= i < |parts| ==> c !in parts[i]
    ensures Split(Join(parts, [c]), c) == parts
    decreases |parts|
  {
    if |parts| > 1 {
      var s := Join(parts, [c]);
      assert s == parts[0] + [c] + Join(parts[1..], [c]);
      assert s[|parts[0]|] == c;
      assert s[..|parts[0]|] == parts[0];
      assert c in s;
      CharIndexAt(s, parts[0], c, Join(parts[1..], [c]));
      assert s[|parts[0]| + 1..] == Join(parts[1..], [c]);
      SplitJoin(parts[1..], c);
    }
  }

  /** The first `c` in `a + [c] + b`, when `a` has none, ends `a`. */
  lemma CharIndexAt(s: string, a: string, c: char, b: string)
    requires s == a + [c] + b && c !in a
    ensures c in s && CharIndex(s, c) == |a|
  {
    assert s[|a|] == c;
    var i := CharIndex(s, c);
    forall j | 0 <= j < |a| ensures s[j] != c {
      assert s[j] == a[j];
      assert a[j] in a;
    }
    forall j | 0 <= j < i ensures s[j] != c {
      assert s[..i][j] == s[j];
      assert s[..i][j] in s[..i];
    }
  }

  /** Reading back a `name=value` text whose name has no `=`. */
  lemma PairText(name: string, value: string)
    requires name != "" && '=' !in name
    ensures var p := name + "=" + value;
            '=' in p && p[..CharIndex(p, '=')] == name && p[CharIndex(p, '=') + 1..] == value
  {
    var p := name + "=" + value;
    CharIndexAt(p, name, '=', value);
    assert p[..|name|] == name;
  }

  lemma {:induction false} PairsOfTexts(pairs: seq<(string, string)>)
    requires PlainPairs(pairs)
    ensures PairsOf(PairTexts(pairs)) == pairs
    decreases |pairs|
  {
    if |pairs| > 0 {
      PairText(pairs[0].0, pairs[0].1);
      assert PairTexts(pairs)[1..] == PairTexts(pairs[1..]);
      PairsOfTexts(pairs[1..]);
    }
  }

  /** Serialising plain pairs and reading the query back gives the pairs. */
  lemma QueryRoundTrip(pairs: seq<(string, string)>)
    requires PlainPairs(pairs)
    ensures ParseQuery(SerializeQuery(pairs)) == pairs
  {
    var texts := PairTexts(pairs);
    if |pairs| == 0 {
      assert Split("", '&') == [""];
    } else {
      SplitJoin(texts, '&');
    }
    PairsOfTexts(pairs);
  }

  /** `searchParams.set(name, value)`: the first pair with that name takes
      the value and later ones are dropped; without one, the pair is
      appended. */
  function SetParam(pairs: seq<(string, string)>, name: string, value: string): (r: seq<(string, string)>)
    ensures (name, value) in r
    ensures forall p :: p in r && p.0 == name ==> p == (name, value)
    ensures forall i, j :: 0 <= i < j < |r| && r[i].0 == name ==> r[j].0 != name
    ensures forall p :: p in r && p.0 != name ==> p in pairs
    ensures forall p :: p in pairs && p.0 != name ==> p in r
  {
    if |pairs| == 0 then [(name, value)]
    else if pairs[0].0 == name then [(name, value)] + Without(pairs[1..], name)
    else [pairs[0]] + SetParam(pairs[1..], name, value)
  }

  function Without(pairs: seq<(string, string)>, name: string): (r: seq<(string, string)>)
    ensures forall p :: p in r <==> p in pairs && p.0 != name
  {
    if |pairs| == 0 then []
    else if pairs[0].0 == name then Without(pairs[1..], name)
    else [pairs[0]] + Without(pairs[1..], name)
  }

  /** The pairs of a URL's query; none without one. */
  function QueryPairs(u: Url): seq<(string, string)> {
    if u.query.Some? then ParseQuery(u.query.value) else []
  }

  /** The query after setting one parameter, as the URL then serialises it. */
  function WithParam(u: Url, name: string, value: string): Url {
    u.(query := Some(SerializeQuery(SetParam(QueryPairs(u), name, value))))
  }

  // ----- toCdnUrl -----

  /** `s.replace(pat, rep)` with a string pattern: the first occurrence. */
  function ReplaceFirst(s: string, pat: string, rep: string): string {
    match IndexOf(s, pat)
    case None => s
    case Some(i) => s[..i] + rep + s[i + |pat|..]
  }

  lemma ReplaceAtStart(s: string, pat: string, rep: string)
    requires StartsWith(s, pat)
    ensures ReplaceFirst(s, pat, rep) == rep + s[|pat|..]
  {
    assert OccursAt(s, pat, 0);
  }

  /** What the authority parser accepts is a host followed by the parse
      of the rest. */
  lemma AuthorityParsed(scheme: string, rest: string)
    requires ParseAuthority(scheme, rest).Some?
    ensures var u := ParseAuthority(scheme, rest).value;
            StartsWith(rest, u.host)
            && (rest[|u.host|..] == "" || rest[|u.host|] in {'/', '?', '#'})
            && u == ParseTail(scheme, u.host, rest[|u.host|..])
  {
  }

  /** A parsed URL is its origin followed by the parse of the rest. */
  lemma ParsedTail(s: string)
    requires ParseUrl(s).Some?
    ensures var u := ParseUrl(s).value;
            StartsWith(s, Origin(u))
            && (s[|Origin(u)|..] == "" || s[|Origin(u)|] in {'/', '?', '#'})
            && u == ParseTail(u.scheme, u.host, s[|Origin(u)|..])
  {
    if StartsWith(s, "https://") {
      ParsedHttps(s);
    } else {
      ParsedHttp(s);
    }
  }

  lemma ParsedHttps(s: string)
    requires StartsWith(s, "https://") && ParseUrl(s).Some?
    ensures ParseUrl(s) == ParseAuthority("https", s[8..])
    ensures var u := ParseUrl(s).value;
            StartsWith(s, Origin(u))
            && (s[|Origin(u)|..] == "" || s[|Origin(u)|] in {'/', '?', '#'})
            && u == ParseTail(u.scheme, u.host, s[|Origin(u)|..])
  {
    assert s[..8] == "https" + "://";
    SchemeThenAuthority(s, "https");
  }

  lemma ParsedHttp(s: string)
    requires !StartsWith(s, "https://") && ParseUrl(s).Some?
    ensures StartsWith(s, "http://") && ParseUrl(s) == ParseAuthority("http", s[7..])
    ensures var u := ParseUrl(s).value;
            StartsWith(s, Origin(u))
            && (s[|Origin(u)|..] == "" || s[|Origin(u)|] in {'/', '?', '#'})
            && u == ParseTail(u.scheme, u.host, s[|Origin(u)|..])
  {
    assert s[..7] == "http" + "://";
    SchemeThenAuthority(s, "http");
  }

  lemma SchemeThenAuthority(s: string, scheme: string)
    requires |scheme| + 3 <= |s| && s[..|scheme| + 3] == scheme + "://"
    requires ParseAuthority(scheme, s[|scheme| + 3..]).Some?
    ensures var u := ParseAuthority(scheme, s[|scheme| + 3..]).value;
            StartsWith(s, Origin(u))
            && (s[|Origin(u)|..] == "" || s[|Origin(u)|] in {'/', '?', '#'})
            && u == ParseTail(u.scheme, u.host, s[|Origin(u)|..])
  {
    var rest := s[|scheme| + 3..];
    var u := ParseAuthority(scheme, rest).value;
    AuthorityParsed(scheme, rest);
    assert s == scheme + "://" + rest;
    assert s[..|Origin(u)|] == scheme + "://" + rest[..|u.host|];
    assert s[|Origin(u)|..] == rest[|u.host|..];
  }

  /** `toCdnUrl(url, { w, q })`. */
  function ToCdnUrl(url: JsVal, w: JsVal, q: JsVal): (r: JsVal)
    ensures !Truthy(url) || !url.Str? ==> r == url
    ensures url.Str? && (ParseUrl(url.s).None? || ParseUrl(url.s).value.host !in B2Hosts) ==> r == url
  {
    if !Truthy(url) || !url.Str? then url
    else
      match ParseUrl(url.s)
      case None => url
      case Some(u) => if u.host !in B2Hosts then url else MoveToCdn(url, u, w, q)
  }

  /** The B2 branch: the origin replaced in the text, which is parsed
      again and takes the options. */
  function MoveToCdn(url: JsVal, u: Url, w: JsVal, q: JsVal): JsVal
    requires url.Str?
  {
    match ParseUrl(ReplaceFirst(url.s, Origin(u), CdnHost))
    case None => url
    case Some(nu) => Str(Serialize(WithOptions(nu, w, q)))
  }

  /** A URL on the image host serialises to text that starts with the
      host and a slash. */
  lemma CdnSerialized(u: Url)
    requires u.scheme == "https" && u.host == CdnHostName
    requires u.path == "" || u.path[0] == '/'
    ensures StartsWith(Serialize(u), CdnHost + "/")
  {
    var rest := (if u.path == "" then "/" else u.path)
                + (if u.query.Some? then "?" + u.query.value else "")
                + (if u.fragment.Some? then "#" + u.fragment.value else "");
    assert Serialize(u) == Origin(u) + rest;
    assert Origin(u) == CdnHost;
    assert rest[0] == '/';
    assert (CdnHost + rest)[..|CdnHost| + 1] == CdnHost + [rest[0]];
  }

  /** The image host name is a host the parser accepts and contains no
      character that ends a host. */
  lemma CdnHostNamePlain()
    ensures ValidHost(CdnHostName)
    ensures forall j :: 0 <= j < |CdnHostName| ==> CdnHostName[j] !in {'/', '?', '#'}
  {
  }

  /** Text behind the image host is parsed from the host on. */
  lemma CdnText(tail: string)
    ensures ParseUrl(CdnHost + tail) == ParseAuthority("https", CdnHostName + tail)
  {
    var t := CdnHost + tail;
    assert t[..8] == "https://";
    assert t[8..] == CdnHostName + tail;
  }

  /** A host followed by the start of a path, query or fragment parses
      as that host. */
  lemma AuthorityAt(scheme: string, host: string, tail: string)
    requires ValidHost(host)
    requires forall j :: 0 <= j < |host| ==> host[j] !in {'/', '?', '#'}
    requires tail == "" || tail[0] in {'/', '?', '#'}
    ensures ParseAuthority(scheme, host + tail) == Some(ParseTail(scheme, host, tail))
  {
    SpanPrefix(host, tail, {'/', '?', '#'});
    assert (host + tail)[..|host|] == host;
    assert (host + tail)[|host|..] == tail;
  }

  /** The rewritten text parses back onto the image host. */
  lemma CdnTextHost(s: string)
    requires StartsWith(s, CdnHost + "/")
    ensures ParseUrl(s).Some? && ParseUrl(s).value.host == CdnHostName
  {
    var tail := s[|CdnHost|..];
    assert s == CdnHost + tail;
    assert tail[0] == (CdnHost + "/")[|CdnHost|];
    CdnText(tail);
    CdnHostNamePlain();
    AuthorityAt("https", CdnHostName, tail);
  }

  /** Running the rewrite on its own output changes nothing: the image
      host is not a B2 host. */
  lemma ToCdnUrlIdempotent(url: JsVal, w: JsVal, q: JsVal, w2: JsVal, q2: JsVal)
    ensures ToCdnUrl(ToCdnUrl(url, w, q), w2, q2) == ToCdnUrl(url, w, q)
  {
    if url.Str? && ParseUrl(url.s).Some? && ParseUrl(url.s).value.host in B2Hosts {
      B2Idempotent(url.s, w, q, w2, q2);
    } else {
      Unchanged(url, w, q);
      Unchanged(url, w2, q2);
    }
  }

  lemma Unchanged(url: JsVal, w: JsVal, q: JsVal)
    requires !(url.Str? && ParseUrl(url.s).Some? && ParseUrl(url.s).value.host in B2Hosts)
    ensures ToCdnUrl(url, w, q) == url
  {
  }

  lemma B2Idempotent(s: string, w: JsVal, q: JsVal, w2: JsVal, q2: JsVal)
    requires ParseUrl(s).Some? && ParseUrl(s).value.host in B2Hosts
    ensures ToCdnUrl(ToCdnUrl(Str(s), w, q), w2, q2) == ToCdnUrl(Str(s), w, q)
  {
    var u := ParseUrl(s).value;
    B2Rewrite(s, w, q);
    var v := WithOptions(Moved(u), w, q);
    assert v.scheme == "https" && v.host == CdnHostName && v.path == u.path;
    CdnSerialized(v);
    CdnTextHost(Serialize(v));
    CdnUnchanged(Serialize(v), w2, q2);
  }

  /** Text on the image host is left as it is. */
  lemma CdnUnchanged(s: string, w: JsVal, q: JsVal)
    requires ParseUrl(s).Some? && ParseUrl(s).value.host == CdnHostName
    ensures ToCdnUrl(Str(s), w, q) == Str(s)
  {
    CdnNotB2();
  }

  lemma CdnNotB2()
    ensures CdnHostName !in B2Hosts
  {
    assert CdnHostName[0] != B2Hosts[0][0];
    assert CdnHostName[0] != B2Hosts[1][0];
  }

  /** The URL with the image host in place of its origin. */
  function Moved(u: Url): Url {
    u.(scheme := "https", host := CdnHostName)
  }

  /** The `w` and `q` options set on a URL, each only when truthy. */
  function WithOptions(u: Url, w: JsVal, q: JsVal): Url {
    var u1 := if Truthy(w) then WithParam(u, "w", ToStr(w)) else u;
    if Truthy(q) then WithParam(u1, "q", ToStr(q)) else u1
  }

  /** Parsing the text after the origin does not depend on the origin. */
  lemma ReparseMoved(s: string)
    requires ParseUrl(s).Some?
    ensures ParseUrl(CdnHost + s[|Origin(ParseUrl(s).value)|..]) == Some(Moved(ParseUrl(s).value))
  {
    var u := ParseUrl(s).value;
    ParsedTail(s);
    var tail := s[|Origin(u)|..];
    CdnText(tail);
    CdnHostNamePlain();
    AuthorityAt("https", CdnHostName, tail);
  }

  /** A B2 URL moves to the image host, keeping its path, query and
      fragment (an empty path becoming `/`), and then takes the options. */
  lemma B2Rewrite(s: string, w: JsVal, q: JsVal)
    requires ParseUrl(s).Some? && ParseUrl(s).value.host in B2Hosts
    ensures ToCdnUrl(Str(s), w, q) == Str(Serialize(WithOptions(Moved(ParseUrl(s).value), w, q)))
  {
    var u := ParseUrl(s).value;
    B2Branch(s, w, q);
    MovedText(s, w, q);
  }

  /** A B2 URL takes the B2 branch. */
  lemma B2Branch(s: string, w: JsVal, q: JsVal)
    requires ParseUrl(s).Some? && ParseUrl(s).value.host in B2Hosts
    ensures ToCdnUrl(Str(s), w, q) == MoveToCdn(Str(s), ParseUrl(s).value, w, q)
  {
    ParsedTail(s);
    assert s != "" by {
      assert |Origin(ParseUrl(s).value)| > 0;
    }
  }

  /** The B2 branch's text is the moved URL with the options. */
  lemma MovedText(s: string, w: JsVal, q: JsVal)
    requires ParseUrl(s).Some?
    ensures MoveToCdn(Str(s), ParseUrl(s).value, w, q) == Str(Serialize(WithOptions(Moved(ParseUrl(s).value), w, q)))
  {
    var u := ParseUrl(s).value;
    ParsedTail(s);
    ReplaceAtStart(s, Origin(u), CdnHost);
    ReparseMoved(s);
  }

  /** Setting a plain pair keeps a query plain. */
  lemma SetParamPlain(pairs: seq<(string, string)>, name: string, value: string)
    requires PlainPairs(pairs)
    requires name != "" && '&' !in name && '=' !in name && '&' !in value
    ensures PlainPairs(SetParam(pairs, name, value))
  {
    var r := SetParam(pairs, name, value);
    forall i | 0 <= i < |r|
      ensures r[i].0 != "" && '&' !in r[i].0 && '=' !in r[i].0 && '&' !in r[i].1
    {
      assert r[i] in r;
      if r[i].0 != name {
        var j :| 0 <= j < |pairs| && pairs[j] == r[i];
      }
    }
  }

  /** With a plain query and option values without `&`, the query read
      back from the result holds each truthy option under its name and
      every other parameter the URL had. */
  lemma OptionsInQuery(u: Url, w: JsVal, q: JsVal)
    requires PlainPairs(QueryPairs(u))
    requires '&' !in ToStr(w) && '&' !in ToStr(q)
    ensures var r := QueryPairs(WithOptions(u, w, q));
            (Truthy(w) ==> ("w", ToStr(w)) in r)
            && (Truthy(q) ==> ("q", ToStr(q)) in r)
            && (forall p :: p in QueryPairs(u) && p.0 != "w" && p.0 != "q" ==> p in r)
  {
    var u1 := if Truthy(w) then WithParam(u, "w", ToStr(w)) else u;
    if Truthy(w) {
      SetParamPlain(QueryPairs(u), "w", ToStr(w));
      QueryRoundTrip(SetParam(QueryPairs(u), "w", ToStr(w)));
    }
    assert PlainPairs(QueryPairs(u1));
    if Truthy(q) {
      SetParamPlain(QueryPairs(u1), "q", ToStr(q));
      QueryRoundTrip(SetParam(QueryPairs(u1), "q", ToStr(q)));
    }
  }
}
