/** The catalog serializers' URL fields: a chapter's page list, rewritten
    to the CDN domain when the CDN is on, and a cover's absolute URL, both
    for one cover row and for a series' main cover.

    `request.build_absolute_uri` is a parameter: it maps a relative URL to
    an absolute one, or to None when it raises. */
module CatalogSerializers {
  import opened Wrappers
  import opened Text

  // ----- ChapterSerializer.get_pages -----

  /** The host fragment that marks a bucket URL. */
  const B2Domain: string := "backblazeb2.com"

  /** The `pages` JSON column: null (or empty), or an object that may or
      may not hold an `images` list. */
  datatype PagesField = NullPages | PagesObject(images: Option<seq<string>>)

  /** One image URL with the CDN on: a bucket URL becomes the CDN domain
      followed by the text after `backblazeb2.com` (up to any repeat of
      it); any other URL is kept. */
  function CdnPage(url: string, cdn: string): (r: string)
    ensures !Contains(url, B2Domain) ==> r == url
    ensures Contains(url, B2Domain) ==>
              && StartsWith(r, "https://" + cdn)
              && StartsWith(AfterFirst(url, B2Domain), r[|"https://" + cdn|..])
  {
    if Contains(url, B2Domain) then
      var path := SplitSecond(url, B2Domain);
      StartsWithAppend("https://" + cdn, path);
      assert ("https://" + cdn + path)[|"https://" + cdn|..] == path;
      "https://" + cdn + path
    else url
  }

  /** `get_pages`: the `images` list, each URL rewritten when `useCdn`. */
  function GetPages(pages: PagesField, useCdn: bool, cdn: string): (r: seq<string>)
    ensures pages.NullPages? || pages.images.None? ==> r == []
    ensures pages.PagesObject? && pages.images.Some? ==> |r| == |pages.images.value|
    ensures pages.PagesObject? && pages.images.Some? && !useCdn ==> r == pages.images.value
    ensures pages.PagesObject? && pages.images.Some? && useCdn ==>
              forall i :: 0 <= i < |r| ==> r[i] == CdnPage(pages.images.value[i], cdn)
  {
    match pages
    case NullPages => []
    case PagesObject(None) => []
    case PagesObject(Some(images)) =>
      if !useCdn then images
      else seq(|images|, i requires 0 <= i < |images| => CdnPage(images[i], cdn))
  }

  /** A bucket URL `origin + 'backblazeb2.com' + path`, where the domain
      occurs once, becomes the CDN domain followed by exactly `path`. */
  lemma CdnPageMovesHost(origin: string, path: string, cdn: string)
    requires forall j :: 0 <= j < |origin| ==> !OccursAt(origin + B2Domain + path, B2Domain, j)
    requires !Contains(path, B2Domain)
    ensures CdnPage(origin + B2Domain + path, cdn) == "https://" + cdn + path
  {
    AfterFirstSplit(origin, B2Domain, path);
  }

  /** The rewrite keeps the order and the non-bucket entries of the list,
      and changes each bucket entry into a CDN URL. */
  lemma GetPagesPointwise(images: seq<string>, cdn: string, i: nat)
    requires i < |images|
    ensures var r := GetPages(PagesObject(Some(images)), true, cdn);
            && |r| == |images|
            && (!Contains(images[i], B2Domain) ==> r[i] == images[i])
            && (Contains(images[i], B2Domain) ==> StartsWith(r[i], "https://" + cdn))
  {
  }

  // ----- MangaCoverSerializer.get_url_absoluta -----

  /** `request.build_absolute_uri`: None when it raises. */
  type UriBuilder = string -> Option<string>

  predicate IsAbsolute(url: string) {
    StartsWith(url, "http://") || StartsWith(url, "https://")
  }

  /** The shared tail of both URL fields, for a string URL: an absolute URL
      as it is, else the builder's result when there is a request and the
      builder does not raise, else the URL as stored. */
  function Absolutize(url: string, request: Option<UriBuilder>): (r: string)
    ensures IsAbsolute(url) || request.None? ==> r == url
    ensures !IsAbsolute(url) && request.Some? ==>
              r == (if request.value(url).Some? then request.value(url).value else url)
  {
    if IsAbsolute(url) then url
    else match request
      case None => url
      case Some(build) =>
        match build(url)
        case None => url
        case Some(abs) => abs
  }

  /** `get_url_absoluta`: None for an empty URL. */
  function UrlAbsoluta(url: string, request: Option<UriBuilder>): (r: Option<string>)
    ensures r.None? <==> url == ""
    ensures IsAbsolute(url) ==> r == Some(url)
    ensures url != "" && request.None? ==> r == Some(url)
    ensures url != "" && !IsAbsolute(url) && request.Some? && request.value(url).None? ==> r == Some(url)
    ensures url != "" && !IsAbsolute(url) && request.Some? && request.value(url).Some? ==> r == request.value(url)
  {
    if url == "" then None else Some(Absolutize(url, request))
  }

  /** An absolute result is a fixed point: feeding the field its own value
      gives the same value back. */
  lemma UrlAbsolutaStable(url: string, request: Option<UriBuilder>)
    requires UrlAbsoluta(url, request).Some? && IsAbsolute(UrlAbsoluta(url, request).value)
    ensures UrlAbsoluta(UrlAbsoluta(url, request).value, request) == UrlAbsoluta(url, request)
  {
  }

  // ----- MangaSerializer.get_cover_url -----

  datatype Cover = Cover(id: nat, url: string, tipo: string, vigente: bool)

  /** `covers.filter(vigente=True).order_by('id').first()`. */
  function LowestVigente(covers: seq<Cover>): (r: Option<Cover>)
    ensures r.None? <==> forall i :: 0 <= i < |covers| ==> !covers[i].vigente
    ensures r.Some? ==> r.value in covers && r.value.vigente
    ensures r.Some? ==> forall i :: 0 <= i < |covers| && covers[i].vigente ==> r.value.id <= covers[i].id
  {
    if |covers| == 0 then None
    else
      var rest := LowestVigente(covers[1..]);
      assert forall i :: 1 <= i < |covers| ==> covers[i] == covers[1..][i - 1];
      if !covers[0].vigente then rest
      else if rest.None? || covers[0].id <= rest.value.id then Some(covers[0])
      else rest
  }

  /** `get_cover_url`: the lowest-id current cover's URL, made absolute as
      above, but with no special case for an empty URL; None when the
      series has no current cover or the query raises (`fault`). */
  function CoverUrl(covers: seq<Cover>, request: Option<UriBuilder>, fault: bool): (r: Option<string>)
    ensures fault ==> r == None
    ensures !fault ==> (r.None? <==> forall i :: 0 <= i < |covers| ==> !covers[i].vigente)
    ensures r.Some? ==>
              exists i :: (0 <= i < |covers| && covers[i].vigente
                           && (forall j :: 0 <= j < |covers| && covers[j].vigente ==> covers[i].id <= covers[j].id)
                           && r.value == Absolutize(covers[i].url, request))
  {
    if fault then None
    else match LowestVigente(covers)
      case None => None
      case Some(main) => Some(Absolutize(main.url, request))
  }

  /** The cover type plays no part: relabelling every cover's `tipo_cover`
      leaves the chosen cover, and so the URL, unchanged. */
  lemma {:induction false} LowestVigenteIgnoresTipo(c1: seq<Cover>, c2: seq<Cover>)
    requires |c1| == |c2|
    requires forall i :: 0 <= i < |c1| ==> c1[i].(tipo := c2[i].tipo) == c2[i]
    ensures LowestVigente(c1).None? <==> LowestVigente(c2).None?
    ensures LowestVigente(c1).Some? ==>
              LowestVigente(c1).value.(tipo := LowestVigente(c2).value.tipo) == LowestVigente(c2).value
  {
    if |c1| > 0 {
      assert forall i :: 0 <= i < |c1[1..]| ==> c1[1..][i].(tipo := c2[1..][i].tipo) == c2[1..][i] by {
        forall i | 0 <= i < |c1[1..]| ensures c1[1..][i].(tipo := c2[1..][i].tipo) == c2[1..][i] {
          assert c1[1..][i] == c1[i + 1] && c2[1..][i] == c2[i + 1];
        }
      }
      LowestVigenteIgnoresTipo(c1[1..], c2[1..]);
      assert c1[0].(tipo := c2[0].tipo) == c2[0];
    }
  }

  lemma CoverUrlIgnoresTipo(c1: seq<Cover>, c2: seq<Cover>, request: Option<UriBuilder>, fault: bool)
    requires |c1| == |c2|
    requires forall i :: 0 <= i < |c1| ==> c1[i].(tipo := c2[i].tipo) == c2[i]
    ensures CoverUrl(c1, request, fault) == CoverUrl(c2, request, fault)
  {
    LowestVigenteIgnoresTipo(c1, c2);
  }

  /** The series field agrees with the cover row's field on the main cover,
      except for an empty stored URL, which the cover row reports as None
      and the series field still passes through the builder. */
  lemma CoverUrlMatchesUrlAbsoluta(covers: seq<Cover>, request: Option<UriBuilder>)
    requires LowestVigente(covers).Some?
    ensures var main := LowestVigente(covers).value;
            main.url != "" ==> CoverUrl(covers, request, false) == UrlAbsoluta(main.url, request)
    ensures var main := LowestVigente(covers).value;
            main.url == "" ==> UrlAbsoluta(main.url, request).None? && CoverUrl(covers, request, false).Some?
  {
  }
}
