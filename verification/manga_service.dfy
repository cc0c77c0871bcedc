/** The cover choice of the client's manga service: `isValidCdn` and
    `getMainCoverForManga`. The two cover listings the latter requests
    are parameters (None when the request fails or its data is not an
    array); a callback that reads a property of `null` or `undefined`
    throws, which the function's `try` blocks swallow. */
module MangaService {
  import opened Wrappers
  import opened Text
  import opened Ordering
  import opened JsValues
  import opened MangaUI

  /** The legacy cover location the client refuses. */
  const BlockedCovers: string := "miswebtoons.uk/assets/covers"

  /** The two URL schemes a cover may use. */
  const HttpPrefix: string := "http" + "://"
  const HttpsPrefix: string := "http" + "s://"

  /** `isValidCdn(url)`: a non-empty string whose trimmed, lowercased
      text is an http(s) URL outside the legacy cover location. */
  function IsValidCdn(url: JsVal): (r: bool)
    ensures r ==> url.Str? && url.s != ""
    ensures r <==> url.Str?
                   && (StartsWith(Lower(Trim(url.s)), HttpPrefix) || StartsWith(Lower(Trim(url.s)), HttpsPrefix))
                   && !Contains(Lower(Trim(url.s)), BlockedCovers)
  {
    if !Truthy(url) || !url.Str? then false
    else
      var u := Lower(Trim(url.s));
      if !StartsWith(u, HttpPrefix) && !StartsWith(u, HttpsPrefix) then false
      else !Contains(u, BlockedCovers)
  }

  /** A cover URL the service accepts is one the UI shows as it is. */
  lemma ValidCdnIsSafeCover(s: string)
    requires IsValidCdn(Str(s)) && Trim(s) == s
    ensures SafeCover(Str(s)) == Str(s)
  {
    var u := Lower(s);
    if StartsWith(u, HttpPrefix) {
      StartsWithShorter(u, "http", "://");
    } else {
      StartsWithShorter(u, "http", "s://");
    }
  }

  /** `c.tipo_cover === 'main'`. */
  predicate IsMainCover(c: JsVal) {
    Prop(c, "tipo_cover") == Str("main")
  }

  /** Where `list.find(c => c.tipo_cover === 'main')` stops. */
  datatype Found = Throws | NotFound | At(i: nat)

  function FindMain(list: seq<JsVal>): (r: Found)
    ensures r.At? ==> r.i < |list| && IsMainCover(list[r.i])
                      && forall j :: 0 <= j < r.i ==> !Nullish(list[j]) && !IsMainCover(list[j])
    ensures r.NotFound? <==> forall j :: 0 <= j < |list| ==> !Nullish(list[j]) && !IsMainCover(list[j])
    ensures r.Throws? ==> exists j :: 0 <= j < |list| && Nullish(list[j])
  {
    if |list| == 0 then NotFound
    else if Nullish(list[0]) then Throws
    else if IsMainCover(list[0]) then At(0)
    else
      match FindMain(list[1..])
      case Throws => Throws
      case NotFound => NotFound
      case At(i) => At(i + 1)
  }

  /** `list.find(...) || list[0]`; None when the search throws. */
  function PickMain(list: seq<JsVal>): (r: Option<JsVal>)
    ensures r.Some? && (exists j :: 0 <= j < |list| && IsMainCover(list[j])) ==>
              exists i :: 0 <= i < |list| && r.value == list[i] && IsMainCover(list[i])
                          && forall j :: 0 <= j < i ==> !IsMainCover(list[j])
    ensures r.Some? && (forall j :: 0 <= j < |list| ==> !IsMainCover(list[j])) ==>
              r.value == (if |list| > 0 then list[0] else Undefined)
    ensures (forall j :: 0 <= j < |list| ==> !Nullish(list[j])) ==> r.Some?
  {
    match FindMain(list)
    case Throws => None
    case NotFound => Some(if |list| > 0 then list[0] else Undefined)
    case At(i) => Some(list[i])
  }

  /** The URL taken from the chosen cover: `url_absoluta` when it is a
      valid CDN URL, else `url_imagen` when that one is. */
  function CoverUrlOf(main: JsVal): (r: Option<string>)
    ensures r.Some? ==> IsValidCdn(Str(r.value))
    ensures r.Some? ==> Str(r.value) == Prop(main, "url_absoluta") || Str(r.value) == Prop(main, "url_imagen")
    ensures Truthy(main) && IsValidCdn(Prop(main, "url_absoluta")) ==> r == Some(Prop(main, "url_absoluta").s)
    ensures r.None? <==> !Truthy(main) || (!IsValidCdn(Prop(main, "url_absoluta")) && !IsValidCdn(Prop(main, "url_imagen")))
  {
    var abs := Prop(main, "url_absoluta");
    var img := Prop(main, "url_imagen");
    if Truthy(main) && abs.Str? && IsValidCdn(abs) then Some(abs.s)
    else if Truthy(main) && img.Str? && IsValidCdn(img) then Some(img.s)
    else None
  }

  /** `String(c.manga) === String(id)`. */
  predicate OfManga(c: JsVal, id: JsVal) {
    ToStr(Prop(c, "manga")) == ToStr(id)
  }

  /** `getMainCoverForManga(id)`: the first listing (this manga's current
      covers) is tried first; the second (all current covers, filtered by
      manga) only when the first gives nothing. */
  function GetMainCover(list1: Option<seq<JsVal>>, listAll: Option<seq<JsVal>>, id: JsVal): (r: Option<string>)
    ensures r.Some? ==> IsValidCdn(Str(r.value))
    ensures list1.Some? && PickMain(list1.value).Some? && CoverUrlOf(PickMain(list1.value).value).Some? ==>
              r == CoverUrlOf(PickMain(list1.value).value)
  {
    var first :=
      if list1.Some? then
        (match PickMain(list1.value)
         case None => None
         case Some(m) => CoverUrlOf(m))
      else None;
    if first.Some? then first
    else if listAll.None? then None
    else if exists j :: 0 <= j < |listAll.value| && Nullish(listAll.value[j]) then None
    else
      var forManga := Filter(listAll.value, c => OfManga(c, id));
      match PickMain(forManga)
      case None => None
      case Some(m) => CoverUrlOf(m)
  }

  /** What the fallback listing yields belongs to the requested manga:
      the URL is a field of one of its covers. */
  lemma FallbackBelongsToManga(listAll: seq<JsVal>, id: JsVal)
    requires forall j :: 0 <= j < |listAll| ==> !Nullish(listAll[j])
    requires GetMainCover(None, Some(listAll), id).Some?
    ensures var u := GetMainCover(None, Some(listAll), id).value;
            exists c :: c in listAll && OfManga(c, id)
                        && (Str(u) == Prop(c, "url_absoluta") || Str(u) == Prop(c, "url_imagen"))
  {
    var forManga := Filter(listAll, c => OfManga(c, id));
    var m := PickMain(forManga).value;
    var u := GetMainCover(None, Some(listAll), id).value;
    assert CoverUrlOf(m) == Some(u);
    assert |forManga| > 0;
    assert m in forManga;
  }
}
