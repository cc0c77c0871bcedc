/** `useMangaUI`: the labels and badges the catalog views derive from a
    manga record (its CSS type class, display type, origin label, the
    adult-content flag and a safe cover URL).

    `JSON.stringify` and `JSON.parse` are parameters; case mapping and
    trimming are ASCII-only. */
module MangaUI {
  import opened Wrappers
  import opened Text
  import opened JsValues

  // ----- typeClass -----

  /** "novela" holds "novel", so testing both is testing "novel". */
  lemma NovelaIsNovel(t: string)
    ensures Contains(t, "novel") || Contains(t, "novela") <==> Contains(t, "novel")
  {
    if Contains(t, "novela") {
      assert OccursAt("novela", "novel", 0);
      ContainsWithin(t, "novela", "novel");
    }
  }

  /** The if-chain of `typeClass` on the lowercased text: the first
      family in the order manhwa, manhua, novel, shoujo, josei, seinen,
      shounen, manga whose keyword occurs. */
  function TypeClassOf(t: string): (r: string)
    ensures r in {"type-manhwa", "type-manhua", "type-novela", "type-shoujo", "type-josei",
                  "type-seinen", "type-shounen", "type-manga", "type-default"}
    ensures r == "type-manhwa" <==> Contains(t, "manhwa")
    ensures r == "type-manhua" <==> !Contains(t, "manhwa") && Contains(t, "manhua")
    ensures r == "type-novela" <==> !Contains(t, "manhwa") && !Contains(t, "manhua") && Contains(t, "novel")
    ensures r == "type-default" <==>
              forall k :: k in TypeKeywords ==> !Contains(t, k)
  {
    NovelaIsNovel(t);
    if Contains(t, "manhwa") then "type-manhwa"
    else if Contains(t, "manhua") then "type-manhua"
    else if Contains(t, "novel") || Contains(t, "novela") then "type-novela"
    else if Contains(t, "shoujo") then "type-shoujo"
    else if Contains(t, "josei") then "type-josei"
    else if Contains(t, "seinen") then "type-seinen"
    else if Contains(t, "shounen") || Contains(t, "shonen") then "type-shounen"
    else if Contains(t, "manga") then "type-manga"
    else "type-default"
  }

  /** Every keyword `typeClass` looks for. */
  const TypeKeywords: set<string> :=
    {"manhwa", "manhua", "novel", "shoujo", "josei", "seinen", "shounen", "shonen", "manga"}

  /** The text `typeClass` classifies: the first truthy of `demography`,
      `type`, `book_type`; an array joined with spaces; an object's
      `name`, `title` or JSON text. */
  function TypeText(item: JsVal, stringify: JsVal -> string): string {
    var raw0 := if !Truthy(item) then item
                else Or(Prop(item, "demography"), Or(Prop(item, "type"), Or(Prop(item, "book_type"), Str(""))));
    var raw1 := if raw0.Arr? then Str(ArrJoin(raw0.items, " ")) else raw0;
    var raw2 := if Truthy(raw1) && raw1.Obj? then Or(Prop(raw1, "name"), Or(Prop(raw1, "title"), Str(stringify(raw1)))) else raw1;
    Lower(ToStr(Or(raw2, Str(""))))
  }

  /** `typeClass(item)`. */
  function TypeClass(item: JsVal, stringify: JsVal -> string): (r: string)
    ensures !Truthy(item) ==> r == "type-default"
    ensures item.Obj? && "demography" in item.fields && item.fields["demography"].Str?
            && item.fields["demography"].s != "" ==>
              r == TypeClassOf(Lower(item.fields["demography"].s))
  {
    TypeClassOf(TypeText(item, stringify))
  }

  /** The class ignores the case of the demography text. */
  lemma TypeClassIgnoresCase(s: string, stringify: JsVal -> string)
    requires s != ""
    ensures TypeClass(Obj(map["demography" := Str(Upper(s))]), stringify)
            == TypeClass(Obj(map["demography" := Str(s)]), stringify)
  {
    assert Lower(Upper(s)) == Lower(s);
    assert Upper(s) != "" by { assert |Upper(s)| == |s|; }
  }

  // ----- displayType -----

  /** No lower-case ASCII letter. */
  predicate NoLower(s: string) {
    forall i :: 0 <= i < |s| ==> !('a' <= s[i] <= 'z')
  }

  /** `displayType(item)`: the first truthy of five demography/type
      fields, parsed when it is text that looks like JSON, flattened like
      `typeClass` does (objects by `descripcion`, `description`, `name`,
      `title`, `label`), upper-cased; `'MANGA'` when nothing is left. */
  function DisplayType(item: JsVal, parse: string -> Option<JsVal>, stringify: JsVal -> string): (r: string)
    ensures NoLower(r)
    ensures !Truthy(item) ==> r == "MANGA"
    ensures item.Obj? && "demography" in item.fields && item.fields["demography"].Str?
            && item.fields["demography"].s != ""
            && !StartsWith(Trim(item.fields["demography"].s), "{")
            && !StartsWith(Trim(item.fields["demography"].s), "[") ==>
              r == Upper(item.fields["demography"].s)
  {
    var v := Flattened(MaybeParsed(DisplaySource(item), parse), stringify);
    Upper(ToStr(Or(v, Str("MANGA"))))
  }

  /** The first truthy of the five fields, else `''`; a falsy item itself. */
  function DisplaySource(item: JsVal): (r: JsVal)
    ensures !Truthy(item) ==> r == item
    ensures Truthy(item) && Truthy(Prop(item, "demography")) ==> r == Prop(item, "demography")
  {
    if !Truthy(item) then item
    else Or(Prop(item, "demography"), Or(Prop(item, "dem_descripcion"),
         Or(Prop(item, "demografia_descripcion"), Or(Prop(item, "demografia"),
         Or(Prop(item, "type"), Str(""))))))
  }

  /** Text that starts like JSON once trimmed goes through `JSON.parse`;
      a parse failure keeps the text. */
  function MaybeParsed(v: JsVal, parse: string -> Option<JsVal>): (r: JsVal)
    ensures !v.Str? || (!StartsWith(Trim(v.s), "{") && !StartsWith(Trim(v.s), "[")) ==> r == v
  {
    if v.Str? && (StartsWith(Trim(v.s), "{") || StartsWith(Trim(v.s), "[")) then
      (match parse(Trim(v.s))
       case Some(p) => p
       case None => v)
    else v
  }

  /** Arrays joined by spaces; truthy objects read through their first
      truthy descriptive field, else stringified. */
  function Flattened(v: JsVal, stringify: JsVal -> string): (r: JsVal)
    ensures v.Str? ==> r == v
  {
    var v2 := if v.Arr? then Str(ArrJoin(v.items, " ")) else v;
    if Truthy(v2) && v2.Obj? then
      Or(Prop(v2, "descripcion"), Or(Prop(v2, "description"), Or(Prop(v2, "name"),
      Or(Prop(v2, "title"), Or(Prop(v2, "label"), Str(stringify(v2)))))))
    else v2
  }

  // ----- originLabel -----

  /** The text of a tag: `x.nombre || x.name || x`; None where reading a
      property of `null` or `undefined` throws. */
  function TagNames(tags: seq<JsVal>): (r: Option<seq<JsVal>>)
    ensures r.None? <==> exists i :: 0 <= i < |tags| && Nullish(tags[i])
    ensures r.Some? ==> |r.value| == |tags| && forall i :: 0 <= i < |tags| ==> r.value[i] == TagName(tags[i])
  {
    if |tags| == 0 then Some([])
    else if Nullish(tags[0]) then None
    else
      match TagNames(tags[1..])
      case None => None
      case Some(rest) => Some([TagName(tags[0])] + rest)
  }

  /** The text of one tag that is not nullish. */
  function TagName(x: JsVal): JsVal {
    Or(Prop(x, "nombre"), Or(Prop(x, "name"), x))
  }

  /** `/one[\s_\-]?shot/`: "one", an optional space, `_` or `-`, then
      "shot". */
  predicate OneShot(t: string) {
    Contains(t, "oneshot")
    || exists c :: (IsSpace(c) || c == '_' || c == '-') && Contains(t, "one" + [c] + "shot")
  }

  /** The origin label a text names, in the precedence of `originLabel`. */
  function OriginOf(norm: string): (r: string)
    ensures r in {"Comic", "One-shot", "Manhwa", "Manhua", "Novela", "Manga"}
    ensures r == "Comic" <==> Contains(norm, "comic")
    ensures r == "One-shot" <==> !Contains(norm, "comic") && OneShot(norm)
    ensures r == "Manhwa" <==> !Contains(norm, "comic") && !OneShot(norm) && Contains(norm, "manhwa")
    ensures r == "Manhua" <==> !Contains(norm, "comic") && !OneShot(norm) && !Contains(norm, "manhwa")
                               && Contains(norm, "manhua")
    ensures r == "Novela" <==> !Contains(norm, "comic") && !OneShot(norm) && !Contains(norm, "manhwa")
                               && !Contains(norm, "manhua") && Contains(norm, "novel")
  {
    if Contains(norm, "comic") then "Comic"
    else if OneShot(norm) then "One-shot"
    else if Contains(norm, "manhwa") then "Manhwa"
    else if Contains(norm, "manhua") then "Manhua"
    else if Contains(norm, "novel") then "Novela"
    else "Manga"
  }

  /** The tag heuristic: the last of manhwa, manhua, novel(a) that occurs
      in the joined tag text overwrites the earlier ones. */
  function TagGuess(joined: string, t: JsVal): (r: JsVal)
    ensures Contains(joined, "novel") ==> r == Str("novela")
    ensures !Contains(joined, "novel") && Contains(joined, "manhua") ==> r == Str("manhua")
    ensures !Contains(joined, "novel") && !Contains(joined, "manhua") && Contains(joined, "manhwa") ==> r == Str("manhwa")
    ensures !Contains(joined, "novel") && !Contains(joined, "manhua") && !Contains(joined, "manhwa") ==> r == t
  {
    var t1 := if Contains(joined, "manhwa") then Str("manhwa") else t;
    var t2 := if Contains(joined, "manhua") then Str("manhua") else t1;
    NovelaIsNovel(joined);
    if Contains(joined, "novel") || Contains(joined, "novela") then Str("novela") else t2
  }

  /** The first truthy of the type fields `originLabel` reads. */
  function OriginField(item: JsVal): JsVal {
    if !Truthy(item) then item
    else
      Or(Prop(item, "mng_tipo_manga"), Or(Prop(item, "mng_tipo_serie"), Or(Prop(item, "tipo_serie"),
      Or(Prop(item, "manga_tipo_serie"), Or(Prop(item, "type"), Or(Prop(item, "book_type"),
      Or(OptProp(Prop(item, "raw"), "type"), Or(Prop(item, "origin"), Str("")))))))))
  }

  /** `originLabel(item)`; None where a null tag makes it throw. A value
      that is not text is not lower-cased before the tests. */
  function OriginLabel(item: JsVal): (r: Option<string>)
    ensures r.Some? ==> r.value in {"Comic", "One-shot", "Manhwa", "Manhua", "Novela", "Manga"}
    ensures !Truthy(item) ==> r == Some("Manga")
    ensures OriginField(item).Str? && OriginField(item).s != "" ==>
              r == Some(OriginOf(Lower(OriginField(item).s)))
  {
    match OriginGuess(item)
    case None => None
    case Some(t) => Some(OriginOfValue(t))
  }

  /** The type field, or, when it is falsy, the guess from the tags (or
      `tags_list`); None when a null tag makes the guess throw. */
  function OriginGuess(item: JsVal): (r: Option<JsVal>)
    ensures Truthy(OriginField(item)) || !Truthy(item) ==> r == Some(OriginField(item))
  {
    var t0 := OriginField(item);
    if !Truthy(t0) && Truthy(item) then
      var tags := Or(Prop(item, "tags"), Or(Prop(item, "tags_list"), Arr([])));
      if tags.Arr? && |tags.items| > 0 then
        (match TagNames(tags.items)
         case None => None
         case Some(names) => Some(TagGuess(Lower(ArrJoin(names, " ")), t0)))
      else Some(t0)
    else Some(t0)
  }

  /** The origin read from the chosen value, lowercased when text. */
  function OriginOfValue(t: JsVal): string {
    var t2 := if t.Str? then Str(Lower(t.s)) else t;
    OriginOf(ToStr(Or(t2, Str(""))))
  }

  /** The guessed "novela" reads as the Novela origin. */
  lemma NovelaOrigin()
    ensures OriginOfValue(Str("novela")) == "Novela"
  {
    assert Lower("novela") == "novela";
    assert Contains("novela", "novel") by { assert OccursAt("novela", "novel", 0); }
    NotContainsFirst("novela", "comic");
    NotContainsFirst("novela", "manhwa");
    NotContainsFirst("novela", "manhua");
    assert !OneShot("novela") by {
      assert !Contains("novela", "oneshot");
      forall c | IsSpace(c) || c == '_' || c == '-'
        ensures !Contains("novela", "one" + [c] + "shot")
      {
      }
    }
  }

  /** Without a type field, tags naming several families resolve to the
      last test: novel over manhua over manhwa. */
  lemma TagPrecedence(tagText: string)
    requires Contains(tagText, "novel") && Contains(tagText, "manhwa")
    requires Lower(tagText) == tagText
    ensures OriginLabel(Obj(map["tags" := Arr([Str(tagText)])])) == Some("Novela")
  {
    var item := Obj(map["tags" := Arr([Str(tagText)])]);
    assert OriginGuess(item) == Some(Str("novela")) by {
      assert OriginField(item) == Str("");
      assert [Str(tagText)][1..] == [];
      assert Lower(ArrJoin([Str(tagText)], " ")) == tagText;
      assert TagGuess(tagText, Str("")) == Str("novela");
    }
    NovelaOrigin();
  }

  // ----- isErotic -----

  /** The adult-content words the tests look for. */
  predicate EroticWords(t: string) {
    Contains(t, "ecchi") || Contains(t, "erotic") || Contains(t, "er\U{f3}tico") || Contains(t, "erotico")
  }

  /** An explicit `erotic === true` or `erotico === true` flag. */
  predicate EroticFlag(item: JsVal) {
    Prop(item, "erotic") == Bool(true) || Prop(item, "erotico") == Bool(true)
  }

  /** The lowercased text of the first truthy of `demography`,
      `demografia`, `type`. */
  function DemText(item: JsVal): string {
    Lower(ToStr(Or(Prop(item, "demography"), Or(Prop(item, "demografia"), Or(Prop(item, "type"), Str(""))))))
  }

  /** The `tags` array holds no nullish entry, and its tag texts joined
      by spaces and lowercased name an adult genre. */
  predicate TagWords(item: JsVal) {
    var tags := Prop(item, "tags");
    && tags.Arr?
    && (forall i :: 0 <= i < |tags.items| ==> !Nullish(tags.items[i]))
    && EroticWords(Lower(ArrJoin(seq(|tags.items|, i requires 0 <= i < |tags.items| => TagName(tags.items[i])), " ")))
  }

  /** `isErotic(item)`, the same rule in the UI and the filter composable;
      None where a null tag makes it throw. Otherwise the item is erotic
      exactly when it is truthy and a flag, its tags or its demography
      say so. */
  function IsErotic(item: JsVal): (r: Option<bool>)
    ensures r.Some? ==> (r.value <==> Truthy(item) && (EroticFlag(item) || TagWords(item) || EroticWords(DemText(item))))
    ensures !Truthy(item) ==> r == Some(false)
    ensures Truthy(item) && EroticFlag(item) ==> r == Some(true)
    ensures r.None? <==>
              Truthy(item) && !EroticFlag(item) && Prop(item, "tags").Arr?
              && exists i :: 0 <= i < |Prop(item, "tags").items| && Nullish(Prop(item, "tags").items[i])
    ensures Truthy(item) && !Prop(item, "tags").Arr? ==> r == Some(EroticFlag(item) || EroticWords(DemText(item)))
    ensures r == Some(false) ==> !Truthy(item) || (!EroticFlag(item) && !EroticWords(DemText(item)))
  {
    if !Truthy(item) then Some(false)
    else if EroticFlag(item) then Some(true)
    else
      var tags := Prop(item, "tags");
      var fromTags: Option<bool> :=
        if Truthy(tags) && tags.Arr? then
          (match TagNames(tags.items)
           case None => None
           case Some(names) =>
             assert names == seq(|tags.items|, i requires 0 <= i < |tags.items| => TagName(tags.items[i]));
             Some(EroticWords(Lower(ArrJoin(names, " ")))))
        else Some(false);
      match fromTags
      case None => None
      case Some(true) => Some(true)
      case Some(false) => Some(EroticWords(DemText(item)))
  }

  /** A tag list naming an adult genre marks the item, whatever its
      demography says. */
  lemma EroticByTag(item: JsVal, tag: string)
    requires item.Obj? && !EroticFlag(item)
    requires Prop(item, "tags") == Arr([Str(tag)]) && tag != ""
    requires Contains(Lower(tag), "ecchi")
    ensures IsErotic(item) == Some(true)
  {
    assert [Str(tag)][1..] == [];
    assert ArrJoin([Str(tag)], " ") == tag;
  }

  // ----- safeCover -----

  /** The placeholder shown instead of a missing or non-http cover. */
  const Blank: string := "data:" + "image/svg+xml,<svg xmlns=\"http://www.w3.org/2000/svg\" width=\"160\" height=\"240\"/>"

  /** The text `safeCover` tests: `String(url || '').toLowerCase()`. */
  function CoverText(url: JsVal): string {
    Lower(ToStr(Or(url, Str(""))))
  }

  /** `safeCover(url)`: the argument itself when its text starts with
      "http" in any case, else the placeholder. */
  function SafeCover(url: JsVal): (r: JsVal)
    ensures r == url || r == Str(Blank)
    ensures StartsWith(CoverText(url), "http") ==> r == url
    ensures !StartsWith(CoverText(url), "http") ==> r == Str(Blank)
    ensures url.Str? && StartsWith(Lower(url.s), "http") ==> r == url
  {
    var u := CoverText(url);
    if u == "" || !StartsWith(u, "http") then Str(Blank) else url
  }

  /** A second pass changes nothing: the placeholder is not an http URL. */
  lemma SafeCoverIdempotent(url: JsVal)
    ensures SafeCover(SafeCover(url)) == SafeCover(url)
  {
    assert Blank[0] == 'd';
    assert CoverText(Str(Blank))[0] == 'd';
  }
}
