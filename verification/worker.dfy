/** The scraper's pure steps: the title slug and the series codename, the
    chapter-image selection from a scraped page, and the names the
    downloads are saved under.

    Unicode decomposition and `str.isalnum` are parameters (`stripMarks`,
    `isAlnum`), as are the SHA-1 hex digest of the title, `urljoin`
    against the chapter URL, and the regex scan of the raw page. The
    network and the file writes are not part of this model. */
module Worker {
  import opened Wrappers
  import opened Text
  import opened Ordering

  // ----- _slug_base -----

  /** What the slug relies on from Python's `str.isalnum`: the underscore
      and whitespace are not alphanumeric. */
  predicate AlnumLike(isAlnum: char -> bool) {
    !isAlnum('_') && forall c :: IsSpace(c) ==> !isAlnum(c)
  }

  predicate IsAsciiUpper(c: char) {
    'A' <= c <= 'Z'
  }

  predicate NoDoubleUnderscore(s: string) {
    forall i :: 0 <= i < |s| - 1 ==> !(s[i] == '_' && s[i + 1] == '_')
  }

  /** Every character is an underscore or a lower-case alphanumeric. */
  predicate SlugAlphabet(s: string, isAlnum: char -> bool) {
    forall i :: 0 <= i < |s| ==> s[i] == '_' || (isAlnum(s[i]) && !IsAsciiUpper(s[i]))
  }

  /** The shape `_slug_base` promises. */
  predicate IsSlug(s: string, isAlnum: char -> bool) {
    && SlugAlphabet(s, isAlnum)
    && NoDoubleUnderscore(s)
    && (|s| > 0 ==> s[0] != '_' && s[|s| - 1] != '_')
  }

  /** The character loop: alphanumerics are kept, and each run of other
      characters becomes one underscore; `prevUs` says the output so far
      ends with an underscore. */
  function SlugChars(s: string, isAlnum: char -> bool, prevUs: bool): (r: string)
    requires !isAlnum('_')
    ensures forall i :: 0 <= i < |r| ==> r[i] == '_' || (isAlnum(r[i]) && r[i] in s)
    ensures NoDoubleUnderscore(r)
    ensures prevUs && |r| > 0 ==> r[0] != '_'
    decreases |s|
  {
    if |s| == 0 then ""
    else
      var rest := SlugChars(s[1..], isAlnum, !isAlnum(s[0]));
      assert forall c :: c in s[1..] ==> c in s;
      if isAlnum(s[0]) then [s[0]] + rest
      else if prevUs then rest
      else "_" + rest
  }

  /** `_slug_base`: None for the `ValueError` raised on an empty or blank
      title. */
  function SlugBase(title: string, stripMarks: string -> string, isAlnum: char -> bool): (r: Option<string>)
    requires AlnumLike(isAlnum)
    ensures r.None? <==> Trim(title) == ""
    ensures r.Some? ==> IsSlug(r.value, isAlnum)
  {
    if Trim(title) == "" then None
    else
      var lowered := Lower(stripMarks(title));
      var out := SlugChars(lowered, isAlnum, false);
      LowerHasNoUpper(stripMarks(title));
      LoweredSlugChars(lowered, isAlnum);
      StripSlug(out, isAlnum);
      Some(StripChar(out, '_'))
  }

  /** The loop's output on lower-cased text uses the slug alphabet. */
  lemma LoweredSlugChars(lowered: string, isAlnum: char -> bool)
    requires !isAlnum('_')
    requires forall c :: c in lowered ==> !IsAsciiUpper(c)
    ensures SlugAlphabet(SlugChars(lowered, isAlnum, false), isAlnum)
  {
  }

  lemma LowerHasNoUpper(s: string)
    ensures forall c :: c in Lower(s) ==> !IsAsciiUpper(c)
  {
  }

  /** Stripping the edge underscores of the loop's output leaves a slug. */
  lemma StripSlug(out: string, isAlnum: char -> bool)
    requires SlugAlphabet(out, isAlnum) && NoDoubleUnderscore(out)
    ensures IsSlug(StripChar(out, '_'), isAlnum)
  {
    var slug := StripChar(out, '_');
    var lo, hi :| 0 <= lo <= hi <= |out| && slug == out[lo..hi];
    SliceSlug(out, lo, hi, isAlnum);
  }

  /** A slice keeps the slug alphabet and the single underscores. */
  lemma SliceSlug(out: string, lo: nat, hi: nat, isAlnum: char -> bool)
    requires lo <= hi <= |out|
    requires SlugAlphabet(out, isAlnum) && NoDoubleUnderscore(out)
    ensures SlugAlphabet(out[lo..hi], isAlnum) && NoDoubleUnderscore(out[lo..hi])
  {
    var slug := out[lo..hi];
    forall i | 0 <= i < |slug|
      ensures slug[i] == '_' || (isAlnum(slug[i]) && !IsAsciiUpper(slug[i]))
    {
      assert slug[i] == out[lo + i];
    }
    forall i | 0 <= i < |slug| - 1
      ensures !(slug[i] == '_' && slug[i + 1] == '_')
    {
      assert slug[i] == out[lo + i] && slug[i + 1] == out[lo + i + 1];
    }
  }

  /** On text that is already a slug the character loop is the identity. */
  lemma {:induction false} SlugCharsOfSlug(s: string, isAlnum: char -> bool, prevUs: bool)
    requires !isAlnum('_')
    requires forall i :: 0 <= i < |s| ==> s[i] == '_' || isAlnum(s[i])
    requires NoDoubleUnderscore(s)
    requires prevUs && |s| > 0 ==> s[0] != '_'
    ensures SlugChars(s, isAlnum, prevUs) == s
    decreases |s|
  {
    if |s| > 0 {
      SlugCharsOfSlug(s[1..], isAlnum, !isAlnum(s[0]));
      assert s == [s[0]] + s[1..];
    }
  }

  /** A non-empty slug is its own slug: `_slug_base` is idempotent. */
  lemma SlugIdempotent(s: string, isAlnum: char -> bool)
    requires AlnumLike(isAlnum)
    requires IsSlug(s, isAlnum) && s != ""
    ensures SlugBase(s, x => x, isAlnum) == Some(s)
  {
    SlugEdges(s, isAlnum);
    SlugCharsOfSlug(s, isAlnum, false);
    var id: string -> string := x => x;
    assert id(s) == s;
  }

  lemma SlugEdges(s: string, isAlnum: char -> bool)
    requires AlnumLike(isAlnum)
    requires IsSlug(s, isAlnum) && s != ""
    ensures Lower(s) == s && Trim(s) == s && StripChar(s, '_') == s
  {
    assert Lower(s) == s;
    assert !IsSpace(s[0]) && !IsSpace(s[|s| - 1]);
  }

  // ----- codename_from_title -----

  predicate NonEmpty(p: string) {
    p != ""
  }

  /** The first letters of the first two parts, or "x" when there are none. */
  function Initials(parts: seq<string>): (r: string)
    requires forall i :: 0 <= i < |parts| ==> parts[i] != ""
    ensures 1 <= |r| <= 2
    ensures |parts| == 0 ==> r == "x"
    ensures |parts| > 0 ==> |r| == (if |parts| == 1 then 1 else 2)
    ensures forall i :: 0 <= i < |r| && i < |parts| ==> r[i] == parts[i][0]
  {
    if |parts| == 0 then "x"
    else if |parts| == 1 then [parts[0][0]]
    else [parts[0][0], parts[1][0]]
  }

  /** The non-empty parts of a slug split on the underscore. */
  function SlugParts(base: string): (parts: seq<string>)
    ensures forall i :: 0 <= i < |parts| ==> parts[i] != "" && '_' !in parts[i]
  {
    var ps := Split(base, '_');
    var parts := Filter(ps, NonEmpty);
    assert forall i :: 0 <= i < |parts| ==> parts[i] in ps;
    parts
  }

  /** A slug that does not start with an underscore has its first
      character as the first letter of its first part. */
  lemma SlugPartsHead(base: string)
    requires base != "" && base[0] != '_'
    ensures |SlugParts(base)| > 0 && SlugParts(base)[0][0] == base[0]
  {
    var ps := Split(base, '_');
    if '_' in base {
      var i := CharIndex(base, '_');
      assert i > 0;
      assert ps[0] == base[..i];
    } else {
      assert ps == [base];
    }
    assert ps[0] != "" && ps[0][0] == base[0];
  }

  /** `codename_from_title`; `hexdigest` is the SHA-1 hex digest of the
      title. None where `_slug_base` raises. */
  function Codename(title: string, stripMarks: string -> string, isAlnum: char -> bool, hexdigest: string)
    : (r: Option<string>)
    requires AlnumLike(isAlnum)
    ensures r.None? <==> Trim(title) == ""
    ensures r.Some? ==>
              var base := SlugBase(title, stripMarks, isAlnum).value;
              var ini := Initials(SlugParts(base));
              && r.value == ini + "-" + Take(hexdigest, 6)
              && (base == "" ==> ini == "x")
              && (base != "" ==> ini[0] == base[0] && isAlnum(ini[0]))
  {
    match SlugBase(title, stripMarks, isAlnum)
    case None => None
    case Some(base) =>
      var ini := Initials(SlugParts(base));
      assert base != "" ==> |SlugParts(base)| > 0 && SlugParts(base)[0][0] == base[0] by {
        if base != "" {
          SlugPartsHead(base);
        }
      }
      assert base == "" ==> Split(base, '_') == [""];
      Some(ini + "-" + Take(hexdigest, 6))
  }

  /** The codename splits back into its initials and the first six digest
      characters: the separator sits seven characters from the end. */
  lemma CodenameSplits(title: string, stripMarks: string -> string, isAlnum: char -> bool, hexdigest: string)
    requires AlnumLike(isAlnum) && Trim(title) != "" && |hexdigest| >= 6
    ensures var c := Codename(title, stripMarks, isAlnum, hexdigest).value;
            && 8 <= |c| <= 9
            && c[|c| - 7] == '-'
            && c[|c| - 6..] == hexdigest[..6]
  {
  }

  // ----- image selection -----

  /** `process_chapter`'s test on an `<img>` `src` (empty when absent). */
  predicate WorkerKeeps(src: string) {
    && src != ""
    && (Contains(src, "uploads") || Contains(src, "storage") || Contains(src, "ikigai"))
    && !Contains(src, "logo")
  }

  /** The test on URLs found by the regex fallback. */
  predicate FallbackKeeps(u: string) {
    Contains(u, "uploads") && !Contains(u, "logo")
  }

  /** The kept URLs in page order, before duplicates are dropped: the
      kept `src`s made absolute, or the kept regex matches when no `src`
      is kept. */
  function WorkerCandidates(srcs: seq<string>, join: string -> string, regexUrls: seq<string>): (r: seq<string>)
    ensures (exists i :: 0 <= i < |srcs| && WorkerKeeps(srcs[i])) ==> r == MapSeq(Filter(srcs, WorkerKeeps), join)
    ensures (forall i :: 0 <= i < |srcs| ==> !WorkerKeeps(srcs[i])) ==> r == Filter(regexUrls, FallbackKeeps)
  {
    var primary := MapSeq(Filter(srcs, WorkerKeeps), join);
    MappedFilter(srcs, WorkerKeeps, join);
    if primary == [] then Filter(regexUrls, FallbackKeeps) else primary
  }

  /** The page's image URLs: kept `src`s made absolute with `join`, or, when
      none is kept, the kept regex matches; duplicates dropped, first
      occurrence first. */
  function WorkerImageUrls(srcs: seq<string>, join: string -> string, regexUrls: seq<string>): (r: seq<string>)
    ensures Distinct(r)
    ensures (exists i :: 0 <= i < |srcs| && WorkerKeeps(srcs[i])) ==>
              forall u :: u in r <==> exists i :: 0 <= i < |srcs| && WorkerKeeps(srcs[i]) && join(srcs[i]) == u
    ensures (forall i :: 0 <= i < |srcs| ==> !WorkerKeeps(srcs[i])) ==>
              forall u :: u in r <==> u in regexUrls && FallbackKeeps(u)
    ensures forall u :: u in r <==> u in WorkerCandidates(srcs, join, regexUrls)
    ensures forall i, j :: 0 <= i < j < |r| ==>
              FirstIndex(WorkerCandidates(srcs, join, regexUrls), r[i]) < FirstIndex(WorkerCandidates(srcs, join, regexUrls), r[j])
  {
    MappedFilter(srcs, WorkerKeeps, join);
    Dedup(WorkerCandidates(srcs, join, regexUrls))
  }

  /** Downloads are named by their 1-based position, three digits wide. */
  function PageName(index: nat): string {
    ZeroPad(index, 3) + ".webp"
  }

  /** The result of the page scan: None and 0 when no image was found,
      else the chapter folder (`f"{chapter_num:03d}"`) and the names the
      images are saved under, in order. */
  datatype Plan = NoImages | Download(folder: string, names: seq<string>)

  /** `f"{chapter_num:03d}"`, which reads back as the chapter number. */
  function ChapterFolder(chapterNum: int): (f: string)
    ensures f == PadInt(chapterNum, 3)
    ensures |f| >= 3 && PyInt(f) == Some(chapterNum)
  {
    PadIntValue(chapterNum, 3);
    PadInt(chapterNum, 3)
  }

  function DownloadPlan(chapterNum: int, urls: seq<string>): (r: Plan)
    ensures r.NoImages? <==> urls == []
    ensures r.Download? ==> r.folder == ChapterFolder(chapterNum) && |r.names| == |urls|
    ensures r.Download? ==> forall i :: 0 <= i < |urls| ==> r.names[i] == PageName(i + 1)
  {
    if urls == [] then NoImages
    else
      var folder := ChapterFolder(chapterNum);
      Download(folder, seq(|urls|, i requires 0 <= i < |urls| => PageName(i + 1)))
  }

  /** The saved names are distinct, and each reads back as its 1-based
      position; below a thousand pages every name is `NNN.webp`. */
  lemma PageNamesDistinct(chapterNum: int, urls: seq<string>, i: nat, j: nat)
    requires i < j < |urls|
    ensures var p := DownloadPlan(chapterNum, urls);
            && p.names[i] != p.names[j]
            && DecValue(p.names[i][..|p.names[i]| - 5]) == i + 1
            && (|urls| < 1000 ==> |p.names[i]| == 8)
  {
    var p := DownloadPlan(chapterNum, urls);
    assert p.names[i] == PageName(i + 1) && p.names[j] == PageName(j + 1);
    PageNamesApart(i + 1, j + 1, |urls|);
  }

  /** The names of two different pages differ, and each reads back as its
      page number. */
  lemma PageNamesApart(a: nat, b: nat, n: nat)
    requires 0 < a < b <= n
    ensures PageName(a) != PageName(b)
    ensures DecValue(PageName(a)[..|PageName(a)| - 5]) == a
    ensures n < 1000 ==> |PageName(a)| == 8
  {
    var x := ZeroPad(a, 3);
    var y := ZeroPad(b, 3);
    assert PageName(a) == x + ".webp" && PageName(b) == y + ".webp";
    assert PageName(a)[..|PageName(a)| - 5] == x;
    ZeroPadValue(a, 3);
    if x == y {
      ZeroPadInjective(a, b, 3);
    }
    assert x != y;
    assert (x + ".webp")[..|x|] == x && (y + ".webp")[..|y|] == y;
    if n < 1000 {
      ZeroPad3Length(a);
    }
  }
}
