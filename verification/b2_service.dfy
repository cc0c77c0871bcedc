/** The storage-side URL logic: the object keys under which covers, chapter
    pages and folder markers are stored in the bucket, the public URLs the
    uploads return, and `normalize_image_url`, which rewrites any stored
    bucket URL to the worker host for its kind of image.

    The uploads themselves (the object-store client) are not part of this
    model; only the keys and URLs they compute are. */
module B2Service {
  import opened Wrappers
  import opened Text

  /** The worker host that serves covers. */
  const ImgHost: string := "img.miswebtoons.uk"
  /** The worker host that serves chapter pages. */
  const ChapterHost: string := "blackblaze.miswebtoons.uk"
  /** The bucket marker of a download URL, tried first. */
  const FileMarker: string := "/file/MangaApi/"
  /** The bucket marker of a path-style URL, tried second. */
  const BucketMarker: string := "/MangaApi/"
  const CoverDir: string := "covers/"
  const ChapterDir: string := "chapters/"

  /** `https://img.miswebtoons.uk/file/MangaApi/`. */
  const CoverBase: string := "https://" + ImgHost + FileMarker
  /** `https://blackblaze.miswebtoons.uk/file/MangaApi/`. */
  const ChapterBase: string := "https://" + ChapterHost + FileMarker

  // ----- object keys -----

  function CoverKey(code: string, filename: string): string {
    CoverDir + code + "/" + filename
  }

  /** `num` is the chapter number as the caller formats it. */
  function ChapterKey(code: string, num: string, filename: string): string {
    ChapterDir + code + "/" + num + "/" + filename
  }

  /** The two `.keep` objects `initialize_manga_folders` writes: the
      chapters folder first, then the covers folder. */
  function FolderKeys(code: string): (r: seq<string>)
    ensures |r| == 2
    ensures StartsWith(r[0], ChapterDir) && EndsWith(r[0], "/.keep")
    ensures StartsWith(r[1], CoverDir) && EndsWith(r[1], "/.keep")
  {
    var chapters := ChapterDir + code + "/.keep";
    var covers := CoverDir + code + "/.keep";
    assert chapters == ChapterDir + (code + "/.keep");
    assert covers == CoverDir + (code + "/.keep");
    StartsWithAppend(ChapterDir, code + "/.keep");
    StartsWithAppend(CoverDir, code + "/.keep");
    EndsWithAppend(ChapterDir + code, "/.keep");
    EndsWithAppend(CoverDir + code, "/.keep");
    [chapters, covers]
  }

  /** `MangaViewSet.perform_create`: the folder markers written after a
      series is saved, none when it has no code. A failing upload is
      reported and swallowed, so the created series is kept either way. */
  function FoldersOnCreate(codigo: Option<string>): (r: seq<string>)
    ensures codigo.None? || codigo.value == "" <==> r == []
    ensures r != [] ==> r == FolderKeys(codigo.value)
  {
    if codigo.None? || codigo.value == "" then [] else FolderKeys(codigo.value)
  }

  /** `upload_cover`'s URL. */
  function CoverUrl(code: string, filename: string): string {
    CoverBase + CoverKey(code, filename)
  }

  /** `upload_chapter_page`'s URL. */
  function ChapterUrl(code: string, num: string, filename: string): string {
    ChapterBase + ChapterKey(code, num, filename)
  }

  // ----- normalize_image_url -----

  /** The bucket path of a URL: the text after the first `/file/MangaApi/`
      up to any repeat of it, else the same for `/MangaApi/`; None when
      neither marker occurs. */
  function MarkedPath(url: string): (r: Option<string>)
    ensures r.None? <==> !Contains(url, FileMarker) && !Contains(url, BucketMarker)
    ensures Contains(url, FileMarker) ==> r == Some(SplitSecond(url, FileMarker))
    ensures !Contains(url, FileMarker) && Contains(url, BucketMarker) ==> r == Some(SplitSecond(url, BucketMarker))
  {
    if Contains(url, FileMarker) then Some(SplitSecond(url, FileMarker))
    else if Contains(url, BucketMarker) then Some(SplitSecond(url, BucketMarker))
    else None
  }

  /** Already served by one of the worker hosts. */
  predicate OnWorkerHost(url: string) {
    Contains(url, ImgHost) || Contains(url, ChapterHost)
  }

  /** `B2Service.normalize_image_url`; `url` is None for a missing value. */
  function NormalizeImageUrl(url: Option<string>): (r: Option<string>)
    ensures r.None? <==> url.None? || url.value == ""
    ensures r.Some? && OnWorkerHost(url.value) ==> r == url
    ensures r.Some? && r != url ==>
              && MarkedPath(url.value).Some?
              && var path := MarkedPath(url.value).value;
                 || (StartsWith(path, CoverDir) && r.value == CoverBase + path)
                 || (!StartsWith(path, CoverDir) && StartsWith(path, ChapterDir) && r.value == ChapterBase + path)
    ensures r.Some? && (MarkedPath(url.value).None? || MarkedPath(url.value).value == "") ==> r == url
    ensures r.Some? ==> OnWorkerHost(r.value) || r == url
    ensures url.Some? && url.value != "" && !OnWorkerHost(url.value) && MarkedPath(url.value).Some?
            && StartsWith(MarkedPath(url.value).value, CoverDir) ==>
              r == Some(CoverBase + MarkedPath(url.value).value)
    ensures url.Some? && url.value != "" && !OnWorkerHost(url.value) && MarkedPath(url.value).Some?
            && !StartsWith(MarkedPath(url.value).value, CoverDir) && StartsWith(MarkedPath(url.value).value, ChapterDir) ==>
              r == Some(ChapterBase + MarkedPath(url.value).value)
    ensures url.Some? && MarkedPath(url.value).Some?
            && !StartsWith(MarkedPath(url.value).value, CoverDir) && !StartsWith(MarkedPath(url.value).value, ChapterDir) ==>
              r == (if url.value == "" then None else url)
  {
    if url.None? || url.value == "" then None
    else
      var u := url.value;
      if OnWorkerHost(u) then url
      else match MarkedPath(u)
        case None => url
        case Some(path) =>
          if path == "" then url
          else if StartsWith(path, CoverDir) then
            CoverBaseOnHost(path);
            Some(CoverBase + path)
          else if StartsWith(path, ChapterDir) then
            ChapterBaseOnHost(path);
            Some(ChapterBase + path)
          else url
  }

  lemma CoverBaseOnHost(path: string)
    ensures Contains(CoverBase + path, ImgHost)
  {
    ContainsMiddle("https://", ImgHost, FileMarker + path);
    assert CoverBase + path == "https://" + ImgHost + (FileMarker + path);
  }

  lemma ChapterBaseOnHost(path: string)
    ensures Contains(ChapterBase + path, ChapterHost)
  {
    ContainsMiddle("https://", ChapterHost, FileMarker + path);
    assert ChapterBase + path == "https://" + ChapterHost + (FileMarker + path);
  }

  /** Normalising twice is normalising once. */
  lemma NormalizeIdempotent(url: Option<string>)
    ensures NormalizeImageUrl(NormalizeImageUrl(url)) == NormalizeImageUrl(url)
  {
  }

  /** The URLs the uploads return are already normalised. */
  lemma UploadUrlsNormalized(code: string, num: string, filename: string)
    ensures NormalizeImageUrl(Some(CoverUrl(code, filename))) == Some(CoverUrl(code, filename))
    ensures NormalizeImageUrl(Some(ChapterUrl(code, num, filename))) == Some(ChapterUrl(code, num, filename))
  {
    CoverBaseOnHost(CoverKey(code, filename));
    ChapterBaseOnHost(ChapterKey(code, num, filename));
  }

  /** A raw bucket download URL `origin + '/file/MangaApi/' + key`, on a
      host that is not a worker host and whose key holds no second marker,
      normalises to the URL the matching upload returns. */
  lemma NormalizeRawUpload(origin: string, key: string)
    requires forall j :: 0 <= j < |origin| ==> !OccursAt(origin + FileMarker + key, FileMarker, j)
    requires !Contains(key, FileMarker)
    requires !OnWorkerHost(origin + FileMarker + key)
    requires StartsWith(key, CoverDir) || StartsWith(key, ChapterDir)
    ensures NormalizeImageUrl(Some(origin + FileMarker + key))
         == Some(if StartsWith(key, CoverDir) then CoverBase + key else ChapterBase + key)
  {
    AfterFirstSplit(origin, FileMarker, key);
    var url := origin + FileMarker + key;
    assert MarkedPath(url) == Some(key);
  }

  /** A raw path-style bucket URL `origin + '/MangaApi/' + key` without the
      download marker anywhere normalises by its key's folder as well. */
  lemma NormalizePathStyle(origin: string, key: string)
    requires forall j :: 0 <= j < |origin| ==> !OccursAt(origin + BucketMarker + key, BucketMarker, j)
    requires !Contains(key, BucketMarker)
    requires !Contains(origin + BucketMarker + key, FileMarker)
    requires !OnWorkerHost(origin + BucketMarker + key)
    requires StartsWith(key, CoverDir) || StartsWith(key, ChapterDir)
    ensures NormalizeImageUrl(Some(origin + BucketMarker + key))
         == Some(if StartsWith(key, CoverDir) then CoverBase + key else ChapterBase + key)
  {
    AfterFirstSplit(origin, BucketMarker, key);
    var url := origin + BucketMarker + key;
    assert MarkedPath(url) == Some(key);
  }

  /** The keys the uploads build start with their folder, so a raw bucket
      URL of an uploaded cover or page normalises to the upload's URL. */
  lemma RawUploadRoundTrip(origin: string, code: string, num: string, filename: string)
    requires forall j :: 0 <= j < |origin| ==> !OccursAt(origin + FileMarker + CoverKey(code, filename), FileMarker, j)
    requires forall j :: 0 <= j < |origin| ==> !OccursAt(origin + FileMarker + ChapterKey(code, num, filename), FileMarker, j)
    requires !Contains(CoverKey(code, filename), FileMarker) && !Contains(ChapterKey(code, num, filename), FileMarker)
    requires !OnWorkerHost(origin + FileMarker + CoverKey(code, filename))
    requires !OnWorkerHost(origin + FileMarker + ChapterKey(code, num, filename))
    ensures NormalizeImageUrl(Some(origin + FileMarker + CoverKey(code, filename))) == Some(CoverUrl(code, filename))
    ensures NormalizeImageUrl(Some(origin + FileMarker + ChapterKey(code, num, filename))) == Some(ChapterUrl(code, num, filename))
  {
    var ck := CoverKey(code, filename);
    var hk := ChapterKey(code, num, filename);
    assert ck == CoverDir + (code + "/" + filename);
    assert hk == ChapterDir + (code + "/" + num + "/" + filename);
    StartsWithAppend(CoverDir, code + "/" + filename);
    StartsWithAppend(ChapterDir, code + "/" + num + "/" + filename);
    assert hk[1] != CoverDir[1];
    NormalizeRawUpload(origin, ck);
    NormalizeRawUpload(origin, hk);
  }
}
