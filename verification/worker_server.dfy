/** The worker's HTTP front: the API-key dependency that guards
    `/download`, and the image selection of the background task, a copy
    of the scraper's without the `ikigai` case and without `urljoin`. */
module WorkerServer {
  import opened Wrappers
  import opened Text
  import opened Ordering
  import opened Worker

  /** The outcome of `get_api_key`: the accepted header, or an HTTP error. */
  datatype KeyCheck = Accepted(key: string) | Refused(status: int, detail: string)

  /** `get_api_key`; `expected` is `WORKER_API_KEY` (None when unset) and
      `header` the `X-API-Key` header (None when absent). */
  function GetApiKey(expected: Option<string>, header: Option<string>): (r: KeyCheck)
    ensures expected.None? || expected.value == "" ==>
              r == Refused(500, "Server misconfiguration: Missing API Key")
    ensures expected.Some? && expected.value != "" ==>
              (r.Accepted? <==> header == expected)
    ensures r.Accepted? ==> header.Some? && r.key == header.value && r.key == expected.value && r.key != ""
    ensures r.Refused? && expected.Some? && expected.value != "" ==>
              r == Refused(403, "Acceso Denegado: API Key inválida")
  {
    if expected.None? || expected.value == "" then Refused(500, "Server misconfiguration: Missing API Key")
    else if header != expected then Refused(403, "Acceso Denegado: API Key inválida")
    else Accepted(header.value)
  }

  /** Without a configured key no request gets through, whatever it sends;
      with one, exactly the requests that send it do. */
  lemma ApiKeyGate(expected: Option<string>, header: Option<string>)
    ensures (expected.None? || expected.value == "") ==> GetApiKey(expected, header).Refused?
    ensures GetApiKey(expected, header).Accepted? <==> expected.Some? && expected.value != "" && header == expected
  {
  }

  // ----- process_chapter_task -----

  /** `process_chapter_task`'s test on an `<img>` `src`. */
  predicate ServerKeeps(src: string) {
    && src != ""
    && (Contains(src, "uploads") || Contains(src, "storage"))
    && !Contains(src, "logo")
  }

  /** The kept URLs in page order, before duplicates are dropped: the
      kept `src`s, or the kept regex matches when no `src` is kept. */
  function ServerCandidates(srcs: seq<string>, regexUrls: seq<string>): (r: seq<string>)
    ensures (exists i :: 0 <= i < |srcs| && ServerKeeps(srcs[i])) ==> r == Filter(srcs, ServerKeeps)
    ensures (forall i :: 0 <= i < |srcs| ==> !ServerKeeps(srcs[i])) ==> r == Filter(regexUrls, FallbackKeeps)
  {
    var kept := Filter(srcs, ServerKeeps);
    assert (exists i :: 0 <= i < |srcs| && ServerKeeps(srcs[i])) ==> kept != [] by {
      if exists i :: 0 <= i < |srcs| && ServerKeeps(srcs[i]) {
        var i :| 0 <= i < |srcs| && ServerKeeps(srcs[i]);
        assert srcs[i] in kept;
      }
    }
    assert kept != [] ==> exists i :: 0 <= i < |srcs| && ServerKeeps(srcs[i]) by {
      if kept != [] {
        assert kept[0] in kept;
      }
    }
    if kept == [] then Filter(regexUrls, FallbackKeeps) else kept
  }

  /** `process_chapter_task`'s image list: kept `src`s as they are, or the kept regex
      matches when none is kept; duplicates dropped in first-occurrence
      order. */
  function ServerImageUrls(srcs: seq<string>, regexUrls: seq<string>): (r: seq<string>)
    ensures Distinct(r)
    ensures (exists i :: 0 <= i < |srcs| && ServerKeeps(srcs[i])) ==>
              forall u :: u in r <==> u in srcs && ServerKeeps(u)
    ensures (forall i :: 0 <= i < |srcs| ==> !ServerKeeps(srcs[i])) ==>
              forall u :: u in r <==> u in regexUrls && FallbackKeeps(u)
    ensures forall u :: u in r <==> u in ServerCandidates(srcs, regexUrls)
    ensures forall i, j :: 0 <= i < j < |r| ==>
              FirstIndex(ServerCandidates(srcs, regexUrls), r[i]) < FirstIndex(ServerCandidates(srcs, regexUrls), r[j])
  {
    Dedup(ServerCandidates(srcs, regexUrls))
  }

  /** Two filters that agree on every element give the same list. */
  lemma {:induction false} FilterAgree(s: seq<string>, p: string -> bool, q: string -> bool)
    requires forall x :: x in s ==> (p(x) <==> q(x))
    ensures Filter(s, p) == Filter(s, q)
  {
    if |s| > 0 {
      assert forall x :: x in s[1..] ==> x in s;
      FilterAgree(s[1..], p, q);
    }
  }

  /** On a page with no `ikigai` image sources and already absolute
      sources (`urljoin` leaves them alone), the worker and the server
      pick the same images in the same order. */
  lemma SameSelectionWithoutIkigai(srcs: seq<string>, regexUrls: seq<string>)
    requires forall i :: 0 <= i < |srcs| ==> !Contains(srcs[i], "ikigai")
    ensures WorkerImageUrls(srcs, x => x, regexUrls) == ServerImageUrls(srcs, regexUrls)
  {
    FilterAgree(srcs, WorkerKeeps, ServerKeeps);
    var kept := Filter(srcs, ServerKeeps);
    assert MapSeq(kept, x => x) == kept;
  }
}
