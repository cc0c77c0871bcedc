/** `useMangaFilters`: the named list filters of the library view. An
    unknown filter name falls back to `all`. A callback that reads a
    property of `null` or `undefined` throws, and the whole call with it:
    the result is then None. */
module MangaFilters {
  import opened Wrappers
  import opened Text
  import opened Ordering
  import opened JsValues
  import opened MangaUI

  /** `String(i.demography || i.demografia || '').toLowerCase()`. */
  function FilterDem(i: JsVal): string {
    Lower(ToStr(Or(Prop(i, "demography"), Or(Prop(i, "demografia"), Str("")))))
  }

  predicate IsShonen(i: JsVal) {
    Contains(FilterDem(i), "shon") || Contains(FilterDem(i), "shounen")
  }

  predicate IsSeinen(i: JsVal) {
    Contains(FilterDem(i), "sein")
  }

  predicate IsEroticItem(i: JsVal) {
    IsErotic(i) == Some(true)
  }

  /** The filter names with a test of their own. */
  predicate Known(name: string) {
    name == "shonen" || name == "seinen" || name == "erotico"
  }

  /** Whether running the named filter's callback on `i` throws. */
  predicate Throws(name: string, i: JsVal) {
    if name == "erotico" then IsErotic(i).None? else Known(name) && Nullish(i)
  }

  /** `applyFilter(items, filterName)`. */
  function ApplyFilter(items: seq<JsVal>, name: string): (r: Option<seq<JsVal>>)
    ensures r.None? <==> Known(name) && exists k :: 0 <= k < |items| && Throws(name, items[k])
    ensures r.Some? ==> IsSubsequence(r.value, items)
    ensures !Known(name) ==> r == Some(items)
    ensures name == "erotico" && r.Some? ==>
              forall x :: x in r.value <==> x in items && IsErotic(x) == Some(true)
    ensures name == "shonen" && r.Some? ==>
              forall x :: x in r.value <==> x in items && (Contains(FilterDem(x), "shon") || Contains(FilterDem(x), "shounen"))
    ensures name == "seinen" && r.Some? ==>
              forall x :: x in r.value <==> x in items && Contains(FilterDem(x), "sein")
  {
    SubsequenceRefl(items);
    if !Known(name) then Some(items)
    else if exists k :: 0 <= k < |items| && Throws(name, items[k]) then None
    else if name == "shonen" then Some(Filter(items, IsShonen))
    else if name == "seinen" then Some(Filter(items, IsSeinen))
    else Some(Filter(items, IsEroticItem))
  }

  /** Filtering twice by the same test keeps the same items. */
  lemma {:induction false} FilterTwice(s: seq<JsVal>, keep: JsVal -> bool)
    ensures Filter(Filter(s, keep), keep) == Filter(s, keep)
  {
    if |s| > 0 {
      FilterTwice(s[1..], keep);
      if keep(s[0]) {
        assert Filter(s, keep) == [s[0]] + Filter(s[1..], keep);
        assert Filter(s, keep)[1..] == Filter(s[1..], keep);
      }
    }
  }

  /** Applying a filter to its own result changes nothing. */
  lemma ApplyFilterIdempotent(items: seq<JsVal>, name: string)
    requires ApplyFilter(items, name).Some?
    ensures ApplyFilter(ApplyFilter(items, name).value, name) == ApplyFilter(items, name)
  {
    var r := ApplyFilter(items, name).value;
    if Known(name) {
      assert forall x :: x in r ==> x in items;
      assert forall k :: 0 <= k < |r| ==> !Throws(name, r[k]) by {
        forall k | 0 <= k < |r| ensures !Throws(name, r[k]) {
          assert r[k] in r;
          var j :| 0 <= j < |items| && items[j] == r[k];
        }
      }
      if name == "shonen" {
        FilterTwice(items, IsShonen);
      } else if name == "seinen" {
        FilterTwice(items, IsSeinen);
      } else {
        FilterTwice(items, IsEroticItem);
      }
    }
  }
}
