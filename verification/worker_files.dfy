/** The scraper's file steps: `renumber_images`, which renames a chapter
    folder's images to `001.webp`, `002.webp`, … in sorted order through a
    pass of temporary names, and `append_to_update_list`, which adds a URL
    line to the generated update list.

    A folder is a map from file name to its content; the file system calls
    become map updates, and a rename of a missing file is the `OSError`
    that ends the run. */
module WorkerFiles {
  import opened Wrappers
  import opened Text
  import opened Ordering
  import opened Worker

  // ----- renumber_images -----

  /** A folder: file name to content. */
  type Folder = map<string, int>

  /** `f.lower().endswith(('.webp', '.jpg', '.jpeg', '.png'))`. */
  predicate IsImageName(f: string) {
    var l := Lower(f);
    EndsWith(l, ".webp") || EndsWith(l, ".jpg") || EndsWith(l, ".jpeg") || EndsWith(l, ".png")
  }

  /** `f"temp_{i:06d}.tmp"`. */
  function TempName(i: nat): string {
    "temp_" + ZeroPad(i, 6) + ".tmp"
  }

  /** `os.rename(a, b)`: None when `a` is missing; an existing `b` is
      replaced. */
  function Rename(d: Folder, a: string, b: string): (r: Option<Folder>)
    ensures r.None? <==> a !in d
  {
    if a !in d then None else Some((d - {a})[b := d[a]])
  }

  /** The renames `from[i] -> to[i]`, in order; None at the first failure. */
  function RenameAll(d: Folder, from: seq<string>, to: seq<string>): Option<Folder>
    requires |from| == |to|
    decreases |from|
  {
    if |from| == 0 then Some(d)
    else match Rename(d, from[0], to[0])
      case None => None
      case Some(d1) => RenameAll(d1, from[1..], to[1..])
  }

  /** Renaming distinct present files to distinct fresh names moves each
      content to its new name, removes the old names and leaves every
      other file as it was. */
  lemma {:induction false} RenameAllMoves(d: Folder, from: seq<string>, to: seq<string>)
    requires |from| == |to|
    requires Distinct(from) && Distinct(to)
    requires forall i, j :: 0 <= i < |from| && 0 <= j < |to| ==> from[i] != to[j]
    requires forall i :: 0 <= i < |from| ==> from[i] in d
    ensures RenameAll(d, from, to).Some?
    ensures var r := RenameAll(d, from, to).value;
            && (forall i :: 0 <= i < |to| ==> to[i] in r && r[to[i]] == d[from[i]])
            && (forall i :: 0 <= i < |from| ==> from[i] !in r)
            && (forall k :: k !in from && k !in to ==> (k in r <==> k in d) && (k in d ==> r[k] == d[k]))
    decreases |from|
  {
    if |from| > 0 {
      var d1 := (d - {from[0]})[to[0] := d[from[0]]];
      assert Rename(d, from[0], to[0]) == Some(d1);
      assert forall i :: 0 <= i < |from[1..]| ==> from[1..][i] == from[i + 1];
      assert forall i :: 0 <= i < |to[1..]| ==> to[1..][i] == to[i + 1];
      forall i | 0 <= i < |from[1..]| ensures from[1..][i] in d1 {
        assert from[i + 1] != from[0] && from[i + 1] != to[0];
      }
      RenameAllMoves(d1, from[1..], to[1..]);
      var r := RenameAll(d1, from[1..], to[1..]).value;
      assert to[0] !in from[1..] && to[0] !in to[1..];
      assert from[0] !in from[1..] && from[0] !in to[1..];
      forall i | 0 <= i < |to| ensures to[i] in r && r[to[i]] == d[from[i]] {
        if i > 0 {
          assert d1[from[i]] == d[from[i]];
        }
      }
    }
  }

  /** The images of a listing, sorted (`files.sort()`). */
  function ImageFiles(listing: seq<string>): (files: seq<string>)
    ensures Distinct(files)
    ensures forall f :: f in files <==> f in listing && IsImageName(f)
  {
    var files := SortedSet(Filter(listing, IsImageName));
    assert Distinct(files) by {
      forall i, j | 0 <= i < j < |files| ensures files[i] != files[j] {
        assert LexLt(files[i], files[j]);
      }
    }
    files
  }

  function TempNames(n: nat): (r: seq<string>)
    ensures |r| == n && forall i :: 0 <= i < n ==> r[i] == TempName(i)
  {
    seq(n, i requires 0 <= i < n => TempName(i))
  }

  /** `001.webp` up to the n-th page. */
  function FinalNames(n: nat): (r: seq<string>)
    ensures |r| == n && forall i :: 0 <= i < n ==> r[i] == PageName(i + 1)
  {
    seq(n, i requires 0 <= i < n => PageName(i + 1))
  }

  /** `renumber_images` on a folder whose listing is `listing`: None where
      a rename fails. */
  function Renumber(d: Folder, listing: seq<string>): (r: Option<Folder>)
    requires forall k :: k in listing <==> k in d
  {
    var files := ImageFiles(listing);
    if files == [] then Some(d)
    else
      match RenameAll(d, files, TempNames(|files|))
      case None => None
      case Some(mid) => RenameAll(mid, TempNames(|files|), FinalNames(|files|))
  }

  /** The last two characters before the end tell the name kinds apart. */
  lemma TempNotImage(i: nat)
    ensures !IsImageName(TempName(i))
    ensures var t := TempName(i); |t| >= 2 && t[|t| - 2] == 'm'
  {
    var t := TempName(i);
    var l := Lower(t);
    assert t[|t| - 4..] == ".tmp";
    assert l[|l| - 1] == 'p' && l[|l| - 2] == 'm' && l[|l| - 3] == 't' && l[|l| - 4] == '.';
  }

  lemma PageNameShape(n: nat)
    ensures IsImageName(PageName(n))
    ensures var p := PageName(n); |p| >= 2 && p[|p| - 2] == 'b'
  {
    var p := PageName(n);
    var z := ZeroPad(n, 3);
    assert p[|p| - 5..] == ".webp";
    assert forall i :: 0 <= i < |z| ==> IsDigit(z[i]);
    assert Lower(p) == p by {
      forall i | 0 <= i < |p| ensures Lower(p)[i] == p[i] {
        if i < |z| {
          assert p[i] == z[i];
        }
      }
    }
  }

  lemma TempNamesDistinct(i: nat, j: nat)
    requires i != j
    ensures TempName(i) != TempName(j)
  {
    var a := ZeroPad(i, 6);
    var b := ZeroPad(j, 6);
    if TempName(i) == TempName(j) {
      assert |a| == |b|;
      assert TempName(i)[5..5 + |a|] == a;
      assert TempName(j)[5..5 + |b|] == b;
      ZeroPadInjective(i, j, 6);
    }
  }

  lemma PageNamesDistinctAt(i: nat, j: nat)
    requires i != j
    ensures PageName(i) != PageName(j)
  {
    var a := ZeroPad(i, 3);
    var b := ZeroPad(j, 3);
    if PageName(i) == PageName(j) {
      assert |a| == |b|;
      assert PageName(i)[..|a|] == a;
      assert PageName(j)[..|b|] == b;
      ZeroPadInjective(i, j, 3);
    }
  }

  lemma NamesDistinct(n: nat)
    ensures Distinct(TempNames(n)) && Distinct(FinalNames(n))
  {
    forall i, j | 0 <= i < j < n ensures TempNames(n)[i] != TempNames(n)[j] {
      TempNamesDistinct(i, j);
    }
    forall i, j | 0 <= i < j < n ensures FinalNames(n)[i] != FinalNames(n)[j] {
      PageNamesDistinctAt(i + 1, j + 1);
    }
  }

  lemma TempNamesKind(n: nat)
    ensures forall i :: 0 <= i < n ==> !IsImageName(TempNames(n)[i]) && EndsWith(TempNames(n)[i], ".tmp")
  {
    forall i | 0 <= i < n ensures !IsImageName(TempNames(n)[i]) && EndsWith(TempNames(n)[i], ".tmp") {
      TempNotImage(i);
      EndsWithAppend("temp_" + ZeroPad(i, 6), ".tmp");
    }
  }

  lemma FinalNamesKind(n: nat)
    ensures forall i :: 0 <= i < n ==> IsImageName(FinalNames(n)[i])
  {
    forall i | 0 <= i < n ensures IsImageName(FinalNames(n)[i]) {
      PageNameShape(i + 1);
    }
  }

  lemma TempFinalApart(n: nat)
    ensures forall i, j :: 0 <= i < n && 0 <= j < n ==> TempNames(n)[i] != FinalNames(n)[j]
  {
    forall i, j | 0 <= i < n && 0 <= j < n ensures TempNames(n)[i] != FinalNames(n)[j] {
      TempNotImage(i);
      PageNameShape(j + 1);
    }
  }

  /** Two rename passes through names used by neither end move each file
      to its final name and leave every unrelated file alone. */
  lemma TwoPassMoves(d: Folder, files: seq<string>, temps: seq<string>, finals: seq<string>)
    requires |files| == |temps| == |finals|
    requires Distinct(files) && Distinct(temps) && Distinct(finals)
    requires forall i, j :: 0 <= i < |files| && 0 <= j < |temps| ==> files[i] != temps[j]
    requires forall i, j :: 0 <= i < |temps| && 0 <= j < |finals| ==> temps[i] != finals[j]
    requires forall i :: 0 <= i < |files| ==> files[i] in d
    ensures RenameAll(d, files, temps).Some?
    ensures RenameAll(RenameAll(d, files, temps).value, temps, finals).Some?
    ensures var r := RenameAll(RenameAll(d, files, temps).value, temps, finals).value;
            && (forall i :: 0 <= i < |finals| ==> finals[i] in r && r[finals[i]] == d[files[i]])
            && (forall k :: k in r ==> k in finals || (k in d && k !in files && k !in temps))
            && (forall k :: k in d && k !in files && k !in temps && k !in finals ==> k in r && r[k] == d[k])
  {
    RenameAllMoves(d, files, temps);
    var mid := RenameAll(d, files, temps).value;
    RenameAllMoves(mid, temps, finals);
  }

  /** Renumbering in terms of the two rename passes. */
  lemma RenumberPasses(d: Folder, listing: seq<string>)
    requires forall k :: k in listing <==> k in d
    requires ImageFiles(listing) != []
    ensures var files := ImageFiles(listing);
            var n := |files|;
            && RenameAll(d, files, TempNames(n)).Some?
            && RenameAll(RenameAll(d, files, TempNames(n)).value, TempNames(n), FinalNames(n)).Some?
            && Renumber(d, listing) == RenameAll(RenameAll(d, files, TempNames(n)).value, TempNames(n), FinalNames(n))
            && var r := Renumber(d, listing).value;
               && (forall i :: 0 <= i < n ==> FinalNames(n)[i] in r && r[FinalNames(n)[i]] == d[files[i]])
               && (forall k :: k in r ==> k in FinalNames(n) || (k in d && k !in files && k !in TempNames(n)))
               && (forall k :: k in d && k !in files && k !in TempNames(n) && k !in FinalNames(n) ==> k in r && r[k] == d[k])
               && (forall k :: k in r && IsImageName(k) ==> k in FinalNames(n))
  {
    var files := ImageFiles(listing);
    var n := |files|;
    NamesDistinct(n);
    TempNamesKind(n);
    TempFinalApart(n);
    assert forall i, j :: 0 <= i < n && 0 <= j < n ==> files[i] != TempNames(n)[j] by {
      forall i, j | 0 <= i < n && 0 <= j < n ensures files[i] != TempNames(n)[j] {
        assert files[i] in files;
      }
    }
    assert forall i :: 0 <= i < n ==> files[i] in d by {
      forall i | 0 <= i < n ensures files[i] in d {
        assert files[i] in files;
      }
    }
    TwoPassMoves(d, files, TempNames(n), FinalNames(n));
    var r := RenameAll(RenameAll(d, files, TempNames(n)).value, TempNames(n), FinalNames(n)).value;
    forall k | k in r && IsImageName(k) ensures k in FinalNames(n) {
      assert k in FinalNames(n) || (k in d && k !in files);
      assert k in d ==> k in listing;
    }
  }

  /** A `temp_000000.tmp` left behind by an interrupted run is overwritten
      by the first rename of the first pass: its content is gone afterwards
      unless it was itself among the renamed files' contents. */
  lemma LeftoverTempReplaced(d: Folder, listing: seq<string>)
    requires forall k :: k in listing <==> k in d
    requires ImageFiles(listing) != [] && TempName(0) in d
    ensures Renumber(d, listing).Some?
    ensures TempName(0) !in Renumber(d, listing).value
  {
    var n := |ImageFiles(listing)|;
    RenumberPasses(d, listing);
    assert TempNames(n)[0] == TempName(0);
    TempNotImage(0);
    var r := Renumber(d, listing).value;
    if TempName(0) in r {
      assert TempName(0) in FinalNames(n);
      FinalNamesKind(n);
    }
  }

  /** `renumber_images` never fails on a folder it has listed: the i-th
      image in sorted order ends up as `PageName(i + 1)` with its content,
      and every image the folder holds afterwards has such a name. */
  lemma RenumberSpec(d: Folder, listing: seq<string>)
    requires forall k :: k in listing <==> k in d
    ensures Renumber(d, listing).Some?
    ensures var files := ImageFiles(listing);
            var r := Renumber(d, listing).value;
            && (forall i :: 0 <= i < |files| ==> FinalNames(|files|)[i] in r && r[FinalNames(|files|)[i]] == d[files[i]])
            && (forall k :: k in r && IsImageName(k) ==> k in FinalNames(|files|))
  {
    if ImageFiles(listing) != [] {
      RenumberPasses(d, listing);
    } else {
      RenumberNoImages(d, listing);
    }
  }

  /** A folder without images is left as it is. */
  lemma RenumberNoImages(d: Folder, listing: seq<string>)
    requires forall k :: k in listing <==> k in d
    requires ImageFiles(listing) == []
    ensures Renumber(d, listing) == Some(d)
    ensures forall k :: k in d ==> !IsImageName(k)
  {
    forall k | k in d ensures !IsImageName(k) {
      assert k in listing;
      assert IsImageName(k) ==> k in ImageFiles(listing);
    }
  }

  /** Files that are neither images nor `.tmp` files are untouched. */
  lemma RenumberKeepsOthers(d: Folder, listing: seq<string>, k: string)
    requires forall k :: k in listing <==> k in d
    requires k in d && !IsImageName(k) && !EndsWith(k, ".tmp")
    ensures Renumber(d, listing).Some?
    ensures k in Renumber(d, listing).value && Renumber(d, listing).value[k] == d[k]
  {
    var files := ImageFiles(listing);
    if files != [] {
      var n := |files|;
      RenumberPasses(d, listing);
      TempNamesKind(n);
      FinalNamesKind(n);
      assert k !in files;
      assert k !in TempNames(n);
      assert k !in FinalNames(n);
    }
  }

  // ----- append_to_update_list -----

  /** The line the URL is written as. */
  function EntryLine(url: string): string {
    "        \"" + url + "\",\n"
  }

  /** The file an empty or missing list starts from. */
  const Skeleton: seq<string> := ["def link_series_update():\n", "    return [\n", "    ]\n"]

  /** Index of the last line holding `]`. */
  function LastClosing(lines: seq<string>): (r: Option<nat>)
    ensures r.None? <==> forall i :: 0 <= i < |lines| ==> ']' !in lines[i]
    ensures r.Some? ==> r.value < |lines| && ']' in lines[r.value]
    ensures r.Some? ==> forall i :: r.value < i < |lines| ==> ']' !in lines[i]
  {
    if |lines| == 0 then None
    else if ']' in lines[|lines| - 1] then Some(|lines| - 1)
    else LastClosing(lines[..|lines| - 1])
  }

  /** `append_to_update_list`: `existing` is the file's lines, None when
      the file does not exist. */
  function AppendToUpdateList(existing: Option<seq<string>>, url: string): (r: seq<string>)
    ensures var lines := if existing.None? || existing.value == [] then Skeleton else existing.value;
            && |r| == |lines| + 1
            && exists k :: 0 <= k <= |lines|
                 && r == lines[..k] + [EntryLine(url)] + lines[k..]
                 && (LastClosing(lines).Some? ==> k == LastClosing(lines).value)
                 && (LastClosing(lines).None? ==> k == |lines|)
  {
    var lines := if existing.None? || existing.value == [] then Skeleton else existing.value;
    match LastClosing(lines)
    case Some(k) => lines[..k] + [EntryLine(url)] + lines[k..]
    case None =>
      assert lines == lines[..|lines|] && lines[|lines|..] == [];
      lines + [EntryLine(url)]
  }

  /** Taking the new line out gives the old file back. */
  lemma AppendRemovable(existing: seq<string>, url: string)
    requires existing != []
    ensures exists k :: 0 <= k < |existing| + 1
              && var r := AppendToUpdateList(Some(existing), url);
                 r[k] == EntryLine(url) && r[..k] + r[k + 1..] == existing
  {
    var r := AppendToUpdateList(Some(existing), url);
    var k :| 0 <= k <= |existing| && r == existing[..k] + [EntryLine(url)] + existing[k..];
    assert r[k] == EntryLine(url);
    assert r[..k] == existing[..k];
    assert r[k + 1..] == existing[k..];
  }

  /** A new file gets the skeleton with the entry inside the list, and a
      second URL lands after the first, still inside the list. */
  lemma AppendTwiceFromEmpty(u1: string, u2: string)
    ensures AppendToUpdateList(None, u1) == [Skeleton[0], Skeleton[1], EntryLine(u1), Skeleton[2]]
    ensures AppendToUpdateList(Some(AppendToUpdateList(None, u1)), u2)
         == [Skeleton[0], Skeleton[1], EntryLine(u1), EntryLine(u2), Skeleton[2]]
  {
    assert ']' in Skeleton[2] by {
      assert Skeleton[2][4] == ']';
    }
    assert LastClosing(Skeleton) == Some(2);
    var once := [Skeleton[0], Skeleton[1], EntryLine(u1), Skeleton[2]];
    assert LastClosing(once) == Some(3);
  }
}
