/** `clean_null_bytes`: a walk over the API's source tree that removes
    every 0x00 byte from the `.py` files, skipping `.git` and `venv`
    directories and leaving files without null bytes untouched.

    The tree is a value; a file whose read or write raises is named in a
    `broken` set of paths and keeps its content, as the `except` branch
    does. Progress messages are left out. */
module NullBytes {
  import opened Text
  import opened Ordering

  type Byte = b: int | 0 <= b < 256

  /** A path below the scanned directory, one name per level. */
  type Path = seq<string>

  datatype Node = File(content: seq<Byte>) | Dir(entries: seq<Entry>)
  datatype Entry = Entry(name: string, node: Node)

  /** `content.replace(b'\x00', b'')`. */
  function StripNulls(c: seq<Byte>): (r: seq<Byte>)
    ensures 0 !in r
    ensures IsSubsequence(r, c)
    ensures forall b :: b != 0 ==> multiset(r)[b] == multiset(c)[b]
    ensures |r| == |c| - multiset(c)[0]
    ensures 0 !in c ==> r == c
  {
    if |c| == 0 then []
    else
      var rest := StripNulls(c[1..]);
      assert c == [c[0]] + c[1..];
      if c[0] == 0 then
        assert IsSubsequence(rest, c) by { assert rest == rest && c[1..] == c[1..]; }
        rest
      else
        var r := [c[0]] + rest;
        assert r[1..] == rest;
        r
  }

  /** The walk prunes `.git` and `venv` from the directories it descends
      into. */
  predicate Pruned(dirName: string) {
    dirName == ".git" || dirName == "venv"
  }

  /** A file the walk reaches and examines: no directory on its way is
      pruned, and its own name ends with `.py`. */
  predicate Scanned(p: Path) {
    && |p| > 0
    && EndsWith(p[|p| - 1], ".py")
    && forall i :: 0 <= i < |p| - 1 ==> !Pruned(p[i])
  }

  /** Whether the walk rewrites the file at `p` with content `c`. */
  predicate Rewrites(p: Path, c: seq<Byte>, broken: set<Path>) {
    Scanned(p) && p !in broken && 0 in c
  }

  /** The tree after one run, for the directory at `path`. A file at the
      top is not a directory, so the walk sees nothing in it. */
  function Clean(n: Node, path: Path, broken: set<Path>): Node
    decreases n
  {
    match n
    case File(_) => n
    case Dir(es) => Dir(CleanEntries(es, path, broken))
  }

  function CleanEntries(es: seq<Entry>, path: Path, broken: set<Path>): (r: seq<Entry>)
    decreases Dir(es), 0
  {
    seq(|es|, i requires 0 <= i < |es| => assert es[i] in es; CleanEntry(es[i], path, broken))
  }

  /** One name of a directory after the run: a `.py` file is rewritten
      when it holds a null byte, a directory is descended into unless it
      is pruned. */
  function CleanEntry(e: Entry, path: Path, broken: set<Path>): (r: Entry)
    decreases e
  {
    var p := path + [e.name];
    Entry(e.name,
      match e.node
      case File(c) => if Rewrites(p, c, broken) then File(StripNulls(c)) else e.node
      case Dir(_) => if Pruned(e.name) then e.node else Clean(e.node, p, broken))
  }

  /** One file of the tree with its path. */
  datatype FileAt = FileAt(path: Path, content: seq<Byte>)

  /** Every file of the tree in walk order, paths starting at `path`. */
  function Files(n: Node, path: Path): (r: seq<FileAt>)
    decreases n
  {
    match n
    case File(_) => []
    case Dir(es) => EntryFiles(es, path)
  }

  function EntryFiles(es: seq<Entry>, path: Path): (r: seq<FileAt>)
    decreases es
  {
    if |es| == 0 then []
    else
      var e := es[0];
      assert e in es;
      var here := match e.node
        case File(c) => [FileAt(path + [e.name], c)]
        case Dir(_) => Files(e.node, path + [e.name]);
      here + EntryFiles(es[1..], path)
  }

  /** What one file becomes in a run. */
  function CleanFile(f: FileAt, broken: set<Path>): FileAt {
    if Rewrites(f.path, f.content, broken) then FileAt(f.path, StripNulls(f.content)) else f
  }

  /** Each file as a run leaves it, in walk order. */
  function CleanAll(fs: seq<FileAt>, broken: set<Path>): seq<FileAt> {
    seq(|fs|, i requires 0 <= i < |fs| => CleanFile(fs[i], broken))
  }

  lemma CleanAllAppend(a: seq<FileAt>, b: seq<FileAt>, broken: set<Path>)
    ensures CleanAll(a + b, broken) == CleanAll(a, broken) + CleanAll(b, broken)
  {
  }

  /** No directory on the way to `path` is pruned. */
  predicate NoPruned(path: Path) {
    forall i :: 0 <= i < |path| ==> !Pruned(path[i])
  }

  /** Every file listed below `path` lies strictly under it. */
  lemma {:induction false} FilesUnder(n: Node, path: Path)
    ensures forall f :: f in Files(n, path) ==> |f.path| > |path| && f.path[..|path|] == path
    decreases n
  {
    match n
    case File(_) =>
    case Dir(es) => EntryFilesUnder(es, path);
  }

  lemma {:induction false} EntryFilesUnder(es: seq<Entry>, path: Path)
    ensures forall f :: f in EntryFiles(es, path) ==> |f.path| > |path| && f.path[..|path|] == path
    decreases es
  {
    if |es| > 0 {
      var e := es[0];
      assert e in es;
      var p := path + [e.name];
      EntryFilesUnder(es[1..], path);
      match e.node
      case File(c) =>
        assert p[..|path|] == path;
      case Dir(_) =>
        FilesUnder(e.node, p);
        forall f | f in Files(e.node, p)
          ensures |f.path| > |path| && f.path[..|path|] == path
        {
          assert f.path[..|path|] == f.path[..|p|][..|path|];
        }
    }
  }

  /** Below a pruned directory the run changes no file. */
  lemma PrunedUnchanged(n: Node, path: Path, j: nat, broken: set<Path>)
    requires j < |path| && Pruned(path[j])
    ensures CleanAll(Files(n, path), broken) == Files(n, path)
  {
    var fs := Files(n, path);
    FilesUnder(n, path);
    forall i | 0 <= i < |fs|
      ensures CleanFile(fs[i], broken) == fs[i]
    {
      assert fs[i] in fs;
      assert fs[i].path[j] == fs[i].path[..|path|][j] == path[j];
    }
  }

  /** The run, seen file by file: the listing after it is the listing
      before it with each file cleaned on its own. */
  lemma {:induction false} CleanWalk(n: Node, path: Path, broken: set<Path>)
    requires NoPruned(path)
    ensures Files(Clean(n, path, broken), path) == CleanAll(Files(n, path), broken)
    decreases n
  {
    match n
    case File(_) =>
    case Dir(es) => CleanWalkEntries(es, path, broken);
  }

  lemma {:induction false} CleanWalkEntries(es: seq<Entry>, path: Path, broken: set<Path>)
    requires NoPruned(path)
    ensures EntryFiles(CleanEntries(es, path, broken), path) == CleanAll(EntryFiles(es, path), broken)
    decreases es
  {
    if |es| > 0 {
      var e := es[0];
      assert e in es;
      var p := path + [e.name];
      var ces := CleanEntries(es, path, broken);
      assert ces[0] == CleanEntry(e, path, broken);
      assert ces[1..] == CleanEntries(es[1..], path, broken);
      CleanWalkEntries(es[1..], path, broken);
      var here := match e.node
        case File(c) => [FileAt(p, c)]
        case Dir(_) => Files(e.node, p);
      assert EntryFiles(es, path) == here + EntryFiles(es[1..], path);
      CleanAllAppend(here, EntryFiles(es[1..], path), broken);
      match e.node
      case File(c) =>
      case Dir(_) =>
        if Pruned(e.name) {
          PrunedUnchanged(e.node, p, |path|, broken);
        } else {
          CleanWalk(e.node, p, broken);
        }
    }
  }

  /** One run over the scanned directory: the same files at the same
      places; a file's content changes exactly when the walk rewrites it,
      and then it loses its null bytes and nothing else. */
  lemma RunChangesOnlyNullFiles(n: Node, broken: set<Path>)
    ensures var before := Files(n, []);
            var after := Files(Clean(n, [], broken), []);
            && |after| == |before|
            && forall i :: 0 <= i < |before| ==>
                 && after[i].path == before[i].path
                 && (after[i].content != before[i].content <==> Rewrites(before[i].path, before[i].content, broken))
                 && (Rewrites(before[i].path, before[i].content, broken) ==> after[i].content == StripNulls(before[i].content))
  {
    CleanWalk(n, [], broken);
  }

  /** After a run every examined `.py` file is free of null bytes, so a
      second run rewrites nothing. */
  lemma SecondRunRewritesNothing(n: Node, broken: set<Path>)
    ensures forall f :: f in Files(Clean(n, [], broken), []) ==>
              !Rewrites(f.path, f.content, broken)
              && (Scanned(f.path) && f.path !in broken ==> 0 !in f.content)
  {
    CleanWalk(n, [], broken);
  }

  /** Running the cleaner twice leaves the same tree as running it once. */
  lemma {:induction false} CleanIdempotent(n: Node, path: Path, broken: set<Path>)
    ensures Clean(Clean(n, path, broken), path, broken) == Clean(n, path, broken)
    decreases n
  {
    match n
    case File(_) =>
    case Dir(es) =>
      var once := CleanEntries(es, path, broken);
      forall i | 0 <= i < |es|
        ensures CleanEntry(once[i], path, broken) == once[i]
      {
        assert es[i] in es;
        CleanEntryIdempotent(es[i], path, broken);
      }
      assert CleanEntries(once, path, broken) == once;
  }

  lemma {:induction false} CleanEntryIdempotent(e: Entry, path: Path, broken: set<Path>)
    ensures CleanEntry(CleanEntry(e, path, broken), path, broken) == CleanEntry(e, path, broken)
    decreases e
  {
    match e.node
    case File(c) =>
    case Dir(_) =>
      if !Pruned(e.name) {
        CleanIdempotent(e.node, path + [e.name], broken);
      }
  }
}
