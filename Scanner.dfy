/** The video scanner: a depth-first walk collecting the video files under a directory. */
module Scanner {
  import opened Wrappers
  import opened Strings
  import opened Paths
  import opened FileTree

  /** `scannerConfig.skipHiddenFiles` */
  const SkipHiddenFiles: bool := true

  /** One found file: its full path and its entry name. */
  datatype VideoFile = VideoFile(path: string, name: string)

  /** Whether the walk descends into a directory entry of this name. */
  predicate Descends(name: string) {
    name !in ExcludedDirs
  }

  /** The files `scanDirectory(path)` appends for the directory `d`; nothing when
      `d` is not a directory or cannot be read. The excluded-name test is made on
      entries, never on `d` itself. */
  function ScanDir(path: string, d: Node): seq<VideoFile>
    decreases d, 1
  {
    match d
    case Dir(_, readable, cs) => if readable then ScanEntries(path, cs) else []
    case _ => []
  }

  /** The files found from the entries `es` of the directory at `path` onwards;
      an entry whose `stat` throws ends the directory's loop. */
  function ScanEntries(path: string, es: seq<Node>): seq<VideoFile>
    decreases es, 0
  {
    if es == [] then []
    else
      var e := es[0];
      if SkipHiddenFiles && Hidden(e.name) then ScanEntries(path, es[1..])
      else if e.Unstatable? then []
      else EntryFinds(path, e) + ScanEntries(path, es[1..])
  }

  /** What one visible entry whose `stat` succeeds contributes. */
  function EntryFinds(path: string, e: Node): seq<VideoFile>
    decreases e, 2
  {
    match e
    case Dir(n, _, _) => if Descends(n) then ScanDir(JoinPath(path, n), e) else []
    case File(n, _, _) => if IsVideoName(n) then [VideoFile(JoinPath(path, n), n)] else []
    case _ => []
  }

  /** The entries from `i` on, one step unfolded. */
  lemma ScanEntriesAt(path: string, es: seq<Node>, i: int)
    requires 0 <= i < |es|
    ensures ScanEntries(path, es[i..]) ==
      if SkipHiddenFiles && Hidden(es[i].name) then ScanEntries(path, es[i + 1..])
      else if es[i].Unstatable? then []
      else EntryFinds(path, es[i]) + ScanEntries(path, es[i + 1..])
  {
    assert es[i..][0] == es[i];
    assert es[i..][1..] == es[i + 1..];
  }

  lemma AppendAssoc<T>(a: seq<T>, b: seq<T>, c: seq<T>)
    ensures a + (b + c) == (a + b) + c
  {
  }

  /** `scanDirectory(currentPath)`: appends to `acc` (the closure's `videoFiles`). */
  method ScanDirectory(path: string, d: Node, acc: seq<VideoFile>) returns (out: seq<VideoFile>)
    ensures out == acc + ScanDir(path, d)
    decreases d
  {
    out := acc;
    if !d.Dir? || !d.readable {
      return;
    }
    var es := d.children;
    assert es[0..] == es;
    var i := 0;
    while i < |es|
      invariant 0 <= i <= |es|
      invariant acc + ScanEntries(path, es) == out + ScanEntries(path, es[i..])
    {
      var e := es[i];
      ScanEntriesAt(path, es, i);
      if SkipHiddenFiles && Hidden(e.name) {
        i := i + 1;
        continue;
      }
      ghost var rest := ScanEntries(path, es[i + 1..]);
      ghost var before := out;
      match e {
        case Unstatable(_) =>
          assert out + [] == out;
          return;
        case Dir(n, _, _) =>
          if Descends(n) {
            out := ScanDirectory(JoinPath(path, n), e, out);
          }
        case File(n, _, _) =>
          if IsVideoName(n) {
            out := out + [VideoFile(JoinPath(path, n), n)];
          }
        case Special(_) =>
      }
      assert out == before + EntryFinds(path, e);
      AppendAssoc(before, EntryFinds(path, e), rest);
      i := i + 1;
    }
    assert es[i..] == [];
    assert out + [] == out;
  }

  /** `dirPath || scannerConfig.sourceDir`: an absent or empty path falls back. */
  function SearchPath(dirPath: Option<string>, sourceDir: string): (p: string)
    ensures dirPath.Some? && dirPath.value != "" ==> p == dirPath.value
    ensures dirPath.None? || dirPath.value == "" ==> p == sourceDir
  {
    if dirPath.Some? && dirPath.value != "" then dirPath.value else sourceDir
  }

  /** `getVideoFiles(dirPath)`; `fs` maps the paths that exist to what is there. */
  method GetVideoFiles(dirPath: Option<string>, sourceDir: string, fs: map<string, Node>)
    returns (videoFiles: seq<VideoFile>)
    ensures var p := SearchPath(dirPath, sourceDir);
      videoFiles == if p in fs then ScanDir(p, fs[p]) else []
  {
    var searchPath := SearchPath(dirPath, sourceDir);
    videoFiles := [];
    if searchPath in fs {
      videoFiles := ScanDirectory(searchPath, fs[searchPath], videoFiles);
    }
  }

  // ---------------------------------------------------------------- reference definition

  /** Every video file reachable from `d` through visible, non-excluded directories,
      failures ignored: what an undisturbed walk would find. */
  function Reachable(path: string, d: Node): set<VideoFile>
    decreases d, 1
  {
    match d
    case Dir(_, _, cs) => ReachableIn(path, cs)
    case _ => {}
  }

  function ReachableIn(path: string, es: seq<Node>): set<VideoFile>
    decreases es, 0
  {
    if es == [] then {} else ReachableEntry(path, es[0]) + ReachableIn(path, es[1..])
  }

  function ReachableEntry(path: string, e: Node): set<VideoFile>
    decreases e, 2
  {
    if Hidden(e.name) then {}
    else
      match e
      case Dir(n, _, _) => if Descends(n) then Reachable(JoinPath(path, n), e) else {}
      case File(n, _, _) => if IsVideoName(n) then {VideoFile(JoinPath(path, n), n)} else {}
      case _ => {}
  }

  /** Everything the walk returns is reachable. */
  lemma {:induction false} ScanSound(path: string, d: Node)
    ensures forall f :: f in ScanDir(path, d) ==> f in Reachable(path, d)
    decreases d, 1
  {
    if d.Dir? && d.readable {
      ScanEntriesSound(path, d.children);
    }
  }

  lemma {:induction false} ScanEntriesSound(path: string, es: seq<Node>)
    ensures forall f :: f in ScanEntries(path, es) ==> f in ReachableIn(path, es)
    decreases es, 0
  {
    if es != [] {
      var e := es[0];
      ScanEntriesSound(path, es[1..]);
      if !Hidden(e.name) && e.Dir? && Descends(e.name) {
        assert EntryFinds(path, e) == ScanDir(JoinPath(path, e.name), e);
        ScanSound(JoinPath(path, e.name), e);
      }
    }
  }

  /** When nothing fails, the walk returns every reachable file. */
  lemma {:induction false} ScanComplete(path: string, d: Node)
    requires Healthy(d)
    ensures forall f :: f in Reachable(path, d) ==> f in ScanDir(path, d)
    decreases d, 1
  {
    if d.Dir? {
      ScanEntriesComplete(path, d.children);
    }
  }

  lemma {:induction false} ScanEntriesComplete(path: string, es: seq<Node>)
    requires AllHealthy(es)
    ensures forall f :: f in ReachableIn(path, es) ==> f in ScanEntries(path, es)
    decreases es, 0
  {
    if es != [] {
      var e := es[0];
      ScanEntriesComplete(path, es[1..]);
      if !Hidden(e.name) && e.Dir? && Descends(e.name) {
        assert EntryFinds(path, e) == ScanDir(JoinPath(path, e.name), e);
        ScanComplete(JoinPath(path, e.name), e);
      }
    }
  }

  /** What every found file satisfies: a video extension, a visible name, and a name
      that is the last component of its path. */
  predicate GoodFind(f: VideoFile) {
    IsVideoName(f.name) && !Hidden(f.name) && BaseName(f.path) == f.name
  }

  lemma {:induction false} ReachableShape(path: string, d: Node)
    requires WellNamed(d)
    ensures forall f :: f in Reachable(path, d) ==> GoodFind(f)
    decreases d, 1
  {
    if d.Dir? {
      ReachableInShape(path, d.children);
    }
  }

  lemma {:induction false} ReachableInShape(path: string, es: seq<Node>)
    requires AllWellNamed(es)
    ensures forall f :: f in ReachableIn(path, es) ==> GoodFind(f)
    decreases es, 0
  {
    if es != [] {
      var e := es[0];
      ReachableInShape(path, es[1..]);
      if !Hidden(e.name) {
        if e.Dir? && Descends(e.name) {
          ReachableShape(JoinPath(path, e.name), e);
        } else if e.File? {
          BaseNameOfJoin(path, e.name);
        }
      }
    }
  }

  /** The returned files carry video extensions and visible names, and each name is
      the last component of its path. */
  lemma ScanResultShape(path: string, d: Node)
    requires WellNamed(d)
    ensures forall f :: f in ScanDir(path, d) ==> GoodFind(f)
  {
    ScanSound(path, d);
    ReachableShape(path, d);
  }

  /** A failing `stat` abandons the rest of its directory and nothing else: what the
      earlier entries gave is kept. */
  lemma {:induction false} StatFailureEndsDirectory(path: string, before: seq<Node>, n: string, after: seq<Node>)
    requires !Hidden(n)
    requires forall i :: 0 <= i < |before| ==> !before[i].Unstatable?
    ensures ScanEntries(path, before + [Unstatable(n)] + after) == ScanEntries(path, before)
    decreases |before|
  {
    if before == [] {
      assert before + [Unstatable(n)] + after == [Unstatable(n)] + after;
    } else {
      assert (before + [Unstatable(n)] + after)[1..] == before[1..] + [Unstatable(n)] + after;
      StatFailureEndsDirectory(path, before[1..], n, after);
    }
  }

  /** Entries are visited in order: the walk over two runs of entries (the first free of
      failures) is the walk over the first followed by the walk over the second. */
  lemma {:induction false} ScanEntriesAppend(path: string, a: seq<Node>, b: seq<Node>)
    requires forall i :: 0 <= i < |a| ==> !a[i].Unstatable?
    ensures ScanEntries(path, a + b) == ScanEntries(path, a) + ScanEntries(path, b)
    decreases |a|
  {
    if a == [] {
      assert a + b == b;
    } else {
      ScanEntriesAppend(path, a[1..], b);
      ScanEntriesAppendStep(path, a, b);
    }
  }

  lemma ScanEntriesAppendStep(path: string, a: seq<Node>, b: seq<Node>)
    requires a != [] && !a[0].Unstatable?
    requires ScanEntries(path, a[1..] + b) == ScanEntries(path, a[1..]) + ScanEntries(path, b)
    ensures ScanEntries(path, a + b) == ScanEntries(path, a) + ScanEntries(path, b)
  {
    assert (a + b)[0] == a[0];
    assert (a + b)[1..] == a[1..] + b;
    AppendAssoc(EntryFinds(path, a[0]), ScanEntries(path, a[1..]), ScanEntries(path, b));
  }
}
