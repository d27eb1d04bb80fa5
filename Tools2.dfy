/** The multi-video folder finder: a depth-limited walk reporting every folder that
    directly holds more than one video file. */
module Tools2 {
  import opened Wrappers
  import opened Strings
  import opened Paths
  import opened FileTree

  /** `CONFIG.maxDepth` */
  const MaxDepth: nat := 10

  /** One entry of `results.multipleVideoFolders`. */
  datatype Folder = Folder(path: string, videoCount: nat, videos: seq<string>)

  /** The `for` loop over a folder's entries: the names of its visible video files and
      its visible subdirectories, in entry order, or None when a `stat` throws. */
  function Sort(es: seq<Node>): Option<(seq<string>, seq<Node>)>
  {
    if es == [] then Some(([], [])) else SortAdd(Sort(es[..|es| - 1]), es[|es| - 1])
  }

  /** One more entry of the loop: hidden names and other kinds are skipped. */
  function SortAdd(p: Option<(seq<string>, seq<Node>)>, e: Node): Option<(seq<string>, seq<Node>)> {
    if p.None? then None
    else if Hidden(e.name) then p
    else
      match e
      case Unstatable(_) => None
      case Dir(_, _, _) => Some((p.value.0, p.value.1 + [e]))
      case File(n, _, _) => if IsVideoName(n) then Some((p.value.0 + [n], p.value.1)) else p
      case Special(_) => p
  }

  lemma SortStep(cs: seq<Node>, i: nat)
    requires i < |cs|
    ensures Sort(cs[..i + 1]) == SortAdd(Sort(cs[..i]), cs[i])
  {
    assert cs[..i + 1][..i] == cs[..i];
  }

  /** The number of nodes in a tree: the walks' termination measure. */
  function Size(d: Node): (n: nat)
    ensures n >= 1
    decreases d, 1
  {
    match d
    case Dir(_, _, cs) => 1 + SizeAll(cs)
    case _ => 1
  }

  function SizeAll(es: seq<Node>): nat
    decreases es, 0
  {
    if es == [] then 0 else SizeAll(es[..|es| - 1]) + Size(es[|es| - 1])
  }

  /** `scanVideoFolders(path, depth)` on `d`: the folders it reports, in the order a
      sequential run reports them. */
  function Found(path: string, d: Node, depth: nat): seq<Folder>
    decreases Size(d), 1
  {
    if depth > MaxDepth || BaseName(path) in ExcludedDirs then []
    else
      match d
      case Dir(_, readable, cs) =>
        if !readable then []
        else
          var sorted := Sort(cs);
          if sorted.None? then []
          else
            SortShrinks(cs);
            Report(path, sorted.value.0) + FoundIn(path, sorted.value.1, depth + 1)
      case _ => []
  }

  /** The folder's own report: present exactly when it holds more than one video. */
  function Report(path: string, videos: seq<string>): seq<Folder> {
    if |videos| > 1 then [Folder(path, |videos|, videos)] else []
  }

  /** The reports of the subdirectories `dirs` of the folder at `path`, one after the
      other. */
  function FoundIn(path: string, dirs: seq<Node>, depth: nat): seq<Folder>
    decreases SizeAll(dirs), 2
  {
    if dirs == [] then []
    else
      var last := dirs[|dirs| - 1];
      FoundIn(path, dirs[..|dirs| - 1], depth) + Found(JoinPath(path, last.name), last, depth)
  }

  /** One more subdirectory walked: its reports follow those of the earlier ones. */
  lemma FoundInStep(path: string, dirs: seq<Node>, k: nat, depth: nat)
    requires k < |dirs|
    ensures FoundIn(path, dirs[..k + 1], depth)
      == FoundIn(path, dirs[..k], depth) + Found(JoinPath(path, dirs[k].name), dirs[k], depth)
  {
    assert dirs[..k + 1][..k] == dirs[..k];
  }

  /** `Found` on a readable directory whose entries all `stat`. */
  lemma FoundUnfold(path: string, d: Node, depth: nat)
    requires depth <= MaxDepth && BaseName(path) !in ExcludedDirs
    requires d.Dir? && d.readable && Sort(d.children).Some?
    ensures Found(path, d, depth)
      == Report(path, Sort(d.children).value.0) + FoundIn(path, Sort(d.children).value.1, depth + 1)
  {
  }

  /** The subdirectories `Sort` collects hold no more nodes than the entries. */
  lemma {:induction false} SortShrinks(es: seq<Node>)
    ensures Sort(es).Some? ==> SizeAll(Sort(es).value.1) <= SizeAll(es)
    decreases |es|
  {
    if es != [] {
      var init := es[..|es| - 1];
      SortShrinks(init);
      if Sort(es).Some? && Sort(init).Some? {
        var dirs := Sort(init).value.1;
        var e := es[|es| - 1];
        if Sort(es).value.1 != dirs {
          assert Sort(es).value.1 == dirs + [e];
          assert (dirs + [e])[..|dirs|] == dirs;
        }
      }
    }
  }

  /** A subdirectory holds no more nodes than the list it is in. */
  lemma {:induction false} SizeAllElem(dirs: seq<Node>, k: nat)
    requires k < |dirs|
    ensures Size(dirs[k]) <= SizeAll(dirs)
    decreases |dirs|
  {
    if k < |dirs| - 1 {
      SizeAllElem(dirs[..|dirs| - 1], k);
    }
  }

  /** The subdirectories `Sort` collects are entries of the folder. */
  lemma {:induction false} SortKeepsEntries(es: seq<Node>)
    ensures Sort(es).Some? ==> forall x :: x in Sort(es).value.1 ==> x in es
    decreases |es|
  {
    if es != [] {
      SortKeepsEntries(es[..|es| - 1]);
    }
  }

  /** A `stat` failure among the entries read so far cannot be undone by later entries. */
  lemma {:induction false} SortFailureSticks(es: seq<Node>, more: seq<Node>)
    requires Sort(es).None?
    ensures Sort(es + more).None?
    decreases |more|
  {
    if more == [] {
      assert es + more == es;
    } else {
      var init := more[..|more| - 1];
      SortFailureSticks(es, init);
      assert (es + more)[..|es + more| - 1] == es + init;
    }
  }

  /** Reports appended one run after another. */
  lemma Regroup(a: seq<Folder>, b: seq<Folder>, c: seq<Folder>)
    ensures (a + b) + c == a + (b + c)
  {
  }

  /** The results object. */
  class Results {
    var multipleVideoFolders: seq<Folder>

    constructor ()
      ensures multipleVideoFolders == []
    {
      multipleVideoFolders := [];
    }

    /** `scanVideoFolders(dirPath, depth)`: sort the entries, report the folder, then
        walk the subdirectories (one after the other; the source starts them together,
        so only the multiset of reports is fixed there). */
    method ScanVideoFolders(path: string, d: Node, depth: nat)
      modifies this
      ensures multipleVideoFolders == old(multipleVideoFolders) + Found(path, d, depth)
      ensures multiset(multipleVideoFolders) == multiset(old(multipleVideoFolders)) + multiset(Found(path, d, depth))
      decreases Size(d), 1
    {
      if depth > MaxDepth {
        return;
      }
      if BaseName(path) in ExcludedDirs {
        return;
      }
      if !d.Dir? || !d.readable {
        return;
      }
      var cs := d.children;
      var sorted := SortEntries(cs);
      if sorted.None? {
        return;
      }
      var videoFiles := sorted.value.0;
      var directories := sorted.value.1;
      FoundUnfold(path, d, depth);
      SortShrinks(cs);
      if |videoFiles| > 1 {
        multipleVideoFolders := multipleVideoFolders + [Folder(path, |videoFiles|, videoFiles)];
      }
      assert multipleVideoFolders == old(multipleVideoFolders) + Report(path, videoFiles);
      Regroup(old(multipleVideoFolders), Report(path, videoFiles), FoundIn(path, directories, depth + 1));
      WalkSubfolders(path, directories, depth + 1);
    }

    /** The `Promise.all` over the subdirectories, run one after the other. */
    method WalkSubfolders(path: string, directories: seq<Node>, depth: nat)
      modifies this
      ensures multipleVideoFolders == old(multipleVideoFolders) + FoundIn(path, directories, depth)
      decreases SizeAll(directories), 2
    {
      var k := 0;
      assert directories[..0] == [];
      while k < |directories|
        invariant 0 <= k <= |directories|
        invariant multipleVideoFolders == old(multipleVideoFolders) + FoundIn(path, directories[..k], depth)
      {
        var dir := directories[k];
        FoundInStep(path, directories, k, depth);
        SizeAllElem(directories, k);
        Regroup(old(multipleVideoFolders), FoundIn(path, directories[..k], depth), Found(JoinPath(path, dir.name), dir, depth));
        ScanVideoFolders(JoinPath(path, dir.name), dir, depth);
        k := k + 1;
      }
      assert directories[..k] == directories;
    }
  }

  /** The `for` loop of `scanVideoFolders`: sorts the entries into video names and
      subdirectories, giving up (None) at the first visible entry whose `stat` throws. */
  method SortEntries(cs: seq<Node>) returns (sorted: Option<(seq<string>, seq<Node>)>)
    ensures sorted == Sort(cs)
  {
    var videoFiles: seq<string> := [];
    var directories: seq<Node> := [];
    var i := 0;
    while i < |cs|
      invariant 0 <= i <= |cs|
      invariant Sort(cs[..i]) == Some((videoFiles, directories))
    {
      var item := cs[i];
      SortStep(cs, i);
      if Hidden(item.name) {
        i := i + 1;
        continue;
      }
      match item {
        case Unstatable(_) =>
          assert Sort(cs[..i + 1]).None?;
          SortFailureSticks(cs[..i + 1], cs[i + 1..]);
          assert cs[..i + 1] + cs[i + 1..] == cs;
          return None;
        case Dir(_, _, _) =>
          directories := directories + [item];
        case File(n, _, _) =>
          if IsVideoName(n) {
            videoFiles := videoFiles + [n];
          }
        case Special(_) =>
      }
      i := i + 1;
    }
    assert cs[..i] == cs;
    return Some((videoFiles, directories));
  }

  // ---------------------------------------------------------------- properties

  /** A reported folder is consistent: more than one video, counted exactly, each a
      visible name with a video extension. */
  predicate GoodReport(f: Folder) {
    && f.videoCount > 1 && f.videoCount == |f.videos|
    && forall i :: 0 <= i < |f.videos| ==> IsVideoName(f.videos[i]) && !Hidden(f.videos[i])
  }

  /** The names `Sort` collects are visible video names. */
  lemma {:induction false} SortVideos(es: seq<Node>)
    requires Sort(es).Some?
    ensures forall i :: 0 <= i < |Sort(es).value.0| ==>
      IsVideoName(Sort(es).value.0[i]) && !Hidden(Sort(es).value.0[i])
    decreases |es|
  {
    if es != [] {
      SortVideos(es[..|es| - 1]);
      SortAddVideos(Sort(es[..|es| - 1]), es[|es| - 1]);
    }
  }

  lemma SortAddVideos(p: Option<(seq<string>, seq<Node>)>, e: Node)
    requires p.Some? && forall i :: 0 <= i < |p.value.0| ==> IsVideoName(p.value.0[i]) && !Hidden(p.value.0[i])
    requires SortAdd(p, e).Some?
    ensures var r := SortAdd(p, e).value.0;
      forall i :: 0 <= i < |r| ==> IsVideoName(r[i]) && !Hidden(r[i])
  {
  }

  /** Every report is consistent, belongs to a folder whose name is not excluded, and
      comes from a depth within the limit. */
  lemma {:induction false} ReportsAreGood(path: string, d: Node, depth: nat)
    requires WellNamed(d)
    ensures forall f :: f in Found(path, d, depth) ==> GoodReport(f) && BaseName(f.path) !in ExcludedDirs
    decreases Size(d), 1
  {
    if depth <= MaxDepth && BaseName(path) !in ExcludedDirs && d.Dir? && d.readable && Sort(d.children).Some? {
      ReportsOfReadDir(path, d, depth);
    } else {
      assert Found(path, d, depth) == [];
    }
  }

  /** The case of a directory that is walked: its own report, then its subfolders'. */
  lemma {:induction false} ReportsOfReadDir(path: string, d: Node, depth: nat)
    requires WellNamed(d)
    requires depth <= MaxDepth && BaseName(path) !in ExcludedDirs
    requires d.Dir? && d.readable && Sort(d.children).Some?
    ensures forall f :: f in Found(path, d, depth) ==> GoodReport(f) && BaseName(f.path) !in ExcludedDirs
    decreases Size(d), 0
  {
    var videos := Sort(d.children).value.0;
    var dirs := Sort(d.children).value.1;
    FoundUnfold(path, d, depth);
    SortShrinks(d.children);
    SortDirsWellNamed(d.children);
    ReportGood(path, d.children);
    ReportsInAreGood(path, dirs, depth + 1);
    forall f | f in Found(path, d, depth)
      ensures GoodReport(f) && BaseName(f.path) !in ExcludedDirs
    {
      if f !in Report(path, videos) {
        assert f in FoundIn(path, dirs, depth + 1);
      }
    }
  }

  /** The folder's own report is consistent. */
  lemma ReportGood(path: string, es: seq<Node>)
    requires Sort(es).Some? && BaseName(path) !in ExcludedDirs
    ensures forall f :: f in Report(path, Sort(es).value.0) ==> GoodReport(f) && BaseName(f.path) !in ExcludedDirs
  {
    var videos := Sort(es).value.0;
    SortVideos(es);
    if |videos| > 1 {
      assert GoodReport(Folder(path, |videos|, videos));
    }
  }

  lemma {:induction false} ReportsInAreGood(path: string, dirs: seq<Node>, depth: nat)
    requires forall i :: 0 <= i < |dirs| ==> WellNamed(dirs[i]) && ValidName(dirs[i].name)
    ensures forall f :: f in FoundIn(path, dirs, depth) ==> GoodReport(f) && BaseName(f.path) !in ExcludedDirs
    decreases SizeAll(dirs), 2
  {
    if dirs != [] {
      var last := dirs[|dirs| - 1];
      ReportsInAreGood(path, dirs[..|dirs| - 1], depth);
      ReportsAreGood(JoinPath(path, last.name), last, depth);
    }
  }

  /** The subdirectories `Sort` collects are well named when the entries are. */
  lemma SortDirsWellNamed(es: seq<Node>)
    requires AllWellNamed(es) && Sort(es).Some?
    ensures forall i :: 0 <= i < |Sort(es).value.1| ==>
      WellNamed(Sort(es).value.1[i]) && ValidName(Sort(es).value.1[i].name)
  {
    SortKeepsEntries(es);
    forall i | 0 <= i < |Sort(es).value.1|
      ensures WellNamed(Sort(es).value.1[i]) && ValidName(Sort(es).value.1[i].name)
    {
      WellNamedChild(es, Sort(es).value.1[i]);
    }
  }

  lemma {:induction false} WellNamedChild(es: seq<Node>, x: Node)
    requires AllWellNamed(es) && x in es
    ensures WellNamed(x) && ValidName(x.name)
    decreases |es|
  {
    if es[0] != x {
      WellNamedChild(es[1..], x);
    }
  }

  /** Nothing is read or reported past the depth limit. */
  lemma TooDeepReportsNothing(path: string, d: Node, depth: nat)
    requires depth > MaxDepth
    ensures Found(path, d, depth) == []
  {
  }

  /** A folder whose own name is excluded is skipped with everything under it; this
      holds for the starting folder too. */
  lemma ExcludedReportsNothing(path: string, d: Node, depth: nat)
    requires BaseName(path) in ExcludedDirs
    ensures Found(path, d, depth) == []
  {
  }

  /** One visible entry whose `stat` throws drops the folder's report and all of its
      subfolders. */
  lemma StatFailureDropsFolder(path: string, name: string, readable: bool, before: seq<Node>, n: string, after: seq<Node>, depth: nat)
    requires !Hidden(n)
    ensures Found(path, Dir(name, readable, before + [Unstatable(n)] + after), depth) == []
  {
    var es := before + [Unstatable(n)] + after;
    var upto := before + [Unstatable(n)];
    if Sort(before).Some? {
      assert upto[..|upto| - 1] == before;
    }
    assert Sort(upto).None?;
    SortFailureSticks(upto, after);
  }

  /** A folder's count covers its own files only: a video file added inside one of its
      subfolders changes no count of the folder itself. */
  lemma {:induction false} SortCountsOwnFilesOnly(es: seq<Node>, i: int, sub: Node)
    requires 0 <= i < |es| && es[i].Dir? && sub.Dir? && sub.name == es[i].name
    ensures Sort(es[i := sub]).Some? == Sort(es).Some?
    ensures Sort(es).Some? ==> Sort(es[i := sub]).value.0 == Sort(es).value.0
    decreases |es|
  {
    var init := es[..|es| - 1];
    if i < |es| - 1 {
      SortCountsOwnFilesOnly(init, i, sub);
      SortCountsEarlier(es, i, sub);
    } else {
      assert es[i := sub][..|es| - 1] == init;
      assert Sort(es[i := sub]) == SortAdd(Sort(init), sub);
    }
  }

  /** The replaced entry is not the last: the last entry is added to equal states. */
  lemma SortCountsEarlier(es: seq<Node>, i: int, sub: Node)
    requires 0 <= i < |es| - 1
    requires var init := es[..|es| - 1];
      && Sort(init[i := sub]).Some? == Sort(init).Some?
      && (Sort(init).Some? ==> Sort(init[i := sub]).value.0 == Sort(init).value.0)
    ensures Sort(es[i := sub]).Some? == Sort(es).Some?
    ensures Sort(es).Some? ==> Sort(es[i := sub]).value.0 == Sort(es).value.0
  {
    var es', init := es[i := sub], es[..|es| - 1];
    assert es'[..|es'| - 1] == init[i := sub];
    assert Sort(es') == SortAdd(Sort(init[i := sub]), es[|es| - 1]);
    SortAddSameVideos(Sort(init[i := sub]), Sort(init), es[|es| - 1]);
  }

  /** Two states with the same video names and success stay so after one more entry. */
  lemma SortAddSameVideos(p: Option<(seq<string>, seq<Node>)>, q: Option<(seq<string>, seq<Node>)>, e: Node)
    requires p.Some? == q.Some? && (p.Some? ==> p.value.0 == q.value.0)
    ensures SortAdd(p, e).Some? == SortAdd(q, e).Some?
    ensures SortAdd(p, e).Some? ==> SortAdd(p, e).value.0 == SortAdd(q, e).value.0
  {
  }
}
