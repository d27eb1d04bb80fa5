/** Moving a file into a directory without clobbering what is there: the free target
    name, and the rename-or-copy decision. */
module FileUtils {
  import opened Wrappers
  import opened Strings
  import opened Paths

  // ---------------------------------------------------------------- options

  /** The options of `moveFile` once defaults are applied. */
  datatype MoveOptions = MoveOptions(useSafeDelete: bool, overwrite: bool)

  /** `const { useSafeDelete = true, overwrite = false } = options`: an absent option
      takes its default, a given one is kept. */
  function ResolveOptions(useSafeDelete: Option<bool>, overwrite: Option<bool>): (o: MoveOptions)
    ensures useSafeDelete.None? ==> o.useSafeDelete
    ensures overwrite.None? ==> !o.overwrite
    ensures useSafeDelete.Some? ==> o.useSafeDelete == useSafeDelete.value
    ensures overwrite.Some? ==> o.overwrite == overwrite.value
  {
    MoveOptions(
      if useSafeDelete.Some? then useSafeDelete.value else true,
      if overwrite.Some? then overwrite.value else false)
  }

  // ---------------------------------------------------------------- target name

  /** The `k`-th path the probing loop tries: `targetDir/fileName` first, then
      `targetDir/<name> (k)<ext>`. */
  function Probe(dir: string, fileName: string, k: nat): string {
    if k == 0 then JoinPath(dir, fileName)
    else
      var parts := ParseName(fileName);
      JoinPath(dir, Candidate(parts.0, parts.1, k))
  }

  /** The template string `${name} (${counter})${ext}`. */
  function Candidate(name: string, ext: string, k: nat): string {
    name + " (" + NatToString(k) + ")" + ext
  }

  /** The first `k` probes are all taken. */
  predicate AllTaken(dir: string, fileName: string, existing: set<string>, k: nat) {
    forall j :: 0 <= j < k ==> Probe(dir, fileName, j) in existing
  }

  /** `target` is probe `k`, it is free, and every earlier probe is taken. */
  predicate ChosenAt(dir: string, fileName: string, existing: set<string>, target: string, k: nat) {
    && target == Probe(dir, fileName, k)
    && target !in existing
    && AllTaken(dir, fileName, existing, k)
  }

  /** `target` is the path `moveFile` picks in `dir` for `fileName`. */
  ghost predicate Chosen(dir: string, fileName: string, existing: set<string>, overwrite: bool, target: string) {
    && (overwrite ==> target == JoinPath(dir, fileName))
    && (!overwrite ==> exists k: nat :: ChosenAt(dir, fileName, existing, target, k))
  }

  /** The paths of the first `n` probes. */
  function Probed(dir: string, fileName: string, n: nat): set<string> {
    if n == 0 then {} else Probed(dir, fileName, n - 1) + {Probe(dir, fileName, n - 1)}
  }

  /** The target path of `moveFile`: with `overwrite` the plain name; otherwise the
      first probe that is not an existing path. `fileName` is a base name. */
  method ChooseTarget(dir: string, fileName: string, existing: set<string>, overwrite: bool)
    returns (targetPath: string)
    requires '/' !in fileName
    ensures overwrite ==> targetPath == JoinPath(dir, fileName)
    ensures !overwrite ==> exists k: nat :: k <= |existing| && ChosenAt(dir, fileName, existing, targetPath, k)
  {
    targetPath := JoinPath(dir, fileName);
    if !overwrite {
      var parts := ParseName(fileName);
      var name, ext := parts.0, parts.1;
      var counter: nat := 1;
      ghost var seen: set<string> := {};
      while targetPath in existing
        invariant targetPath == Probe(dir, fileName, counter - 1)
        invariant seen == Probed(dir, fileName, counter - 1)
        invariant |seen| == counter - 1 && seen <= existing
        invariant AllTaken(dir, fileName, existing, counter - 1)
        decreases |existing| - |seen|
      {
        AllTakenStep(dir, fileName, existing, counter - 1);
        ProbedFresh(dir, fileName, counter - 1, counter - 1);
        SubsetCard(seen + {targetPath}, existing);
        seen := seen + {targetPath};
        targetPath := JoinPath(dir, Candidate(name, ext, counter));
        ProbeNext(dir, fileName, counter);
        counter := counter + 1;
      }
      SubsetCard(seen, existing);
      assert ChosenAt(dir, fileName, existing, targetPath, counter - 1);
    }
  }

  lemma AllTakenStep(dir: string, fileName: string, existing: set<string>, k: nat)
    requires AllTaken(dir, fileName, existing, k) && Probe(dir, fileName, k) in existing
    ensures AllTaken(dir, fileName, existing, k + 1)
  {
  }

  /** The probe after probe `k`, and the probes made so far once it is made. */
  lemma ProbeNext(dir: string, fileName: string, k: nat)
    requires k >= 1
    ensures Probe(dir, fileName, k) == JoinPath(dir, Candidate(ParseName(fileName).0, ParseName(fileName).1, k))
    ensures Probed(dir, fileName, k) == Probed(dir, fileName, k - 1) + {Probe(dir, fileName, k - 1)}
  {
  }

  /** A candidate name is the plain name grown by at least ` (k)`. */
  lemma CandidateLength(fileName: string, k: nat)
    ensures |Candidate(ParseName(fileName).0, ParseName(fileName).1, k)| >= |fileName| + 4
  {
    assert NatToString(k) != "";
  }

  /** Different counters give different candidate names. */
  lemma CandidateInjective(name: string, ext: string, j: nat, k: nat)
    requires Candidate(name, ext, j) == Candidate(name, ext, k)
    ensures j == k
  {
    var x := Candidate(name, ext, j);
    var sj, sk := NatToString(j), NatToString(k);
    assert |sj| == |sk|;
    assert sj == x[|name| + 2..|name| + 2 + |sj|];
    assert sk == x[|name| + 2..|name| + 2 + |sk|];
    NatToStringInjective(j, k);
  }

  /** A candidate is a plain name when the file name has no `/`. */
  lemma CandidatePlain(fileName: string, k: nat)
    requires '/' !in fileName
    ensures PlainName(Candidate(ParseName(fileName).0, ParseName(fileName).1, k))
  {
    var parts := ParseName(fileName);
    var c := Candidate(parts.0, parts.1, k);
    CandidateLength(fileName, k);
    assert '/' !in parts.0 by {
      forall i | 0 <= i < |parts.0| ensures parts.0[i] != '/' {
        assert parts.0[i] == fileName[i];
      }
    }
    assert '/' !in parts.1 by {
      forall i | 0 <= i < |parts.1| ensures parts.1[i] != '/' {
        assert parts.1[i] == fileName[|parts.0| + i];
      }
    }
    var d := NatToString(k);
    assert '/' !in d by {
      forall i | 0 <= i < |d| ensures d[i] != '/' {
        assert IsDigit(d[i]);
      }
    }
    assert c == parts.0 + " (" + d + ")" + parts.1;
  }

  /** Two different probes are two different paths. */
  lemma ProbeInjective(dir: string, fileName: string, j: nat, k: nat)
    requires j < k && '/' !in fileName
    ensures Probe(dir, fileName, j) != Probe(dir, fileName, k)
  {
    var parts := ParseName(fileName);
    var nk := Candidate(parts.0, parts.1, k);
    CandidateLength(fileName, k);
    CandidatePlain(fileName, k);
    JoinPlain(dir, nk);
    if j == 0 {
      if PlainName(fileName) {
        JoinPlain(dir, fileName);
        if Probe(dir, fileName, 0) == Probe(dir, fileName, k) {
          JoinPathInjective(dir, fileName, nk);
        }
      } else {
        JoinShort(dir, fileName);
      }
    } else {
      var nj := Candidate(parts.0, parts.1, j);
      CandidatePlain(fileName, j);
      if Probe(dir, fileName, j) == Probe(dir, fileName, k) {
        JoinPathInjective(dir, nj, nk);
        CandidateInjective(parts.0, parts.1, j, k);
      }
    }
  }

  /** A later probe is not among the earlier ones, and there are as many earlier probes
      as probes made. */
  lemma {:induction false} ProbedFresh(dir: string, fileName: string, n: nat, m: nat)
    requires n <= m && '/' !in fileName
    ensures Probe(dir, fileName, m) !in Probed(dir, fileName, n)
    ensures |Probed(dir, fileName, n)| == n
    decreases n
  {
    if n > 0 {
      ProbedFresh(dir, fileName, n - 1, m);
      ProbedFresh(dir, fileName, n - 1, n - 1);
      ProbeInjective(dir, fileName, n - 1, m);
      AddFresh(Probed(dir, fileName, n - 1), Probe(dir, fileName, n - 1), Probe(dir, fileName, m));
    }
  }

  /** Adding a new element grows a set by one and keeps out what it kept out. */
  lemma AddFresh(s: set<string>, x: string, y: string)
    requires x !in s && y !in s && x != y
    ensures |s + {x}| == |s| + 1 && y !in s + {x}
  {
  }

  lemma SubsetCard(a: set<string>, b: set<string>)
    requires a <= b
    ensures |a| <= |b|
  {
    assert b == a + (b - a);
  }

  /** The free target is unique: two least free probes are the same probe. */
  lemma ChosenUnique(dir: string, fileName: string, existing: set<string>, t1: string, k1: nat, t2: string, k2: nat)
    requires ChosenAt(dir, fileName, existing, t1, k1)
    requires ChosenAt(dir, fileName, existing, t2, k2)
    ensures k1 == k2 && t1 == t2
  {
  }

  /** A free plain name is used unchanged. */
  lemma FreeNameKept(dir: string, fileName: string, existing: set<string>, t: string, k: nat)
    requires JoinPath(dir, fileName) !in existing
    requires ChosenAt(dir, fileName, existing, t, k)
    ensures t == JoinPath(dir, fileName) && k == 0
  {
    ChosenUnique(dir, fileName, existing, t, k, JoinPath(dir, fileName), 0);
  }

  /** The probing loop stops within `|existing| + 1` probes: a run of taken probes is
      no longer than the set of existing paths. */
  lemma ProbesBounded(dir: string, fileName: string, existing: set<string>, k: nat)
    requires '/' !in fileName
    requires forall j :: 0 <= j < k ==> Probe(dir, fileName, j) in existing
    ensures k <= |existing|
  {
    ProbedFresh(dir, fileName, k, k);
    ProbedWithin(dir, fileName, existing, k);
    SubsetCard(Probed(dir, fileName, k), existing);
  }

  lemma {:induction false} ProbedWithin(dir: string, fileName: string, existing: set<string>, k: nat)
    requires forall j :: 0 <= j < k ==> Probe(dir, fileName, j) in existing
    ensures Probed(dir, fileName, k) <= existing
    decreases k
  {
    if k > 0 {
      ProbedWithin(dir, fileName, existing, k - 1);
    }
  }

  // ---------------------------------------------------------------- the move

  /** The outcome of `moveFile`. */
  datatype MoveResult = Moved(path: string) | Failed(error: string)

  /** What the operating system decides that the model cannot see: a `mkdir` error
      other than `EEXIST`, whether source and target directory share a device, and
      errors from the copy or rename and from the deletion that follows a copy. */
  datatype Outcomes = Outcomes(
    mkdirError: Option<string>,
    sameDevice: bool,
    transferError: Option<string>,
    deleteError: Option<string>)

  const MkdirFailed: string := "创建目标目录失败: "

  /** Node's message for `access` on a missing path. */
  function NoSuchFile(path: string): string {
    "ENOENT: no such file or directory, access '" + path + "'"
  }

  /** The file system seen by `moveFile`: regular files with their contents, the
      directories, and what was sent to the recycle bin. */
  class Disk {
    var files: map<string, string>
    var dirs: set<string>
    var trashed: seq<(string, string)>

    constructor (files: map<string, string>, dirs: set<string>)
      ensures this.files == files && this.dirs == dirs && trashed == []
    {
      this.files := files;
      this.dirs := dirs;
      trashed := [];
    }

    /** The paths `fileExists` (an `access` call) succeeds on. */
    function Existing(): set<string>
      reads this
    {
      files.Keys + dirs
    }

    /** `moveFile(sourcePath, targetDir, options)`. It never throws: every failure is
        a `Failed` result. */
    method MoveFile(sourcePath: string, targetDir: string, options: MoveOptions, os: Outcomes)
      returns (r: MoveResult)
      modifies this
      ensures sourcePath !in old(files) ==>
        r == Failed(NoSuchFile(sourcePath)) && unchanged(this)
      ensures sourcePath in old(files) && os.mkdirError.Some? ==>
        r == Failed(MkdirFailed + os.mkdirError.value) && unchanged(this)
      ensures r.Moved? <==>
        (sourcePath in old(files) && os.mkdirError.None? && os.transferError.None?
          && (os.sameDevice || os.deleteError.None?))
      ensures r.Moved? ==> (
        && dirs == old(dirs) + {targetDir}
        && (os.sameDevice ==> files == (old(files) - {sourcePath})[r.path := old(files)[sourcePath]])
        && (!os.sameDevice ==> files == old(files)[r.path := old(files)[sourcePath]] - {sourcePath})
        && (trashed == if !os.sameDevice && options.useSafeDelete
                       then old(trashed) + [(sourcePath, old(files)[sourcePath])]
                       else old(trashed)))
      ensures r.Moved? && options.overwrite ==> r.path == JoinPath(targetDir, BaseName(sourcePath))
      ensures r.Moved? && !options.overwrite ==>
        exists k: nat :: ChosenAt(targetDir, BaseName(sourcePath), old(Existing()) + {targetDir}, r.path, k)
      ensures sourcePath in old(files) && os.mkdirError.None? && r.Failed? ==>
        && dirs == old(dirs) + {targetDir} && trashed == old(trashed)
        && r.error == (if os.transferError.Some? then os.transferError.value else os.deleteError.value)
      ensures sourcePath in old(files) && os.mkdirError.None? && os.transferError.Some? ==> files == old(files)
      ensures sourcePath in old(files) && os.mkdirError.None? && r.Failed? && os.transferError.None? ==>
        exists t :: Chosen(targetDir, BaseName(sourcePath), old(Existing()) + {targetDir}, options.overwrite, t)
          && files == old(files)[t := old(files)[sourcePath]]
    {
      if sourcePath !in files {
        return Failed(NoSuchFile(sourcePath));
      }
      if os.mkdirError.Some? {
        return Failed(MkdirFailed + os.mkdirError.value);
      }
      r := MoveAfterMkdir(sourcePath, targetDir, options, os);
    }

    /** `moveFile` once the source exists and the target directory is made: pick the
        target name, then rename or copy. */
    method MoveAfterMkdir(sourcePath: string, targetDir: string, options: MoveOptions, os: Outcomes)
      returns (r: MoveResult)
      requires sourcePath in files
      modifies this
      ensures r.Moved? <==> os.transferError.None? && (os.sameDevice || os.deleteError.None?)
      ensures r.Moved? ==> (
        && dirs == old(dirs) + {targetDir}
        && (os.sameDevice ==> files == (old(files) - {sourcePath})[r.path := old(files)[sourcePath]])
        && (!os.sameDevice ==> files == old(files)[r.path := old(files)[sourcePath]] - {sourcePath})
        && (trashed == if !os.sameDevice && options.useSafeDelete
                       then old(trashed) + [(sourcePath, old(files)[sourcePath])]
                       else old(trashed)))
      ensures r.Moved? && options.overwrite ==> r.path == JoinPath(targetDir, BaseName(sourcePath))
      ensures r.Moved? && !options.overwrite ==>
        exists k: nat :: ChosenAt(targetDir, BaseName(sourcePath), old(Existing()) + {targetDir}, r.path, k)
      ensures r.Failed? ==>
        && dirs == old(dirs) + {targetDir} && trashed == old(trashed)
        && r.error == (if os.transferError.Some? then os.transferError.value else os.deleteError.value)
      ensures os.transferError.Some? ==> files == old(files)
      ensures r.Failed? && os.transferError.None? ==>
        exists t :: Chosen(targetDir, BaseName(sourcePath), old(Existing()) + {targetDir}, options.overwrite, t)
          && files == old(files)[t := old(files)[sourcePath]]
    {
      dirs := dirs + {targetDir};
      assert Existing() == old(Existing()) + {targetDir};
      var fileName := BaseName(sourcePath);
      var targetPath := ChooseTarget(targetDir, fileName, Existing(), options.overwrite);
      r := Transfer(sourcePath, targetPath, options.useSafeDelete, os);
      assert Chosen(targetDir, fileName, old(Existing()) + {targetDir}, options.overwrite, targetPath);
    }

    /** The closing lines of `moveFile`: a rename on one device, otherwise a copy followed
        by `trash` or `unlink` of the source. */
    method Transfer(sourcePath: string, targetPath: string, useSafeDelete: bool, os: Outcomes)
      returns (r: MoveResult)
      requires sourcePath in files
      modifies this
      ensures dirs == old(dirs)
      ensures r.Moved? <==> os.transferError.None? && (os.sameDevice || os.deleteError.None?)
      ensures r.Moved? ==> r.path == targetPath
      ensures os.transferError.Some? ==> r == Failed(os.transferError.value) && unchanged(this)
      ensures !os.sameDevice && os.transferError.None? && os.deleteError.Some? ==>
        r == Failed(os.deleteError.value) && trashed == old(trashed)
        && files == old(files)[targetPath := old(files)[sourcePath]]
      ensures r.Moved? && os.sameDevice ==>
        files == (old(files) - {sourcePath})[targetPath := old(files)[sourcePath]] && trashed == old(trashed)
      ensures r.Moved? && !os.sameDevice ==>
        files == old(files)[targetPath := old(files)[sourcePath]] - {sourcePath}
        && trashed == (if useSafeDelete then old(trashed) + [(sourcePath, old(files)[sourcePath])] else old(trashed))
    {
      var content := files[sourcePath];
      if !os.sameDevice {
        if os.transferError.Some? {
          return Failed(os.transferError.value);
        }
        files := files[targetPath := content];
        if os.deleteError.Some? {
          return Failed(os.deleteError.value);
        }
        if useSafeDelete {
          trashed := trashed + [(sourcePath, content)];
        }
        files := files - {sourcePath};
      } else {
        if os.transferError.Some? {
          return Failed(os.transferError.value);
        }
        files := (files - {sourcePath})[targetPath := content];
      }
      return Moved(targetPath);
    }
  }
}
