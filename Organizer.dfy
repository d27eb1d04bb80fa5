/** The organizer: scrape a code, make its folder, write its NFO, save its covers. */
module Organizer {
  import opened Wrappers
  import opened Paths
  import Javdb
  import opened Nfo
  import opened Images

  /** The result object of `processVideo`. */
  datatype VideoResult =
    | Success(code: string, path: string)
    | Failure(code: string, error: string)

  /** What the outside world does while one code is processed: the scraper's answer
      (the result of `getVideoInfo`), an error from `mkdir` or from writing the NFO,
      and what happens while the covers are downloaded and written. */
  datatype Attempt = Attempt(
    scraped: Result<Javdb.Metadata>,
    mkdirError: Option<string>,
    writeError: Option<string>,
    coverIo: CoverIo)

  predicate WellFormedAttempt(a: Attempt) {
    WellFormedIo(a.coverIo)
  }

  /** Every stage of `processVideo` succeeds. */
  predicate Organized(a: Attempt)
    requires WellFormedAttempt(a)
  {
    && a.scraped.Ok? && a.mkdirError.None? && a.writeError.None?
    && CoversOutcome(a.scraped.value.coverUrl, a.coverIo).Ok?
  }

  /** `path.join(targetDir, metadata.code)` */
  function VideoDir(targetDir: string, m: Javdb.Metadata): string {
    JoinPath(targetDir, m.code)
  }

  /** `path.join(videoDir, `${metadata.code}.nfo`)` */
  function NfoPath(targetDir: string, m: Javdb.Metadata): string {
    JoinPath(VideoDir(targetDir, m), m.code + ".nfo")
  }

  /** The result `processVideo(code)` settles with. A failure carries the code it was
      called with, a success the scraped code and its folder. */
  function VideoOutcome(targetDir: string, code: string, a: Attempt): (r: VideoResult)
    requires WellFormedAttempt(a)
    ensures r.Failure? ==> r.code == code
    ensures r.Success? ==>
      (a.scraped.Ok? && r.code == a.scraped.value.code && r.path == JoinPath(targetDir, a.scraped.value.code))
    ensures r.Success? <==> Organized(a)
    ensures a.scraped.Err? ==> r == Failure(code, a.scraped.msg)
    ensures a.scraped.Ok? && a.mkdirError.Some? ==> r == Failure(code, a.mkdirError.value)
    ensures a.scraped.Ok? && a.mkdirError.None? && a.writeError.Some? ==> r == Failure(code, a.writeError.value)
  {
    if a.scraped.Err? then Failure(code, a.scraped.msg)
    else
      var m := a.scraped.value;
      if a.mkdirError.Some? then Failure(code, a.mkdirError.value)
      else if a.writeError.Some? then Failure(code, a.writeError.value)
      else
        var covers := CoversOutcome(m.coverUrl, a.coverIo);
        if covers.Err? then Failure(code, covers.msg)
        else Success(m.code, VideoDir(targetDir, m))
  }

  /** The files the organizer creates: directories, NFO texts and artwork. */
  datatype Disk = Disk(dirs: set<string>, nfoFiles: map<string, string>, coverFiles: map<string, Picture>)

  /** Nothing is ever removed: every directory and every file is still there. */
  predicate Grows(d: Disk, e: Disk) {
    && d.dirs <= e.dirs
    && d.nfoFiles.Keys <= e.nfoFiles.Keys
    && d.coverFiles.Keys <= e.coverFiles.Keys
  }

  /** The files after one `processVideo`: each stage writes only once the stages before
      it have succeeded, and nothing written is undone by a later failure. */
  function AfterVideo(targetDir: string, a: Attempt, d: Disk): (r: Disk)
    requires WellFormedAttempt(a)
    ensures Grows(d, r)
    ensures a.scraped.Err? || a.mkdirError.Some? ==> r == d
    ensures a.scraped.Ok? && a.mkdirError.None? ==> r.dirs == d.dirs + {VideoDir(targetDir, a.scraped.value)}
    ensures a.scraped.Ok? && a.writeError.Some? ==> r.nfoFiles == d.nfoFiles && r.coverFiles == d.coverFiles
    ensures Organized(a) ==>
      var m := a.scraped.value;
      var ext := CoverExtension(m.coverUrl).value;
      && NfoPath(targetDir, m) in r.nfoFiles && r.nfoFiles[NfoPath(targetDir, m)] == NfoContent(m)
      && FanartPath(VideoDir(targetDir, m), ext) in r.coverFiles
      && PosterPath(VideoDir(targetDir, m), ext) in r.coverFiles
  {
    if a.scraped.Err? || a.mkdirError.Some? then d
    else
      var m := a.scraped.value;
      var dir := VideoDir(targetDir, m);
      if a.writeError.Some? then d.(dirs := d.dirs + {dir})
      else
        Disk(
          d.dirs + {dir},
          d.nfoFiles[NfoPath(targetDir, m) := NfoContent(m)],
          CoverFilesAfter(d.coverFiles, m.coverUrl, dir, a.coverIo))
  }

  /** The files after `processVideos`: one `processVideo` after another, in order. */
  function AfterVideos(targetDir: string, attempts: seq<Attempt>, d: Disk): Disk
    requires forall i :: 0 <= i < |attempts| ==> WellFormedAttempt(attempts[i])
    decreases |attempts|
  {
    if attempts == [] then d
    else AfterVideo(targetDir, attempts[|attempts| - 1], AfterVideos(targetDir, attempts[..|attempts| - 1], d))
  }

  /** The files the organizer has written are kept in `dirs`, `nfoFiles` and, through
      `covers`, the artwork. */
  class Organizer {
    const targetDir: string
    const covers: CoverStore
    var dirs: set<string>
    var nfoFiles: map<string, string>

    constructor (targetDir: string, covers: CoverStore)
      ensures this.targetDir == targetDir && this.covers == covers
      ensures dirs == {} && nfoFiles == map[]
    {
      this.targetDir := targetDir;
      this.covers := covers;
      dirs := {};
      nfoFiles := map[];
    }

    function Files(): Disk
      reads this, covers
    {
      Disk(dirs, nfoFiles, covers.files)
    }

    /** `processVideo(videoCode)`: scrape, then `mkdir`, then the NFO, then the covers;
        a failing stage stops the later ones and nothing done before it is undone. */
    method ProcessVideo(code: string, a: Attempt) returns (r: VideoResult)
      requires WellFormedAttempt(a)
      modifies this, covers
      ensures r == VideoOutcome(targetDir, code, a)
      ensures Files() == AfterVideo(targetDir, a, old(Files()))
    {
      if a.scraped.Err? {
        return Failure(code, a.scraped.msg);
      }
      var metadata := a.scraped.value;
      var videoDir := VideoDir(targetDir, metadata);
      if a.mkdirError.Some? {
        return Failure(code, a.mkdirError.value);
      }
      dirs := dirs + {videoDir};
      var nfoPath := JoinPath(videoDir, metadata.code + ".nfo");
      if a.writeError.Some? {
        return Failure(code, a.writeError.value);
      }
      nfoFiles := nfoFiles[nfoPath := NfoContent(metadata)];
      var saved := covers.DownloadAndSaveCovers(metadata.coverUrl, videoDir, a.coverIo);
      if saved.Err? {
        return Failure(code, saved.msg);
      }
      return Success(metadata.code, videoDir);
    }

    /** `processVideos(videoCodes)`: one result per code, in order; a failure does not
        stop the codes after it. */
    method ProcessVideos(codes: seq<string>, attempts: seq<Attempt>) returns (results: seq<VideoResult>)
      requires |attempts| == |codes|
      requires forall i :: 0 <= i < |attempts| ==> WellFormedAttempt(attempts[i])
      modifies this, covers
      ensures |results| == |codes|
      ensures forall i :: 0 <= i < |codes| ==> results[i] == VideoOutcome(targetDir, codes[i], attempts[i])
      ensures Files() == AfterVideos(targetDir, attempts, old(Files()))
    {
      results := [];
      var i := 0;
      while i < |codes|
        invariant 0 <= i <= |codes|
        invariant |results| == i
        invariant forall j :: 0 <= j < i ==> results[j] == VideoOutcome(targetDir, codes[j], attempts[j])
        invariant Files() == AfterVideos(targetDir, attempts[..i], old(Files()))
      {
        var result := ProcessVideo(codes[i], attempts[i]);
        assert attempts[..i + 1][..i] == attempts[..i];
        results := results + [result];
        i := i + 1;
      }
      assert attempts[..i] == attempts;
    }
  }

  /** A batch's results name the codes in the order given: a failure names its own
      input code, a success the code the scraper returned for it. */
  lemma BatchCodes(targetDir: string, codes: seq<string>, attempts: seq<Attempt>, results: seq<VideoResult>, i: int)
    requires |attempts| == |codes| == |results| && 0 <= i < |codes|
    requires forall k :: 0 <= k < |attempts| ==> WellFormedAttempt(attempts[k])
    requires forall k :: 0 <= k < |codes| ==> results[k] == VideoOutcome(targetDir, codes[k], attempts[k])
    ensures results[i].Failure? ==> results[i].code == codes[i]
    ensures results[i].Success? ==> attempts[i].scraped.Ok? && results[i].code == attempts[i].scraped.value.code
  {
  }

  /** A batch removes nothing: every directory and file present before is present after. */
  lemma {:induction false} BatchGrows(targetDir: string, attempts: seq<Attempt>, d: Disk)
    requires forall i :: 0 <= i < |attempts| ==> WellFormedAttempt(attempts[i])
    ensures Grows(d, AfterVideos(targetDir, attempts, d))
    decreases |attempts|
  {
    if attempts != [] {
      BatchGrows(targetDir, attempts[..|attempts| - 1], d);
    }
  }

  /** After a batch, every code that was organized has its folder and its NFO file,
      and its fanart and poster, whatever happened to the codes after it. */
  lemma {:induction false} BatchKeepsOrganized(targetDir: string, attempts: seq<Attempt>, d: Disk, i: int)
    requires forall k :: 0 <= k < |attempts| ==> WellFormedAttempt(attempts[k])
    requires 0 <= i < |attempts| && Organized(attempts[i])
    ensures
      var m := attempts[i].scraped.value;
      var ext := CoverExtension(m.coverUrl).value;
      var e := AfterVideos(targetDir, attempts, d);
      && VideoDir(targetDir, m) in e.dirs
      && NfoPath(targetDir, m) in e.nfoFiles
      && FanartPath(VideoDir(targetDir, m), ext) in e.coverFiles
      && PosterPath(VideoDir(targetDir, m), ext) in e.coverFiles
    decreases |attempts|
  {
    var prefix := attempts[..|attempts| - 1];
    if i == |attempts| - 1 {
      assert attempts[|attempts| - 1] == attempts[i];
    } else {
      assert prefix[i] == attempts[i];
      BatchKeepsOrganized(targetDir, prefix, d, i);
      var e0 := AfterVideos(targetDir, prefix, d);
      assert Grows(e0, AfterVideo(targetDir, attempts[|attempts| - 1], e0));
    }
  }

  /** A code whose scrape or `mkdir` fails leaves no trace: the batch without it ends
      with the same files as the batch with it. */
  lemma {:induction false} FailedCodeLeavesNoTrace(targetDir: string, attempts: seq<Attempt>, d: Disk, i: int)
    requires forall k :: 0 <= k < |attempts| ==> WellFormedAttempt(attempts[k])
    requires 0 <= i < |attempts| && (attempts[i].scraped.Err? || attempts[i].mkdirError.Some?)
    ensures AfterVideos(targetDir, attempts[..i] + attempts[i + 1..], d) == AfterVideos(targetDir, attempts, d)
    decreases |attempts|
  {
    var n := |attempts| - 1;
    var prefix := attempts[..n];
    var without := attempts[..i] + attempts[i + 1..];
    if i == n {
      assert without == prefix;
    } else {
      assert prefix[i] == attempts[i];
      FailedCodeLeavesNoTrace(targetDir, prefix, d, i);
      assert without[..|without| - 1] == prefix[..i] + prefix[i + 1..];
      assert without[|without| - 1] == attempts[n];
    }
  }
}
