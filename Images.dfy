/** Cover artwork: the right-half crop that makes the poster, and the files written. */
module Images {
  import opened Wrappers
  import opened Strings
  import opened Paths

  // ---------------------------------------------------------------- crop geometry

  /** A decoded picture: `height` rows of `width` pixels each. */
  datatype Picture = Picture(width: nat, height: nat, rows: seq<seq<int>>)

  predicate WellFormed(p: Picture) {
    |p.rows| == p.height && forall i :: 0 <= i < |p.rows| ==> |p.rows[i]| == p.width
  }

  /** The region handed to `extract`. */
  datatype Rect = Rect(left: nat, top: nat, width: nat, height: nat)

  /** `left: ceil(width / 2), top: 0, width: width - left, height`. The left half takes
      the middle column of an odd width, so the right half is never the wider one. */
  function CropRect(width: nat, height: nat): (r: Rect)
    ensures r.left + r.width == width
    ensures 2 * r.left >= width && 2 * r.left <= width + 1
    ensures r.width <= r.left && r.left - r.width == width % 2
    ensures r.top == 0 && r.height == height
  {
    var left := (width + 1) / 2;
    Rect(left, 0, width - left, height)
  }

  /** `extract(rect)`: fails unless the area is non-empty and inside the picture. */
  function Extract(p: Picture, r: Rect): (out: Result<Picture>)
    requires WellFormed(p)
    ensures out.Ok? <==> r.width > 0 && r.height > 0 && r.left + r.width <= p.width && r.top + r.height <= p.height
    ensures out.Ok? ==> WellFormed(out.value) && out.value.width == r.width && out.value.height == r.height
    ensures out.Ok? ==> forall i, j :: 0 <= i < r.height && 0 <= j < r.width ==>
      out.value.rows[i][j] == p.rows[r.top + i][r.left + j]
  {
    if r.width > 0 && r.height > 0 && r.left + r.width <= p.width && r.top + r.height <= p.height then
      Ok(Picture(r.width, r.height, seq(r.height, i requires 0 <= i < r.height => p.rows[r.top + i][r.left..r.left + r.width])))
    else Err(BadExtractArea)
  }

  const BadExtractArea: string := "bad extract area"

  // ---------------------------------------------------------------- the poster

  const InvalidCoverUrl: string := "无效的封面图片URL"

  /** `coverUrl?.startsWith('http')`: an absent URL fails the guard. */
  predicate HttpUrl(coverUrl: Option<string>) {
    coverUrl.Some? && StartsWith(coverUrl.value, "http")
  }

  /** `splitCoverImage(coverUrl)`; `download` is what fetching the URL yields, a
      picture or the error message. */
  function SplitCoverImage(coverUrl: Option<string>, download: Result<Picture>): (r: Result<Picture>)
    requires download.Ok? ==> WellFormed(download.value)
    ensures !HttpUrl(coverUrl) ==> r == Err(InvalidCoverUrl)
    ensures download.Err? && HttpUrl(coverUrl) ==> r == download
    ensures r.Ok? ==> download.Ok? && download.value.width >= 2 && download.value.height >= 1
  {
    if !HttpUrl(coverUrl) then Err(InvalidCoverUrl)
    else if download.Err? then Err(download.msg)
    else
      var p := download.value;
      Extract(p, CropRect(p.width, p.height))
  }

  /** The poster is the right half: each of its rows is the source row from column
      `ceil(width / 2)` on, and its width is what is left of the source width. */
  lemma PosterIsRightHalf(coverUrl: Option<string>, p: Picture)
    requires WellFormed(p) && HttpUrl(coverUrl) && p.width >= 2 && p.height >= 1
    ensures SplitCoverImage(coverUrl, Ok(p)).Ok?
    ensures var q := SplitCoverImage(coverUrl, Ok(p)).value;
      && q.height == p.height && q.width == p.width - (p.width + 1) / 2
      && forall i :: 0 <= i < p.height ==> q.rows[i] == p.rows[i][(p.width + 1) / 2..]
  {
    var q := SplitCoverImage(coverUrl, Ok(p)).value;
    var left := (p.width + 1) / 2;
    forall i | 0 <= i < p.height
      ensures q.rows[i] == p.rows[i][left..]
    {
      assert |q.rows[i]| == |p.rows[i][left..]|;
      forall j | 0 <= j < |q.rows[i]|
        ensures q.rows[i][j] == p.rows[i][left..][j]
      {
      }
    }
  }

  /** A picture one column wide (or empty) yields no poster. */
  lemma NarrowCoverFails(coverUrl: Option<string>, p: Picture)
    requires WellFormed(p) && p.width <= 1
    ensures SplitCoverImage(coverUrl, Ok(p)).Err?
  {
  }

  // ---------------------------------------------------------------- file names

  /** `new URL(url).pathname` for a URL with an authority, `scheme://host/path?query`:
      the text from the first `/` after the host up to `?` or `#`, or `/` when there is
      none. The model gives None (where `new URL` would throw) when there is no `://`,
      the scheme is empty or the host is empty; it also gives None for the forms
      without `//` that the URL standard accepts (`mailto:x`, `http:host/x`). */
  function UrlPathname(url: string): (r: Option<string>)
    ensures r.Some? ==> r.value != "" && r.value[0] == '/'
    ensures r.Some? ==> '?' !in r.value && '#' !in r.value
  {
    var i := IndexOf(url, "://");
    if i <= 0 then None else AuthorityPathname(url[i + 3..])
  }

  /** The pathname of the text after `://`: None for an empty host. */
  function AuthorityPathname(rest: string): (r: Option<string>)
    ensures r.Some? ==> r.value != "" && r.value[0] == '/'
    ensures r.Some? ==> '?' !in r.value && '#' !in r.value
  {
    var h := EndOfPart(rest, 0, {'/', '?', '#'});
    if h == 0 then None
    else if h < |rest| && rest[h] == '/' then
      var e := EndOfPart(rest, h, {'?', '#'});
      Some(rest[h..e])
    else Some("/")
  }

  /** The first index from `from` on holding one of `stops`, or the length. */
  function EndOfPart(s: string, from: nat, stops: set<char>): (k: nat)
    requires from <= |s|
    ensures from <= k <= |s|
    ensures k < |s| ==> s[k] in stops
    ensures forall j :: from <= j < k ==> s[j] !in stops
    decreases |s| - from
  {
    if from == |s| || s[from] in stops then from else EndOfPart(s, from + 1, stops)
  }

  /** The parts of a URL with an authority: a scheme without `:`, a non-empty host,
      a path that is empty or opens with `/`, and what follows from the first `?` or
      `#` on. */
  predicate UrlParts(scheme: string, host: string, path: string, tail: string) {
    && scheme != "" && ':' !in scheme
    && host != "" && '/' !in host && '?' !in host && '#' !in host
    && (path == "" || path[0] == '/') && '?' !in path && '#' !in path
    && (tail == "" || tail[0] == '?' || tail[0] == '#')
  }

  /** The pathname of `scheme://host` + path + tail is the path, or `/` when the path
      is empty. */
  lemma UrlPathnameOfParts(scheme: string, host: string, path: string, tail: string)
    requires UrlParts(scheme, host, path, tail)
    ensures UrlPathname(scheme + "://" + host + path + tail) == Some(if path == "" then "/" else path)
  {
    var rest := host + path + tail;
    assert scheme + "://" + host + path + tail == scheme + "://" + rest;
    SchemeEnds(scheme, rest);
    AuthorityPathnameOfParts(host, path, tail);
  }

  lemma AuthorityPathnameOfParts(host: string, path: string, tail: string)
    requires UrlParts("x", host, path, tail)
    ensures AuthorityPathname(host + path + tail) == Some(if path == "" then "/" else path)
  {
    var rest := host + path + tail;
    HostEnds(host, path, tail);
    if path != "" {
      PathEnds(host, path, tail);
    } else if tail != "" {
      assert rest[|host|] == tail[0];
    }
  }

  /** The first `://` is the one after a scheme without `:`. */
  lemma SchemeEnds(scheme: string, rest: string)
    requires scheme != "" && ':' !in scheme
    ensures IndexOf(scheme + "://" + rest, "://") == |scheme|
    ensures (scheme + "://" + rest)[|scheme| + 3..] == rest
  {
    var url := scheme + "://" + rest;
    var i := IndexOf(url, "://");
    assert url[|scheme|..|scheme| + 3] == "://";
    assert OccursAt(url, "://", |scheme|);
    forall j | 0 <= j < |scheme| ensures !OccursAt(url, "://", j) {
      assert url[j] == scheme[j];
      assert url[j..j + 3][0] == url[j];
    }
  }

  /** The host runs up to the path or the tail. */
  lemma HostEnds(host: string, path: string, tail: string)
    requires UrlParts("x", host, path, tail)
    ensures EndOfPart(host + path + tail, 0, {'/', '?', '#'}) == |host|
  {
    var rest := host + path + tail;
    forall j | 0 <= j < |host| ensures rest[j] !in {'/', '?', '#'} {
      assert rest[j] == host[j];
    }
    if |host| < |rest| {
      if path != "" {
        assert rest[|host|] == path[0];
      } else {
        assert rest[|host|] == tail[0];
      }
    }
    EndOfPartAt(rest, 0, {'/', '?', '#'}, |host|);
  }

  /** A non-empty path runs up to the tail. */
  lemma PathEnds(host: string, path: string, tail: string)
    requires UrlParts("x", host, path, tail) && path != ""
    ensures var rest := host + path + tail;
      |host| < |rest| && rest[|host|] == '/' &&
      EndOfPart(rest, |host|, {'?', '#'}) == |host| + |path| &&
      rest[|host|..|host| + |path|] == path
  {
    var rest := host + path + tail;
    assert rest[|host|] == path[0];
    forall j | |host| <= j < |host| + |path| ensures rest[j] !in {'?', '#'} {
      assert rest[j] == path[j - |host|];
    }
    if |host| + |path| < |rest| {
      assert rest[|host| + |path|] == tail[0];
    }
    EndOfPartAt(rest, |host|, {'?', '#'}, |host| + |path|);
  }

  /** `EndOfPart` stops at the first stop character. */
  lemma EndOfPartAt(s: string, from: nat, stops: set<char>, k: nat)
    requires from <= k <= |s|
    requires forall j :: from <= j < k ==> s[j] !in stops
    requires k == |s| || s[k] in stops
    ensures EndOfPart(s, from, stops) == k
  {
  }

  /** `path.extname(new URL(coverUrl).pathname) || '.jpg'`; None when `new URL`
      throws, which it does on an absent URL. */
  function CoverExtension(coverUrl: Option<string>): (r: Option<string>)
    ensures r.Some? ==> r.value != "" && r.value[0] == '.' && '/' !in r.value
    ensures r.Some? <==> coverUrl.Some? && UrlPathname(coverUrl.value).Some?
  {
    if coverUrl.None? then None
    else
      match UrlPathname(coverUrl.value)
      case None => None
      case Some(pathname) =>
        var e := ExtName(BaseName(pathname));
        ExtNameFree(BaseName(pathname));
        Some(if e == "" then ".jpg" else e)
  }

  /** An extension is part of its base name, so it holds no `/` either. */
  lemma ExtNameFree(base: string)
    requires '/' !in base
    ensures '/' !in ExtName(base)
  {
    var e := ExtName(base);
    if e != "" {
      forall j | 0 <= j < |e| ensures e[j] != '/' {
        assert e[j] == base[|base| - |e| + j];
      }
    }
  }

  /** The extension of the cover files is the extension of the URL path's last
      segment, or `.jpg` when that has none. */
  lemma CoverExtensionOfParts(scheme: string, host: string, path: string, tail: string)
    requires UrlParts(scheme, host, path, tail)
    ensures var e := ExtName(BaseName(path));
      CoverExtension(Some(scheme + "://" + host + path + tail)) == Some(if e == "" then ".jpg" else e)
  {
    var url := scheme + "://" + host + path + tail;
    UrlPathnameOfParts(scheme, host, path, tail);
    var pathname := if path == "" then "/" else path;
    CoverExtensionOfPathname(url, pathname);
    if path == "" {
      RootBaseName();
    }
  }

  lemma CoverExtensionOfPathname(url: string, pathname: string)
    requires UrlPathname(url) == Some(pathname)
    ensures var e := ExtName(BaseName(pathname));
      CoverExtension(Some(url)) == Some(if e == "" then ".jpg" else e)
  {
  }

  lemma RootBaseName()
    ensures BaseName("/") == "" && BaseName("") == ""
  {
    assert "/"[..0] == "";
  }

  /** The two file names share the extension and differ. */
  function FanartPath(outputDir: string, extension: string): string {
    JoinPath(outputDir, "fanart" + extension)
  }

  function PosterPath(outputDir: string, extension: string): string {
    JoinPath(outputDir, "poster" + extension)
  }

  lemma CoverPathsDiffer(outputDir: string, extension: string)
    requires '/' !in extension
    ensures FanartPath(outputDir, extension) != PosterPath(outputDir, extension)
  {
    var f, p := "fanart" + extension, "poster" + extension;
    assert f[0] != p[0];
    if FanartPath(outputDir, extension) == PosterPath(outputDir, extension) {
      JoinPathInjective(outputDir, f, p);
    }
  }

  // ---------------------------------------------------------------- saving

  /** What the outside world does during `downloadAndSaveCovers`: the first download
      (saved as is as the fanart), the error of that `writeFile` if it fails, the second
      download (inside `splitCoverImage`), and the error of the poster's `writeFile`. */
  datatype CoverIo = CoverIo(
    original: Result<Picture>,
    fanartWrite: Option<string>,
    again: Result<Picture>,
    posterWrite: Option<string>)

  predicate WellFormedIo(io: CoverIo) {
    io.again.Ok? ==> WellFormed(io.again.value)
  }

  /** The two paths `downloadAndSaveCovers` may write, once the URL has parsed. */
  function CoverPaths(coverUrl: Option<string>, outputDir: string): set<string> {
    match CoverExtension(coverUrl)
    case None => {}
    case Some(ext) => {FanartPath(outputDir, ext), PosterPath(outputDir, ext)}
  }

  /** The files after `downloadAndSaveCovers`. A failed `writeFile` is taken to write
      nothing. */
  function CoverFilesAfter(files: map<string, Picture>, coverUrl: Option<string>, outputDir: string, io: CoverIo)
    : (r: map<string, Picture>)
    requires WellFormedIo(io)
    ensures files.Keys <= r.Keys <= files.Keys + CoverPaths(coverUrl, outputDir)
    ensures forall p :: p in files && p !in CoverPaths(coverUrl, outputDir) ==> p in r && r[p] == files[p]
    ensures CoversOutcome(coverUrl, io).Ok? ==>
      var ext := CoverExtension(coverUrl).value;
      && FanartPath(outputDir, ext) in r && r[FanartPath(outputDir, ext)] == io.original.value
      && PosterPath(outputDir, ext) in r
      && r[PosterPath(outputDir, ext)] == SplitCoverImage(coverUrl, io.again).value
  {
    if CoverExtension(coverUrl).None? || io.original.Err? || io.fanartWrite.Some? then files
    else
      var ext := CoverExtension(coverUrl).value;
      var fanart := files[FanartPath(outputDir, ext) := io.original.value];
      var split := SplitCoverImage(coverUrl, io.again);
      if split.Err? || io.posterWrite.Some? then fanart
      else
        CoverPathsDiffer(outputDir, ext);
        fanart[PosterPath(outputDir, ext) := split.value]
  }

  /** The bytes written to disk are modelled as the pictures they encode. */
  class CoverStore {
    var files: map<string, Picture>

    constructor (files: map<string, Picture>)
      ensures this.files == files
    {
      this.files := files;
    }

    /** `downloadAndSaveCovers(coverUrl, outputDir)`. The fanart is written before the
        poster is made, so a failure after that write leaves the fanart on disk. */
    method DownloadAndSaveCovers(coverUrl: Option<string>, outputDir: string, io: CoverIo)
      returns (r: Result<()>)
      requires WellFormedIo(io)
      modifies this
      ensures r == CoversOutcome(coverUrl, io)
      ensures files == CoverFilesAfter(old(files), coverUrl, outputDir, io)
      ensures CoverExtension(coverUrl).None? || io.original.Err? ==> files == old(files)
      ensures (CoverExtension(coverUrl).Some? && io.original.Ok?) ==> (
        var ext := CoverExtension(coverUrl).value;
        var fanart := old(files)[FanartPath(outputDir, ext) := io.original.value];
        var poster := SplitCoverImage(coverUrl, io.again);
        && (io.fanartWrite.Some? ==> r == Err(io.fanartWrite.value) && files == old(files))
        && (io.fanartWrite.None? && poster.Err? ==> r == Err(poster.msg) && files == fanart)
        && (io.fanartWrite.None? && poster.Ok? && io.posterWrite.Some? ==>
              r == Err(io.posterWrite.value) && files == fanart)
        && (io.fanartWrite.None? && poster.Ok? && io.posterWrite.None? ==>
              r.Ok? && files == fanart[PosterPath(outputDir, ext) := poster.value]))
    {
      var extension := CoverExtension(coverUrl);
      if extension.None? {
        return Err(InvalidUrl);
      }
      var fanartPath := FanartPath(outputDir, extension.value);
      var posterPath := PosterPath(outputDir, extension.value);
      if io.original.Err? {
        return Err(io.original.msg);
      }
      if io.fanartWrite.Some? {
        return Err(io.fanartWrite.value);
      }
      files := files[fanartPath := io.original.value];
      var split := SplitCoverImage(coverUrl, io.again);
      if split.Err? {
        return Err(split.msg);
      }
      if io.posterWrite.Some? {
        return Err(io.posterWrite.value);
      }
      files := files[posterPath := split.value];
      return Ok(());
    }
  }

  /** What `downloadAndSaveCovers` settles with: the first failure among the URL parse,
      the first download, the fanart write, the split and the poster write, or success. */
  function CoversOutcome(coverUrl: Option<string>, io: CoverIo): (r: Result<()>)
    requires WellFormedIo(io)
    ensures r.Ok? <==>
      && CoverExtension(coverUrl).Some? && io.original.Ok? && io.fanartWrite.None?
      && SplitCoverImage(coverUrl, io.again).Ok? && io.posterWrite.None?
    ensures CoverExtension(coverUrl).None? ==> r == Err(InvalidUrl)
    ensures CoverExtension(coverUrl).Some? && io.original.Err? ==> r == Err(io.original.msg)
    ensures CoverExtension(coverUrl).Some? && io.original.Ok? && io.fanartWrite.Some? ==>
      r == Err(io.fanartWrite.value)
  {
    if CoverExtension(coverUrl).None? then Err(InvalidUrl)
    else if io.original.Err? then Err(io.original.msg)
    else if io.fanartWrite.Some? then Err(io.fanartWrite.value)
    else
      var split := SplitCoverImage(coverUrl, io.again);
      if split.Err? then Err(split.msg)
      else if io.posterWrite.Some? then Err(io.posterWrite.value)
      else Ok(())
  }

  /** Node's message when `new URL` throws. */
  const InvalidUrl: string := "Invalid URL"
}
