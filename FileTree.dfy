/** A finite directory tree as the walks see it through `readdir` and `stat`. */
module FileTree {
  import opened Strings
  import opened Paths

  /** One directory entry, in `readdir` order among its siblings.
      - `File`: a regular file; `accessible` is false when reading or writing it fails.
      - `Special`: `stat` succeeds but the entry is neither a directory nor a file.
      - `Unstatable`: `stat` throws (a dangling link, a vanished entry, no permission).
      - `Dir`: a directory; `readable` is false when `readdir` on it throws. */
  datatype Node =
    | File(name: string, content: string, accessible: bool)
    | Special(name: string)
    | Unstatable(name: string)
    | Dir(name: string, readable: bool, children: seq<Node>)

  /** The video extensions both walks accept (`fileTypes` in each configuration). */
  const VideoTypes: seq<string> :=
    [".mp4", ".avi", ".mkv", ".mov", ".wmv", ".flv", ".webm", ".m4v", ".mpg", ".mpeg", ".3gp", ".ts", ".mts"]

  /** The directory names both walks skip (`excludeDirs` in each configuration). */
  const ExcludedDirs: seq<string> := ["node_modules", "temp", "downloads", "@eaDir"]

  /** A name skipped when `skipHiddenFiles` is set. */
  predicate Hidden(name: string) {
    StartsWith(name, ".")
  }

  /** `fileTypes.includes(extname(name).toLowerCase())` */
  predicate IsVideoName(name: string) {
    ToLower(ExtName(name)) in VideoTypes
  }

  /** What `readdir` can return: a non-empty name without `/`, never `.` or `..`. */
  predicate ValidName(name: string) {
    PlainName(name)
  }

  /** Every entry below `d` has a name `readdir` could return. */
  predicate WellNamed(d: Node)
    decreases d, 1
  {
    match d
    case Dir(_, _, cs) => AllWellNamed(cs)
    case _ => true
  }

  predicate AllWellNamed(es: seq<Node>)
    decreases es, 0
  {
    es == [] || (ValidName(es[0].name) && WellNamed(es[0]) && AllWellNamed(es[1..]))
  }

  /** No failure anywhere below `d`: every directory can be read, every entry stat'ed. */
  predicate Healthy(d: Node)
    decreases d, 1
  {
    match d
    case Dir(_, readable, cs) => readable && AllHealthy(cs)
    case Unstatable(_) => false
    case _ => true
  }

  predicate AllHealthy(es: seq<Node>)
    decreases es, 0
  {
    es == [] || (Healthy(es[0]) && AllHealthy(es[1..]))
  }
}
