/** The parts of Node's `path` module the program uses, on POSIX paths. */
module Paths {
  import opened Strings

  /** Index of the last occurrence of `c` in `s`, if any. */
  function LastIndexOfChar(s: string, c: char): (i: int)
    ensures -1 <= i < |s|
    ensures i >= 0 ==> s[i] == c
    ensures forall j :: i < j < |s| ==> s[j] != c
  {
    if s == [] then -1
    else if s[|s| - 1] == c then |s| - 1
    else LastIndexOfChar(s[..|s| - 1], c)
  }

  // ---------------------------------------------------------------- path.join

  /** A name `path.join` appends unchanged: non-empty, without `/`, and neither `.`
      nor `..` (the names `readdir` returns). */
  predicate PlainName(name: string) {
    name != "" && '/' !in name && name != "." && name != ".."
  }

  /** One segment of `path.normalize`'s scan. Empty and `.` segments vanish. `..`
      removes the segment before it unless that one is itself `..`; with nothing to
      remove, a relative path keeps the `..` and an absolute one (at the root) drops
      it. Any other segment is kept. */
  function PushSegment(absolute: bool, stack: seq<string>, seg: string): seq<string> {
    if seg == "" || seg == "." then stack
    else if seg == ".." then
      if stack != [] && stack[|stack| - 1] != ".." then stack[..|stack| - 1]
      else if absolute then stack
      else stack + [".."]
    else stack + [seg]
  }

  /** The segments left once `segs` are scanned from the left. */
  function Resolve(absolute: bool, segs: seq<string>): seq<string>
    decreases |segs|
  {
    if segs == [] then []
    else PushSegment(absolute, Resolve(absolute, segs[..|segs| - 1]), segs[|segs| - 1])
  }

  /** The text `path.normalize` builds from what is left: the root, the segments
      joined by `/` and a trailing `/` when the input had one; a relative path with no
      segment left is `.` (or `./`). */
  function Render(absolute: bool, stack: seq<string>, trailing: bool): string {
    if stack == [] then (if absolute then "/" else if trailing then "./" else ".")
    else (if absolute then "/" else "") + Join(stack, "/") + (if trailing then "/" else "")
  }

  /** `path.normalize(p)` */
  function Normalize(p: string): string {
    if p == "" then "."
    else Render(p[0] == '/', Resolve(p[0] == '/', Split(p, '/')), p[|p| - 1] == '/')
  }

  /** `path.join(dir, name)`: the non-empty arguments joined by `/`, then normalized;
      `.` when both are empty. */
  function JoinPath(dir: string, name: string): string {
    if dir == "" && name == "" then "."
    else if dir == "" then Normalize(name)
    else if name == "" then Normalize(dir)
    else Normalize(dir + "/" + name)
  }

  predicate Absolute(dir: string) {
    dir != "" && dir[0] == '/'
  }

  /** The segments left of a directory path. */
  function DirStack(dir: string): seq<string> {
    if dir == "" then [] else Resolve(Absolute(dir), Split(dir, '/'))
  }

  /** What `path.join(dir, name)` puts before a plain name: the normalized directory
      and a `/`, or nothing when the directory normalizes to `.`. */
  function DirPrefix(dir: string): (p: string)
    ensures p == "" || p[|p| - 1] == '/'
  {
    (if Absolute(dir) then "/" else "") + (if DirStack(dir) == [] then "" else Join(DirStack(dir), "/") + "/")
  }

  /** Splitting at `c` a text that ends in `c` and a part without `c` gives that part last. */
  lemma SplitSepAppend(a: string, f: string, c: char)
    requires c !in f
    ensures Split(a + [c] + f, c) == Split(a, c) + [f]
  {
    var parts := Split(a, c);
    var more := parts + [f];
    JoinSplit(a, c);
    JoinAppend(parts, f, [c]);
    SplitPartsFree(a, c);
    assert forall i :: 0 <= i < |more| ==> c !in more[i] by {
      forall i | 0 <= i < |more| ensures c !in more[i] {
        if i < |parts| {
          assert more[i] == parts[i];
        }
      }
    }
    SplitJoin(more, c);
  }

  /** `path.join(dir, f)` for an `f` without `/`: the directory's segments with `f`
      scanned after them. */
  lemma JoinRender(dir: string, f: string)
    requires '/' !in f
    ensures JoinPath(dir, f) ==
      Render(Absolute(dir), PushSegment(Absolute(dir), DirStack(dir), f), f == "" && dir != "" && dir[|dir| - 1] == '/')
  {
    if dir == "" && f != "" {
      JoinRenderName(f);
    } else if dir != "" && f != "" {
      JoinRenderBoth(dir, f);
    }
  }

  lemma JoinRenderName(f: string)
    requires '/' !in f && f != ""
    ensures JoinPath("", f) == Render(false, PushSegment(false, [], f), false)
  {
    assert f[0] != '/' && f[|f| - 1] != '/' by {
      assert f[0] in f && f[|f| - 1] in f;
    }
    assert Split(f, '/') == [f];
    assert [f][..0] == [];
    assert Resolve(false, [f]) == PushSegment(false, [], f);
  }

  lemma JoinRenderBoth(dir: string, f: string)
    requires '/' !in f && f != "" && dir != ""
    ensures JoinPath(dir, f) == Render(Absolute(dir), PushSegment(Absolute(dir), DirStack(dir), f), false)
  {
    var p := dir + "/" + f;
    assert p[0] == dir[0];
    assert p[|p| - 1] == f[|f| - 1] && f[|f| - 1] in f;
    var abs := Absolute(dir);
    SplitSepAppend(dir, f, '/');
    var segs := Split(dir, '/') + [f];
    assert segs[..|segs| - 1] == Split(dir, '/');
    assert Resolve(abs, segs) == PushSegment(abs, DirStack(dir), f);
    assert JoinPath(dir, f) == Normalize(p);
  }

  /** A plain name is appended to the directory's prefix as it is. */
  lemma JoinPlain(dir: string, name: string)
    requires PlainName(name)
    ensures JoinPath(dir, name) == DirPrefix(dir) + name
  {
    JoinRender(dir, name);
    RenderPlain(Absolute(dir), DirStack(dir), name);
  }

  lemma RenderPlain(absolute: bool, stack: seq<string>, name: string)
    requires PlainName(name)
    ensures Render(absolute, PushSegment(absolute, stack, name), false) ==
      (if absolute then "/" else "") + (if stack == [] then "" else Join(stack, "/") + "/") + name
  {
    var root := if absolute then "/" else "";
    var pushed := stack + [name];
    assert PushSegment(absolute, stack, name) == pushed;
    assert Render(absolute, pushed, false) == root + Join(pushed, "/") + "";
    if stack == [] {
      assert pushed == [name];
    } else {
      JoinAppend(stack, name, "/");
      assert root + (Join(stack, "/") + "/" + name) == root + (Join(stack, "/") + "/") + name;
    }
  }

  /** `.` contributes nothing: `path.join('.', name)` is the name itself. */
  lemma JoinDot(name: string)
    requires PlainName(name)
    ensures JoinPath(".", name) == name
  {
    assert Split(".", '/') == ["."];
    assert ["."][..0] == [];
    JoinPlain(".", name);
  }

  /** `path.join(dir, f)` for `f` one of ``, `.` and `..` is at most two characters
      longer than the prefix a plain name gets. */
  lemma JoinShort(dir: string, f: string)
    requires '/' !in f && !PlainName(f)
    ensures |JoinPath(dir, f)| <= |DirPrefix(dir)| + 2
  {
    JoinRender(dir, f);
    RenderShort(Absolute(dir), DirStack(dir), f, f == "" && dir != "" && dir[|dir| - 1] == '/');
  }

  lemma RenderShort(absolute: bool, stack: seq<string>, f: string, trailing: bool)
    requires '/' !in f && !PlainName(f) && (trailing ==> f == "")
    ensures |Render(absolute, PushSegment(absolute, stack, f), trailing)| <=
      |(if absolute then "/" else "") + (if stack == [] then "" else Join(stack, "/") + "/")| + 2
  {
    if f == ".." && stack != [] && stack[|stack| - 1] != ".." {
      RenderPop(absolute, stack);
    } else if f == ".." && !absolute && stack != [] {
      JoinAppend(stack, "..", "/");
    }
  }

  lemma RenderPop(absolute: bool, stack: seq<string>)
    requires stack != []
    ensures |Render(absolute, stack[..|stack| - 1], false)| <= |(if absolute then "/" else "") + Join(stack, "/")| + 1
  {
    var rest := stack[..|stack| - 1];
    if rest != [] {
      assert stack == rest + [stack[|stack| - 1]];
      JoinAppend(rest, stack[|stack| - 1], "/");
    }
  }

  /** `path.extname(base)` for a base name (no `/`): the text from the last `.`,
      or empty when there is no dot, the only dot leads the name, or the name is `..`. */
  function ExtName(base: string): (e: string)
    ensures e == "" || (e[0] == '.' && EndsWith(base, e) && |e| < |base|)
    ensures '.' !in base ==> e == ""
    ensures e != "" ==> '.' !in e[1..]
  {
    var k := LastIndexOfChar(base, '.');
    if k <= 0 || base == ".." then ""
    else
      base[k..]
  }

  /** `path.parse(base)`: the name without its extension, and the extension. */
  function ParseName(base: string): (r: (string, string))
    ensures r.0 + r.1 == base
    ensures r.1 == ExtName(base)
  {
    var e := ExtName(base);
    (base[..|base| - |e|], e)
  }

  /** `path.basename(p)`: the last component, trailing slashes ignored. */
  function BaseName(p: string): (b: string)
    ensures '/' !in b
  {
    if p != [] && p[|p| - 1] == '/' then BaseName(p[..|p| - 1])
    else
      var k := LastIndexOfChar(p, '/');
      p[k + 1..]
  }

  /** Text appended without `c` leaves the last `c` where it was. */
  lemma {:induction false} LastIndexOfCharAppend(a: string, b: string, c: char)
    requires c !in b
    ensures LastIndexOfChar(a + b, c) == LastIndexOfChar(a, c)
    decreases |b|
  {
    if b == [] {
      assert a + b == a;
    } else {
      var ab := a + b;
      assert ab[|ab| - 1] == b[|b| - 1];
      assert ab[..|ab| - 1] == a + b[..|b| - 1];
      LastIndexOfCharAppend(a, b[..|b| - 1], c);
    }
  }

  /** The base name of a joined path is the entry name joined on. */
  lemma BaseNameOfJoin(dir: string, name: string)
    requires PlainName(name)
    ensures BaseName(JoinPath(dir, name)) == name
  {
    JoinPlain(dir, name);
    BaseNameAfterPrefix(DirPrefix(dir), name);
  }

  lemma BaseNameAfterPrefix(prefix: string, name: string)
    requires prefix == "" || prefix[|prefix| - 1] == '/'
    requires PlainName(name)
    ensures BaseName(prefix + name) == name
  {
    var p := prefix + name;
    assert p[|p| - 1] == name[|name| - 1];
    assert name[|name| - 1] in name;
    LastIndexOfCharAppend(prefix, name, '/');
    if prefix != "" {
      assert LastIndexOfChar(prefix, '/') == |prefix| - 1;
    } else {
      assert LastIndexOfChar(prefix, '/') == -1;
    }
    assert p[|prefix|..] == name;
  }

  /** `path.join` with a fixed directory tells plain names apart. */
  lemma JoinPathInjective(dir: string, a: string, b: string)
    requires PlainName(a) && PlainName(b) && JoinPath(dir, a) == JoinPath(dir, b)
    ensures a == b
  {
    JoinPlain(dir, a);
    JoinPlain(dir, b);
    var p := JoinPath(dir, a);
    assert a == p[|DirPrefix(dir)|..] && b == p[|DirPrefix(dir)|..];
  }
}
