/** The NFO clean-up tool: drops blank lines from every `.nfo` file under a directory. */
module NfoTools {
  import opened Strings
  import opened Paths
  import opened FileTree

  /** A line `cleanNfoFile` drops: `line.trim() === ''`. */
  predicate Blank(line: string) {
    Trim(line) == ""
  }

  /** The `filter` step: the non-blank lines, verbatim and in order. */
  function KeepLines(lines: seq<string>): (kept: seq<string>)
    ensures |kept| <= |lines|
  {
    if lines == [] then []
    else if Blank(lines[0]) then KeepLines(lines[1..])
    else [lines[0]] + KeepLines(lines[1..])
  }

  /** `content.split('\n').filter(line => line.trim() !== '').join('\n')` */
  function Clean(content: string): string {
    Join(KeepLines(Split(content, '\n')), "\n")
  }

  /** Every kept line is a non-blank line of the input. */
  lemma {:induction false} KeptLinesFrom(lines: seq<string>)
    ensures forall i :: 0 <= i < |KeepLines(lines)| ==> !Blank(KeepLines(lines)[i]) && KeepLines(lines)[i] in lines
    decreases |lines|
  {
    if lines != [] {
      KeptLinesFrom(lines[1..]);
      var rest := KeepLines(lines[1..]);
      forall l | l in rest ensures l in lines {
        assert l in lines[1..];
      }
    }
  }

  /** Filtering distributes over concatenation, so kept lines stay in their order. */
  lemma {:induction false} KeepLinesAppend(a: seq<string>, b: seq<string>)
    ensures KeepLines(a + b) == KeepLines(a) + KeepLines(b)
    decreases |a|
  {
    if a == [] {
      assert a + b == b;
    } else {
      assert (a + b)[0] == a[0];
      assert (a + b)[1..] == a[1..] + b;
      KeepLinesAppend(a[1..], b);
    }
  }

  /** Lines that are all non-blank are kept as they are. */
  lemma {:induction false} KeepLinesAll(lines: seq<string>)
    requires forall i :: 0 <= i < |lines| ==> !Blank(lines[i])
    ensures KeepLines(lines) == lines
    decreases |lines|
  {
    if lines != [] {
      KeepLinesAll(lines[1..]);
    }
  }

  lemma KeepLinesTwice(lines: seq<string>)
    ensures KeepLines(KeepLines(lines)) == KeepLines(lines)
  {
    KeptLinesFrom(lines);
    KeepLinesAll(KeepLines(lines));
  }

  /** Kept lines hold no line break, as they come from a split on line breaks. */
  lemma KeptLinesUnbroken(content: string)
    ensures forall i :: 0 <= i < |KeepLines(Split(content, '\n'))| ==> '\n' !in KeepLines(Split(content, '\n'))[i]
  {
    var lines := Split(content, '\n');
    SplitPartsFree(content, '\n');
    KeptLinesFrom(lines);
    forall i | 0 <= i < |KeepLines(lines)| ensures '\n' !in KeepLines(lines)[i] {
      var l := KeepLines(lines)[i];
      assert l in lines;
      var j :| 0 <= j < |lines| && lines[j] == l;
    }
  }

  /** The cleaned text, read back line by line, is exactly the kept lines; it is
      empty only when every line was blank. */
  lemma CleanLines(content: string)
    ensures var kept := KeepLines(Split(content, '\n'));
      && (kept == [] <==> Clean(content) == "")
      && (kept != [] ==> Split(Clean(content), '\n') == kept)
  {
    var kept := KeepLines(Split(content, '\n'));
    assert Clean(content) == Join(kept, "\n");
    if kept != [] {
      assert Split(Join(kept, "\n"), '\n') == kept by {
        KeptLinesUnbroken(content);
        SplitJoin(kept, '\n');
      }
      assert Join(kept, "\n") != "" by {
        if Join(kept, "\n") == "" {
          assert Split("", '\n') == [""];
          assert kept == [""];
          KeptLinesFrom(Split(content, '\n'));
          TrimSpec("");
          assert false;
        }
      }
    }
  }

  /** No line of the cleaned text is blank, unless the text came out empty. */
  lemma CleanHasNoBlankLine(content: string)
    ensures Clean(content) != "" ==>
      forall i :: 0 <= i < |Split(Clean(content), '\n')| ==> !Blank(Split(Clean(content), '\n')[i])
  {
    CleanLines(content);
    KeptLinesFrom(Split(content, '\n'));
  }

  /** Cleaning twice is cleaning once. */
  lemma CleanIdempotent(content: string)
    ensures Clean(Clean(content)) == Clean(content)
  {
    var kept := KeepLines(Split(content, '\n'));
    CleanLines(content);
    if kept == [] {
      assert Split("", '\n') == [""];
      TrimSpec("");
      assert KeepLines([""]) == [];
    } else {
      KeepLinesTwice(Split(content, '\n'));
    }
  }

  /** Text whose every line has content (so no empty last line either) is left alone. */
  lemma CleanKeepsTidyText(content: string)
    requires forall i :: 0 <= i < |Split(content, '\n')| ==> !Blank(Split(content, '\n')[i])
    ensures Clean(content) == content
  {
    KeepLinesAll(Split(content, '\n'));
    JoinSplit(content, '\n');
  }

  // ---------------------------------------------------------------- the walk

  /** `extname(file).toLowerCase() === '.nfo'` */
  predicate IsNfoName(name: string) {
    ToLower(ExtName(name)) == ".nfo"
  }

  /** `cleanNfoFile` on an entry: a file that can be read and written gets the cleaned
      text; any failure is swallowed and leaves the entry as it was. */
  function CleanEntry(e: Node): (r: Node)
    ensures r.name == e.name
  {
    match e
    case File(n, c, ok) => if ok then File(n, Clean(c), ok) else e
    case _ => e
  }

  /** `processNfoFiles(path)` on `d`: the tree after the walk, and the paths handed to
      `cleanNfoFile`, in visiting order. A directory that cannot be read is left alone. */
  function ProcessDir(path: string, d: Node): (r: (Node, seq<string>))
    ensures r.0.name == d.name && r.0.Dir? == d.Dir? && r.0.Unstatable? == d.Unstatable?
    decreases d, 1
  {
    match d
    case Dir(n, readable, cs) =>
      if readable then
        var r := ProcessEntries(path, cs);
        (Dir(n, readable, r.0), r.1)
      else (d, [])
    case _ => (d, [])
  }

  /** One iteration of the `forEach` for an entry whose `stat` succeeds: recurse into a
      directory, hand a `.nfo` non-directory to `cleanNfoFile`, skip anything else. */
  function Step(path: string, e: Node): (r: (Node, seq<string>))
    ensures r.0.name == e.name && r.0.Dir? == e.Dir? && r.0.Unstatable? == e.Unstatable?
    decreases e, 2
  {
    var fullPath := JoinPath(path, e.name);
    if e.Dir? then ProcessDir(fullPath, e)
    else if IsNfoName(e.name) then (CleanEntry(e), [fullPath])
    else (e, [])
  }

  /** The `forEach` from entry `es[0]` on; a `stat` that throws leaves the loop, so the
      entries from there on stay as they were. */
  function ProcessEntries(path: string, es: seq<Node>): (seq<Node>, seq<string>)
    decreases es, 0
  {
    if es == [] then ([], [])
    else if es[0].Unstatable? then (es, [])
    else
      var first := Step(path, es[0]);
      var rest := ProcessEntries(path, es[1..]);
      ([first.0] + rest.0, first.1 + rest.1)
  }

  /** The entries from `i` on, one step unfolded. */
  lemma ProcessEntriesAt(path: string, es: seq<Node>, i: int)
    requires 0 <= i < |es|
    ensures es[i].Unstatable? ==> ProcessEntries(path, es[i..]) == (es[i..], [])
    ensures !es[i].Unstatable? ==>
      ProcessEntries(path, es[i..]) == ([Step(path, es[i]).0] + ProcessEntries(path, es[i + 1..]).0,
                                         Step(path, es[i]).1 + ProcessEntries(path, es[i + 1..]).1)
  {
    assert es[i..][0] == es[i];
    assert es[i..][1..] == es[i + 1..];
  }

  /** `processNfoFiles`: a directory that cannot be read is logged and left alone. */
  method ProcessNfoFiles(path: string, d: Node) returns (d': Node, cleaned: seq<string>)
    ensures (d', cleaned) == ProcessDir(path, d)
    decreases d, 0
  {
    if !d.Dir? || !d.readable {
      return d, [];
    }
    var done;
    done, cleaned := ProcessChildren(path, d.children);
    d' := Dir(d.name, d.readable, done);
  }

  /** The `forEach` over a directory's entries, stopping at the first `stat` failure. */
  method ProcessChildren(path: string, es: seq<Node>) returns (done: seq<Node>, cleaned: seq<string>)
    ensures (done, cleaned) == ProcessEntries(path, es)
    decreases es, 0
  {
    assert es[0..] == es;
    done, cleaned := [], [];
    var i := 0;
    while i < |es|
      invariant 0 <= i <= |es|
      invariant Processed(path, es, i, done, cleaned)
    {
      var e := es[i];
      if e.Unstatable? {
        ChildrenStop(path, es, i, done, cleaned);
        done := done + es[i..];
        return;
      }
      var e', c := ProcessEntry(path, e);
      ChildrenStep(path, es, i, done, cleaned, e', c);
      done := done + [e'];
      cleaned := cleaned + c;
      i := i + 1;
    }
    assert es[i..] == [];
    assert done + [] == done && cleaned + [] == cleaned;
  }

  /** The entries before `i` gave `done` and `cleaned`; what is left gives the rest. */
  ghost predicate Processed(path: string, es: seq<Node>, i: nat, done: seq<Node>, cleaned: seq<string>)
    requires i <= |es|
  {
    && ProcessEntries(path, es).0 == done + ProcessEntries(path, es[i..]).0
    && ProcessEntries(path, es).1 == cleaned + ProcessEntries(path, es[i..]).1
  }

  /** An entry whose `stat` throws ends the loop with the remaining entries untouched. */
  lemma ChildrenStop(path: string, es: seq<Node>, i: nat, done: seq<Node>, cleaned: seq<string>)
    requires i < |es| && es[i].Unstatable?
    requires Processed(path, es, i, done, cleaned)
    ensures ProcessEntries(path, es) == (done + es[i..], cleaned)
  {
    ProcessEntriesAt(path, es, i);
    assert cleaned + [] == cleaned;
  }

  /** A processed entry moves from what is left to what is done. */
  lemma ChildrenStep(path: string, es: seq<Node>, i: nat, done: seq<Node>, cleaned: seq<string>, e': Node, c: seq<string>)
    requires i < |es| && !es[i].Unstatable? && (e', c) == Step(path, es[i])
    requires Processed(path, es, i, done, cleaned)
    ensures Processed(path, es, i + 1, done + [e'], cleaned + c)
  {
    ProcessEntriesAt(path, es, i);
    var rest := ProcessEntries(path, es[i + 1..]);
    AppendAssoc(done, [e'], rest.0);
    AppendAssoc(cleaned, c, rest.1);
  }

  lemma AppendAssoc<T>(a: seq<T>, b: seq<T>, c: seq<T>)
    ensures a + (b + c) == (a + b) + c
  {
  }

  /** The body of the `forEach` for one entry. */
  method ProcessEntry(path: string, e: Node) returns (e': Node, cleaned: seq<string>)
    ensures (e', cleaned) == Step(path, e)
    decreases e, 1
  {
    var fullPath := JoinPath(path, e.name);
    if e.Dir? {
      e', cleaned := ProcessNfoFiles(fullPath, e);
    } else if IsNfoName(e.name) {
      e', cleaned := CleanEntry(e), [fullPath];
    } else {
      e', cleaned := e, [];
    }
  }

  // ---------------------------------------------------------------- reference definition

  /** The tree with every reachable `.nfo` file cleaned, failures ignored. */
  function CleanAll(d: Node): Node
    decreases d, 1
  {
    match d
    case Dir(n, r, cs) => Dir(n, r, CleanAllIn(cs))
    case _ => if IsNfoName(d.name) then CleanEntry(d) else d
  }

  function CleanAllIn(es: seq<Node>): (r: seq<Node>)
    ensures |r| == |es|
    decreases es, 0
  {
    if es == [] then [] else [CleanAll(es[0])] + CleanAllIn(es[1..])
  }

  /** The paths of every non-directory `.nfo` entry, hidden ones included, in depth-first order. */
  function NfoPaths(path: string, d: Node): seq<string>
    decreases d, 1
  {
    match d
    case Dir(_, _, cs) => NfoPathsIn(path, cs)
    case _ => []
  }

  function NfoPathsIn(path: string, es: seq<Node>): seq<string>
    decreases es, 0
  {
    if es == [] then []
    else
      var e := es[0];
      var fullPath := JoinPath(path, e.name);
      (if e.Dir? then NfoPaths(fullPath, e) else if IsNfoName(e.name) then [fullPath] else [])
        + NfoPathsIn(path, es[1..])
  }

  /** When nothing fails, the walk cleans exactly the `.nfo` files and visits them all. */
  lemma {:induction false} ProcessHealthy(path: string, d: Node)
    requires d.Dir? && Healthy(d)
    ensures ProcessDir(path, d) == (CleanAll(d), NfoPaths(path, d))
    decreases d, 1
  {
    ProcessEntriesHealthy(path, d.children);
  }

  lemma {:induction false} ProcessEntriesHealthy(path: string, es: seq<Node>)
    requires AllHealthy(es)
    ensures ProcessEntries(path, es) == (CleanAllIn(es), NfoPathsIn(path, es))
    decreases es, 0
  {
    if es != [] {
      var e := es[0];
      ProcessEntriesHealthy(path, es[1..]);
      if e.Dir? {
        ProcessHealthy(JoinPath(path, e.name), e);
      }
      assert CleanAllIn(es) == [CleanAll(e)] + CleanAllIn(es[1..]);
    }
  }

  /** A failing `stat` ends its directory's loop: entries before it are processed,
      it and every later entry are left untouched. */
  lemma {:induction false} StatFailureKeepsRest(path: string, before: seq<Node>, n: string, after: seq<Node>)
    requires forall i :: 0 <= i < |before| ==> !before[i].Unstatable?
    ensures ProcessEntries(path, before + [Unstatable(n)] + after)
      == (ProcessEntries(path, before).0 + [Unstatable(n)] + after, ProcessEntries(path, before).1)
    decreases |before|
  {
    var es := before + [Unstatable(n)] + after;
    if before == [] {
      assert es == [Unstatable(n)] + after;
    } else {
      var x, b := before[0], before[1..];
      var tail := b + [Unstatable(n)] + after;
      assert before == [x] + b;
      assert es == [x] + tail;
      EntriesCons(path, x, tail);
      EntriesCons(path, x, b);
      StatFailureKeepsRest(path, b, n, after);
      var a := ProcessEntries(path, b).0;
      assert [Step(path, x).0] + (a + [Unstatable(n)] + after) == ([Step(path, x).0] + a) + [Unstatable(n)] + after;
    }
  }

  /** The entries after a statable first entry, one step unfolded. */
  lemma EntriesCons(path: string, e: Node, rest: seq<Node>)
    requires !e.Unstatable?
    ensures ProcessEntries(path, [e] + rest) ==
      ([Step(path, e).0] + ProcessEntries(path, rest).0, Step(path, e).1 + ProcessEntries(path, rest).1)
  {
    assert ([e] + rest)[0] == e;
    assert ([e] + rest)[1..] == rest;
  }

  /** Running the tool a second time changes nothing more. */
  lemma {:induction false} ProcessIdempotent(path: string, d: Node)
    ensures ProcessDir(path, ProcessDir(path, d).0).0 == ProcessDir(path, d).0
    decreases d, 1
  {
    if d.Dir? && d.readable {
      ProcessEntriesIdempotent(path, d.children);
    }
  }

  lemma {:induction false} ProcessEntriesIdempotent(path: string, es: seq<Node>)
    ensures ProcessEntries(path, ProcessEntries(path, es).0).0 == ProcessEntries(path, es).0
    decreases es, 0
  {
    if es != [] {
      var e := es[0];
      var once := ProcessEntries(path, es).0;
      if e.Unstatable? {
        assert once == es;
      } else {
        ProcessEntriesIdempotent(path, es[1..]);
        var rest := ProcessEntries(path, es[1..]).0;
        var e' := Step(path, e).0;
        assert once == [e'] + rest;
        assert once[1..] == rest && once[0] == e';
        if e.Dir? {
          ProcessIdempotent(JoinPath(path, e.name), e);
        } else if IsNfoName(e.name) && e.File? && e.accessible {
          CleanIdempotent(e.content);
        }
      }
    }
  }
}
