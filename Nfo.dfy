/** The NFO document written for a video: a fixed XML template filled with the
    scraped metadata, one element per line. */
module Nfo {
  import opened Wrappers
  import opened Strings
  import opened Javdb

  const Indent: string := "    "
  const XmlDeclaration: string := "<?xml version=\"1.0\"" + " encoding=\"UTF-8\"" + " standalone=\"yes\" ?>"
  const Website: string := "https://www.dmm.co.jp" + "/mono/dvd/-/detail" + "/=/cid=%s"
  const MinuteSuffix: string := "分鐘"
  const NoSeries: string := "----"

  /** `releaseDate?.substring(0, 4)`: at most the first four characters. */
  function YearOf(releaseDate: string): (y: string)
    ensures y <= releaseDate
    ensures |y| == if |releaseDate| < 4 then |releaseDate| else 4
  {
    if |releaseDate| <= 4 then releaseDate else releaseDate[..4]
  }

  /** `duration?.replace('分鐘', '')`: the first `分鐘` removed, if there is one. */
  function RuntimeOf(duration: string): (r: string)
    ensures !Contains(duration, MinuteSuffix) ==> r == duration
    ensures Contains(duration, MinuteSuffix) ==>
      var i := IndexOf(duration, MinuteSuffix);
      && r == duration[..i] + duration[i + |MinuteSuffix|..]
      && |r| == |duration| - |MinuteSuffix|
  {
    ReplaceFirst(duration, MinuteSuffix, "")
  }

  /** `<set>`: the series, or `----` when it is missing or empty. */
  function SeriesOf(series: string): string {
    if series == "" then NoSeries else series
  }

  function CoverOf(coverUrl: Option<string>): string {
    match coverUrl
    case None => ""
    case Some(u) => u
  }

  /** One indented element line: `    <tag>value</tag>`. */
  function Element(tag: string, value: string): string {
    Indent + "<" + tag + ">" + value + "</" + tag + ">"
  }

  /** The lines before the actor blocks, from the XML declaration to `<fanart>`. */
  function Header(m: Metadata): seq<string> {
    HeaderTitles(m) + HeaderDates(m) + HeaderFixed()
  }

  function HeaderTitles(m: Metadata): seq<string> {
    [ XmlDeclaration,
      "<movie>",
      Element("title", m.title),
      Element("sorttitle", m.code),
      Element("num", m.code),
      Element("studio", m.maker) ]
  }

  function HeaderDates(m: Metadata): seq<string> {
    [ Element("release", m.releaseDate),
      Element("premiered", m.releaseDate),
      Element("year", YearOf(m.releaseDate)),
      Element("runtime", RuntimeOf(m.duration)) ]
  }

  function HeaderFixed(): seq<string> {
    [ Element("mpaa", "NC-17"),
      Element("country", "JP"),
      Element("poster", "poster.jpg"),
      Element("thumb", "poster.jpg"),
      Element("fanart", "fanart.jpg") ]
  }

  /** The lines after the genres, from `<set>` to `</movie>`. */
  function Footer(m: Metadata): seq<string> {
    [ Element("set", SeriesOf(m.series)),
      Element("label", ""),
      Element("cover", CoverOf(m.coverUrl)),
      Element("website", Website),
      "</movie>" ]
  }

  /** The four lines of one actor's block. */
  function ActorBlock(actor: string): seq<string> {
    [ Indent + "<actor>",
      Indent + Element("name", actor),
      Indent + Element("role", actor),
      Indent + "</actor>" ]
  }

  function ActorBlocks(actors: seq<string>): (r: seq<seq<string>>)
    ensures |r| == |actors|
  {
    seq(|actors|, i requires 0 <= i < |actors| => ActorBlock(actors[i]))
  }

  /** The value of an element line written by `Element(tag, _)`, read back; None for a
      line of another shape. */
  function ElementValue(tag: string, line: string): Option<string> {
    var open, close := Indent + "<" + tag + ">", "</" + tag + ">";
    if |open| + |close| <= |line| && line[..|open|] == open && line[|line| - |close|..] == close
    then Some(line[|open|..|line| - |close|])
    else None
  }

  lemma ElementRoundTrip(tag: string, value: string)
    ensures ElementValue(tag, Element(tag, value)) == Some(value)
  {
    var open, close := Indent + "<" + tag + ">", "</" + tag + ">";
    var line := Element(tag, value);
    assert line == open + value + close;
    assert line[..|open|] == open;
    assert line[|line| - |close|..] == close;
    assert line[|open|..|line| - |close|] == value;
  }

  /** The lines `categories.map((category) => `    <tag>${category}</tag>`)`, for `tag`
      and for `genre`: line `i` reads back as category `i`. */
  function CategoryLines(tag: string, categories: seq<string>): (r: seq<string>)
    ensures |r| == |categories|
    ensures forall i :: 0 <= i < |categories| ==> ElementValue(tag, r[i]) == Some(categories[i])
  {
    var r := seq(|categories|, i requires 0 <= i < |categories| => Element(tag, categories[i]));
    assert forall i :: 0 <= i < |categories| ==> ElementValue(tag, r[i]) == Some(categories[i]) by {
      forall i | 0 <= i < |categories| ensures ElementValue(tag, r[i]) == Some(categories[i]) {
        ElementRoundTrip(tag, categories[i]);
      }
    }
    r
  }

  /** `generateNfo`'s template literal: the header, then three interpolated lines (each
      the template's four spaces followed by a `\n`-joined list), then the footer. */
  function NfoContent(m: Metadata): string {
    var actors := Indent + Join(JoinEach(ActorBlocks(m.actors), "\n"), "\n");
    var tags := Indent + Join(CategoryLines("tag", m.categories), "\n");
    var genres := Indent + Join(CategoryLines("genre", m.categories), "\n");
    Join(Header(m) + [actors, tags, genres] + Footer(m), "\n")
  }

  /** An interpolated list as lines: the template's indent lands on its first line,
      and an empty list leaves a line of four spaces. */
  function Section(lines: seq<string>): (r: seq<string>)
    ensures |r| == if lines == [] then 1 else |lines|
    ensures lines != [] ==> r[0] == Indent + lines[0] && r[1..] == lines[1..]
  {
    if lines == [] then [Indent] else [Indent + lines[0]] + lines[1..]
  }

  lemma JoinSection(lines: seq<string>, sep: string)
    ensures Join(Section(lines), sep) == Indent + Join(lines, sep)
  {
    if lines == [] {
      assert Indent + [] == Indent;
    } else if |lines| == 1 {
      assert Section(lines) == [Indent + lines[0]];
    } else {
      var first, rest := lines[0], lines[1..];
      assert Section(lines) == [Indent + first] + rest;
      JoinCons(Indent + first, rest, sep);
      assert [first] + rest == lines;
      JoinCons(first, rest, sep);
      AppendAssoc3(Indent, first, sep, Join(rest, sep));
    }
  }

  lemma AppendAssoc3(a: string, b: string, c: string, d: string)
    ensures a + b + c + d == a + (b + c + d)
  {
  }

  /** The metadata text that reaches the document holds no line break. */
  predicate SingleLineFields(m: Metadata) {
    && '\n' !in m.title && '\n' !in m.code && '\n' !in m.maker && '\n' !in m.releaseDate
    && '\n' !in m.duration && '\n' !in m.series && '\n' !in CoverOf(m.coverUrl)
    && (forall i :: 0 <= i < |m.actors| ==> '\n' !in m.actors[i])
    && (forall i :: 0 <= i < |m.categories| ==> '\n' !in m.categories[i])
  }

  predicate NoBreaks(lines: seq<string>) {
    forall l :: l in lines ==> '\n' !in l
  }

  /** The document line by line: the header, one four-line block per actor in order,
      one `<tag>` line per category, then one `<genre>` line per category, then the footer. */
  function NfoLines(m: Metadata): seq<string> {
    Header(m) + Section(Flatten(ActorBlocks(m.actors))) + Section(CategoryLines("tag", m.categories))
      + Section(CategoryLines("genre", m.categories)) + Footer(m)
  }

  lemma NoBreakInPart(s: string, i: int, j: int)
    requires 0 <= i <= j <= |s| && '\n' !in s
    ensures '\n' !in s[i..j]
  {
  }

  lemma RuntimeNoBreaks(d: string)
    requires '\n' !in d
    ensures '\n' !in RuntimeOf(d)
  {
    if Contains(d, MinuteSuffix) {
      var i := IndexOf(d, MinuteSuffix);
      NoBreakInPart(d, 0, i);
      NoBreakInPart(d, i + |MinuteSuffix|, |d|);
    }
  }

  lemma ElementNoBreaks(tag: string, value: string)
    requires '\n' !in tag && '\n' !in value
    ensures '\n' !in Element(tag, value)
  {
  }

  lemma XmlDeclarationNoBreaks()
    ensures '\n' !in XmlDeclaration
  {
  }

  lemma WebsiteNoBreaks()
    ensures '\n' !in Website
  {
  }

  lemma ActorBlockNoBreaks(actor: string)
    requires '\n' !in actor
    ensures NoBreaks(ActorBlock(actor))
  {
    ElementNoBreaks("name", actor);
    ElementNoBreaks("role", actor);
  }

  lemma CategoryLinesNoBreaks(categories: seq<string>)
    requires forall i :: 0 <= i < |categories| ==> '\n' !in categories[i]
    ensures NoBreaks(CategoryLines("tag", categories)) && NoBreaks(CategoryLines("genre", categories))
  {
    forall i | 0 <= i < |categories|
      ensures '\n' !in CategoryLines("tag", categories)[i] && '\n' !in CategoryLines("genre", categories)[i]
    {
      ElementNoBreaks("tag", categories[i]);
      ElementNoBreaks("genre", categories[i]);
    }
  }

  lemma HeaderNoBreaks(m: Metadata)
    requires SingleLineFields(m)
    ensures NoBreaks(Header(m))
  {
    HeaderTitlesNoBreaks(m);
    HeaderDatesNoBreaks(m);
    HeaderFixedNoBreaks();
    NoBreaksAppend(HeaderTitles(m), HeaderDates(m));
    NoBreaksAppend(HeaderTitles(m) + HeaderDates(m), HeaderFixed());
  }

  lemma NoBreaksAppend(a: seq<string>, b: seq<string>)
    requires NoBreaks(a) && NoBreaks(b)
    ensures NoBreaks(a + b)
  {
  }

  lemma HeaderTitlesNoBreaks(m: Metadata)
    requires SingleLineFields(m)
    ensures NoBreaks(HeaderTitles(m))
  {
    XmlDeclarationNoBreaks();
    ElementNoBreaks("title", m.title);
    ElementNoBreaks("sorttitle", m.code);
    ElementNoBreaks("num", m.code);
    ElementNoBreaks("studio", m.maker);
  }

  lemma HeaderDatesNoBreaks(m: Metadata)
    requires SingleLineFields(m)
    ensures NoBreaks(HeaderDates(m))
  {
    ElementNoBreaks("release", m.releaseDate);
    ElementNoBreaks("premiered", m.releaseDate);
    if |m.releaseDate| > 4 {
      NoBreakInPart(m.releaseDate, 0, 4);
    }
    ElementNoBreaks("year", YearOf(m.releaseDate));
    RuntimeNoBreaks(m.duration);
    ElementNoBreaks("runtime", RuntimeOf(m.duration));
  }

  lemma HeaderFixedNoBreaks()
    ensures NoBreaks(HeaderFixed())
  {
    ElementNoBreaks("mpaa", "NC-17");
    ElementNoBreaks("country", "JP");
    ElementNoBreaks("poster", "poster.jpg");
    ElementNoBreaks("thumb", "poster.jpg");
    ElementNoBreaks("fanart", "fanart.jpg");
  }

  lemma FooterNoBreaks(m: Metadata)
    requires SingleLineFields(m)
    ensures NoBreaks(Footer(m))
  {
    ElementNoBreaks("set", SeriesOf(m.series));
    ElementNoBreaks("label", "");
    ElementNoBreaks("cover", CoverOf(m.coverUrl));
    WebsiteNoBreaks();
    ElementNoBreaks("website", Website);
  }

  lemma FlattenFive(a: seq<string>, b: seq<string>, c: seq<string>, d: seq<string>, e: seq<string>)
    ensures Flatten([a, b, c, d, e]) == a + b + c + d + e
  {
    assert [a, b, c, d, e][1..] == [b, c, d, e];
    assert [b, c, d, e][1..] == [c, d, e];
    assert [c, d, e][1..] == [d, e];
    assert [d, e][1..] == [e];
    assert Flatten([e]) == e + Flatten([]) == e;
    assert Flatten([d, e]) == d + e;
    assert Flatten([c, d, e]) == c + d + e;
    assert Flatten([b, c, d, e]) == b + c + d + e;
  }

  lemma {:induction false} FlattenNoBreaks(groups: seq<seq<string>>)
    requires forall i :: 0 <= i < |groups| ==> NoBreaks(groups[i])
    ensures NoBreaks(Flatten(groups))
    decreases |groups|
  {
    if groups != [] {
      FlattenNoBreaks(groups[1..]);
    }
  }

  lemma SectionNoBreaks(lines: seq<string>)
    requires NoBreaks(lines)
    ensures NoBreaks(Section(lines))
  {
  }

  /** Every line of the layout is free of line breaks when the fields are. */
  lemma NfoLinesNoBreaks(m: Metadata)
    requires SingleLineFields(m)
    ensures NoBreaks(NfoLines(m))
  {
    var blocks := ActorBlocks(m.actors);
    HeaderNoBreaks(m);
    FooterNoBreaks(m);
    forall i | 0 <= i < |blocks| ensures NoBreaks(blocks[i]) {
      ActorBlockNoBreaks(m.actors[i]);
    }
    FlattenNoBreaks(blocks);
    CategoryLinesNoBreaks(m.categories);
    SectionNoBreaks(Flatten(blocks));
    SectionNoBreaks(CategoryLines("tag", m.categories));
    SectionNoBreaks(CategoryLines("genre", m.categories));
  }

  /** The text is the layout's lines joined with line breaks. */
  lemma NfoContentIsJoinedLines(m: Metadata)
    ensures NfoContent(m) == Join(NfoLines(m), "\n")
  {
    var blocks := ActorBlocks(m.actors);
    var s1, s2, s3 := Section(Flatten(blocks)), Section(CategoryLines("tag", m.categories)), Section(CategoryLines("genre", m.categories));
    var a := Indent + Join(JoinEach(blocks, "\n"), "\n");
    var t := Indent + Join(CategoryLines("tag", m.categories), "\n");
    var g := Indent + Join(CategoryLines("genre", m.categories), "\n");
    SectionsJoin(m);
    var h, f := Header(m), Footer(m);
    assert |h| >= 1 && |f| >= 1;
    JoinFlattenFive(h, [a], [t], [g], f);
    ThreeLines(h, a, t, g, f);
    JoinFlattenFive(h, s1, s2, s3, f);
    JoinEachFive(h, a, t, g, f, s1, s2, s3);
  }

  lemma ThreeLines(h: seq<string>, a: string, t: string, g: string, f: seq<string>)
    ensures h + [a] + [t] + [g] + f == h + [a, t, g] + f
  {
  }

  /** Five non-empty runs of lines joined in one go, or each joined and then joined. */
  lemma JoinFlattenFive(a: seq<string>, b: seq<string>, c: seq<string>, d: seq<string>, e: seq<string>)
    requires |a| >= 1 && |b| >= 1 && |c| >= 1 && |d| >= 1 && |e| >= 1
    ensures Join(a + b + c + d + e, "\n") == Join(JoinEach([a, b, c, d, e], "\n"), "\n")
  {
    FlattenFive(a, b, c, d, e);
    JoinFlatten([a, b, c, d, e], "\n");
  }

  /** Each interpolated list, joined, is its section's lines joined. */
  lemma SectionsJoin(m: Metadata)
    ensures Join(Section(Flatten(ActorBlocks(m.actors))), "\n") == Indent + Join(JoinEach(ActorBlocks(m.actors), "\n"), "\n")
    ensures Join(Section(CategoryLines("tag", m.categories)), "\n") == Indent + Join(CategoryLines("tag", m.categories), "\n")
    ensures Join(Section(CategoryLines("genre", m.categories)), "\n") == Indent + Join(CategoryLines("genre", m.categories), "\n")
  {
    var blocks := ActorBlocks(m.actors);
    JoinSection(Flatten(blocks), "\n");
    JoinFlatten(blocks, "\n");
    JoinSection(CategoryLines("tag", m.categories), "\n");
    JoinSection(CategoryLines("genre", m.categories), "\n");
  }

  lemma JoinEachFive(h: seq<string>, a: string, t: string, g: string, f: seq<string>,
                     s1: seq<string>, s2: seq<string>, s3: seq<string>)
    requires Join(s1, "\n") == a && Join(s2, "\n") == t && Join(s3, "\n") == g
    ensures JoinEach([h, [a], [t], [g], f], "\n") == JoinEach([h, s1, s2, s3, f], "\n")
  {
    var x, y := JoinEach([h, [a], [t], [g], f], "\n"), JoinEach([h, s1, s2, s3, f], "\n");
    assert x[1] == Join([a], "\n") == a;
    assert x[2] == Join([t], "\n") == t;
    assert x[3] == Join([g], "\n") == g;
  }

  /** Reading the document back line by line gives exactly the layout. */
  lemma NfoLayout(m: Metadata)
    requires SingleLineFields(m)
    ensures Split(NfoContent(m), '\n') == NfoLines(m)
  {
    NfoContentIsJoinedLines(m);
    NfoLinesNoBreaks(m);
    var lines := NfoLines(m);
    assert forall i :: 0 <= i < |lines| ==> '\n' !in lines[i] by {
      forall i | 0 <= i < |lines| ensures '\n' !in lines[i] {
        assert lines[i] in lines;
      }
    }
    SplitJoin(lines, '\n');
  }

  /** Actor `i`'s block sits at lines `4i .. 4i+4` of the flattened blocks. */
  lemma {:induction false} ActorBlockAt(actors: seq<string>, i: int)
    requires 0 <= i < |actors|
    ensures |Flatten(ActorBlocks(actors))| == 4 * |actors|
    ensures Flatten(ActorBlocks(actors))[4 * i..4 * i + 4] == ActorBlock(actors[i])
    decreases |actors|
  {
    var blocks := ActorBlocks(actors);
    assert blocks[1..] == ActorBlocks(actors[1..]);
    assert Flatten(blocks) == ActorBlock(actors[0]) + Flatten(ActorBlocks(actors[1..]));
    if i == 0 {
      if |actors| > 1 {
        ActorBlockAt(actors[1..], 0);
      }
    } else {
      ActorBlockAt(actors[1..], i - 1);
      assert actors[1..][i - 1] == actors[i];
    }
  }
}
