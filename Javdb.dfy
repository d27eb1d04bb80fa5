/** The catalogue client: the cookie file parser, the search-result matcher
    of `getVideoInfo`, and the request retry loop. */
module Javdb {
  import opened Wrappers
  import opened Strings

  const BaseUrl: string := "https://javdb.com"
  const EmptyCodeError: string := "视频编号不能为空"
  const NoMatchError: string := "未找到匹配的视频信息"

  /** The metadata scraped from a detail page; every text field is trimmed text,
      empty when the page lacks it; the cover URL is absent when there is no cover image. */
  datatype Metadata = Metadata(
    title: string,
    code: string,
    releaseDate: string,
    duration: string,
    maker: string,
    series: string,
    rating: string,
    categories: seq<string>,
    actors: seq<string>,
    coverUrl: Option<string>)

  // ---------------------------------------------------------------- cookie file

  /** Lines that survive the first filter: non-empty and not a `#` comment. */
  predicate KeptLine(line: string) {
    line != "" && !StartsWith(line, "#")
  }

  /** The `name=value` item of one Netscape cookie line (tab separated: domain, name,
      value, ...), or None when the domain lacks `javdb.com` or name or value is empty. */
  function CookieItem(line: string): (r: Option<string>)
    ensures r.Some? <==>
      var f := Split(line, '\t'); |f| >= 3 && Contains(f[0], "javdb.com") && f[1] != "" && f[2] != ""
    ensures r.Some? ==> var f := Split(line, '\t'); r.value == Trim(f[1]) + "=" + Trim(f[2])
  {
    var fields := Split(line, '\t');
    if |fields| < 3 || !Contains(fields[0], "javdb.com") || fields[1] == "" || fields[2] == "" then None
    else Some(Trim(fields[1]) + "=" + Trim(fields[2]))
  }

  /** The filter/map/filter stage: one item per qualifying line, in line order. */
  function CookieItems(lines: seq<string>): (items: seq<string>)
    ensures |items| <= |lines|
    ensures forall it :: it in items ==> exists line :: line in lines && KeptLine(line) && CookieItem(line) == Some(it)
  {
    if lines == [] then []
    else
      var rest := CookieItems(lines[1..]);
      var line := lines[0];
      if KeptLine(line) && CookieItem(line).Some? then [CookieItem(line).value] + rest else rest
  }

  /** The key the de-duplicating map uses: the item's text before its first `=`. */
  function Key(item: string): string {
    item[..IndexOfChar(item, '=')]
  }

  /** `Key` is the first part of `item.split('=')`, which the source takes as the name. */
  lemma KeyIsFirstPart(item: string)
    ensures Key(item) == Split(item, '=')[0]
  {
  }

  function Keys(items: seq<string>): (ks: seq<string>)
    ensures |ks| == |items|
    ensures forall i :: 0 <= i < |items| ==> ks[i] == Key(items[i])
  {
    seq(|items|, i requires 0 <= i < |items| => Key(items[i]))
  }

  /** Distinct keys in order of first occurrence (the insertion order of a JS Map). */
  function UniqueKeys(ks: seq<string>): seq<string> {
    if ks == [] then []
    else
      var u := UniqueKeys(ks[..|ks| - 1]);
      if ks[|ks| - 1] in u then u else u + [ks[|ks| - 1]]
  }

  predicate Distinct(s: seq<string>) {
    forall i, j :: 0 <= i < j < |s| ==> s[i] != s[j]
  }

  /** The first index of `k` in `ks`. */
  function FirstIndex(ks: seq<string>, k: string): (i: nat)
    requires k in ks
    ensures i < |ks| && ks[i] == k
    ensures forall j :: 0 <= j < i ==> ks[j] != k
  {
    if ks[0] == k then 0 else 1 + FirstIndex(ks[1..], k)
  }

  lemma FirstIndexAppend(ks: seq<string>, x: string, k: string)
    requires k in ks
    ensures FirstIndex(ks + [x], k) == FirstIndex(ks, k)
  {
    var i := FirstIndex(ks, k);
    var s := ks + [x];
    assert s[i] == k;
    assert forall j :: 0 <= j < i ==> s[j] != k;
    var i' := FirstIndex(s, k);
    assert i' <= i;
  }

  /** Each key once, every key of the input, in order of first occurrence. */
  lemma {:induction false} UniqueKeysSpec(ks: seq<string>)
    ensures Distinct(UniqueKeys(ks))
    ensures forall k :: k in UniqueKeys(ks) <==> k in ks
    ensures forall i, j :: 0 <= i < j < |UniqueKeys(ks)| ==>
      FirstIndex(ks, UniqueKeys(ks)[i]) < FirstIndex(ks, UniqueKeys(ks)[j])
    decreases |ks|
  {
    if ks != [] {
      UniqueKeysSpec(ks[..|ks| - 1]);
      UniqueKeysStep(ks);
    }
  }

  /** One more key keeps the three properties of `UniqueKeysSpec`. */
  lemma UniqueKeysStep(ks: seq<string>)
    requires ks != []
    requires var init := ks[..|ks| - 1];
      && Distinct(UniqueKeys(init))
      && (forall k :: k in UniqueKeys(init) <==> k in init)
      && forall i, j :: 0 <= i < j < |UniqueKeys(init)| ==>
           FirstIndex(init, UniqueKeys(init)[i]) < FirstIndex(init, UniqueKeys(init)[j])
    ensures Distinct(UniqueKeys(ks))
    ensures forall k :: k in UniqueKeys(ks) <==> k in ks
    ensures forall i, j :: 0 <= i < j < |UniqueKeys(ks)| ==>
      FirstIndex(ks, UniqueKeys(ks)[i]) < FirstIndex(ks, UniqueKeys(ks)[j])
  {
    var init, x := ks[..|ks| - 1], ks[|ks| - 1];
    assert ks == init + [x];
    UniqueKeysStepOrder(ks);
  }

  lemma UniqueKeysStepOrder(ks: seq<string>)
    requires ks != []
    requires var init := ks[..|ks| - 1];
      && (forall k :: k in UniqueKeys(init) <==> k in init)
      && forall i, j :: 0 <= i < j < |UniqueKeys(init)| ==>
           FirstIndex(init, UniqueKeys(init)[i]) < FirstIndex(init, UniqueKeys(init)[j])
    ensures forall k :: k in UniqueKeys(ks) ==> k in ks
    ensures forall i, j :: 0 <= i < j < |UniqueKeys(ks)| ==>
      FirstIndex(ks, UniqueKeys(ks)[i]) < FirstIndex(ks, UniqueKeys(ks)[j])
  {
    var init, x := ks[..|ks| - 1], ks[|ks| - 1];
    assert ks == init + [x];
    var u := UniqueKeys(init);
    if x in u {
      assert UniqueKeys(ks) == u;
      forall i, j | 0 <= i < j < |u| ensures FirstIndex(ks, u[i]) < FirstIndex(ks, u[j]) {
        assert u[i] in u && u[j] in u;
        FirstIndexAppend(init, x, u[i]);
        FirstIndexAppend(init, x, u[j]);
      }
    } else {
      var v := u + [x];
      assert UniqueKeys(ks) == v;
      assert x !in init;
      assert FirstIndex(ks, x) == |init|;
      forall i, j | 0 <= i < j < |v| ensures FirstIndex(ks, v[i]) < FirstIndex(ks, v[j]) {
        assert v[i] == u[i] && u[i] in u;
        FirstIndexAppend(init, x, u[i]);
        if j < |u| {
          assert v[j] == u[j] && u[j] in u;
          FirstIndexAppend(init, x, u[j]);
        }
      }
    }
  }

  predicate HasKey(items: seq<string>, k: string) {
    exists j :: 0 <= j < |items| && Key(items[j]) == k
  }

  /** The last item whose key is `k`: the value `cookieMap.set` leaves behind. */
  function Latest(items: seq<string>, k: string): string
    requires HasKey(items, k)
  {
    var last := items[|items| - 1];
    if Key(last) == k then last
    else
      var init := items[..|items| - 1];
      assert HasKey(init, k) by {
        var j :| 0 <= j < |items| && Key(items[j]) == k;
        assert j < |items| - 1 && init[j] == items[j];
      }
      Latest(init, k)
  }

  /** `j` is the last index of an item with key `k`. */
  predicate IsLastWithKey(items: seq<string>, j: int, k: string) {
    0 <= j < |items| && Key(items[j]) == k && forall j' :: j < j' < |items| ==> Key(items[j']) != k
  }

  /** Dropping a last item of another key keeps the key and its latest item. */
  lemma LatestDropLast(items: seq<string>, k: string)
    requires HasKey(items, k) && Key(items[|items| - 1]) != k
    ensures HasKey(items[..|items| - 1], k)
    ensures Latest(items, k) == Latest(items[..|items| - 1], k)
  {
    var j :| 0 <= j < |items| && Key(items[j]) == k;
    assert items[..|items| - 1][j] == items[j];
  }

  /** `Latest` is the item at the last index with that key. */
  lemma {:induction false} LatestIsLast(items: seq<string>, k: string)
    requires HasKey(items, k)
    ensures exists j :: IsLastWithKey(items, j, k) && items[j] == Latest(items, k)
    decreases |items|
  {
    var n := |items|;
    if Key(items[n - 1]) == k {
      assert IsLastWithKey(items, n - 1, k);
    } else {
      var init := items[..n - 1];
      LatestDropLast(items, k);
      LatestIsLast(init, k);
      var j :| IsLastWithKey(init, j, k) && init[j] == Latest(init, k);
      LastWithKeyExtends(items, j, k);
    }
  }

  /** The last index of a key stays the last when an item of another key is appended. */
  lemma LastWithKeyExtends(items: seq<string>, j: int, k: string)
    requires items != [] && Key(items[|items| - 1]) != k
    requires IsLastWithKey(items[..|items| - 1], j, k)
    ensures IsLastWithKey(items, j, k) && items[j] == items[..|items| - 1][j]
  {
    var n, init := |items|, items[..|items| - 1];
    forall j' | j < j' < n ensures Key(items[j']) != k {
      if j' < n - 1 { assert items[j'] == init[j']; }
    }
  }

  lemma KeyInUnique(items: seq<string>, k: string)
    requires k in UniqueKeys(Keys(items))
    ensures HasKey(items, k)
  {
    UniqueKeysSpec(Keys(items));
    var j :| 0 <= j < |items| && Keys(items)[j] == k;
  }

  /** The de-duplicated items: per distinct key, in first-occurrence order, the latest item. */
  function Deduped(items: seq<string>): (r: seq<string>)
    ensures |r| == |UniqueKeys(Keys(items))|
  {
    var u := UniqueKeys(Keys(items));
    seq(|u|, i requires 0 <= i < |u| => (KeyInUnique(items, u[i]); Latest(items, u[i])))
  }

  /** Every key of the input appears exactly once in the output, under its own key,
      with the value of the last item that had it, at the place of its first item. */
  lemma DedupedSpec(items: seq<string>)
    ensures var r := Deduped(items);
      && (forall i :: 0 <= i < |r| ==> Key(r[i]) == UniqueKeys(Keys(items))[i])
      && (forall i, j :: 0 <= i < j < |r| ==> Key(r[i]) != Key(r[j]))
      && (forall it :: it in items ==> exists i :: 0 <= i < |r| && Key(r[i]) == Key(it))
      && (forall i :: 0 <= i < |r| ==> exists j :: IsLastWithKey(items, j, Key(r[i])) && items[j] == r[i])
      && (forall i, j :: 0 <= i < j < |r| ==>
            Key(r[i]) in Keys(items) && Key(r[j]) in Keys(items) &&
            FirstIndex(Keys(items), Key(r[i])) < FirstIndex(Keys(items), Key(r[j])))
  {
    DedupedLatest(items);
    DedupedOrder(items);
    DedupedCovers(items);
  }

  /** Each output item is the latest item of the key at its place in the key order. */
  lemma DedupedLatest(items: seq<string>)
    ensures var r, u := Deduped(items), UniqueKeys(Keys(items));
      forall i :: 0 <= i < |r| ==> Key(r[i]) == u[i] && exists j :: IsLastWithKey(items, j, Key(r[i])) && items[j] == r[i]
  {
    var r, u := Deduped(items), UniqueKeys(Keys(items));
    forall i | 0 <= i < |r|
      ensures Key(r[i]) == u[i] && exists j :: IsLastWithKey(items, j, Key(r[i])) && items[j] == r[i]
    {
      KeyInUnique(items, u[i]);
      LatestIsLast(items, u[i]);
    }
  }

  /** The output keys are the input keys, each once, in order of first occurrence. */
  lemma DedupedOrder(items: seq<string>)
    ensures var r := Deduped(items);
      && (forall i, j :: 0 <= i < j < |r| ==> Key(r[i]) != Key(r[j]))
      && (forall i, j :: 0 <= i < j < |r| ==>
            Key(r[i]) in Keys(items) && Key(r[j]) in Keys(items) &&
            FirstIndex(Keys(items), Key(r[i])) < FirstIndex(Keys(items), Key(r[j])))
  {
    DedupedLatest(items);
    UniqueKeysSpec(Keys(items));
  }

  /** Every input key has its output item. */
  lemma DedupedCovers(items: seq<string>)
    ensures var r := Deduped(items);
      forall it :: it in items ==> exists i :: 0 <= i < |r| && Key(r[i]) == Key(it)
  {
    var r, ks := Deduped(items), Keys(items);
    var u := UniqueKeys(ks);
    UniqueKeysSpec(ks);
    DedupedLatest(items);
    forall it | it in items ensures exists i :: 0 <= i < |r| && Key(r[i]) == Key(it) {
      var j :| 0 <= j < |items| && items[j] == it;
      assert ks[j] == Key(it);
      assert Key(it) in u;
      var i :| 0 <= i < |u| && u[i] == Key(it);
      assert Key(r[i]) == u[i];
    }
  }

  /** What the loop of `DedupeCookies` knows after the first `n` items: the map's
      insertion order and its latest value per key. */
  ghost predicate DedupeState(prefix: seq<string>, order: seq<string>, cookieMap: map<string, string>) {
    && order == UniqueKeys(Keys(prefix))
    && (forall k :: k in cookieMap <==> k in order)
    && forall k :: k in cookieMap ==> HasKey(prefix, k) && cookieMap[k] == Latest(prefix, k)
  }

  /** Another item appended leaves an older key's latest item alone. */
  lemma LatestAppendOther(prefix: seq<string>, item: string, k: string)
    requires HasKey(prefix, k) && Key(item) != k
    ensures HasKey(prefix + [item], k) && Latest(prefix + [item], k) == Latest(prefix, k)
  {
    var next := prefix + [item];
    var j :| 0 <= j < |prefix| && Key(prefix[j]) == k;
    assert next[j] == prefix[j];
    assert next[..|prefix|] == prefix;
  }

  lemma LatestAppendSame(prefix: seq<string>, item: string)
    ensures HasKey(prefix + [item], Key(item)) && Latest(prefix + [item], Key(item)) == item
  {
    assert (prefix + [item])[|prefix|] == item;
  }

  lemma UniqueKeysAppend(prefix: seq<string>, item: string)
    ensures var u := UniqueKeys(Keys(prefix));
      UniqueKeys(Keys(prefix + [item])) == if Key(item) in u then u else u + [Key(item)]
  {
    var ks := Keys(prefix + [item]);
    assert ks == Keys(prefix) + [Key(item)];
    assert ks[..|prefix|] == Keys(prefix);
  }

  /** One `cookieMap.set(Key(item), item)` keeps the state in step with one more item. */
  lemma DedupeStateStep(items: seq<string>, n: nat, order: seq<string>, cookieMap: map<string, string>,
                        order': seq<string>, cookieMap': map<string, string>)
    requires n < |items| && DedupeState(items[..n], order, cookieMap)
    requires order' == if Key(items[n]) in cookieMap then order else order + [Key(items[n])]
    requires cookieMap' == cookieMap[Key(items[n]) := items[n]]
    ensures DedupeState(items[..n + 1], order', cookieMap')
  {
    DedupeStepOrder(items, n, order, cookieMap);
    DedupeStepValues(items, n, cookieMap);
  }

  /** The insertion order grows by the item's key exactly when the key is new. */
  lemma DedupeStepOrder(items: seq<string>, n: nat, order: seq<string>, cookieMap: map<string, string>)
    requires n < |items|
    requires order == UniqueKeys(Keys(items[..n])) && forall k :: k in cookieMap <==> k in order
    ensures var order' := if Key(items[n]) in cookieMap then order else order + [Key(items[n])];
      && order' == UniqueKeys(Keys(items[..n + 1]))
      && forall k :: k in cookieMap[Key(items[n]) := items[n]] <==> k in order'
  {
    var prefix, item := items[..n], items[n];
    assert items[..n + 1] == prefix + [item];
    UniqueKeysAppend(prefix, item);
    assert Key(item) in cookieMap <==> Key(item) in order;
  }

  /** After the set, every key maps to its latest item. */
  lemma DedupeStepValues(items: seq<string>, n: nat, cookieMap: map<string, string>)
    requires n < |items|
    requires forall k :: k in cookieMap ==> HasKey(items[..n], k) && cookieMap[k] == Latest(items[..n], k)
    ensures var map' := cookieMap[Key(items[n]) := items[n]];
      forall k :: k in map' ==> HasKey(items[..n + 1], k) && map'[k] == Latest(items[..n + 1], k)
  {
    var prefix, item := items[..n], items[n];
    var map' := cookieMap[Key(item) := item];
    assert items[..n + 1] == prefix + [item];
    forall k | k in map'
      ensures HasKey(prefix + [item], k) && map'[k] == Latest(prefix + [item], k)
    {
      if k == Key(item) {
        LatestAppendSame(prefix, item);
      } else {
        LatestAppendOther(prefix, item, k);
      }
    }
  }

  /** The `forEach` over the items with `cookieMap.set(name, item)`, then the map's values. */
  method DedupeCookies(items: seq<string>) returns (r: seq<string>)
    ensures r == Deduped(items)
  {
    var order: seq<string> := [];
    var cookieMap: map<string, string> := map[];
    var n := 0;
    while n < |items|
      invariant n <= |items|
      invariant DedupeState(items[..n], order, cookieMap)
    {
      var item := items[n];
      var name := Key(item);
      var order' := if name in cookieMap then order else order + [name];
      var cookieMap' := cookieMap[name := item];
      DedupeStateStep(items, n, order, cookieMap, order', cookieMap');
      order, cookieMap := order', cookieMap';
      n := n + 1;
    }
    assert items[..n] == items;
    DedupeStateFinal(items, order, cookieMap);
    r := seq(|order|, i requires 0 <= i < |order| => cookieMap[order[i]]);
  }

  /** Once every item is in, the map's values in insertion order are the de-duplicated items. */
  lemma DedupeStateFinal(items: seq<string>, order: seq<string>, cookieMap: map<string, string>)
    requires DedupeState(items, order, cookieMap)
    ensures forall k :: k in order ==> k in cookieMap
    ensures seq(|order|, i requires 0 <= i < |order| => cookieMap[order[i]]) == Deduped(items)
  {
    var r := seq(|order|, i requires 0 <= i < |order| => cookieMap[order[i]]);
    var d := Deduped(items);
    assert |r| == |d|;
    forall i | 0 <= i < |r| ensures r[i] == d[i] {
      assert order[i] in cookieMap;
    }
  }

  /** `parseCookieFile`: an empty path, or a file that cannot be read (`content` None),
      gives the empty string; otherwise the de-duplicated items joined with `; `. */
  method ParseCookieFile(filePath: string, content: Option<string>) returns (cookies: string)
    ensures filePath == "" || content == None ==> cookies == ""
    ensures filePath != "" && content.Some? ==>
      cookies == Join(Deduped(CookieItems(Split(content.value, '\n'))), "; ")
  {
    if filePath == "" {
      return "";
    }
    match content {
      case None =>
        cookies := "";
      case Some(text) =>
        var lines := Split(text, '\n');
        var items := CookieItems(lines);
        var values := DedupeCookies(items);
        cookies := Join(values, "; ");
    }
  }

  // ---------------------------------------------------------------- search match

  /** One `.movie-list .item` of the search page: its `.video-title` text and its link. */
  datatype SearchItem = SearchItem(title: string, href: string)

  predicate IsCodeChar(c: char) {
    ('a' <= c <= 'z') || ('A' <= c <= 'Z') || ('0' <= c <= '9') || c == '-'
  }

  /** The match of `/^([a-zA-Z0-9-]+)/` on a title: its longest leading run of code
      characters (empty when there is no match). */
  function LeadingCode(title: string): (run: string)
    ensures run <= title
    ensures forall i :: 0 <= i < |run| ==> IsCodeChar(run[i])
    ensures |run| == |title| || !IsCodeChar(title[|run|])
  {
    if title != [] && IsCodeChar(title[0]) then [title[0]] + LeadingCode(title[1..]) else []
  }

  /** Whether a search item is the one `getVideoInfo` accepts for `code`. */
  predicate Matches(item: SearchItem, code: string) {
    var run := LeadingCode(item.title);
    run != "" && ToLower(run) == ToLower(Trim(code))
  }

  /** No search item matches `code`. */
  predicate NoMatch(items: seq<SearchItem>, code: string) {
    forall i :: 0 <= i < |items| ==> !Matches(items[i], code)
  }

  /** Item `i` is the first search item that matches `code`. */
  predicate FirstMatch(items: seq<SearchItem>, code: string, i: int) {
    && 0 <= i < |items| && Matches(items[i], code)
    && forall j :: 0 <= j < i ==> !Matches(items[j], code)
  }

  /** The `each` loop over the search items, stopping at the first match. */
  method FindDetailUrl(items: seq<SearchItem>, code: string) returns (detailUrl: Option<string>)
    ensures detailUrl.None? <==> NoMatch(items, code)
    ensures detailUrl.Some? ==>
      exists i :: FirstMatch(items, code, i) && detailUrl.value == BaseUrl + items[i].href
  {
    detailUrl := None;
    var i := 0;
    while i < |items|
      invariant i <= |items|
      invariant forall j :: 0 <= j < i ==> !Matches(items[j], code)
    {
      if Matches(items[i], code) {
        detailUrl := Some(BaseUrl + items[i].href);
        assert FirstMatch(items, code, i);
        return;
      }
      i := i + 1;
    }
  }

  /** A request `getVideoInfo` sends. */
  datatype Fetch = SearchPage(query: string) | DetailPage(url: string)

  /** A code `getVideoInfo` accepts: present and not blank. */
  predicate ValidCode(code: Option<string>) {
    code.Some? && Trim(code.value) != ""
  }

  /** `getVideoInfo`: the guard on the code, the search, the match and the detail page.
      `search` is the search page's items (or the error it failed with); `detail` is the
      metadata read from the detail page (or that request's error). */
  method GetVideoInfo(code: Option<string>, search: Result<seq<SearchItem>>, detail: Result<Metadata>)
    returns (r: Result<Metadata>, requests: seq<Fetch>)
    ensures !ValidCode(code) ==> r == Err(EmptyCodeError) && requests == []
    ensures ValidCode(code) ==> |requests| >= 1 && requests[0] == SearchPage(Trim(code.value))
    ensures ValidCode(code) && search.Err? ==> r == Err(search.msg) && |requests| == 1
    ensures ValidCode(code) && search.Ok? && NoMatch(search.value, code.value) ==>
      r == Err(NoMatchError) && |requests| == 1
    ensures ValidCode(code) && search.Ok? && !NoMatch(search.value, code.value) ==>
      && r == detail && |requests| == 2
      && exists i :: FirstMatch(search.value, code.value, i) && requests[1] == DetailPage(BaseUrl + search.value[i].href)
    ensures r.Ok? ==> r == detail && ValidCode(code) && search.Ok? && !NoMatch(search.value, code.value)
  {
    requests := [];
    if code.None? || Trim(code.value) == "" {
      return Err(EmptyCodeError), requests;
    }
    var c := code.value;
    requests := requests + [SearchPage(Trim(c))];
    if search.Err? {
      return Err(search.msg), requests;
    }
    var detailUrl := FindDetailUrl(search.value, c);
    if detailUrl.None? {
      return Err(NoMatchError), requests;
    }
    requests := requests + [DetailPage(detailUrl.value)];
    r := detail;
  }

  // ---------------------------------------------------------------- request retry

  /** What one attempt of the HTTP client gives: a response, or an error that may be
      a network error and may carry an HTTP status. */
  datatype Attempt = Response(body: string) | Failure(network: bool, status: Option<int>, message: string)

  /** Network errors and HTTP 429 are the failures the client is configured to retry. */
  predicate Retryable(a: Attempt) {
    a.Failure? && (a.network || a.status == Some(429))
  }

  /** The client's `retryCondition` as written. The axios module has no `isNetworkError`
      function, so the call throws a `TypeError` on every failed attempt. */
  function ConditionAsWritten(a: Attempt): (c: Result<bool>)
    ensures c == Err(NotAFunction)
  {
    Err(NotAFunction)
  }

  /** The condition evidently intended: retry exactly the retryable failures. */
  function ConditionIntended(a: Attempt): (c: Result<bool>)
    ensures c.Ok? && (c.value <==> Retryable(a))
  {
    Ok(Retryable(a))
  }

  /** Node's message for calling `axios.isNetworkError`. */
  const NotAFunction: string := "axios.isNetworkError is not a function"

  /** `request` from attempt `k` on, under a retry condition that may itself throw: the
      result it settles with and the number of attempts made in all. */
  function RequestFrom(retry: int, condition: Attempt -> Result<bool>, outcome: nat -> Attempt, k: nat)
    : (result: (Result<string>, nat))
    requires k < retry
    ensures k < result.1 <= retry
    decreases retry - k
  {
    match outcome(k)
    case Response(body) => (Ok(body), k + 1)
    case Failure(_, _, message) =>
      var c := condition(outcome(k));
      if c.Err? then (Err(c.msg), k + 1)
      else if !c.value || k == retry - 1 then (Err(message), k + 1)
      else RequestFrom(retry, condition, outcome, k + 1)
  }

  /** `request`: at most `retry` attempts; `outcome(k)` is what attempt `k` (from 0) gives
      and `condition` is the client's `retryCondition`. `r` is None when the loop does not
      run at all (the function then returns undefined). `waits[k]` is the pause taken
      after the failure of attempt `k`. */
  method Request(retry: int, retryDelay: int, condition: Attempt -> Result<bool>, outcome: nat -> Attempt)
    returns (r: Option<Result<string>>, attempts: nat, waits: seq<int>)
    ensures retry <= 0 ==> r == None && attempts == 0 && waits == []
    ensures retry > 0 ==>
      r == Some(RequestFrom(retry, condition, outcome, 0).0) && attempts == RequestFrom(retry, condition, outcome, 0).1
    ensures |waits| == if attempts == 0 then 0 else attempts - 1
    ensures forall k :: 0 <= k < |waits| ==> waits[k] == retryDelay * (k + 1)
  {
    var retries := 0;
    r, attempts, waits := None, 0, [];
    while retries < retry
      invariant 0 <= retries && (retry > 0 ==> retries < retry) && (retry <= 0 ==> retries == 0)
      invariant attempts == retries && r == None
      invariant |waits| == retries
      invariant forall k :: 0 <= k < |waits| ==> waits[k] == retryDelay * (k + 1)
      invariant retry > 0 ==> RequestFrom(retry, condition, outcome, 0) == RequestFrom(retry, condition, outcome, retries)
      decreases retry - retries
    {
      var a := outcome(retries);
      attempts := attempts + 1;
      if a.Response? {
        return Some(Ok(a.body)), attempts, waits;
      }
      var retryable := condition(a);
      if retryable.Err? {
        return Some(Err(retryable.msg)), attempts, waits;
      }
      if !retryable.value || retries == retry - 1 {
        return Some(Err(a.message)), attempts, waits;
      }
      retries := retries + 1;
      waits := waits + [retryDelay * retries];
    }
  }

  /** As written, `request` never retries: the first failed attempt ends it with the
      `TypeError` of the retry condition. */
  lemma AsWrittenNeverRetries(retry: int, outcome: nat -> Attempt)
    requires retry > 0
    ensures RequestFrom(retry, ConditionAsWritten, outcome, 0) ==
      (if outcome(0).Response? then Ok(outcome(0).body) else Err(NotAFunction), 1)
  {
  }

  /** With the intended condition, every failure but the last was retryable, and the
      result is the last attempt's response or error; a failure ends the loop only when
      it is not retryable or the attempts are used up. */
  lemma {:induction false} IntendedRequest(retry: int, outcome: nat -> Attempt, k: nat)
    requires k < retry
    ensures
      var (res, n) := RequestFrom(retry, ConditionIntended, outcome, k);
      && (forall j :: k <= j < n - 1 ==> Retryable(outcome(j)))
      && (res.Ok? ==> outcome(n - 1) == Response(res.value))
      && (res.Err? ==>
            && outcome(n - 1).Failure? && res.msg == outcome(n - 1).message
            && (!Retryable(outcome(n - 1)) || n == retry))
    decreases retry - k
  {
    if outcome(k).Failure? && Retryable(outcome(k)) && k < retry - 1 {
      IntendedRequest(retry, outcome, k + 1);
    }
  }

  /** A network error followed by a response, with three attempts allowed: as written the
      request fails with the `TypeError`, as intended it returns the response. */
  lemma RetryCounterexample()
    ensures
      var outcome := (k: nat) => if k == 0 then Failure(true, None, "Network Error") else Response("ok");
      && RequestFrom(3, ConditionAsWritten, outcome, 0) == (Err(NotAFunction), 1)
      && RequestFrom(3, ConditionIntended, outcome, 0) == (Ok("ok"), 2)
  {
  }
}
