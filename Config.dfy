/** The configuration: the user's settings merged over the defaults, and the
    lookup of a setting by a dot-separated key. */
module ConfigService {
  import opened Wrappers
  import opened Strings

  /** A parsed YAML value. Objects are maps: their key order is not kept. */
  datatype Json =
    | JNull
    | JBool(b: bool)
    | JNum(n: int)
    | JStr(s: string)
    | JArr(items: seq<Json>)
    | JObj(fields: map<string, Json>)

  /** JavaScript truthiness. */
  predicate Truthy(j: Json) {
    match j
    case JNull => false
    case JBool(b) => b
    case JNum(n) => n != 0
    case JStr(s) => s != ""
    case _ => true
  }

  // ---------------------------------------------------------------- own properties

  /** The indexed elements of an array, or the one-character strings of a string. */
  function Items(j: Json): (r: seq<Json>)
    ensures j.JArr? ==> r == j.items
    ensures j.JStr? ==> |r| == |j.s| && forall i :: 0 <= i < |r| ==> r[i] == JStr([j.s[i]])
    ensures !j.JArr? && !j.JStr? ==> r == []
  {
    match j
    case JArr(items) => items
    case JStr(s) => seq(|s|, i requires 0 <= i < |s| => JStr([s[i]]))
    case _ => []
  }

  /** `{0: items[0], 1: items[1], ...}` */
  function Indexed(items: seq<Json>): map<string, Json> {
    if items == [] then map[]
    else Indexed(items[..|items| - 1])[NatToString(|items| - 1) := items[|items| - 1]]
  }

  /** The keys of the first `n` indices. */
  function IndexKeys(n: nat): set<string> {
    set i | 0 <= i < n :: NatToString(i)
  }

  /** Index `i` is spelled `NatToString(i)` and holds `items[i]`; there are no other keys. */
  lemma {:induction false} IndexedSpec(items: seq<Json>)
    ensures Indexed(items).Keys == IndexKeys(|items|)
    ensures forall i :: 0 <= i < |items| ==> Indexed(items)[NatToString(i)] == items[i]
    decreases |items|
  {
    if items != [] {
      var n := |items| - 1;
      IndexedSpec(items[..n]);
      IndexKeysStep(n);
      IndexedStep(items);
    }
  }

  lemma IndexKeysStep(n: nat)
    ensures IndexKeys(n + 1) == IndexKeys(n) + {NatToString(n)}
  {
    assert forall i :: 0 <= i < n ==> NatToString(i) in IndexKeys(n + 1);
  }

  /** The last index is added without disturbing the earlier ones. */
  lemma IndexedStep(items: seq<Json>)
    requires items != []
    requires var init := items[..|items| - 1];
      forall i :: 0 <= i < |init| ==> NatToString(i) in Indexed(init) && Indexed(init)[NatToString(i)] == init[i]
    ensures forall i :: 0 <= i < |items| ==> NatToString(i) in Indexed(items) && Indexed(items)[NatToString(i)] == items[i]
  {
    var n := |items| - 1;
    var init := items[..n];
    forall i | 0 <= i < |items|
      ensures NatToString(i) in Indexed(items) && Indexed(items)[NatToString(i)] == items[i]
    {
      if i < n {
        if NatToString(i) == NatToString(n) {
          NatToStringInjective(i, n);
        }
        assert init[i] == items[i];
      }
    }
  }

  /** The own enumerable properties of a value: the keys `for...in` visits and the
      entries the spread `{...j}` copies. Arrays and strings give their indices;
      null, booleans and numbers give nothing. */
  function Spread(j: Json): (m: map<string, Json>)
    ensures j.JObj? ==> m == j.fields
    ensures !j.JObj? ==> m == Indexed(Items(j))
  {
    if j.JObj? then j.fields else Indexed(Items(j))
  }

  /** `value[k]`: the property, or None for `undefined`. Arrays and strings also have
      `length`; inherited properties are not modelled. */
  function Prop(v: Json, k: string): (r: Option<Json>)
    ensures v.JObj? ==> r == (if k in v.fields then Some(v.fields[k]) else None)
    ensures v.JNull? || v.JBool? || v.JNum? ==> r == None
  {
    if (v.JArr? || v.JStr?) && k == "length" then Some(JNum(|Items(v)|))
    else if k in Spread(v) then Some(Spread(v)[k])
    else None
  }

  // ---------------------------------------------------------------- deepMerge

  /** `result[key] || {}` */
  function Base(result: map<string, Json>, k: string): Json {
    if k in result && Truthy(result[k]) then result[k] else JObj(map[])
  }

  /** What the loop stores under `k` when the source holds `v` there: a plain object is
      merged into the current value, anything else (an array included) replaces it. */
  function Entry(result: map<string, Json>, k: string, v: Json): Json {
    if v.JObj? then JObj(Merged(Base(result, k), v)) else v
  }

  /** `deepMerge(target, source)`: a fresh object holding the target's own properties,
      then each of the source's, key by key. */
  function Merged(target: Json, source: Json): map<string, Json>
    decreases source, 1
  {
    var t := Spread(target);
    if source.JObj? then
      var m := source.fields;
      map k | k in t.Keys + m.Keys :: if k in m then (if m[k].JObj? then JObj(Merged(Base(t, k), m[k])) else m[k]) else t[k]
    else ItemsMerged(t, source, |Items(source)|)
  }

  /** The first `n` indices of an array or string source, in order. */
  function ItemsMerged(t: map<string, Json>, source: Json, n: nat): map<string, Json>
    requires n <= |Items(source)|
    decreases source, 0, n
  {
    if n == 0 then t
    else
      var r := ItemsMerged(t, source, n - 1);
      var v := Items(source)[n - 1];
      var k := NatToString(n - 1);
      r[k := if v.JObj? then JObj(Merged(Base(r, k), v)) else v]
  }

  /** `deepMerge(target, source)`, loop by loop. */
  method DeepMerge(target: Json, source: Json) returns (r: Json)
    ensures r == JObj(Merged(target, source))
    decreases source, 2
  {
    var result;
    if source.JObj? {
      result := MergeFields(target, source);
    } else {
      result := MergeItems(Spread(target), source);
    }
    r := JObj(result);
  }

  /** The `for...in` loop over a plain-object source. */
  method MergeFields(target: Json, source: Json) returns (result: map<string, Json>)
    requires source.JObj?
    ensures result == Merged(target, source)
    decreases source, 1
  {
    var t := Spread(target);
    result := t;
    var m := source.fields;
    var todo := m.Keys;
    while todo != {}
      invariant todo <= m.Keys
      invariant result.Keys == t.Keys + (m.Keys - todo)
      invariant forall k :: k in result ==> result[k] == if k in m && k !in todo then Entry(t, k, m[k]) else t[k]
      decreases todo
    {
      var k :| k in todo;
      var v := m[k];
      assert Base(result, k) == Base(t, k);
      if v.JObj? {
        var sub := DeepMerge(Base(result, k), v);
        result := result[k := sub];
      } else {
        result := result[k := v];
      }
      todo := todo - {k};
    }
    FieldsMerged(target, source, result);
  }

  /** A map holding, key by key, what the object loop stores is the merge. */
  lemma FieldsMerged(target: Json, source: Json, result: map<string, Json>)
    requires source.JObj?
    requires result.Keys == Spread(target).Keys + source.fields.Keys
    requires forall k :: k in result ==> result[k] == if k in source.fields then Entry(Spread(target), k, source.fields[k]) else Spread(target)[k]
    ensures result == Merged(target, source)
  {
  }

  /** The `for...in` loop over the indices of an array or string source. */
  method MergeItems(t: map<string, Json>, source: Json) returns (result: map<string, Json>)
    requires !source.JObj?
    ensures result == ItemsMerged(t, source, |Items(source)|)
    decreases source, 1
  {
    result := t;
    var items := Items(source);
    var i := 0;
    while i < |items|
      invariant 0 <= i <= |items|
      invariant result == ItemsMerged(t, source, i)
    {
      var v := items[i];
      var k := NatToString(i);
      if v.JObj? {
        var sub := DeepMerge(Base(result, k), v);
        result := result[k := sub];
      } else {
        result := result[k := v];
      }
      i := i + 1;
    }
  }

  /** The merged object has exactly the keys of the two. */
  lemma MergedKeys(target: Json, source: Json)
    ensures Merged(target, source).Keys == Spread(target).Keys + Spread(source).Keys
  {
    if !source.JObj? {
      ItemsMergedKeys(Spread(target), source, |Items(source)|);
      IndexedSpec(Items(source));
    }
  }

  lemma {:induction false} ItemsMergedKeys(t: map<string, Json>, source: Json, n: nat)
    requires n <= |Items(source)|
    ensures ItemsMerged(t, source, n).Keys == t.Keys + IndexKeys(n)
    decreases n
  {
    if n > 0 {
      ItemsMergedKeys(t, source, n - 1);
      assert IndexKeys(n) == IndexKeys(n - 1) + {NatToString(n - 1)};
    }
  }

  /** Keys only the target has keep the target's value. */
  lemma TargetOnlyKept(target: Json, source: Json, k: string)
    requires k in Spread(target) && k !in Spread(source)
    ensures k in Merged(target, source) && Merged(target, source)[k] == Spread(target)[k]
  {
    if !source.JObj? {
      IndexedSpec(Items(source));
      ItemsMergedOthers(Spread(target), source, |Items(source)|, k);
    }
  }

  /** The array loop leaves keys that are not indices alone. */
  lemma {:induction false} ItemsMergedOthers(t: map<string, Json>, source: Json, n: nat, k: string)
    requires n <= |Items(source)|
    requires k !in IndexKeys(n)
    ensures k in t ==> k in ItemsMerged(t, source, n) && ItemsMerged(t, source, n)[k] == t[k]
    decreases n
  {
    if n > 0 {
      assert NatToString(n - 1) in IndexKeys(n);
      assert IndexKeys(n - 1) <= IndexKeys(n);
      ItemsMergedOthers(t, source, n - 1, k);
    }
  }

  /** A source value that is not a plain object (a scalar, null or an array) replaces
      whatever the target held, wholesale. */
  lemma SourceReplaces(target: Json, source: Json, k: string)
    requires k in Spread(source) && !Spread(source)[k].JObj?
    ensures k in Merged(target, source) && Merged(target, source)[k] == Spread(source)[k]
  {
    if !source.JObj? {
      IndexedSpec(Items(source));
      var i :| 0 <= i < |Items(source)| && NatToString(i) == k;
      ItemsMergedAt(Spread(target), source, |Items(source)|, i);
    }
  }

  /** After the array loop, index `i` holds what the loop stored there. */
  lemma {:induction false} ItemsMergedAt(t: map<string, Json>, source: Json, n: nat, i: nat)
    requires i < n <= |Items(source)|
    ensures var k, v := NatToString(i), Items(source)[i];
      k in ItemsMerged(t, source, n)
      && (!v.JObj? ==> ItemsMerged(t, source, n)[k] == v)
    decreases n
  {
    if i < n - 1 {
      ItemsMergedAt(t, source, n - 1, i);
      if NatToString(i) == NatToString(n - 1) {
        NatToStringInjective(i, n - 1);
      }
    }
  }

  /** A plain-object source value is merged into the target's value, so nested keys the
      source does not mention survive. */
  lemma NestedKept(target: Json, source: Json, k: string, k2: string)
    requires target.JObj? && source.JObj?
    requires k in target.fields && k in source.fields
    requires target.fields[k].JObj? && source.fields[k].JObj?
    requires k2 in target.fields[k].fields && k2 !in source.fields[k].fields
    ensures Merged(target, source)[k].JObj?
    ensures k2 in Merged(target, source)[k].fields
    ensures Merged(target, source)[k].fields[k2] == target.fields[k].fields[k2]
  {
    TargetOnlyKept(target.fields[k], source.fields[k], k2);
  }

  /** Merging an empty object, or nothing (`null`), copies the target's own properties;
      an object target comes back equal. */
  lemma EmptySourceCopies(target: Json)
    ensures Merged(target, JObj(map[])) == Spread(target)
    ensures Merged(target, JNull) == Spread(target)
    ensures target.JObj? ==> JObj(Merged(target, JObj(map[]))) == target
  {
  }

  /** Merging an object into itself gives it back. */
  lemma {:induction false} MergeSelf(j: Json)
    requires j.JObj?
    ensures Merged(j, j) == j.fields
    decreases j
  {
    var m := j.fields;
    forall k | k in m
      ensures Merged(j, j)[k] == m[k]
    {
      if m[k].JObj? {
        MergeSelf(m[k]);
        assert Base(m, k) == m[k];
      }
    }
  }

  // ---------------------------------------------------------------- paths

  /** `keys` leads from `j` through plain objects to `leaf`. */
  predicate ObjectPath(j: Json, keys: seq<string>, leaf: Json)
    decreases |keys|
  {
    && keys != []
    && j.JObj? && keys[0] in j.fields
    && if |keys| == 1 then j.fields[keys[0]] == leaf
       else ObjectPath(j.fields[keys[0]], keys[1..], leaf)
  }

  /** Along `keys` the source never replaces the target's objects: at each step the
      key is absent from the source, or holds an object to descend into. */
  predicate Untouched(source: Json, keys: seq<string>)
    decreases |keys|
  {
    && keys != [] && source.JObj?
    && (keys[0] !in source.fields
        || (|keys| > 1 && source.fields[keys[0]].JObj? && Untouched(source.fields[keys[0]], keys[1..])))
  }

  /** A user setting that is not an object reaches the merged configuration unchanged. */
  lemma {:induction false} SourceValueWins(target: Json, source: Json, keys: seq<string>, leaf: Json)
    requires ObjectPath(source, keys, leaf) && !leaf.JObj?
    ensures ObjectPath(JObj(Merged(target, source)), keys, leaf)
    decreases |keys|
  {
    var k := keys[0];
    var m := source.fields;
    if |keys| > 1 {
      SourceValueWins(Base(Spread(target), k), m[k], keys[1..], leaf);
    }
  }

  /** A default the user does not touch survives the merge. */
  lemma {:induction false} DefaultSurvives(target: Json, source: Json, keys: seq<string>, leaf: Json)
    requires ObjectPath(target, keys, leaf) && Untouched(source, keys)
    ensures ObjectPath(JObj(Merged(target, source)), keys, leaf)
    decreases |keys|
  {
    var k := keys[0];
    var t, m := target.fields, source.fields;
    if k in m {
      assert Base(t, k) == t[k];
      DefaultSurvives(t[k], m[k], keys[1..], leaf);
    }
  }

  // ---------------------------------------------------------------- get

  const NotLoaded: string := "配置未加载，请先调用 load() 方法"

  /** What the key loop of `get` yields from `value` on: the default as soon as a value
      on the way is null or undefined, or when the last one is undefined. */
  function Resolve(value: Option<Json>, keys: seq<string>, defaultValue: Json): Json
    decreases |keys|
  {
    if keys == [] then (if value.None? then defaultValue else value.value)
    else if value.None? || value.value.JNull? then defaultValue
    else Resolve(Prop(value.value, keys[0]), keys[1..], defaultValue)
  }

  /** Following a path through objects is following its keys one by one. */
  lemma {:induction false} ResolveAlongPath(j: Json, keys: seq<string>, i: nat, leaf: Json, defaultValue: Json)
    requires 0 < i <= |keys| && ObjectPath(j, keys[..i], leaf)
    ensures Resolve(Some(j), keys, defaultValue) == Resolve(Some(leaf), keys[i..], defaultValue)
    decreases i
  {
    var k, p := keys[0], keys[..i];
    assert p[0] == k && j.JObj? && k in j.fields;
    assert Resolve(Some(j), keys, defaultValue) == Resolve(Some(j.fields[k]), keys[1..], defaultValue);
    if i > 1 {
      assert ObjectPath(j.fields[k], p[1..], leaf);
      assert p[1..] == keys[1..][..i - 1];
      ResolveAlongPath(j.fields[k], keys[1..], i - 1, leaf, defaultValue);
      assert keys[1..][i - 1..] == keys[i..];
    }
  }

  /** A path through objects reaches its stored value, `null` included. */
  lemma ResolvePath(j: Json, keys: seq<string>, leaf: Json, defaultValue: Json)
    requires ObjectPath(j, keys, leaf)
    ensures Resolve(Some(j), keys, defaultValue) == leaf
  {
    assert keys[..|keys|] == keys;
    ResolveAlongPath(j, keys, |keys|, leaf, defaultValue);
  }

  /** A `null` met before the last key gives the default. */
  lemma ResolveNullOnPath(j: Json, keys: seq<string>, i: nat, defaultValue: Json)
    requires 0 < i < |keys| && ObjectPath(j, keys[..i], JNull)
    ensures Resolve(Some(j), keys, defaultValue) == defaultValue
  {
    ResolveAlongPath(j, keys, i, JNull, defaultValue);
  }

  /** A key missing from the object reached so far (the first key missing from the
      whole configuration when `i` is 0) gives the default, at the last key too. */
  lemma ResolveMissingKey(j: Json, keys: seq<string>, i: nat, v: Json, defaultValue: Json)
    requires i < |keys|
    requires i == 0 ==> v == j
    requires i > 0 ==> ObjectPath(j, keys[..i], v)
    requires v.JObj? && keys[i] !in v.fields
    ensures Resolve(Some(j), keys, defaultValue) == defaultValue
  {
    if i > 0 {
      ResolveAlongPath(j, keys, i, v, defaultValue);
    }
    assert keys[i..][1..] == keys[i + 1..];
    NoneResolves(keys[i + 1..], defaultValue);
  }

  lemma {:induction false} NoneResolves(keys: seq<string>, defaultValue: Json)
    ensures Resolve(None, keys, defaultValue) == defaultValue
  {
  }

  function Strs(xs: seq<string>): seq<Json> {
    seq(|xs|, i requires 0 <= i < |xs| => JStr(xs[i]))
  }

  /** The settings used where the user's file says nothing. */
  const DefaultConfig: Json := JObj(map[
    "base" := JObj(map[
      "sourceDir" := JStr("."),
      "outputDir" := JStr("${sourceDir}/output"),
      "skipHiddenFiles" := JBool(true),
      "excludeDirs" := JArr(Strs(["node_modules", "temp", "downloads", "@eaDir", "output"]))]),
    "fileTypes" := JObj(map[
      "video" := JArr(Strs([".mp4", ".avi", ".mkv", ".mov", ".wmv", ".flv", ".webm", ".m4v",
                           ".mpg", ".mpeg", ".3gp", ".ts", ".mts"]))]),
    "scraper" := JObj(map[
      "default" := JStr("javdb"),
      "javdb" := JObj(map[
        "baseUrl" := JStr("https://javdb.com"),
        "cookieFile" := JStr("config/cookie.txt"),
        "timeout" := JNum(10000),
        "retry" := JNum(3),
        "retryDelay" := JNum(1000)])])])

  /** The configuration holder. `load` (YAML parsing and path resolution) is not
      modelled: `config` is whatever it stored, or None before it ran. */
  class Config {
    var config: Option<Json>
    const defaultConfig: Json

    constructor ()
      ensures config == None && defaultConfig == DefaultConfig
    {
      config := None;
      defaultConfig := DefaultConfig;
    }

    /** `get(key, defaultValue)`: throws before `load`, otherwise walks the
        dot-separated key. */
    method Get(key: string, defaultValue: Json) returns (r: Result<Json>)
      ensures config.None? || !Truthy(config.value) ==> r == Err(NotLoaded)
      ensures config.Some? && Truthy(config.value) ==>
        r == Ok(Resolve(Some(config.value), Split(key, '.'), defaultValue))
    {
      if config.None? || !Truthy(config.value) {
        return Err(NotLoaded);
      }
      var keys := Split(key, '.');
      var value: Option<Json> := Some(config.value);
      var i := 0;
      while i < |keys|
        invariant 0 <= i <= |keys|
        invariant Resolve(value, keys[i..], defaultValue) == Resolve(Some(config.value), keys, defaultValue)
      {
        if value.None? || value.value.JNull? {
          return Ok(defaultValue);
        }
        assert keys[i..][1..] == keys[i + 1..];
        value := Prop(value.value, keys[i]);
        i := i + 1;
      }
      r := Ok(if value.None? then defaultValue else value.value);
    }
  }
}
