/**
 * The merger's run over its input files. `process_file` turns one parsed
 * file into its normalised objects; `merge_files` gathers the objects of
 * every file, keeps the first object for each slug and orders the result
 * by creation date, newest first. The object built by `merge_files` is a
 * class whose one field, `merged_data`, the run rewrites step by step.
 */
module MergeRun {
  import opened Wrappers
  import opened Text
  import opened Lists
  import opened JsonValues
  import opened Merger

  // ---------------------------------------------------------------- process_file

  /** `items_to_process`: the elements of a list, or the value alone. */
  function ItemsOf(data: Json): seq<Json> {
    if data.JArr? then data.items else [data]
  }

  /** The objects among `items`, in order; everything else is skipped. */
  function Objects(items: seq<Json>): (r: seq<Dict>)
    ensures |r| <= |items|
    ensures forall k :: 0 <= k < |r| ==> JObj(r[k]) in items
    decreases |items|
  {
    if items == [] then []
    else
      var front := Objects(items[..|items| - 1]);
      var last := items[|items| - 1];
      assert forall k :: 0 <= k < |front| ==> JObj(front[k]) in items[..|items| - 1];
      if last.JObj? then front + [last.fields] else front
  }

  /** The normalisation of one object for a given file and settings. */
  function NormaliseIn(filename: string, opt: Options): Dict -> Result<Dict> {
    d => Normalised(d, filename, opt)
  }

  /** The loop of `process_file`: objects are normalised by `f` in order, and the first exception ends it. */
  function ProcessAll(items: seq<Json>, f: Dict -> Result<Dict>): Result<seq<Dict>>
    decreases |items|
  {
    if items == [] then Ok([])
    else
      var front := ProcessAll(items[..|items| - 1], f);
      var last := items[|items| - 1];
      if front.Err? || !last.JObj? then front
      else
        var d := f(last.fields);
        if d.Err? then Err(d.message) else Ok(front.value + [d.value])
  }

  /** `process_file` on what `read_json_file` returned: `None` for an unreadable or empty file. */
  function ProcessFileSpec(data: Option<Json>, filename: string, opt: Options): Result<Option<seq<Dict>>> {
    if data.None? || !PyTruthy(data.value) then Ok(None)
    else
      var r := ProcessAll(ItemsOf(data.value), NormaliseIn(filename, opt));
      if r.Err? then Err(r.message) else Ok(Some(r.value))
  }

  /** Every object of `objs` goes through `f` without an exception. */
  predicate AllOk(objs: seq<Dict>, f: Dict -> Result<Dict>) {
    forall k :: 0 <= k < |objs| ==> f(objs[k]).Ok?
  }

  /**
   * The loop succeeds exactly when every object normalises, and then holds
   * one normalised object per object of the input, in input order.
   */
  lemma {:induction false} ProcessAllObjects(items: seq<Json>, f: Dict -> Result<Dict>)
    ensures ProcessAll(items, f).Ok? <==> AllOk(Objects(items), f)
    ensures ProcessAll(items, f).Ok? ==>
              var out := ProcessAll(items, f).value;
              |out| == |Objects(items)| && forall k :: 0 <= k < |out| ==> out[k] == f(Objects(items)[k]).value
    decreases |items|
  {
    if items != [] {
      var init := items[..|items| - 1];
      var last := items[|items| - 1];
      ProcessAllObjects(init, f);
      var objs := Objects(items);
      var front := Objects(init);
      if last.JObj? {
        assert objs == front + [last.fields];
        assert objs[|front|] == last.fields;
        assert AllOk(objs, f) <==> AllOk(front, f) && f(last.fields).Ok? by {
          if AllOk(objs, f) {
            forall k | 0 <= k < |front| ensures f(front[k]).Ok? {
              assert objs[k] == front[k];
            }
          }
        }
        if ProcessAll(items, f).Ok? {
          var out := ProcessAll(items, f).value;
          var prev := ProcessAll(init, f).value;
          assert out == prev + [f(last.fields).value];
          forall k | 0 <= k < |out| ensures out[k] == f(objs[k]).value {
            if k < |prev| {
              assert out[k] == prev[k] && objs[k] == front[k];
            }
          }
        }
      } else {
        assert objs == front;
        assert ProcessAll(items, f) == ProcessAll(init, f);
      }
    }
  }

  /** Once the loop has failed on a prefix, the rest of the items change nothing. */
  lemma {:induction false} ProcessAllFailureSticks(items: seq<Json>, i: nat, f: Dict -> Result<Dict>)
    requires i <= |items| && ProcessAll(items[..i], f).Err?
    ensures ProcessAll(items, f) == ProcessAll(items[..i], f)
    decreases |items| - i
  {
    if i < |items| {
      assert items[..i + 1][..i] == items[..i];
      ProcessAllFailureSticks(items, i + 1, f);
    } else {
      assert items[..i] == items;
    }
  }

  /** A single object gives the one normalised object, or its exception. */
  lemma ProcessAllSingle(x: Dict, f: Dict -> Result<Dict>)
    ensures ProcessAll([JObj(x)], f) == if f(x).Err? then Err(f(x).message) else Ok([f(x).value])
  {
    var items := [JObj(x)];
    assert items[..|items| - 1] == [] && items[|items| - 1].fields == x;
    assert ProcessAll([], f) == Ok([]);
    if f(x).Ok? {
      assert [] + [f(x).value] == [f(x).value];
    }
  }

  /**
   * An unreadable or empty file gives `None`; a single object is processed
   * as a list of one; and a file never yields more objects than it holds.
   */
  lemma ProcessFileShapes(data: Option<Json>, filename: string, opt: Options)
    ensures data.None? || !PyTruthy(data.value) ==> ProcessFileSpec(data, filename, opt) == Ok(None)
    ensures data.Some? && data.value.JObj? && data.value.fields != map[] ==>
              ProcessFileSpec(data, filename, opt) == ProcessFileSpec(Some(JArr([data.value])), filename, opt)
    ensures ProcessFileSpec(data, filename, opt).Ok? && ProcessFileSpec(data, filename, opt).value.Some? ==>
              |ProcessFileSpec(data, filename, opt).value.value| <= |ItemsOf(data.value)|
  {
    if data.Some? && PyTruthy(data.value) {
      ProcessAllObjects(ItemsOf(data.value), NormaliseIn(filename, opt));
    }
  }

  /** The rewritten gallery, entry by entry (the inner loop of `process_file`). */
  method BuildGallery(base: string, slug: Json, entries: seq<string>) returns (g: seq<Json>)
    ensures g == GalleryPaths(base, slug, entries)
  {
    g := [];
    var i := 0;
    while i < |entries|
      invariant 0 <= i <= |entries| && |g| == i
      invariant forall k :: 0 <= k < i ==> g[k] == JStr(GalleryPath(base, slug, entries[k]))
    {
      var entry := entries[i];
      if StartsWith(entry, "http") {
        g := g + [JStr(entry)];
      } else {
        g := g + [JStr(LocalPath(base, slug, entry))];
      }
      i := i + 1;
    }
  }

  /** The body of the loop of `process_file`: `merged_item` built field by field. */
  method NormaliseItem(item: Dict, filename: string, opt: Options) returns (r: Result<Dict>)
    ensures r == Normalised(item, filename, opt)
  {
    var slug := ItemSlug(item, filename, opt.preserve);
    var m: Dict := if opt.preserve then item else map[];
    m := m["slug" := slug];
    m := m["name" := ItemName(item, filename, opt.preserve)];
    if !opt.preserve || "category" !in m {
      m := m["category" := JStr("onlyfans")];
    }
    assert m == Named(item, filename, opt);
    var thumb := ThumbStepOf(item, slug, opt, m);
    if thumb.Err? {
      return Err(thumb.message);
    }
    if thumb.value.Some? {
      m := m["thumb" := thumb.value.value];
    }
    var gallery: Option<Json> := None;
    if "gallery" in item {
      var entries := GalleryEntries(item["gallery"]);
      if entries.Err? {
        return Err(entries.message);
      }
      var paths := BuildGallery(opt.base, slug, entries.value);
      gallery := Some(JArr(paths));
      m := m["gallery" := JArr(paths)];
    }
    assert gallery == GalleryOf(item, slug, opt).value;
    assert m == Staged(item, filename, opt, thumb.value, gallery);
    m := FinishItem(item, m, opt);
    return Ok(m);
  }

  /** The thumbnail test of `process_file`, which reads the copy `m` where the item is copied. */
  method ThumbStepOf(item: Dict, slug: Json, opt: Options, m: Dict) returns (r: Result<Option<Json>>)
    requires opt.preserve ==> ("thumb" in m <==> "thumb" in item) && ("thumb" in m ==> m["thumb"] == item["thumb"])
    ensures r == ThumbOf(item, slug, opt)
  {
    var reset := true;
    if opt.preserve && "thumb" in m {
      var placeholder := StartsWithJ(m["thumb"], PlaceholderPrefix);
      if placeholder.Err? {
        return Err(placeholder.message);
      }
      reset := placeholder.value;
    }
    if !reset {
      return Ok(None);
    }
    var local := JStr(LocalPath(opt.base, slug, "thumb.jpg"));
    if "thumb" in item {
      var http := StartsWithJ(item["thumb"], "http");
      if http.Err? {
        return Err(http.message);
      }
      return Ok(Some(if http.value then item["thumb"] else local));
    }
    return Ok(Some(local));
  }

  /** The steps after the gallery, on `merged_item`. */
  method FinishItem(item: Dict, m0: Dict, opt: Options) returns (m: Dict)
    ensures m == Finished(item, m0, opt)
  {
    m := m0;
    if "websites" in item && (!opt.preserve || "websites" !in m) {
      m := m["websites" := item["websites"]];
    }
    if "tags" in item && (!opt.preserve || "tags" !in m) {
      m := m["tags" := item["tags"]];
    }
    if !opt.preserve || "createdAt" !in m {
      m := m["createdAt" := JStr(opt.now)];
    }
    if opt.preserve {
      if "views" in item {
        m := m["views" := item["views"]];
      }
      if "lastViewed" in item {
        m := m["lastViewed" := item["lastViewed"]];
      }
    }
  }

  /** `process_file`. */
  method ProcessFile(data: Option<Json>, filename: string, opt: Options) returns (r: Result<Option<seq<Dict>>>)
    ensures r == ProcessFileSpec(data, filename, opt)
  {
    if data.None? || !PyTruthy(data.value) {
      return Ok(None);
    }
    var items := if data.value.JArr? then data.value.items else [data.value];
    var out: seq<Dict> := [];
    var i := 0;
    while i < |items|
      invariant 0 <= i <= |items|
      invariant ProcessAll(items[..i], NormaliseIn(filename, opt)) == Ok(out)
    {
      var next := ProcessItem(items, i, out, filename, opt);
      if next.Err? {
        ProcessAllFailureSticks(items, i + 1, NormaliseIn(filename, opt));
        return Err(next.message);
      }
      out := next.value;
      i := i + 1;
    }
    assert items[..i] == items;
    return Ok(Some(out));
  }

  /** One pass of the loop of `process_file`: a non-object is skipped, an object is normalised and appended. */
  method ProcessItem(items: seq<Json>, i: nat, out: seq<Dict>, filename: string, opt: Options) returns (r: Result<seq<Dict>>)
    requires i < |items| && ProcessAll(items[..i], NormaliseIn(filename, opt)) == Ok(out)
    ensures r == ProcessAll(items[..i + 1], NormaliseIn(filename, opt))
  {
    var item := items[i];
    assert items[..i + 1][..i] == items[..i] && items[..i + 1][i] == item;
    if !item.JObj? {
      return Ok(out);
    }
    var d := NormaliseItem(item.fields, filename, opt);
    if d.Err? {
      return Err(d.message);
    }
    return Ok(out + [d.value]);
  }

  // ---------------------------------------------------------------- merge_files

  /** One input file: its path and what `read_json_file` returned for it (`None` when unreadable or not JSON). */
  datatype InputFile = InputFile(path: string, data: Option<Json>)

  /** The extend loop's state: the objects gathered so far, and the exception that stopped it, if any. */
  datatype Progress = Progress(data: seq<Dict>, failure: Option<string>)

  /** The extend loop of `merge_files`: each file's objects, when there are any, appended in file order. */
  function Collected(files: seq<InputFile>, opt: Options): Progress
    decreases |files|
  {
    if files == [] then Progress([], None)
    else
      var p := Collected(files[..|files| - 1], opt);
      var f := files[|files| - 1];
      if p.failure.Some? then p
      else
        var r := ProcessFileSpec(f.data, BaseName(f.path), opt);
        if r.Err? then Progress(p.data, Some(r.message))
        else if r.value.Some? && r.value.value != [] then Progress(p.data + r.value.value, None)
        else p
  }

  /** Once a file has raised, the later files are not looked at. */
  lemma {:induction false} CollectedFailureSticks(files: seq<InputFile>, i: nat, opt: Options)
    requires i <= |files| && Collected(files[..i], opt).failure.Some?
    ensures Collected(files, opt) == Collected(files[..i], opt)
    decreases |files| - i
  {
    if i < |files| {
      assert files[..i + 1][..i] == files[..i];
      CollectedFailureSticks(files, i + 1, opt);
    } else {
      assert files[..i] == files;
    }
  }

  /** An unreadable file, or one without objects, adds nothing. */
  lemma SkippedFile(files: seq<InputFile>, path: string, data: Option<Json>, opt: Options)
    requires ProcessFileSpec(data, BaseName(path), opt) == Ok(None) || ProcessFileSpec(data, BaseName(path), opt) == Ok(Some([]))
    ensures Collected(files + [InputFile(path, data)], opt) == Collected(files, opt)
  {
    assert (files + [InputFile(path, data)])[..|files|] == files;
  }

  /** Python's hash equality: `True` and `1`, `False` and `0` are the same set element. */
  function HashKey(j: Json): Json {
    if j.JBool? then JNum(if j.b then 1 else 0) else j
  }

  /** The dedupe key of an item: its slug as a set element. */
  function SlugKey(d: Dict): Json {
    if "slug" in d then HashKey(d["slug"]) else JNull
  }

  /** `item["slug"] not in seen_slugs` raises for a missing slug and for a list or object slug. */
  function SlugError(d: Dict): Option<string> {
    if "slug" !in d then Some("KeyError: 'slug'")
    else if d["slug"].JArr? || d["slug"].JObj? then Some("TypeError: unhashable type")
    else None
  }

  /** The exception of the first item whose slug cannot be looked up. */
  function FirstSlugError(s: seq<Dict>): (e: Option<string>)
    ensures e.None? <==> forall i :: 0 <= i < |s| ==> SlugError(s[i]).None?
    decreases |s|
  {
    if s == [] then None
    else if SlugError(s[0]).Some? then SlugError(s[0])
    else
      var rest := FirstSlugError(s[1..]);
      assert forall i :: 1 <= i < |s| ==> s[i] == s[1..][i - 1];
      rest
  }

  /** The dedupe loop: the first item for each slug, or the exception of the first bad slug. */
  function Deduped(s: seq<Dict>): Result<seq<Dict>> {
    var e := FirstSlugError(s);
    if e.Some? then Err(e.value) else Ok(Dedupe(SlugKey, s))
  }

  /** `x.get("createdAt", "")`. */
  function CreatedKey(d: Dict): Json {
    if "createdAt" in d then d["createdAt"] else JStr("")
  }

  predicate IsNumber(j: Json) {
    j.JNum? || j.JBool?
  }

  function NumberOf(j: Json): int {
    if j.JBool? then (if j.b then 1 else 0) else if j.JNum? then j.n else 0
  }

  /** Numbers before strings before anything else, for keys of different kinds. */
  function KeyRank(j: Json): nat {
    if IsNumber(j) then 0 else if j.JStr? then 1 else 2
  }

  /** Python's `<=` on sort keys: strings by code points, numbers and booleans by value. */
  predicate KeyLe(a: Json, b: Json) {
    if a.JStr? && b.JStr? then LexLe(a.s, b.s)
    else if IsNumber(a) && IsNumber(b) then NumberOf(a) <= NumberOf(b)
    else KeyRank(a) <= KeyRank(b)
  }

  /** `a` may come before `b` in the newest-first order. */
  predicate Later(a: Dict, b: Dict) {
    KeyLe(CreatedKey(b), CreatedKey(a))
  }

  /** The keys Python can compare with each other: all strings, or all numbers. */
  predicate Comparable(s: seq<Dict>) {
    (forall i :: 0 <= i < |s| ==> CreatedKey(s[i]).JStr?) || (forall i :: 0 <= i < |s| ==> IsNumber(CreatedKey(s[i])))
  }

  /** `sort(key=..., reverse=True)`: a stable sort, newest first; two keys Python cannot compare raise. */
  function SortedNewestFirst(s: seq<Dict>): Result<seq<Dict>> {
    if |s| >= 2 && !Comparable(s) then Err("TypeError: '<' not supported") else Ok(InsertionSort(Later, s))
  }

  lemma KeyLeTotal(a: Json, b: Json)
    ensures KeyLe(a, b) || KeyLe(b, a)
  {
    if a.JStr? && b.JStr? {
      LexLeTotal(a.s, b.s);
    }
  }

  lemma KeyLeTransitive(a: Json, b: Json, c: Json)
    requires KeyLe(a, b) && KeyLe(b, c)
    ensures KeyLe(a, c)
  {
    if a.JStr? && b.JStr? && c.JStr? {
      LexLeTransitive(a.s, b.s, c.s);
    }
  }

  /** The newest-first comparison orders every set of items. */
  lemma LaterTotalPreorder()
    ensures TotalPreorder(Later)
  {
    forall a, b ensures Later(a, b) || Later(b, a) {
      KeyLeTotal(CreatedKey(a), CreatedKey(b));
    }
    forall a, b, c | Later(a, b) && Later(b, c) ensures Later(a, c) {
      KeyLeTransitive(CreatedKey(c), CreatedKey(b), CreatedKey(a));
    }
  }

  /** What a run leaves: its return value (or the exception) and `merged_data`. */
  datatype Outcome = Outcome(result: Result<bool>, merged: seq<Dict>)

  /**
   * `merge_files`: gather, dedupe, sort, then write; `written` is whether
   * writing the output file succeeded. An exception leaves `merged_data` as
   * it was when it was raised.
   */
  function MergeSpec(files: seq<InputFile>, opt: Options, written: bool): Outcome {
    var p := Collected(files, opt);
    if p.failure.Some? then Outcome(Err(p.failure.value), p.data) else Finish(p.data, written)
  }

  /** The part of `merge_files` after the extend loop: dedupe, sort, write. */
  function Finish(all: seq<Dict>, written: bool): Outcome {
    var d := Deduped(all);
    if d.Err? then Outcome(Err(d.message), all)
    else
      var sorted := SortedNewestFirst(d.value);
      if sorted.Err? then Outcome(Err(sorted.message), d.value)
      else Outcome(Ok(written), sorted.value)
  }

  /** Distinct keys survive any reordering. */
  lemma DistinctKeysPermutation(key: Dict -> Json, s: seq<Dict>, r: seq<Dict>)
    requires DistinctKeys(key, s) && multiset(r) == multiset(s)
    ensures DistinctKeys(key, r)
  {
    assert Distinct(s) by {
      forall i, j | 0 <= i < j < |s| ensures s[i] != s[j] {
        assert key(s[i]) != key(s[j]);
      }
    }
    DistinctPermutation(s, r);
    forall i, j | 0 <= i < j < |r| ensures key(r[i]) != key(r[j]) {
      assert r[i] in multiset(s) && r[j] in multiset(s);
      var a :| 0 <= a < |s| && s[a] == r[i];
      var b :| 0 <= b < |s| && s[b] == r[j];
      assert a != b;
      if a < b {
        assert key(s[a]) != key(s[b]);
      } else {
        assert key(s[b]) != key(s[a]);
      }
    }
  }

  /**
   * After a successful run the slugs are pairwise distinct, every slug of
   * the gathered items is represented, and the first item with each slug
   * is the one kept.
   */
  lemma MergedSlugsDistinct(all: seq<Dict>, written: bool)
    requires Finish(all, written).result.Ok?
    ensures var merged := Finish(all, written).merged;
      DistinctKeys(SlugKey, merged)
      && (forall i :: 0 <= i < |all| ==> exists e :: e in merged && SlugKey(e) == SlugKey(all[i]))
      && (forall i :: FirstWithKey(SlugKey, all, i) ==> all[i] in merged)
  {
    var unique := Dedupe(SlugKey, all);
    var merged := Finish(all, written).merged;
    assert merged == InsertionSort(Later, unique);
    DedupeKeepsFirst(SlugKey, all);
    SortPermutes(Later, unique);
    DistinctKeysPermutation(SlugKey, unique, merged);
    forall e | e in unique ensures e in merged {
      assert e in multiset(unique);
    }
  }

  /**
   * After a successful run the items are a permutation of the deduplicated
   * items, ordered newest first, and items with equal keys keep their order.
   */
  lemma MergedNewestFirst(all: seq<Dict>, written: bool)
    requires Finish(all, written).result.Ok?
    ensures var unique := Dedupe(SlugKey, all);
      var merged := Finish(all, written).merged;
      multiset(merged) == multiset(unique)
      && (forall i, j :: 0 <= i < j < |merged| ==> KeyLe(CreatedKey(merged[j]), CreatedKey(merged[i])))
      && (forall x :: TiesWith(Later, x, merged) == TiesWith(Later, x, unique))
  {
    var unique := Dedupe(SlugKey, all);
    var merged := Finish(all, written).merged;
    assert merged == InsertionSort(Later, unique);
    LaterTotalPreorder();
    SortPermutes(Later, unique);
    SortSorted(Later, unique);
    forall x ensures TiesWith(Later, x, merged) == TiesWith(Later, x, unique) {
      SortStable(Later, unique, x);
    }
  }

  /** A run fails exactly when some file raises, some slug cannot be hashed, or two keys cannot be compared. */
  lemma MergeFailures(files: seq<InputFile>, opt: Options, written: bool)
    ensures var p := Collected(files, opt);
      MergeSpec(files, opt, written).result.Err? <==>
        p.failure.Some?
        || (exists i :: 0 <= i < |p.data| && SlugError(p.data[i]).Some?)
        || (var u := Dedupe(SlugKey, p.data); |u| >= 2 && !Comparable(u))
    ensures MergeSpec(files, opt, written).result.Ok? ==> MergeSpec(files, opt, written).result.value == written
  {
  }

  /** The merger object; its one field is `merged_data`. */
  class JsonFileMerger {
    var mergedData: seq<Dict>

    constructor ()
      ensures mergedData == []
    {
      mergedData := [];
    }

    /** `merge_files`, with the write's success passed in. */
    method MergeFiles(files: seq<InputFile>, opt: Options, written: bool) returns (r: Result<bool>)
      modifies this
      ensures Outcome(r, mergedData) == MergeSpec(files, opt, written)
    {
      mergedData := [];
      var i := 0;
      while i < |files|
        invariant 0 <= i <= |files|
        invariant Collected(files[..i], opt) == Progress(mergedData, None)
      {
        var f := files[i];
        assert files[..i + 1][..i] == files[..i] && files[..i + 1][i] == f;
        var processed := ProcessFile(f.data, BaseName(f.path), opt);
        if processed.Err? {
          CollectedFailureSticks(files, i + 1, opt);
          return Err(processed.message);
        }
        if processed.value.Some? && processed.value.value != [] {
          mergedData := mergedData + processed.value.value;
        }
        i := i + 1;
      }
      assert files[..i] == files;
      var unique := RemoveDuplicates();
      if unique.Err? {
        return Err(unique.message);
      }
      mergedData := unique.value;
      if |mergedData| >= 2 && !Comparable(mergedData) {
        return Err("TypeError: '<' not supported");
      }
      mergedData := InsertionSort(Later, mergedData);
      return Ok(written);
    }

    /** The dedupe loop over `merged_data`, with its `seen_slugs` set. */
    method RemoveDuplicates() returns (r: Result<seq<Dict>>)
      ensures r == Deduped(mergedData)
    {
      var seen: set<Json> := {};
      var unique: seq<Dict> := [];
      var k := 0;
      while k < |mergedData|
        invariant 0 <= k <= |mergedData|
        invariant Dedupe(SlugKey, mergedData) == unique + DedupeFrom(SlugKey, mergedData[k..], seen)
        invariant FirstSlugError(mergedData) == FirstSlugError(mergedData[k..])
      {
        var item := mergedData[k];
        assert mergedData[k..][0] == item && mergedData[k..][1..] == mergedData[k + 1..];
        if "slug" !in item {
          return Err("KeyError: 'slug'");
        }
        var slug := item["slug"];
        if slug.JArr? || slug.JObj? {
          return Err("TypeError: unhashable type");
        }
        if HashKey(slug) !in seen {
          seen := seen + {HashKey(slug)};
          unique := unique + [item];
        }
        k := k + 1;
      }
      assert mergedData[k..] == [];
      assert unique + DedupeFrom(SlugKey, [], seen) == unique;
      return Ok(unique);
    }
  }
}
