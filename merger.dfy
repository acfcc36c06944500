/**
 * The merger's transform (`JSONFileMerger`): every input file holds one
 * profile object or a list of them; each object is normalised, taking the
 * slug, name, gallery and thumbnail paths from the file name and the image
 * base path where the object does not supply them; the results of all files
 * are concatenated, reduced to the first object per slug, and ordered by
 * creation date, newest first. Reading and writing the files is not part of
 * the model: each input arrives as its path and its parsed content.
 */
module Merger {
  import opened Wrappers
  import opened Text
  import opened Lists
  import opened JsonValues

  // ---------------------------------------------------------------- file names

  /** `os.path.basename(path)`: what follows the last `/`. */
  function BaseName(path: string): (b: string)
    ensures '/' !in b
    ensures |b| <= |path| && b == path[|path| - |b|..]
    decreases |path|
  {
    if path == [] || path[|path| - 1] == '/' then []
    else
      var front := BaseName(path[..|path| - 1]);
      assert path[..|path| - 1][|path| - 1 - |front|..] + [path[|path| - 1]] == path[|path| - 1 - |front|..];
      front + [path[|path| - 1]]
  }

  /** The position of the last `.`, or -1. */
  function LastDot(s: string): (k: int)
    ensures -1 <= k < |s|
    ensures k >= 0 ==> s[k] == '.' && forall j :: k < j < |s| ==> s[j] != '.'
    ensures k < 0 ==> forall j :: 0 <= j < |s| ==> s[j] != '.'
    decreases |s|
  {
    if s == [] then -1
    else if s[|s| - 1] == '.' then |s| - 1
    else LastDot(s[..|s| - 1])
  }

  /**
   * `os.path.splitext(name)[0]`: the name without its extension, which runs
   * from the last `.` to the end; a `.` with only dots before it starts no
   * extension, so `.bashrc` keeps its dot.
   */
  function Stem(name: string): (stem: string)
    ensures |stem| <= |name| && stem == name[..|stem|]
  {
    var k := LastDot(name);
    if k > 0 && exists j | 0 <= j < k :: name[j] != '.' then name[..k] else name
  }

  /** A name with an extension loses exactly the extension. */
  lemma StemDropsExtension(base: string, ext: string)
    requires '.' !in ext
    requires exists j :: 0 <= j < |base| && base[j] != '.'
    ensures Stem(base + "." + ext) == base
  {
    var name := base + "." + ext;
    assert name[|base|] == '.';
    assert forall j :: |base| < j < |name| ==> name[j] == ext[j - |base| - 1];
    assert LastDot(name) == |base| by {
      LastDotIs(name, |base|);
    }
    var j :| 0 <= j < |base| && base[j] != '.';
    assert name[j] == base[j];
    assert name[..|base|] == base;
  }

  /** The last dot is the dot after which no dot follows. */
  lemma {:induction false} LastDotIs(s: string, k: nat)
    requires k < |s| && s[k] == '.' && forall j :: k < j < |s| ==> s[j] != '.'
    ensures LastDot(s) == k
    decreases |s|
  {
    if k < |s| - 1 {
      var front := s[..|s| - 1];
      assert forall j :: k < j < |front| ==> front[j] == s[j];
      LastDotIs(front, k);
    }
  }

  /** A name without a dot is its own stem. */
  lemma StemWithoutDot(name: string)
    requires '.' !in name
    ensures Stem(name) == name
  {
  }

  /** The characters the merger keeps in a slug: ASCII letters and digits, `-` and `_`. */
  predicate KeepInSlug(c: char) {
    IsAlnum(c) || c == '-' || c == '_'
  }

  /** `extract_slug_from_filename`: the stem's letters, digits, `-` and `_`, lower-cased. */
  function ExtractSlug(filename: string): string {
    Lower(Where(Stem(filename), KeepInSlug))
  }

  /** The slug is no longer than the stem and holds only lower-case letters, digits, `-` and `_`. */
  lemma ExtractSlugShape(filename: string)
    ensures |ExtractSlug(filename)| <= |Stem(filename)|
    ensures forall i :: 0 <= i < |ExtractSlug(filename)| ==>
              var c := ExtractSlug(filename)[i]; IsLower(c) || IsDigit(c) || c == '-' || c == '_'
  {
    var w := Where(Stem(filename), KeepInSlug);
    forall i | 0 <= i < |w| ensures KeepInSlug(w[i]) {
      WhereMember(Stem(filename), KeepInSlug, w[i]);
    }
  }

  /** A slug used as a file name, with any extension, gives the same slug back. */
  lemma ExtractSlugOfSlug(slug: string, ext: string)
    requires slug != [] && '.' !in ext
    requires forall i :: 0 <= i < |slug| ==> IsLower(slug[i]) || IsDigit(slug[i]) || slug[i] == '-' || slug[i] == '_'
    ensures ExtractSlug(slug + "." + ext) == slug
  {
    assert slug[0] != '.';
    StemDropsExtension(slug, ext);
    WhereAll(slug, KeepInSlug);
    assert Lower(slug) == slug;
  }

  /** `replace('-', ' ').replace('_', ' ')`. */
  function Spaced(s: string): string {
    seq(|s|, i requires 0 <= i < |s| => if s[i] == '-' || s[i] == '_' then ' ' else s[i])
  }

  predicate IsCased(c: char) {
    IsUpper(c) || IsLower(c)
  }

  /**
   * `str.title()` on ASCII text: a letter right after a letter is
   * lower-cased, any other letter upper-cased, and everything else kept;
   * `afterLetter` says whether a letter precedes `s`.
   */
  function TitleFrom(s: string, afterLetter: bool): (r: string)
    ensures |r| == |s|
    decreases |s|
  {
    if s == [] then []
    else
      var c := s[0];
      [if !IsCased(c) then c else if afterLetter then LowerChar(c) else UpperChar(c)] + TitleFrom(s[1..], IsCased(c))
  }

  /** Position by position: what `title()` does to each character. */
  lemma {:induction false} TitleAt(s: string, afterLetter: bool, i: nat)
    requires i < |s|
    ensures TitleFrom(s, afterLetter)[i] ==
      if !IsCased(s[i]) then s[i]
      else if (if i == 0 then afterLetter else IsCased(s[i - 1])) then LowerChar(s[i])
      else UpperChar(s[i])
    decreases |s|
  {
    if i > 0 {
      TitleAt(s[1..], IsCased(s[0]), i - 1);
      assert s[1..][i - 1] == s[i];
      if i > 1 {
        assert s[1..][i - 2] == s[i - 1];
      }
    }
  }

  /** `extract_name_from_filename`: the stem with `-` and `_` turned into spaces, title-cased. */
  function ExtractName(filename: string): string {
    TitleFrom(Spaced(Stem(filename)), false)
  }

  /** What the name holds at position `i` of the stem `st`. */
  function NameChar(st: string, i: nat): char
    requires i < |st|
  {
    if st[i] == '-' || st[i] == '_' then ' '
    else if !IsCased(st[i]) then st[i]
    else if i > 0 && IsCased(st[i - 1]) then LowerChar(st[i])
    else UpperChar(st[i])
  }

  /** One character of the name, from the character of the stem at the same place. */
  lemma NameAt(filename: string, i: nat)
    requires i < |Stem(filename)|
    ensures |ExtractName(filename)| == |Stem(filename)|
    ensures ExtractName(filename)[i] == NameChar(Stem(filename), i)
    ensures ExtractName(filename)[i] != '-' && ExtractName(filename)[i] != '_'
  {
    var st := Stem(filename);
    var sp := Spaced(st);
    TitleAt(sp, false, i);
    assert IsCased(sp[i]) == IsCased(st[i]);
    assert i > 0 ==> IsCased(sp[i - 1]) == IsCased(st[i - 1]);
  }

  /**
   * The name has one character per character of the stem: separators
   * become spaces, the first letter of every word is upper case and the
   * other letters lower case, and every other character is kept.
   */
  lemma ExtractNameShape(filename: string)
    ensures |ExtractName(filename)| == |Stem(filename)|
    ensures '-' !in ExtractName(filename) && '_' !in ExtractName(filename)
    ensures forall i :: 0 <= i < |Stem(filename)| ==> ExtractName(filename)[i] == NameChar(Stem(filename), i)
  {
    var st := Stem(filename);
    var nm := ExtractName(filename);
    forall i | 0 <= i < |st|
      ensures nm[i] == NameChar(st, i) && nm[i] != '-' && nm[i] != '_'
    {
      NameAt(filename, i);
    }
  }

  // ---------------------------------------------------------------- process_file, one item

  /** The merge settings: the image base path, whether to keep existing metadata, and the time stamp of the run. */
  datatype Options = Options(base: string, preserve: bool, now: string)

  /** Thumbnails under this prefix count as placeholders and are replaced. */
  const PlaceholderPrefix: string := "https://via.placeholder.com"

  /** `v.startswith(p)`: only a string has the method; any other value raises `AttributeError`. */
  function StartsWithJ(v: Json, p: string): (r: Result<bool>)
    ensures r.Ok? <==> v.JStr?
    ensures r.Ok? ==> r.value == StartsWith(v.s, p)
  {
    if v.JStr? then Ok(StartsWith(v.s, p)) else Err("AttributeError: object has no attribute 'startswith'")
  }

  /** `f"{base}/{slug}/{entry}"`. */
  function LocalPath(base: string, slug: Json, entry: string): string {
    base + "/" + PyStr(slug) + "/" + entry
  }

  /** The slug of the output item: the item's own when it is truthy and metadata is kept, else the file's. */
  function ItemSlug(item: Dict, filename: string, preserve: bool): Json {
    if "slug" in item && PyTruthy(item["slug"]) && preserve then item["slug"] else JStr(ExtractSlug(filename))
  }

  /** The name of the output item, by the same rule. */
  function ItemName(item: Dict, filename: string, preserve: bool): Json {
    if "name" in item && PyTruthy(item["name"]) && preserve then item["name"] else JStr(ExtractName(filename))
  }

  /**
   * The thumbnail step: `None` when the item's thumbnail stays, otherwise
   * the new value. The thumbnail is reset when metadata is not kept, when
   * there is none, or when it is a placeholder; it is then the item's own
   * `http` URL if it has one, and the local `thumb.jpg` otherwise.
   */
  function ThumbOf(item: Dict, slug: Json, opt: Options): Result<Option<Json>> {
    var reset := if !opt.preserve || "thumb" !in item then Ok(true) else StartsWithJ(item["thumb"], PlaceholderPrefix);
    if reset.Err? then Err(reset.message)
    else if !reset.value then Ok(None)
    else if "thumb" in item then
      var http := StartsWithJ(item["thumb"], "http");
      if http.Err? then Err(http.message)
      else if http.value then Ok(Some(item["thumb"]))
      else Ok(Some(JStr(LocalPath(opt.base, slug, "thumb.jpg"))))
    else Ok(Some(JStr(LocalPath(opt.base, slug, "thumb.jpg"))))
  }

  /**
   * What `for gallery_item in item["gallery"]` visits: the strings of a
   * list (any other element has no `startswith`), or the characters of a
   * string; an object or a scalar is an error here.
   */
  function GalleryEntries(v: Json): (r: Result<seq<string>>)
    ensures v.JArr? && (forall i :: 0 <= i < |v.items| ==> v.items[i].JStr?) ==>
              r.Ok? && |r.value| == |v.items| && forall i :: 0 <= i < |v.items| ==> r.value[i] == v.items[i].s
  {
    match v
    case JArr(items) =>
      if forall i | 0 <= i < |items| :: items[i].JStr? then Ok(seq(|items|, i requires 0 <= i < |items| => items[i].s))
      else Err("AttributeError: object has no attribute 'startswith'")
    case JStr(s) => Ok(seq(|s|, i requires 0 <= i < |s| => [s[i]]))
    case JObj(fields) => if fields == map[] then Ok([]) else Err("iteration over an object's keys")
    case _ => Err("TypeError: object is not iterable")
  }

  /** One gallery entry: `http` URLs are kept, anything else goes under the profile's image folder. */
  function GalleryPath(base: string, slug: Json, entry: string): string {
    if StartsWith(entry, "http") then entry else LocalPath(base, slug, entry)
  }

  /** The gallery paths, entry by entry. */
  function GalleryPaths(base: string, slug: Json, entries: seq<string>): (r: seq<Json>)
    ensures |r| == |entries|
    ensures forall i :: 0 <= i < |entries| ==> r[i] == JStr(GalleryPath(base, slug, entries[i]))
    decreases |entries|
  {
    if entries == [] then []
    else [JStr(GalleryPath(base, slug, entries[0]))] + GalleryPaths(base, slug, entries[1..])
  }

  /** The gallery step: `None` without a gallery, else the rewritten list. */
  function GalleryOf(item: Dict, slug: Json, opt: Options): Result<Option<Json>> {
    if "gallery" !in item then Ok(None)
    else
      var entries := GalleryEntries(item["gallery"]);
      if entries.Err? then Err(entries.message)
      else Ok(Some(JArr(GalleryPaths(opt.base, slug, entries.value))))
  }

  /**
   * The item after the slug, name and category steps: with metadata kept
   * it is a copy of the item, otherwise it starts empty.
   */
  function Named(item: Dict, filename: string, opt: Options): (m: Dict)
    ensures "slug" in m && m["slug"] == ItemSlug(item, filename, opt.preserve)
    ensures "name" in m && m["name"] == ItemName(item, filename, opt.preserve)
    ensures "category" in m && m["category"] == if opt.preserve && "category" in item then item["category"] else JStr("onlyfans")
    ensures opt.preserve ==> forall k :: k in item && k != "slug" && k != "name" ==> k in m && m[k] == item[k]
    ensures opt.preserve ==> forall k :: k in m ==> k in item || k == "slug" || k == "name" || k == "category"
    ensures !opt.preserve ==> forall k :: k in m ==> k == "slug" || k == "name" || k == "category"
  {
    var m := (if opt.preserve then item else map[])["slug" := ItemSlug(item, filename, opt.preserve)]
                                                    ["name" := ItemName(item, filename, opt.preserve)];
    if !opt.preserve || "category" !in m then m["category" := JStr("onlyfans")] else m
  }

  /** The steps after the gallery: websites, tags, the creation date, and the counters kept with the metadata. */
  function Finished(item: Dict, m: Dict, opt: Options): (r: Dict)
    ensures forall k :: k in m && k != "websites" && k != "tags" && k != "createdAt" && k != "views" && k != "lastViewed"
              ==> k in r && r[k] == m[k]
    ensures forall k :: k in r ==> k in m || k == "websites" || k == "tags" || k == "createdAt" || k == "views" || k == "lastViewed"
    ensures "createdAt" in r && r["createdAt"] == if !opt.preserve || "createdAt" !in m then JStr(opt.now) else m["createdAt"]
    ensures "websites" in item ==> "websites" in r && r["websites"] == if !opt.preserve || "websites" !in m then item["websites"] else m["websites"]
    ensures "websites" !in item ==> ("websites" in r <==> "websites" in m) && ("websites" in m ==> r["websites"] == m["websites"])
    ensures "tags" in item ==> "tags" in r && r["tags"] == if !opt.preserve || "tags" !in m then item["tags"] else m["tags"]
    ensures "tags" !in item ==> ("tags" in r <==> "tags" in m) && ("tags" in m ==> r["tags"] == m["tags"])
    ensures opt.preserve && "views" in item ==> "views" in r && r["views"] == item["views"]
    ensures opt.preserve && "lastViewed" in item ==> "lastViewed" in r && r["lastViewed"] == item["lastViewed"]
    ensures !opt.preserve ==> ("views" in r <==> "views" in m) && ("lastViewed" in r <==> "lastViewed" in m)
  {
    var m1 := if "websites" in item && (!opt.preserve || "websites" !in m) then m["websites" := item["websites"]] else m;
    var m2 := if "tags" in item && (!opt.preserve || "tags" !in m1) then m1["tags" := item["tags"]] else m1;
    var m3 := if !opt.preserve || "createdAt" !in m2 then m2["createdAt" := JStr(opt.now)] else m2;
    var m4 := if opt.preserve && "views" in item then m3["views" := item["views"]] else m3;
    if opt.preserve && "lastViewed" in item then m4["lastViewed" := item["lastViewed"]] else m4
  }

  /** The item after the thumbnail and gallery steps. */
  function Staged(item: Dict, filename: string, opt: Options, thumb: Option<Json>, gallery: Option<Json>): (m: Dict)
    ensures "slug" in m && m["slug"] == ItemSlug(item, filename, opt.preserve)
    ensures "name" in m && m["name"] == ItemName(item, filename, opt.preserve)
    ensures "category" in m && m["category"] == Named(item, filename, opt)["category"]
    ensures forall k :: k != "thumb" && k != "gallery" ==>
              (k in m <==> k in Named(item, filename, opt)) && (k in m ==> m[k] == Named(item, filename, opt)[k])
    ensures thumb.Some? ==> "thumb" in m && m["thumb"] == thumb.value
    ensures thumb.None? ==> ("thumb" in m <==> "thumb" in Named(item, filename, opt))
                            && ("thumb" in m ==> m["thumb"] == Named(item, filename, opt)["thumb"])
    ensures gallery.Some? ==> "gallery" in m && m["gallery"] == gallery.value
    ensures gallery.None? ==> ("gallery" in m <==> "gallery" in Named(item, filename, opt))
                              && ("gallery" in m ==> m["gallery"] == Named(item, filename, opt)["gallery"])
  {
    var m := Named(item, filename, opt);
    var m1 := if thumb.Some? then m["thumb" := thumb.value] else m;
    if gallery.Some? then m1["gallery" := gallery.value] else m1
  }

  /** The body of the loop in `process_file` for one object, or the exception it raises. */
  function Normalised(item: Dict, filename: string, opt: Options): Result<Dict> {
    var slug := ItemSlug(item, filename, opt.preserve);
    var thumb := ThumbOf(item, slug, opt);
    var gallery := GalleryOf(item, slug, opt);
    if thumb.Err? then Err(thumb.message)
    else if gallery.Err? then Err(gallery.message)
    else Ok(Finished(item, Staged(item, filename, opt, thumb.value, gallery.value), opt))
  }

  /** An item that goes through is the finished form of its staged form; the staged form is returned. */
  lemma Stages(item: Dict, filename: string, opt: Options) returns (m: Dict)
    requires Normalised(item, filename, opt).Ok?
    ensures ThumbOf(item, ItemSlug(item, filename, opt.preserve), opt).Ok?
    ensures GalleryOf(item, ItemSlug(item, filename, opt.preserve), opt).Ok?
    ensures m == Staged(item, filename, opt, ThumbOf(item, ItemSlug(item, filename, opt.preserve), opt).value,
                        GalleryOf(item, ItemSlug(item, filename, opt.preserve), opt).value)
    ensures Normalised(item, filename, opt).value == Finished(item, m, opt)
  {
    var slug := ItemSlug(item, filename, opt.preserve);
    m := Staged(item, filename, opt, ThumbOf(item, slug, opt).value, GalleryOf(item, slug, opt).value);
  }

  /** A thumbnail and a gallery of the expected types never make an item fail, and a thumbnail of any other type always does. */
  lemma NormalisedFails(item: Dict, filename: string, opt: Options)
    ensures (("thumb" !in item || item["thumb"].JStr?) && ("gallery" !in item || GalleryEntries(item["gallery"]).Ok?))
            ==> Normalised(item, filename, opt).Ok?
    ensures "thumb" in item && !item["thumb"].JStr? ==> Normalised(item, filename, opt).Err?
  {
  }

  /**
   * The slug and the name are the item's own when they are truthy and
   * metadata is kept, and come from the file name otherwise.
   */
  lemma NormalisedIdentity(item: Dict, filename: string, opt: Options)
    requires Normalised(item, filename, opt).Ok?
    ensures var d := Normalised(item, filename, opt).value;
      "slug" in d && "name" in d
      && d["slug"] == (if opt.preserve && "slug" in item && PyTruthy(item["slug"]) then item["slug"] else JStr(ExtractSlug(filename)))
      && d["name"] == (if opt.preserve && "name" in item && PyTruthy(item["name"]) then item["name"] else JStr(ExtractName(filename)))
  {
    var d := Stages(item, filename, opt);
  }

  /** The category defaults to `onlyfans` and the creation date to the run's time stamp, unless metadata is kept. */
  lemma NormalisedDefaults(item: Dict, filename: string, opt: Options)
    requires Normalised(item, filename, opt).Ok?
    ensures var d := Normalised(item, filename, opt).value;
      "category" in d && "createdAt" in d
      && d["category"] == (if opt.preserve && "category" in item then item["category"] else JStr("onlyfans"))
      && d["createdAt"] == (if opt.preserve && "createdAt" in item then item["createdAt"] else JStr(opt.now))
  {
    var d := Stages(item, filename, opt);
  }

  /** Views and the last view survive only when metadata is kept. */
  lemma NormalisedCounters(item: Dict, filename: string, opt: Options)
    requires Normalised(item, filename, opt).Ok?
    ensures var d := Normalised(item, filename, opt).value;
      (opt.preserve && "views" in item ==> "views" in d && d["views"] == item["views"])
      && (opt.preserve && "lastViewed" in item ==> "lastViewed" in d && d["lastViewed"] == item["lastViewed"])
      && (!opt.preserve ==> "views" !in d && "lastViewed" !in d)
  {
    var d := Stages(item, filename, opt);
  }

  /** Websites and tags are always the item's own. */
  lemma NormalisedLinks(item: Dict, filename: string, opt: Options)
    requires Normalised(item, filename, opt).Ok?
    ensures var d := Normalised(item, filename, opt).value;
      ("websites" in item ==> "websites" in d && d["websites"] == item["websites"])
      && ("tags" in item ==> "tags" in d && d["tags"] == item["tags"])
  {
    var d := Stages(item, filename, opt);
  }

  /** With metadata kept, every field other than the slug, name, thumbnail and gallery is the item's own. */
  lemma NormalisedKeeps(item: Dict, filename: string, opt: Options, key: string)
    requires Normalised(item, filename, opt).Ok? && opt.preserve
    requires key in item && key != "slug" && key != "name" && key != "thumb" && key != "gallery"
    ensures var d := Normalised(item, filename, opt).value; key in d && d[key] == item[key]
  {
    var d := Stages(item, filename, opt);
  }

  /** Without metadata kept, the output has only the fields the merger writes. */
  lemma NormalisedFresh(item: Dict, filename: string, opt: Options)
    requires Normalised(item, filename, opt).Ok? && !opt.preserve
    ensures forall k :: k in Normalised(item, filename, opt).value ==>
              k in {"slug", "name", "category", "thumb", "gallery", "websites", "tags", "createdAt"}
  {
    var d := Stages(item, filename, opt);
  }

  /**
   * The gallery keeps its length and order: `http` entries verbatim, every
   * other entry under `{base}/{slug}/`.
   */
  lemma NormalisedGallery(item: Dict, filename: string, opt: Options)
    requires Normalised(item, filename, opt).Ok?
    ensures var d := Normalised(item, filename, opt).value;
      ("gallery" in d <==> "gallery" in item)
      && ("gallery" in item ==>
            var entries := GalleryEntries(item["gallery"]).value;
            d["gallery"].JArr? && |d["gallery"].items| == |entries|
            && forall i :: 0 <= i < |entries| ==>
                 d["gallery"].items[i] == JStr(if StartsWith(entries[i], "http") then entries[i]
                                              else LocalPath(opt.base, d["slug"], entries[i])))
  {
    var d := Stages(item, filename, opt);
  }

  /**
   * The thumbnail: when it is reset (metadata not kept, none given, or a
   * placeholder) it is the item's own `http` URL if there is one and the
   * local `thumb.jpg` otherwise; any other thumbnail is kept.
   */
  lemma NormalisedThumb(item: Dict, filename: string, opt: Options)
    requires Normalised(item, filename, opt).Ok?
    ensures var d := Normalised(item, filename, opt).value;
      "thumb" in d && "slug" in d && d["thumb"] == ThumbRule(item, d["slug"], opt)
  {
    var m := Stages(item, filename, opt);
    var slug := ItemSlug(item, filename, opt.preserve);
    ThumbStep(item, slug, opt);
  }

  /** Whether the thumbnail is reset. */
  predicate ThumbReset(item: Dict, opt: Options) {
    !opt.preserve || "thumb" !in item || (item["thumb"].JStr? && StartsWith(item["thumb"].s, PlaceholderPrefix))
  }

  /** The thumbnail an item ends up with, stated on its own. */
  function ThumbRule(item: Dict, slug: Json, opt: Options): Json {
    if "thumb" in item && !ThumbReset(item, opt) then item["thumb"]
    else if "thumb" in item && item["thumb"].JStr? && StartsWith(item["thumb"].s, "http") then item["thumb"]
    else JStr(LocalPath(opt.base, slug, "thumb.jpg"))
  }

  /** The thumbnail step gives the thumbnail of the rule, or leaves one in place that is the rule's. */
  lemma ThumbStep(item: Dict, slug: Json, opt: Options)
    requires ThumbOf(item, slug, opt).Ok?
    ensures ThumbOf(item, slug, opt).value.None? ==> "thumb" in item && item["thumb"] == ThumbRule(item, slug, opt)
    ensures ThumbOf(item, slug, opt).value.Some? ==> ThumbOf(item, slug, opt).value.value == ThumbRule(item, slug, opt)
  {
  }

  // ---------------------------------------------------------------- the placeholder thumbnail

  /**
   * As written, a placeholder thumbnail is sent down the reset branch, but
   * it starts with `http`, so the reset keeps it: a placeholder is never
   * replaced by the local `thumb.jpg`.
   */
  lemma PlaceholderKept(item: Dict, slug: Json, opt: Options, rest: string)
    requires opt.preserve && "thumb" in item && item["thumb"] == JStr(PlaceholderPrefix + rest)
    ensures ThumbOf(item, slug, opt) == Ok(Some(item["thumb"]))
    ensures ThumbRule(item, slug, opt) == item["thumb"]
  {
    var t := PlaceholderPrefix + rest;
    assert t[..|PlaceholderPrefix|] == PlaceholderPrefix;
    assert t[..4] == PlaceholderPrefix[..4] == "http";
  }

  /** The thumbnail step with placeholders replaced, which the placeholder test evidently intends. */
  function ThumbOfIntended(item: Dict, slug: Json, opt: Options): Result<Option<Json>> {
    var reset := if !opt.preserve || "thumb" !in item then Ok(true) else StartsWithJ(item["thumb"], PlaceholderPrefix);
    if reset.Err? then Err(reset.message)
    else if !reset.value then Ok(None)
    else if "thumb" in item then
      var http := StartsWithJ(item["thumb"], "http");
      if http.Err? then Err(http.message)
      else if http.value && !StartsWith(item["thumb"].s, PlaceholderPrefix) then Ok(Some(item["thumb"]))
      else Ok(Some(JStr(LocalPath(opt.base, slug, "thumb.jpg"))))
    else Ok(Some(JStr(LocalPath(opt.base, slug, "thumb.jpg"))))
  }

  /** With the correction a placeholder becomes the local `thumb.jpg`. */
  lemma PlaceholderReplaced(item: Dict, slug: Json, opt: Options)
    requires "thumb" in item && item["thumb"].JStr? && StartsWith(item["thumb"].s, PlaceholderPrefix)
    ensures ThumbOfIntended(item, slug, opt) == Ok(Some(JStr(LocalPath(opt.base, slug, "thumb.jpg"))))
  {
    var t := item["thumb"].s;
    assert t[..4] == t[..|PlaceholderPrefix|][..4] == "http";
  }

  /** Every thumbnail that is not a placeholder is treated as before. */
  lemma IntendedAgrees(item: Dict, slug: Json, opt: Options)
    requires !("thumb" in item && item["thumb"].JStr? && StartsWith(item["thumb"].s, PlaceholderPrefix))
    ensures ThumbOfIntended(item, slug, opt) == ThumbOf(item, slug, opt)
  {
  }
}
