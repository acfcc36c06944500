/**
 * How the catalog turns parsed JSON into its records: the import of a file
 * (CSV or JSON) with its validation, and the start-up load from browser
 * storage with its "drop records without a slug" filter. JSON text itself
 * is not parsed here: each operation takes the value `JSON.parse` returned,
 * or `None` where it threw.
 */
module Persistence {
  import opened Wrappers
  import opened Text
  import opened Lists
  import opened Records
  import opened JsonValues
  import opened Csv

  // ---------------------------------------------------------------- reading a stored object

  /** A text property: `String(v)` of a present value, `""` for a missing or `null` one. */
  function TextOf(v: Option<Json>): string {
    match v
    case None => ""
    case Some(JNull) => ""
    case Some(j) => JsString(j)
  }

  /** The elements of an array property; anything else reads as no elements. */
  function ItemsOf(v: Option<Json>): seq<Json> {
    if v.Some? && v.value.JArr? then v.value.items else []
  }

  /** An array of strings, element by element. */
  function TextsOf(v: Option<Json>): (ss: seq<string>)
    ensures |ss| == |ItemsOf(v)|
  {
    var items := ItemsOf(v);
    seq(|items|, i requires 0 <= i < |items| => TextOf(Some(items[i])))
  }

  /** One element of `websites`: its `name`, `url`, `picture` and `type`. */
  function WebsiteOf(j: Json): Website {
    if j.JObj? then
      Website(TextOf(Get(j.fields, "name")), TextOf(Get(j.fields, "url")),
              TextOf(Get(j.fields, "picture")), TextOf(Get(j.fields, "type")))
    else Website("", "", "", "")
  }

  /** `views || 0`. */
  function NumberOf(v: Option<Json>): int {
    if v.Some? && v.value.JNum? then v.value.n else 0
  }

  /** A date property: an ISO string read by `parseDate`, or a millisecond count. */
  function DateOf(v: Option<Json>, parseDate: string -> Option<int>): Option<int> {
    match v
    case Some(JStr(s)) => parseDate(s)
    case Some(JNum(n)) => Some(n)
    case _ => None
  }

  /** The record a stored object stands for. */
  function ToRecord(d: Dict, parseDate: string -> Option<int>): Record {
    var sites := ItemsOf(Get(d, "websites"));
    Record(
      TextOf(Get(d, "slug")), TextOf(Get(d, "name")), TextOf(Get(d, "category")),
      TextsOf(Get(d, "tags")),
      seq(|sites|, i requires 0 <= i < |sites| => WebsiteOf(sites[i])),
      TextsOf(Get(d, "gallery")),
      TextOf(Get(d, "thumb")),
      NumberOf(Get(d, "views")),
      DateOf(Get(d, "createdAt"), parseDate), DateOf(Get(d, "lastViewed"), parseDate),
      Get(d, "favorite").Some? && JsTruthy(Get(d, "favorite").value))
  }

  /** The record an element of a stored array stands for; a non-object has no properties. */
  function ItemRecord(j: Json, parseDate: string -> Option<int>): Record {
    ToRecord(if j.JObj? then j.fields else map[], parseDate)
  }

  // ---------------------------------------------------------------- writing a stored object

  /** A date as `JSON.stringify` writes it: the ISO string, or `null`. */
  function DateJson(t: Option<int>, iso: int -> string): Json {
    if t.Some? then JStr(iso(t.value)) else JNull
  }

  function TextsJson(ss: seq<string>): Json {
    JArr(seq(|ss|, i requires 0 <= i < |ss| => JStr(ss[i])))
  }

  function WebsiteJson(w: Website): Json {
    JObj(map["name" := JStr(w.name), "url" := JStr(w.url), "picture" := JStr(w.picture), "type" := JStr(w.kind)])
  }

  /** The object `saveActresses` writes for a record. */
  function RecordJson(r: Record, iso: int -> string): (j: Json)
    ensures j.JObj? && Get(j.fields, "slug") == Some(JStr(r.slug))
  {
    JObj(map[
      "slug" := JStr(r.slug), "name" := JStr(r.name), "category" := JStr(r.category),
      "tags" := TextsJson(r.tags),
      "websites" := JArr(seq(|r.websites|, i requires 0 <= i < |r.websites| => WebsiteJson(r.websites[i]))),
      "gallery" := TextsJson(r.gallery), "thumb" := JStr(r.thumb), "views" := JNum(r.views),
      "createdAt" := DateJson(r.createdAt, iso), "lastViewed" := DateJson(r.lastViewed, iso),
      "favorite" := JBool(r.favorite)])
  }

  /** The array `saveActresses` writes. */
  function StoreJson(rs: seq<Record>, iso: int -> string): (j: Json)
    ensures j.JArr? && |j.items| == |rs|
  {
    JArr(seq(|rs|, i requires 0 <= i < |rs| => RecordJson(rs[i], iso)))
  }

  lemma TextsRoundTrip(ss: seq<string>)
    ensures TextsOf(Some(TextsJson(ss))) == ss
  {
    var t := TextsOf(Some(TextsJson(ss)));
    forall i | 0 <= i < |ss| ensures t[i] == ss[i] {
      assert TextsJson(ss).items[i] == JStr(ss[i]);
    }
  }

  lemma WebsiteRoundTrip(w: Website)
    ensures WebsiteOf(WebsiteJson(w)) == w
  {
  }

  lemma DateRoundTrip(t: Option<int>, iso: int -> string, parseDate: string -> Option<int>)
    requires forall x :: parseDate(iso(x)) == Some(x)
    ensures DateOf(Some(DateJson(t, iso)), parseDate) == t
  {
    if t.Some? {
      var x: int := t.value;
      assert parseDate(iso(x)) == Some(x);
    }
  }

  /** What `saveActresses` writes for each scalar property of a record. */
  ghost predicate WrittenScalars(d: Dict, r: Record, iso: int -> string) {
    Get(d, "slug") == Some(JStr(r.slug)) && Get(d, "name") == Some(JStr(r.name))
    && Get(d, "category") == Some(JStr(r.category)) && Get(d, "thumb") == Some(JStr(r.thumb))
    && Get(d, "views") == Some(JNum(r.views)) && Get(d, "favorite") == Some(JBool(r.favorite))
  }

  /** What `saveActresses` writes for each list and date property of a record. */
  ghost predicate WrittenLists(d: Dict, r: Record, iso: int -> string) {
    Get(d, "tags") == Some(TextsJson(r.tags)) && Get(d, "gallery") == Some(TextsJson(r.gallery))
    && Get(d, "createdAt") == Some(DateJson(r.createdAt, iso))
    && Get(d, "lastViewed") == Some(DateJson(r.lastViewed, iso))
    && Get(d, "websites") == Some(JArr(seq(|r.websites|, i requires 0 <= i < |r.websites| => WebsiteJson(r.websites[i]))))
  }

  ghost predicate Written(d: Dict, r: Record, iso: int -> string) {
    WrittenScalars(d, r, iso) && WrittenLists(d, r, iso)
  }

  lemma ScalarsWritten(r: Record, iso: int -> string)
    ensures WrittenScalars(RecordJson(r, iso).fields, r, iso)
  {
  }

  lemma ListsWritten(r: Record, iso: int -> string)
    ensures WrittenLists(RecordJson(r, iso).fields, r, iso)
  {
  }

  /** An object holding what was written for a record reads back as that record. */
  lemma ReadWritten(d: Dict, r: Record, iso: int -> string, parseDate: string -> Option<int>)
    requires Written(d, r, iso)
    requires forall x :: parseDate(iso(x)) == Some(x)
    ensures ToRecord(d, parseDate) == r
  {
    TextsRoundTrip(r.tags);
    TextsRoundTrip(r.gallery);
    DateRoundTrip(r.createdAt, iso, parseDate);
    DateRoundTrip(r.lastViewed, iso, parseDate);
    var sites := ItemsOf(Get(d, "websites"));
    var ws := seq(|sites|, i requires 0 <= i < |sites| => WebsiteOf(sites[i]));
    forall i | 0 <= i < |r.websites| ensures ws[i] == r.websites[i] {
      WebsiteRoundTrip(r.websites[i]);
    }
  }

  /** Reading back what `saveActresses` wrote gives the record, given that dates survive their ISO form. */
  lemma RecordRoundTrip(r: Record, iso: int -> string, parseDate: string -> Option<int>)
    requires forall x :: parseDate(iso(x)) == Some(x)
    ensures ToRecord(RecordJson(r, iso).fields, parseDate) == r
  {
    ScalarsWritten(r, iso);
    ListsWritten(r, iso);
    ReadWritten(RecordJson(r, iso).fields, r, iso, parseDate);
  }

  // ---------------------------------------------------------------- processImportedData

  /** A property is present and truthy. */
  predicate Truthy(v: Option<Json>) {
    v.Some? && JsTruthy(v.value)
  }

  /** `Array.isArray` of a property. */
  predicate IsArray(v: Option<Json>) {
    v.Some? && v.value.JArr?
  }

  /**
   * The import's check of one element: a truthy `slug`, `name` and `category`
   * and array `websites` and `gallery`. Only an object has properties.
   */
  predicate ValidItem(j: Json) {
    j.JObj? && Truthy(Get(j.fields, "slug")) && Truthy(Get(j.fields, "name")) && Truthy(Get(j.fields, "category"))
    && IsArray(Get(j.fields, "websites")) && IsArray(Get(j.fields, "gallery"))
  }

  /** Where `every` stops: the first element that fails the check, or the length when none does. */
  function FirstInvalid(items: seq<Json>): (k: nat)
    ensures k <= |items|
    ensures forall i :: 0 <= i < k ==> ValidItem(items[i])
    ensures k < |items| ==> !ValidItem(items[k])
  {
    if items == [] then 0
    else if !ValidItem(items[0]) then 0
    else 1 + FirstInvalid(items[1..])
  }

  /** The same check on a record `parseCSV` built, whose `websites` and `gallery` are always arrays. */
  predicate ValidRecord(r: Record) {
    r.slug != "" && r.name != "" && r.category != ""
  }

  /** The chosen file: CSV text, or what `JSON.parse` made of JSON text (`None`: it threw). */
  datatype ImportFile = CsvFile(text: string) | JsonFile(parsed: Option<Json>)

  const NotAnArray: string := "Invalid file format"
  const BadStructure: string := "Invalid data structure"
  /** Stands for the message of the `SyntaxError` that `JSON.parse` throws. */
  const ParseFailed: string := "Unexpected token in JSON"
  /** The `TypeError` of reading `slug` off a `null` element. */
  const NullItem: string := "Cannot read properties of null (reading 'slug')"

  /** The records an import would install, or the message of the error it reports. */
  function DecodeImport(file: ImportFile, now: int, parseDate: string -> Option<int>): Result<seq<Record>> {
    match file
    case CsvFile(text) =>
      var rs := ParseCsv(text, now);
      if forall i :: 0 <= i < |rs| ==> ValidRecord(rs[i]) then Ok(rs) else Err(BadStructure)
    case JsonFile(None) => Err(ParseFailed)
    case JsonFile(Some(JArr(items))) =>
      var k := FirstInvalid(items);
      if k == |items| then Ok(seq(|items|, i requires 0 <= i < |items| => ItemRecord(items[i], parseDate)))
      else if items[k] == JNull then Err(NullItem)
      else Err(BadStructure)
    case JsonFile(Some(_)) => Err(NotAnArray)
  }

  /** A CSV import always passes the check: `parseCSV` derives a non-empty slug from every name it keeps. */
  lemma CsvImportAccepted(text: string, now: int, parseDate: string -> Option<int>)
    ensures DecodeImport(CsvFile(text), now, parseDate) == Ok(ParseCsv(text, now))
  {
    var rs := ParseCsv(text, now);
    ParseCsvRecords(text, now);
    forall i | 0 <= i < |rs| ensures ValidRecord(rs[i]) {
      assert rs[i] in rs;
      assert |rs[i].slug| == |rs[i].name|;
    }
  }

  /**
   * A JSON import succeeds exactly when the payload is an array whose every
   * element passes the check, and then yields one record per element, in order.
   */
  lemma JsonImportDecision(parsed: Option<Json>, now: int, parseDate: string -> Option<int>)
    ensures DecodeImport(JsonFile(parsed), now, parseDate).Ok?
            <==> parsed.Some? && parsed.value.JArr? && forall i :: 0 <= i < |parsed.value.items| ==> ValidItem(parsed.value.items[i])
    ensures DecodeImport(JsonFile(parsed), now, parseDate).Ok? ==>
      var rs := DecodeImport(JsonFile(parsed), now, parseDate).value;
      |rs| == |parsed.value.items| && forall i :: 0 <= i < |rs| ==> rs[i] == ItemRecord(parsed.value.items[i], parseDate)
  {
  }

  /** A truthy value that is not an array reads as a non-empty text. */
  lemma TruthyText(v: Option<Json>)
    requires Truthy(v) && !v.value.JArr?
    ensures TextOf(v) != ""
  {
    if v.value.JNum? {
      assert IntToString(v.value.n)[0] in IntToString(v.value.n);
    }
  }

  /** An accepted element whose slug, name and category are not arrays gives a record that passes the check. */
  lemma ValidItemRecord(j: Json, parseDate: string -> Option<int>)
    requires ValidItem(j)
    requires !Get(j.fields, "slug").value.JArr? && !Get(j.fields, "name").value.JArr?
    requires !Get(j.fields, "category").value.JArr?
    ensures ValidRecord(ItemRecord(j, parseDate))
  {
    TruthyText(Get(j.fields, "slug"));
    TruthyText(Get(j.fields, "name"));
    TruthyText(Get(j.fields, "category"));
  }

  // ---------------------------------------------------------------- loadActresses

  /** `localStorage.getItem(...)`: nothing, or the stored text and what `JSON.parse` makes of it. */
  datatype Saved = Absent | Stored(text: string, parsed: Option<Json>)

  /** The load filter: an element with a truthy `slug`; only an object has one. */
  predicate HasSlug(j: Json) {
    j.JObj? && Truthy(Get(j.fields, "slug"))
  }

  /**
   * The records `loadActresses` installs, or `None` when it falls back to the
   * sample data: nothing stored, text that does not parse, a value without
   * `forEach` (not an array), or a `null` element, whose `name` the debug
   * listing reads. Otherwise the elements without a truthy slug are dropped.
   */
  function LoadedRecords(saved: Saved, parseDate: string -> Option<int>): Option<seq<Record>> {
    match saved
    case Absent => None
    case Stored(text, parsed) =>
      if text == "" then None
      else if parsed.Some? && parsed.value.JArr? && JNull !in parsed.value.items then
        var kept := Where(parsed.value.items, HasSlug);
        Some(seq(|kept|, i requires 0 <= i < |kept| => ItemRecord(kept[i], parseDate)))
      else None
  }

  /**
   * Loading keeps, in their stored order, exactly the elements with a truthy
   * slug, one record each; it falls back to the sample data exactly in the
   * failure cases.
   */
  lemma LoadKeepsSlugged(saved: Saved, parseDate: string -> Option<int>)
    ensures LoadedRecords(saved, parseDate).None?
            <==> saved.Absent? || saved.text == "" || saved.parsed.None? || !saved.parsed.value.JArr?
                 || JNull in saved.parsed.value.items
    ensures LoadedRecords(saved, parseDate).Some? ==>
      var items := saved.parsed.value.items;
      var kept := Where(items, HasSlug);
      SubsequenceOf(kept, items) && (forall j :: j in kept <==> j in items && HasSlug(j))
      && LoadedRecords(saved, parseDate).value == seq(|kept|, i requires 0 <= i < |kept| => ItemRecord(kept[i], parseDate))
  {
    if LoadedRecords(saved, parseDate).Some? {
      var items := saved.parsed.value.items;
      WhereSubsequence(items, HasSlug);
      forall j ensures j in Where(items, HasSlug) <==> j in items && HasSlug(j) {
        WhereMember(items, HasSlug, j);
      }
    }
  }

  /** Every element `saveActresses` writes has a slug and reads back as its record. */
  lemma StoredItems(rs: seq<Record>, iso: int -> string, parseDate: string -> Option<int>)
    requires forall r :: r in rs ==> r.slug != ""
    requires forall x :: parseDate(iso(x)) == Some(x)
    ensures forall i :: 0 <= i < |rs| ==>
      StoreJson(rs, iso).items[i] != JNull && HasSlug(StoreJson(rs, iso).items[i])
      && ItemRecord(StoreJson(rs, iso).items[i], parseDate) == rs[i]
  {
    var items := StoreJson(rs, iso).items;
    forall i | 0 <= i < |rs|
      ensures items[i] != JNull && HasSlug(items[i]) && ItemRecord(items[i], parseDate) == rs[i]
    {
      assert items[i] == RecordJson(rs[i], iso);
      assert rs[i] in rs;
      RecordRoundTrip(rs[i], iso, parseDate);
    }
  }

  /** The load filter keeps every element `saveActresses` wrote for records with slugs. */
  lemma StoredKept(rs: seq<Record>, iso: int -> string, parseDate: string -> Option<int>)
    requires forall r :: r in rs ==> r.slug != ""
    requires forall x :: parseDate(iso(x)) == Some(x)
    ensures JNull !in StoreJson(rs, iso).items
    ensures Where(StoreJson(rs, iso).items, HasSlug) == StoreJson(rs, iso).items
  {
    var items := StoreJson(rs, iso).items;
    StoredItems(rs, iso, parseDate);
    forall j | j in items ensures j != JNull && HasSlug(j) {
      var i :| 0 <= i < |items| && items[i] == j;
    }
    WhereAll(items, HasSlug);
  }

  /** Loading what `saveActresses` wrote gives back the same records, provided each has a slug. */
  lemma SaveThenLoad(rs: seq<Record>, text: string, iso: int -> string, parseDate: string -> Option<int>)
    requires text != "" && forall r :: r in rs ==> r.slug != ""
    requires forall x :: parseDate(iso(x)) == Some(x)
    ensures LoadedRecords(Stored(text, Some(StoreJson(rs, iso))), parseDate) == Some(rs)
  {
    var items := StoreJson(rs, iso).items;
    StoredKept(rs, iso, parseDate);
    StoredItems(rs, iso, parseDate);
    var got := seq(|items|, i requires 0 <= i < |items| => ItemRecord(items[i], parseDate));
    assert got == rs;
  }
}
