/**
 * The catalog's CSV codec: `parseInt` as the import uses it, `parseCSV`
 * (one record per non-empty data line) and the text `exportCSV` builds.
 */
module Csv {
  import opened Wrappers
  import opened Text
  import opened Lists
  import opened Records

  // ---------------------------------------------------------------- parseInt

  predicate IsHexLetter(c: char) { 'a' <= c <= 'f' || 'A' <= c <= 'F' }

  /** A digit of base 10 or base 16. */
  predicate IsRadixDigit(c: char, hex: bool) {
    IsDigit(c) || (hex && IsHexLetter(c))
  }

  function DigitValue(c: char): (d: nat)
    requires IsDigit(c) || IsHexLetter(c)
    ensures d < 16
  {
    if IsDigit(c) then c as int - '0' as int
    else if 'a' <= c <= 'f' then c as int - 'a' as int + 10
    else c as int - 'A' as int + 10
  }

  /** The longest prefix of `s` made of digits of the radix. */
  function LeadingDigits(s: string, hex: bool): (d: string)
    ensures |d| <= |s| && d == s[..|d|]
    ensures forall i :: 0 <= i < |d| ==> IsRadixDigit(d[i], hex)
    ensures |d| < |s| ==> !IsRadixDigit(s[|d|], hex)
  {
    if s != [] && IsRadixDigit(s[0], hex) then [s[0]] + LeadingDigits(s[1..], hex) else []
  }

  /** The value of a digit string, most significant digit first. */
  function DigitsValue(d: string, hex: bool): nat
    requires forall i :: 0 <= i < |d| ==> IsRadixDigit(d[i], hex)
    decreases |d|
  {
    if d == [] then 0
    else
      var last := d[|d| - 1];
      assert IsRadixDigit(last, hex);
      DigitsValue(d[..|d| - 1], hex) * (if hex then 16 else 10) + DigitValue(last)
  }

  /** The text after an optional leading `-` or `+`. */
  function AfterSign(t: string): (u: string)
    ensures |u| <= |t|
  {
    if t != [] && (t[0] == '-' || t[0] == '+') then t[1..] else t
  }

  /** A `0x` or `0X` prefix, which selects base 16. */
  predicate HexPrefix(u: string) {
    |u| >= 2 && u[0] == '0' && (u[1] == 'x' || u[1] == 'X')
  }

  /** The value of the longest digit run after the radix prefix; none is `NaN`. */
  function ReadDigits(u: string): Option<nat> {
    var hex := HexPrefix(u);
    var d := LeadingDigits(if hex then u[2..] else u, hex);
    if d == [] then None else Some(DigitsValue(d, hex))
  }

  /**
   * JavaScript `parseInt(s)` with no radix: leading white space is skipped,
   * one sign is read, a `0x`/`0X` prefix selects base 16, and the longest
   * run of digits is read; no digit at all is `NaN`, here `None`.
   */
  function ParseInt(s: string): Option<int> {
    var t := TrimStart(s, IsJsSpace);
    match ReadDigits(AfterSign(t))
    case None => None
    case Some(v) =>
      var w: int := v;
      Some(if t != [] && t[0] == '-' then -w else w)
  }

  lemma {:induction false} NatToStringDigits(n: nat)
    ensures DigitsValue(NatToString(n), false) == n
    decreases n
  {
    if n >= 10 {
      NatToStringDigits(n / 10);
      var s := NatToString(n);
      assert s[..|s| - 1] == NatToString(n / 10);
    }
  }

  lemma {:induction false} LeadingDigitsAll(s: string, hex: bool)
    requires forall i :: 0 <= i < |s| ==> IsRadixDigit(s[i], hex)
    ensures LeadingDigits(s, hex) == s
    decreases |s|
  {
    if s != [] {
      assert IsRadixDigit(s[0], hex);
      LeadingDigitsAll(s[1..], hex);
      assert s == [s[0]] + s[1..];
    }
  }

  lemma ReadDecimal(ds: string)
    requires |ds| >= 1 && forall k :: 0 <= k < |ds| ==> IsDigit(ds[k])
    ensures ReadDigits(ds) == Some(DigitsValue(ds, false))
  {
    assert !HexPrefix(ds) by {
      if |ds| >= 2 {
        assert IsDigit(ds[1]);
      }
    }
    LeadingDigitsAll(ds, false);
  }

  /** A run of decimal digits reads as its value. */
  lemma ParseIntDecimal(ds: string)
    requires |ds| >= 1 && forall k :: 0 <= k < |ds| ==> IsDigit(ds[k])
    ensures ParseInt(ds) == Some(DigitsValue(ds, false) as int)
  {
    ReadDecimal(ds);
    assert IsDigit(ds[0]);
    TrimStartKeeps(ds, IsJsSpace);
    var t := TrimStart(ds, IsJsSpace);
    assert t == ds;
    assert AfterSign(t) == ds;
    assert ReadDigits(AfterSign(t)) == Some(DigitsValue(ds, false));
    assert !(t != [] && t[0] == '-');
  }

  /** A minus sign followed by a run of decimal digits reads as the negated value. */
  lemma ParseIntNegative(n: string)
    requires |n| >= 2 && n[0] == '-' && forall k :: 1 <= k < |n| ==> IsDigit(n[k])
    ensures ParseInt(n) == Some(-(DigitsValue(n[1..], false) as int))
  {
    var ds := n[1..];
    forall k | 0 <= k < |ds| ensures IsDigit(ds[k]) {
      assert ds[k] == n[k + 1];
    }
    ReadDecimal(ds);
    TrimStartKeeps(n, IsJsSpace);
    var t := TrimStart(n, IsJsSpace);
    assert t == n;
    assert AfterSign(t) == ds;
  }

  /** Reading back the decimal rendering of an integer gives the integer. */
  lemma ParseIntRoundTrip(i: int)
    ensures ParseInt(IntToString(i)) == Some(i)
  {
    var m: nat := if i < 0 then -i else i;
    var digits := NatToString(m);
    forall k | 0 <= k < |digits| ensures IsDigit(digits[k]) {
      assert digits[k] in digits;
    }
    NatToStringDigits(m);
    if i < 0 {
      var s := IntToString(i);
      assert s == "-" + digits;
      assert s[1..] == digits;
      forall k | 1 <= k < |s| ensures IsDigit(s[k]) {
        assert s[k] == digits[k - 1];
      }
      ParseIntNegative(s);
    } else {
      ParseIntDecimal(digits);
    }
  }

  // ---------------------------------------------------------------- parseCSV

  /** One value of a CSV line: every `"` removed, then trimmed. */
  function CleanField(v: string): (f: string)
    ensures '"' !in f
  {
    var w := Without(v, '"');
    var f := JsTrim(w);
    assert forall k :: 0 <= k < |f| ==> f[k] in w by {
      var a := TrimStart(w, IsJsSpace);
      forall k | 0 <= k < |f| ensures f[k] in w {
        assert f[k] == a[k];
        assert a[k] == w[|w| - |a| + k];
      }
    }
    f
  }

  /** `line.split(',').map(v => v.replace(/"/g, '').trim())`. */
  function Fields(line: string): (vs: seq<string>)
    ensures |vs| >= 1
  {
    var parts := Split(line, ',');
    seq(|parts|, i requires 0 <= i < |parts| => CleanField(parts[i]))
  }

  /** `values[i]`; an index past the end reads `undefined`, which every use treats like `""`. */
  function FieldAt(vs: seq<string>, i: nat): string {
    if i < |vs| then vs[i] else ""
  }

  /** The record `parseCSV` builds from one data line. */
  function CsvRecord(line: string, now: int): (r: Record)
    ensures r.slug == SlugOf(r.name) && r.category != "" && r.websites == [] && |r.gallery| <= 1
    ensures r.createdAt == Some(now) && r.lastViewed == None
    ensures r.thumb == (if r.gallery == [] then Placeholder else r.gallery[0])
  {
    var vs := Fields(line);
    var name := FieldAt(vs, 0);
    var photo := FieldAt(vs, 4);
    Record(
      SlugOf(name), name,
      if FieldAt(vs, 1) != "" then FieldAt(vs, 1) else "worldwide",
      if FieldAt(vs, 2) != "" then Split(FieldAt(vs, 2), ';') else [],
      [],
      if photo != "" then [photo] else [],
      if photo != "" then photo else Placeholder,
      ParseInt(FieldAt(vs, 3)).GetOr(0),
      Some(now), None, false)
  }

  /** `actress.name` is truthy. */
  predicate HasName(r: Record) {
    r.name != ""
  }

  /** The records of the data lines, one per line. */
  function LineRecords(lines: seq<string>, now: int): (rs: seq<Record>)
    ensures |rs| == |lines|
    ensures forall i :: 0 <= i < |lines| ==> rs[i] == CsvRecord(lines[i], now)
  {
    seq(|lines|, i requires 0 <= i < |lines| => CsvRecord(lines[i], now))
  }

  /** `parseCSV(text)`: every line after the first, as records, keeping those with a name. */
  function ParseCsv(text: string, now: int): seq<Record> {
    Where(LineRecords(Split(text, '\n')[1..], now), HasName)
  }

  /** What every imported CSV record looks like; in particular it passes the import validation. */
  ghost predicate CsvShaped(r: Record, now: int) {
    r.name != "" && r.slug != "" && r.slug == SlugOf(r.name) && r.category != ""
    && r.websites == [] && |r.gallery| <= 1 && r.createdAt == Some(now) && r.lastViewed == None
    && r.thumb == (if r.gallery == [] then Placeholder else r.gallery[0])
  }

  /** The header line is skipped and only lines with a first value become records, each CSV-shaped. */
  lemma ParseCsvRecords(text: string, now: int)
    ensures |ParseCsv(text, now)| <= |Split(text, '\n')| - 1
    ensures forall r :: r in ParseCsv(text, now) ==> CsvShaped(r, now)
  {
    var all := LineRecords(Split(text, '\n')[1..], now);
    forall r | r in ParseCsv(text, now) ensures CsvShaped(r, now) {
      WhereMember(all, HasName, r);
    }
  }

  // ---------------------------------------------------------------- exportCSV

  /** The column titles of the export. */
  const CsvHeader: seq<string> := ["Name", "Category", "Tags", "Views", "Photos", "Links", "Created"]

  /** A field wrapped in double quotes, as the export writes every field, the titles included. */
  function Quote(f: string): string {
    "\"" + f + "\""
  }

  /** One output line: the quoted fields joined by `,`. */
  function CsvLine(fields: seq<string>): string {
    Join(seq(|fields|, i requires 0 <= i < |fields| => Quote(fields[i])), ",")
  }

  /**
   * The seven fields of a record's row; `date` stands for
   * `new Date(createdAt).toLocaleDateString()`, which depends on the locale.
   */
  function ExportFields(r: Record, date: Option<int> -> string): (fs: seq<string>)
    ensures |fs| == 7
  {
    [r.name, r.category, Join(r.tags, ";"), IntToString(r.views),
     IntToString(|r.gallery|), IntToString(|r.websites|), date(r.createdAt)]
  }

  /** The rows of the export, one per record, in store order. */
  function ExportRows(rs: seq<Record>, date: Option<int> -> string): (rows: seq<string>)
    ensures |rows| == |rs|
  {
    seq(|rs|, i requires 0 <= i < |rs| => CsvLine(ExportFields(rs[i], date)))
  }

  /** `exportCSV`: the header line, then one line per record, joined by newlines. */
  function ExportCsv(rs: seq<Record>, date: Option<int> -> string): string {
    Join([CsvLine(CsvHeader)] + ExportRows(rs, date), "\n")
  }

  lemma {:induction false} JoinFree(parts: seq<string>, sep: string, c: char)
    requires c !in sep && forall p :: p in parts ==> c !in p
    ensures c !in Join(parts, sep)
    decreases |parts|
  {
    if |parts| > 1 {
      JoinFree(parts[1..], sep, c);
      assert parts[0] in parts;
    } else if |parts| == 1 {
      assert parts[0] in parts;
    }
  }

  lemma CsvLineFree(fields: seq<string>, c: char)
    requires c != '"' && c != ','
    requires forall f :: f in fields ==> c !in f
    ensures c !in CsvLine(fields)
  {
    var qs := seq(|fields|, i requires 0 <= i < |fields| => Quote(fields[i]));
    forall p | p in qs ensures c !in p {
      var i :| 0 <= i < |qs| && qs[i] == p;
      assert fields[i] in fields;
    }
    JoinFree(qs, ",", c);
  }

  lemma IntToStringFree(n: int, c: char)
    requires !IsDigit(c) && c != '-'
    ensures c !in IntToString(n)
  {
  }

  /** No newline in the text a record's fields are made of. */
  ghost predicate SingleLine(r: Record, date: Option<int> -> string) {
    '\n' !in r.name && '\n' !in r.category && '\n' !in date(r.createdAt)
    && forall t :: t in r.tags ==> '\n' !in t
  }

  /** A row has no newline when the record's text fields have none. */
  lemma RowSingleLine(r: Record, date: Option<int> -> string)
    requires SingleLine(r, date)
    ensures '\n' !in CsvLine(ExportFields(r, date))
  {
    JoinFree(r.tags, ";", '\n');
    IntToStringFree(r.views, '\n');
    IntToStringFree(|r.gallery|, '\n');
    IntToStringFree(|r.websites|, '\n');
    var fs := ExportFields(r, date);
    forall f | f in fs ensures '\n' !in f {
    }
    CsvLineFree(fs, '\n');
  }

  /**
   * When no field holds a newline, the export has one line more than there
   * are records: the header line, then each record's row in store order.
   */
  lemma ExportLines(rs: seq<Record>, date: Option<int> -> string)
    requires forall r :: r in rs ==> SingleLine(r, date)
    ensures Split(ExportCsv(rs, date), '\n') == [CsvLine(CsvHeader)] + ExportRows(rs, date)
    ensures |Split(ExportCsv(rs, date), '\n')| == |rs| + 1
  {
    var rows := ExportRows(rs, date);
    var lines := [CsvLine(CsvHeader)] + rows;
    CsvLineFree(CsvHeader, '\n');
    forall i | 0 <= i < |rows| ensures '\n' !in rows[i] {
      assert rs[i] in rs;
      RowSingleLine(rs[i], date);
    }
    forall p | p in lines ensures '\n' !in p {
      if p != CsvLine(CsvHeader) {
        var i :| 0 <= i < |rows| && rows[i] == p;
      }
    }
    SplitJoin(lines, '\n');
  }

  /** Removing the quotes from a line gives its fields joined by commas: the header reads `Name,Category,...`. */
  lemma {:induction false} UnquotedLine(fields: seq<string>)
    requires forall f :: f in fields ==> '"' !in f
    ensures Without(CsvLine(fields), '"') == Join(fields, ",")
    decreases |fields|
  {
    var qs := seq(|fields|, i requires 0 <= i < |fields| => Quote(fields[i]));
    if |fields| >= 1 {
      assert fields[0] in fields;
      QuotesDrop(fields[0]);
    }
    if |fields| >= 2 {
      var rest := fields[1..];
      forall f | f in rest ensures '"' !in f {
        assert f in fields;
      }
      UnquotedLine(rest);
      assert qs[1..] == seq(|rest|, i requires 0 <= i < |rest| => Quote(rest[i]));
      WithoutAppend(qs[0] + ",", Join(qs[1..], ","), '"');
      WithoutAppend(qs[0], ",", '"');
      WithoutAbsent(",", '"');
    }
  }

  lemma QuotesDrop(f: string)
    requires '"' !in f
    ensures Without(Quote(f), '"') == f
  {
    WithoutAppend("\"" + f, "\"", '"');
    WithoutAppend("\"", f, '"');
    WithoutAbsent(f, '"');
    assert Without("\"", '"') == [];
  }

  // ---------------------------------------------------------------- export, then import

  /** A string the CSV layout carries unchanged: no separator or quote inside, no white space around it. */
  ghost predicate CsvSafe(f: string) {
    ',' !in f && '"' !in f && '\n' !in f && Unpadded(f)
  }

  /** No white space at either end, so `trim()` leaves the string as it is. */
  predicate Unpadded(f: string) {
    f == [] || (!IsJsSpace(f[0]) && !IsJsSpace(f[|f| - 1]))
  }

  lemma UnpaddedTrim(f: string)
    requires Unpadded(f)
    ensures JsTrim(f) == f
  {
    TrimStartKeeps(f, IsJsSpace);
    TrimEndKeeps(f, IsJsSpace);
  }

  /** A record whose name, category and tags survive an export followed by an import. */
  ghost predicate Portable(r: Record, date: Option<int> -> string) {
    r.name != "" && CsvSafe(r.name) && r.category != "" && CsvSafe(r.category)
    && (forall t :: t in r.tags ==> t != "" && CsvSafe(t) && ';' !in t)
    && '\n' !in date(r.createdAt)
  }

  lemma WithoutAbsent(s: string, c: char)
    requires c !in s
    ensures Without(s, c) == s
  {
    if s != [] {
      assert s[0] != c;
      WithoutAbsent(s[1..], c);
      assert s == [s[0]] + s[1..];
    }
  }

  lemma {:induction false} WithoutAppend(a: string, b: string, c: char)
    ensures Without(a + b, c) == Without(a, c) + Without(b, c)
    decreases |a|
  {
    if a != [] {
      assert (a + b)[0] == a[0] && (a + b)[1..] == a[1..] + b;
      WithoutAppend(a[1..], b, c);
    } else {
      assert a + b == b;
    }
  }

  /** The import reads back a quoted, clean field as the field itself. */
  lemma QuotedField(f: string)
    requires '"' !in f && Unpadded(f)
    ensures CleanField(Quote(f)) == f
  {
    QuotesDrop(f);
    UnpaddedTrim(f);
  }

  lemma TrimEndKeeps(s: string, space: char -> bool)
    requires s == [] || !space(s[|s| - 1])
    ensures TrimEnd(s, space) == s
  {
  }

  lemma TrimStartKeeps(s: string, space: char -> bool)
    requires s == [] || !space(s[0])
    ensures TrimStart(s, space) == s
  {
  }

  lemma IntToStringClean(n: int)
    ensures CsvSafe(IntToString(n)) && IntToString(n) != ""
  {
    var s := IntToString(n);
    assert s[0] in s && s[|s| - 1] in s;
  }

  lemma {:induction false} JoinEnds(parts: seq<string>, sep: string)
    requires |parts| >= 1 && forall k :: 0 <= k < |parts| ==> parts[k] != []
    ensures Join(parts, sep) != []
    ensures Join(parts, sep)[0] == parts[0][0]
    ensures Join(parts, sep)[|Join(parts, sep)| - 1] == parts[|parts| - 1][|parts[|parts| - 1]| - 1]
    decreases |parts|
  {
    if |parts| > 1 {
      var rest := parts[1..];
      JoinEnds(rest, sep);
      assert rest[|rest| - 1] == parts[|parts| - 1];
    }
  }

  lemma TagsField(tags: seq<string>)
    requires forall t :: t in tags ==> t != "" && CsvSafe(t) && ';' !in t
    ensures CsvSafe(Join(tags, ";"))
    ensures Join(tags, ";") == "" <==> tags == []
    ensures tags != [] ==> Split(Join(tags, ";"), ';') == tags
  {
    var j := Join(tags, ";");
    JoinFree(tags, ";", ',');
    JoinFree(tags, ";", '"');
    JoinFree(tags, ";", '\n');
    if tags != [] {
      var first := tags[0];
      var last := tags[|tags| - 1];
      assert first in tags && last in tags;
      forall k | 0 <= k < |tags| ensures tags[k] != [] {
        assert tags[k] in tags;
      }
      JoinEnds(tags, ";");
      SplitJoin(tags, ';');
    }
  }

  /** Splitting a joined row at `,` gives back its first five quoted fields. */
  lemma RowFields(fs: seq<string>)
    requires |fs| == 7 && forall k :: 0 <= k < 5 ==> ',' !in fs[k]
    ensures |Split(CsvLine(fs), ',')| >= 5
    ensures Split(CsvLine(fs), ',')[..5] == [Quote(fs[0]), Quote(fs[1]), Quote(fs[2]), Quote(fs[3]), Quote(fs[4])]
  {
    var qs := seq(|fs|, i requires 0 <= i < |fs| => Quote(fs[i]));
    forall k | 0 <= k < 5 ensures ',' !in qs[k] {
      assert qs[k] == "\"" + fs[k] + "\"";
    }
    var j2 := Join(qs[2..], ",");
    var j3 := Join(qs[3..], ",");
    var j4 := Join(qs[4..], ",");
    var j5 := Join(qs[5..], ",");
    assert qs[4..][1..] == qs[5..];
    assert j4 == qs[4] + [','] + j5;
    assert qs[3..][1..] == qs[4..];
    assert j3 == qs[3] + [','] + j4;
    assert qs[2..][1..] == qs[3..];
    assert j2 == qs[2] + [','] + j3;
    assert qs[1..][1..] == qs[2..];
    assert Join(qs[1..], ",") == qs[1] + [','] + j2;
    assert CsvLine(fs) == qs[0] + [','] + Join(qs[1..], ",");
    SplitAppendSep(qs[4], ',', j5);
    SplitAppendSep(qs[3], ',', j4);
    SplitAppendSep(qs[2], ',', j3);
    SplitAppendSep(qs[1], ',', j2);
    SplitAppendSep(qs[0], ',', Join(qs[1..], ","));
  }

  /** The first five fields of a portable record's row are safe to carry through CSV. */
  lemma RowSafe(r: Record, date: Option<int> -> string)
    requires Portable(r, date)
    ensures var fs := ExportFields(r, date);
      CsvSafe(fs[0]) && CsvSafe(fs[1]) && CsvSafe(fs[2]) && CsvSafe(fs[3]) && CsvSafe(fs[4])
  {
    var fs := ExportFields(r, date);
    TagsField(r.tags);
    IntToStringClean(r.views);
    IntToStringClean(|r.gallery|);
    assert CsvSafe(fs[0]) && CsvSafe(fs[1]) && CsvSafe(fs[2]) && CsvSafe(fs[3]) && CsvSafe(fs[4]);
  }

  /** The first five values the import reads from a joined row are its first five fields. */
  lemma LineValues(fs: seq<string>)
    requires |fs| == 7 && CsvSafe(fs[0]) && CsvSafe(fs[1]) && CsvSafe(fs[2]) && CsvSafe(fs[3]) && CsvSafe(fs[4])
    ensures var vs := Fields(CsvLine(fs));
      |vs| >= 5 && vs[0] == fs[0] && vs[1] == fs[1] && vs[2] == fs[2] && vs[3] == fs[3] && vs[4] == fs[4]
  {
    RowFields(fs);
    var parts := Split(CsvLine(fs), ',');
    var vs := Fields(CsvLine(fs));
    forall k | 0 <= k < 5 ensures vs[k] == fs[k] {
      assert parts[k] == parts[..5][k];
      assert parts[k] == Quote(fs[k]);
      assert vs[k] == CleanField(parts[k]);
      QuotedField(fs[k]);
    }
  }

  /** The first five values the import reads from a portable record's row. */
  lemma RowValues(r: Record, date: Option<int> -> string)
    requires Portable(r, date)
    ensures var vs := Fields(CsvLine(ExportFields(r, date)));
      |vs| >= 5 && vs[0] == r.name && vs[1] == r.category && vs[2] == Join(r.tags, ";")
      && vs[3] == IntToString(r.views) && vs[4] == IntToString(|r.gallery|)
  {
    var fs := ExportFields(r, date);
    RowSafe(r, date);
    LineValues(fs);
    assert fs[0] == r.name && fs[1] == r.category && fs[2] == Join(r.tags, ";");
    assert fs[3] == IntToString(r.views) && fs[4] == IntToString(|r.gallery|);
  }

  /** The record built from a line whose first five values are known. */
  lemma LineRecord(line: string, now: int, name: string, category: string, tags: string, views: string, photo: string)
    requires var vs := Fields(line);
      |vs| >= 5 && vs[0] == name && vs[1] == category && vs[2] == tags && vs[3] == views && vs[4] == photo
    ensures CsvRecord(line, now)
            == Record(SlugOf(name), name, if category != "" then category else "worldwide",
                      if tags != "" then Split(tags, ';') else [], [],
                      if photo != "" then [photo] else [], if photo != "" then photo else Placeholder,
                      ParseInt(views).GetOr(0), Some(now), None, false)
  {
    var vs := Fields(line);
    assert FieldAt(vs, 0) == name && FieldAt(vs, 1) == category && FieldAt(vs, 2) == tags;
    assert FieldAt(vs, 3) == views && FieldAt(vs, 4) == photo;
  }

  /** What the import makes of an exported record. */
  function Reimported(r: Record, now: int): (s: Record)
    ensures s.name == r.name && s.category == r.category && s.tags == r.tags && s.views == r.views
  {
    Record(SlugOf(r.name), r.name, r.category, r.tags, [], [IntToString(|r.gallery|)],
           IntToString(|r.gallery|), r.views, Some(now), None, false)
  }

  /**
   * Importing one exported row gives back the record's name, category, tags
   * and views; the photo count lands where the import expects an image URL.
   */
  lemma RowRoundTrip(r: Record, date: Option<int> -> string, now: int)
    requires Portable(r, date)
    ensures CsvRecord(CsvLine(ExportFields(r, date)), now) == Reimported(r, now)
  {
    RowValues(r, date);
    TagsField(r.tags);
    IntToStringClean(|r.gallery|);
    ParseIntRoundTrip(r.views);
    LineRecord(CsvLine(ExportFields(r, date)), now, r.name, r.category, Join(r.tags, ";"),
               IntToString(r.views), IntToString(|r.gallery|));
  }

  /** The records of an export, each reimported. */
  function ReimportedAll(rs: seq<Record>, now: int): (ss: seq<Record>)
    ensures |ss| == |rs|
    ensures forall i :: 0 <= i < |rs| ==> ss[i] == Reimported(rs[i], now)
  {
    seq(|rs|, i requires 0 <= i < |rs| => Reimported(rs[i], now))
  }

  /** Every data line of an export reads back as its record, reimported. */
  lemma ImportRows(rs: seq<Record>, date: Option<int> -> string, now: int)
    requires forall r :: r in rs ==> Portable(r, date)
    ensures LineRecords(Split(ExportCsv(rs, date), '\n')[1..], now) == ReimportedAll(rs, now)
  {
    forall r | r in rs ensures SingleLine(r, date) {
    }
    ExportLines(rs, date);
    var rows := ExportRows(rs, date);
    assert Split(ExportCsv(rs, date), '\n')[1..] == rows;
    var got := LineRecords(rows, now);
    var want := ReimportedAll(rs, now);
    forall i | 0 <= i < |rs| ensures got[i] == want[i] {
      assert rows[i] == CsvLine(ExportFields(rs[i], date));
      assert rs[i] in rs;
      RowRoundTrip(rs[i], date, now);
    }
    assert got == want;
  }

  /**
   * Export followed by import gives one record per portable record, in
   * order, with its name, category, tags and views.
   */
  lemma ExportImport(rs: seq<Record>, date: Option<int> -> string, now: int)
    requires forall r :: r in rs ==> Portable(r, date)
    ensures ParseCsv(ExportCsv(rs, date), now) == ReimportedAll(rs, now)
  {
    ImportRows(rs, date, now);
    var all := ReimportedAll(rs, now);
    forall x | x in all ensures HasName(x) {
      var i :| 0 <= i < |all| && all[i] == x;
      assert rs[i] in rs;
    }
    WhereAll(all, HasName);
  }
}
