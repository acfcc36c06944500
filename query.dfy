/**
 * The read-only views of the catalog: the search filter, the sort keys of
 * the sort menu, the statistics bar and the category list.
 */
module Query {
  import opened Wrappers
  import opened Text
  import opened Lists
  import opened Records

  // ---------------------------------------------------------------- filter

  /** `String(query || '').trim().toLowerCase()`. */
  function NormalizeQuery(query: string): (q: string)
    ensures |q| <= |query|
    ensures forall i :: 0 <= i < |q| ==> !IsUpper(q[i])
  {
    Lower(JsTrim(query))
  }

  /** The category test: `'all'` admits every record, any other value only an exact match. */
  predicate InCategory(category: string, r: Record) {
    category == "all" || r.category == category
  }

  /** The text test: the normalised query occurs in the lower-cased name, category or one of the tags. */
  predicate MatchesText(q: string, r: Record) {
    Contains(Lower(r.name), q) || Contains(Lower(r.category), q)
    || exists t :: t in r.tags && Contains(Lower(t), q)
  }

  /** What the search keeps, as one condition; an empty normalised query admits every record. */
  predicate Wanted(query: string, category: string, r: Record) {
    InCategory(category, r) && (NormalizeQuery(query) == [] || MatchesText(NormalizeQuery(query), r))
  }

  /** `filterActresses(query, category)`: first the category filter, then the text filter. */
  function FilterActresses(store: seq<Record>, query: string, category: string): (r: seq<Record>)
    ensures |r| <= |store|
  {
    var byCategory := if category != "all" then Where(store, (a: Record) => a.category == category) else store;
    var q := NormalizeQuery(query);
    if q != [] then Where(byCategory, (a: Record) => MatchesText(q, a)) else byCategory
  }

  /** The two filter stages together are one filter by `Wanted`. */
  lemma FilterIsWhere(store: seq<Record>, query: string, category: string)
    ensures FilterActresses(store, query, category) == Where(store, a => Wanted(query, category, a))
  {
    var q := NormalizeQuery(query);
    var wanted := (a: Record) => Wanted(query, category, a);
    if category != "all" {
      var byCategory := Where(store, (a: Record) => a.category == category);
      if q != [] {
        WhereWhere(store, (a: Record) => a.category == category, (a: Record) => MatchesText(q, a), wanted);
      } else {
        WhereSame(store, (a: Record) => a.category == category, wanted);
      }
    } else {
      if q != [] {
        WhereSame(store, (a: Record) => MatchesText(q, a), wanted);
      } else {
        WhereAll(store, wanted);
      }
    }
  }

  /** The result keeps the store's order: it is the store with some records deleted. */
  lemma FilterSubsequence(store: seq<Record>, query: string, category: string)
    ensures SubsequenceOf(FilterActresses(store, query, category), store)
  {
    FilterIsWhere(store, query, category);
    WhereSubsequence(store, a => Wanted(query, category, a));
  }

  /**
   * A record is in the result exactly when it is in the store and passes
   * both tests, and it occurs as often as in the store.
   */
  lemma FilterMembers(store: seq<Record>, query: string, category: string, x: Record)
    ensures x in FilterActresses(store, query, category) <==> x in store && Wanted(query, category, x)
    ensures multiset(FilterActresses(store, query, category))[x]
            == if Wanted(query, category, x) then multiset(store)[x] else 0
  {
    FilterIsWhere(store, query, category);
    WhereMember(store, a => Wanted(query, category, a), x);
    WhereCount(store, a => Wanted(query, category, a), x);
  }

  /** A blank query in category `'all'` shows the whole store. */
  lemma FilterBlankAll(store: seq<Record>, query: string)
    requires forall i :: 0 <= i < |query| ==> IsJsSpace(query[i])
    ensures FilterActresses(store, query, "all") == store
  {
    JsTrimEmpty(query);
  }

  // ---------------------------------------------------------------- sort

  /** The entries of the sort menu; `ByName` is also the `default` branch. */
  datatype SortKey = ByName | ByNameDesc | ByRecent | ByViews | ByPhotos | ByLinks

  /** The `switch (sortBy)` of `sortActresses`: an unrecognised value sorts by name. */
  function KeyOf(sortBy: string): (k: SortKey)
    ensures k == ByNameDesc <==> sortBy == "name-desc"
    ensures k == ByRecent <==> sortBy == "recent"
    ensures k == ByViews <==> sortBy == "views"
    ensures k == ByPhotos <==> sortBy == "photos"
    ensures k == ByLinks <==> sortBy == "links"
  {
    if sortBy == "name-desc" then ByNameDesc
    else if sortBy == "recent" then ByRecent
    else if sortBy == "views" then ByViews
    else if sortBy == "photos" then ByPhotos
    else if sortBy == "links" then ByLinks
    else ByName
  }

  /**
   * `Before(k, a, b)`: the comparator of key `k` returns a value `<= 0` for
   * `(a, b)`, so a stable sort may leave `a` in front of `b`. A record
   * without `createdAt` goes after every dated one under `'recent'`.
   */
  predicate Before(k: SortKey, a: Record, b: Record) {
    match k
    case ByName => LexLe(a.name, b.name)
    case ByNameDesc => LexLe(b.name, a.name)
    case ByRecent =>
      (match (a.createdAt, b.createdAt)
       case (Some(x), Some(y)) => x >= y
       case (Some(_), None) => true
       case (None, Some(_)) => false
       case (None, None) => true)
    case ByViews => a.views >= b.views
    case ByPhotos => |a.gallery| >= |b.gallery|
    case ByLinks => |a.websites| >= |b.websites|
  }

  /** `sortActresses(list, sortBy)`: a stable sort of a copy. */
  function SortActresses(list: seq<Record>, sortBy: string): seq<Record> {
    InsertionSort((a, b) => Before(KeyOf(sortBy), a, b), list)
  }

  /** Every key's comparator is a total preorder, so the sort is well defined. */
  lemma BeforeTotalPreorder(k: SortKey)
    ensures TotalPreorder((a, b) => Before(k, a, b))
  {
    forall a: Record, b: Record ensures Before(k, a, b) || Before(k, b, a) {
      LexLeTotal(a.name, b.name);
    }
    forall a: Record, b: Record, c: Record | Before(k, a, b) && Before(k, b, c) ensures Before(k, a, c) {
      if k == ByName {
        LexLeTransitive(a.name, b.name, c.name);
      } else if k == ByNameDesc {
        LexLeTransitive(c.name, b.name, a.name);
      }
    }
  }

  /** The result is a permutation of the input, ordered by the key, and ties keep their input order. */
  lemma SortActressesCorrect(list: seq<Record>, sortBy: string, x: Record)
    ensures multiset(SortActresses(list, sortBy)) == multiset(list)
    ensures SortedBy((a, b) => Before(KeyOf(sortBy), a, b), SortActresses(list, sortBy))
    ensures TiesWith((a, b) => Before(KeyOf(sortBy), a, b), x, SortActresses(list, sortBy))
            == TiesWith((a, b) => Before(KeyOf(sortBy), a, b), x, list)
  {
    var le := (a, b) => Before(KeyOf(sortBy), a, b);
    BeforeTotalPreorder(KeyOf(sortBy));
    SortPermutes(le, list);
    SortSorted(le, list);
    SortStable(le, list, x);
  }

  /** `'views'` puts the most viewed first. */
  lemma SortByViews(list: seq<Record>)
    ensures forall i, j :: 0 <= i < j < |SortActresses(list, "views")| ==>
      SortActresses(list, "views")[i].views >= SortActresses(list, "views")[j].views
  {
    SortActressesCorrect(list, "views", Record("", "", "", [], [], [], "", 0, None, None, false));
  }

  /** `'photos'` and `'links'` put the longest gallery, respectively the most links, first. */
  lemma SortByCounts(list: seq<Record>)
    ensures forall i, j :: 0 <= i < j < |SortActresses(list, "photos")| ==>
      |SortActresses(list, "photos")[i].gallery| >= |SortActresses(list, "photos")[j].gallery|
    ensures forall i, j :: 0 <= i < j < |SortActresses(list, "links")| ==>
      |SortActresses(list, "links")[i].websites| >= |SortActresses(list, "links")[j].websites|
  {
    var x := Record("", "", "", [], [], [], "", 0, None, None, false);
    SortActressesCorrect(list, "photos", x);
    SortActressesCorrect(list, "links", x);
  }

  /** An unrecognised key sorts by name, ascending. */
  lemma SortUnknownKey(list: seq<Record>, sortBy: string)
    requires sortBy !in ["name-desc", "recent", "views", "photos", "links"]
    ensures forall i, j :: 0 <= i < j < |SortActresses(list, sortBy)| ==>
      LexLe(SortActresses(list, sortBy)[i].name, SortActresses(list, sortBy)[j].name)
  {
    SortActressesCorrect(list, sortBy, Record("", "", "", [], [], [], "", 0, None, None, false));
  }

  // ---------------------------------------------------------------- statistics

  function PhotoCount(r: Record): int { |r.gallery| }
  function LinkCount(r: Record): int { |r.websites| }
  function ViewCount(r: Record): int { r.views }

  /** The four numbers of the statistics bar. */
  datatype Stats = Stats(profiles: int, photos: int, links: int, views: int)

  /** `updateStats`: the store's length and three `reduce` sums. */
  function StatsOf(store: seq<Record>): (st: Stats)
    ensures st.profiles == |store|
  {
    Stats(|store|, SumOf(PhotoCount, store), SumOf(LinkCount, store), SumOf(ViewCount, store))
  }

  /** Appending a record adds its own counts to every total. */
  lemma StatsAppend(store: seq<Record>, r: Record)
    ensures StatsOf(store + [r]) == Stats(StatsOf(store).profiles + 1,
      StatsOf(store).photos + |r.gallery|, StatsOf(store).links + |r.websites|, StatsOf(store).views + r.views)
  {
    SumOfAppend(PhotoCount, store, [r]);
    SumOfAppend(LinkCount, store, [r]);
    SumOfAppend(ViewCount, store, [r]);
  }

  /** Photo and link totals are never negative. */
  lemma StatsNonNegative(store: seq<Record>)
    ensures StatsOf(store).photos >= 0 && StatsOf(store).links >= 0
  {
    SumOfNonNegative(PhotoCount, store);
    SumOfNonNegative(LinkCount, store);
  }

  // ---------------------------------------------------------------- categories

  /** The categories every catalog offers, whatever its records say. */
  const DefaultCategories: seq<string> := ["worldwide", "koreans", "japanese"]

  /** The lower-cased non-empty categories of the records, in store order. */
  function RecordCategories(store: seq<Record>): (cs: seq<string>)
    ensures forall c :: c in cs <==> exists r :: r in store && r.category != "" && Lower(r.category) == c
  {
    if store == [] then []
    else (if store[0].category != "" then [Lower(store[0].category)] else []) + RecordCategories(store[1..])
  }

  /** `getAllCategories`: the distinct categories plus the defaults, sorted. */
  function AllCategories(store: seq<Record>): seq<string> {
    InsertionSort(LexLe, Dedupe(c => c, RecordCategories(store) + DefaultCategories))
  }

  /**
   * The list holds each record category (lower-cased) and each default,
   * nothing else, each once, in strictly increasing order.
   */
  lemma AllCategoriesCorrect(store: seq<Record>)
    ensures forall c :: c in AllCategories(store) <==>
      c in DefaultCategories || exists r :: r in store && r.category != "" && Lower(r.category) == c
    ensures forall i, j :: 0 <= i < j < |AllCategories(store)| ==>
      LexLe(AllCategories(store)[i], AllCategories(store)[j]) && AllCategories(store)[i] != AllCategories(store)[j]
  {
    var all := RecordCategories(store) + DefaultCategories;
    var d := Dedupe(c => c, all);
    var cats := AllCategories(store);
    DedupeKeepsFirst(c => c, all);
    SortPermutes(LexLe, d);
    assert TotalPreorder(LexLe) by {
      forall a, b ensures LexLe(a, b) || LexLe(b, a) {
        LexLeTotal(a, b);
      }
      forall a, b, c | LexLe(a, b) && LexLe(b, c) ensures LexLe(a, c) {
        LexLeTransitive(a, b, c);
      }
    }
    SortSorted(LexLe, d);
    assert Distinct(d);
    DistinctPermutation(d, cats);
    forall c ensures c in cats <==> c in all {
      assert c in cats <==> c in multiset(cats);
      if c in all {
        var i :| 0 <= i < |all| && all[i] == c;
        assert exists e :: e in d && e == all[i];
      }
      if c in d {
        SubsequenceMember(d, all, c);
      }
    }
  }
}
