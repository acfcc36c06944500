/**
 * The catalog's state and its handlers, each as a step from one state to
 * the next: the profile list, the slug of the profile being edited, the
 * slugs selected for a batch action, and how many times the list has been
 * written to storage. Prompts and confirmations arrive as parameters; so
 * does the clock.
 */
module Store {
  import opened Wrappers
  import opened Text
  import opened Lists
  import opened Records
  import opened JsonValues
  import opened Persistence
  import opened Query

  datatype State = State(records: seq<Record>, editingSlug: Option<string>, selected: set<string>, saves: nat)

  /** The values the add/edit form holds when it is submitted. */
  datatype Form = Form(name: string, category: string, thumbUrl: string,
                       tags: seq<string>, websites: seq<Website>, gallery: seq<string>)

  // ---------------------------------------------------------------- lookups

  /** `findIndex(a => a.slug === slug)`: the first position holding the slug, or -1. */
  function IndexOf(rs: seq<Record>, slug: string): (k: int)
    ensures -1 <= k < |rs|
    ensures k >= 0 ==> rs[k].slug == slug && forall j :: 0 <= j < k ==> rs[j].slug != slug
    ensures k < 0 ==> forall j :: 0 <= j < |rs| ==> rs[j].slug != slug
  {
    if rs == [] then -1
    else if rs[0].slug == slug then 0
    else
      var k := IndexOf(rs[1..], slug);
      if k < 0 then -1 else k + 1
  }

  /** Positions whose slug sequences agree give the same first position. */
  lemma {:induction false} IndexOfSameSlugs(a: seq<Record>, b: seq<Record>, slug: string)
    requires |a| == |b| && forall i :: 0 <= i < |a| ==> a[i].slug == b[i].slug
    ensures IndexOf(a, slug) == IndexOf(b, slug)
    decreases |a|
  {
    if a != [] {
      IndexOfSameSlugs(a[1..], b[1..], slug);
    }
  }

  /** No two records share a slug. */
  ghost predicate UniqueSlugs(rs: seq<Record>) {
    forall i, j :: 0 <= i < j < |rs| ==> rs[i].slug != rs[j].slug
  }

  /** `editingSlug` as the handlers test it: a non-empty slug, or nothing. */
  function Editing(st: State): (e: Option<string>)
    ensures e.Some? ==> st.editingSlug == e && e.value != ""
    ensures e.None? ==> st.editingSlug.None? || st.editingSlug.value == ""
  {
    if st.editingSlug.Some? && st.editingSlug.value != "" then st.editingSlug else None
  }

  // ---------------------------------------------------------------- handleAddActress

  /** The record the form builds; an edit carries over the old record's counters and dates, not its favourite flag. */
  function FormRecord(form: Form, slug: string, name: string, previous: Option<Record>, now: int): Record {
    Record(slug, name, form.category, form.tags, form.websites, form.gallery,
           if form.thumbUrl != "" then form.thumbUrl else Placeholder,
           if previous.Some? then previous.value.views else 0,
           if previous.Some? && previous.value.createdAt.Some? then previous.value.createdAt else Some(now),
           if previous.Some? then previous.value.lastViewed else None,
           false)
  }

  /**
   * Submitting the form: validate the trimmed name and the category, use the
   * slug being edited or derive one from the name, refuse a derived slug that
   * exists already, then replace the edited record in place or append the new
   * one, save once and leave edit mode.
   */
  function Submit(st: State, form: Form, now: int): State {
    var name := JsTrim(form.name);
    if name == "" || form.category == "" then st
    else if Editing(st).None? then AddNew(st, form, name, now)
    else SaveEdit(st, form, name, Editing(st).value, now)
  }

  /** The add branch: a derived slug that is taken changes nothing; otherwise the record is appended. */
  function AddNew(st: State, form: Form, name: string, now: int): State {
    var slug := SlugOf(name);
    if IndexOf(st.records, slug) >= 0 then st
    else st.(records := st.records + [FormRecord(form, slug, name, None, now)], editingSlug := None, saves := st.saves + 1)
  }

  /** The edit branch: the record being edited is replaced where it stands, if it is still there. */
  function SaveEdit(st: State, form: Form, name: string, slug: string, now: int): State {
    var k := IndexOf(st.records, slug);
    if k < 0 then st
    else st.(records := st.records[k := FormRecord(form, slug, name, Some(st.records[k]), now)],
             editingSlug := None, saves := st.saves + 1)
  }

  /** An empty trimmed name or an empty category changes nothing. */
  lemma SubmitRejectsBlank(st: State, form: Form, now: int)
    requires JsTrim(form.name) == "" || form.category == ""
    ensures Submit(st, form, now) == st
  {
  }

  /** Adding under a slug that is taken changes nothing. */
  lemma SubmitRejectsDuplicate(st: State, form: Form, now: int, i: nat)
    requires Editing(st).None? && JsTrim(form.name) != "" && form.category != ""
    requires i < |st.records| && st.records[i].slug == SlugOf(JsTrim(form.name))
    ensures Submit(st, form, now) == st
  {
    assert IndexOf(st.records, SlugOf(JsTrim(form.name))) >= 0;
  }

  /**
   * A valid add under a fresh slug appends exactly one record, with the
   * derived slug, no views, no last view, the placeholder when no thumbnail
   * is given, and saves once.
   */
  lemma SubmitAdds(st: State, form: Form, now: int)
    requires Editing(st).None? && JsTrim(form.name) != "" && form.category != ""
    requires forall i :: 0 <= i < |st.records| ==> st.records[i].slug != SlugOf(JsTrim(form.name))
    ensures var after := Submit(st, form, now);
      |after.records| == |st.records| + 1 && after.records[..|st.records|] == st.records
      && after.saves == st.saves + 1 && after.editingSlug.None? && after.selected == st.selected
    ensures var r := Submit(st, form, now).records[|st.records|];
      r.slug == SlugOf(JsTrim(form.name)) && r.name == JsTrim(form.name) && r.category == form.category
      && r.views == 0 && r.lastViewed.None? && r.createdAt == Some(now) && !r.favorite
      && r.thumb == (if form.thumbUrl == "" then Placeholder else form.thumbUrl)
  {
    var after := Submit(st, form, now);
    assert after.records[..|st.records|] == st.records;
  }

  /**
   * A valid edit replaces the edited record in place: the list keeps its
   * length, every other record is untouched, and the new record keeps the
   * old slug, views, creation date and last view.
   */
  lemma SubmitEdits(st: State, form: Form, now: int)
    requires Editing(st).Some? && JsTrim(form.name) != "" && form.category != ""
    requires IndexOf(st.records, Editing(st).value) >= 0
    ensures var k := IndexOf(st.records, Editing(st).value);
      var after := Submit(st, form, now);
      |after.records| == |st.records| && after.saves == st.saves + 1 && after.editingSlug.None?
      && (forall i :: 0 <= i < |st.records| && i != k ==> after.records[i] == st.records[i])
      && after.records[k].slug == st.records[k].slug && after.records[k].views == st.records[k].views
      && after.records[k].lastViewed == st.records[k].lastViewed
      && after.records[k].createdAt == (if st.records[k].createdAt.Some? then st.records[k].createdAt else Some(now))
      && after.records[k].name == JsTrim(form.name) && after.records[k].category == form.category
  {
  }

  /** Editing a slug that is no longer in the list changes nothing: no save, and edit mode stays on. */
  lemma SubmitEditMissing(st: State, form: Form, now: int)
    requires Editing(st).Some? && IndexOf(st.records, Editing(st).value) < 0
    ensures Submit(st, form, now) == st
  {
  }

  /** A submit either changes nothing or saves exactly once and leaves edit mode. */
  lemma SubmitAllOrNothing(st: State, form: Form, now: int)
    ensures var after := Submit(st, form, now);
      after == st || (after.saves == st.saves + 1 && after.editingSlug.None? && after.selected == st.selected)
  {
  }

  /** Submitting keeps slugs unique. */
  lemma SubmitUnique(st: State, form: Form, now: int)
    requires UniqueSlugs(st.records)
    ensures UniqueSlugs(Submit(st, form, now).records)
  {
    var name := JsTrim(form.name);
    if name != "" && form.category != "" {
      var editing := Editing(st);
      var slug := if editing.Some? then editing.value else SlugOf(name);
      var k := IndexOf(st.records, slug);
      var rs := Submit(st, form, now).records;
      if editing.None? && k < 0 {
        forall i, j | 0 <= i < j < |rs| ensures rs[i].slug != rs[j].slug {
          if j == |st.records| {
            assert rs[j].slug == slug && rs[i] == st.records[i];
          } else {
            assert rs[i] == st.records[i] && rs[j] == st.records[j];
          }
        }
      } else if editing.Some? && k >= 0 {
        forall i, j | 0 <= i < j < |rs| ensures rs[i].slug != rs[j].slug {
          assert rs[i].slug == st.records[i].slug && rs[j].slug == st.records[j].slug;
        }
      }
    }
  }

  // ---------------------------------------------------------------- edit mode

  /** `editActress`: a present slug starts editing it; an absent one changes nothing. */
  function BeginEdit(st: State, slug: string): (after: State)
    ensures IndexOf(st.records, slug) >= 0 ==> after == st.(editingSlug := Some(slug))
    ensures IndexOf(st.records, slug) < 0 ==> after == st
  {
    var k := IndexOf(st.records, slug);
    if k >= 0 then st.(editingSlug := Some(st.records[k].slug)) else st
  }

  /**
   * Switching to another admin tab or closing the admin panel while editing:
   * the form is cleared, but `resetForm` leaves `editingSlug` alone, so the
   * state does not change.
   */
  function CancelEdit(st: State): State {
    st
  }

  /** The cancel that the "Edit cancelled" message announces: edit mode ends. */
  function CancelEditIntended(st: State): State {
    st.(editingSlug := None)
  }

  /** Cancelling as written keeps edit mode on. */
  lemma CancelKeepsEditing(st: State)
    ensures CancelEdit(st).editingSlug == st.editingSlug
    ensures Editing(CancelEdit(st)) == Editing(st)
  {
  }

  /**
   * After cancelling an edit as written, a form filled in to add someone new
   * overwrites the record that was being edited instead: the list keeps its
   * length and that record takes the new name.
   */
  lemma StaleEditAfterCancel(st: State, form: Form, now: int)
    requires Editing(st).Some? && IndexOf(st.records, Editing(st).value) >= 0
    requires JsTrim(form.name) != "" && form.category != ""
    ensures var k := IndexOf(st.records, Editing(st).value);
      var after := Submit(CancelEdit(st), form, now);
      |after.records| == |st.records| && after.records[k].slug == st.records[k].slug
      && after.records[k].name == JsTrim(form.name)
  {
    SubmitEdits(st, form, now);
  }

  /** After the intended cancel, the same form adds a new record when its slug is free. */
  lemma AddAfterIntendedCancel(st: State, form: Form, now: int)
    requires JsTrim(form.name) != "" && form.category != ""
    requires forall i :: 0 <= i < |st.records| ==> st.records[i].slug != SlugOf(JsTrim(form.name))
    ensures var after := Submit(CancelEditIntended(st), form, now);
      |after.records| == |st.records| + 1 && after.records[|st.records|].name == JsTrim(form.name)
      && after.records[..|st.records|] == st.records
  {
    SubmitAdds(CancelEditIntended(st), form, now);
  }

  // ---------------------------------------------------------------- deleteActress

  /** The records whose slug is not in `gone`. */
  function Keep(gone: set<string>): Record -> bool {
    (r: Record) => r.slug !in gone
  }

  /** `deleteActress(slug)`: only a present slug asks for confirmation; a confirmed delete saves once. */
  function Delete(st: State, slug: string, confirmed: bool): State {
    if IndexOf(st.records, slug) < 0 || !confirmed then st
    else st.(records := Where(st.records, Keep({slug})), saves := st.saves + 1)
  }

  /** Deleting an absent slug changes nothing. */
  lemma DeleteAbsent(st: State, slug: string, confirmed: bool)
    requires forall i :: 0 <= i < |st.records| ==> st.records[i].slug != slug
    ensures Delete(st, slug, confirmed) == st
  {
  }

  /** A confirmed delete of a present slug removes exactly its records and keeps the rest in order. */
  lemma DeleteRemoves(st: State, slug: string)
    requires IndexOf(st.records, slug) >= 0
    ensures var after := Delete(st, slug, true);
      after.saves == st.saves + 1
      && SubsequenceOf(after.records, st.records)
      && forall r :: r in after.records <==> r in st.records && r.slug != slug
  {
    var after := Delete(st, slug, true);
    WhereSubsequence(st.records, Keep({slug}));
    forall r ensures r in after.records <==> r in st.records && r.slug != slug {
      WhereMember(st.records, Keep({slug}), r);
    }
  }

  // ---------------------------------------------------------------- applyBatchAction

  /** The category of the first record with each selected slug becomes `c`. */
  function Recategorised(rs: seq<Record>, sel: set<string>, c: string): (out: seq<Record>)
    ensures |out| == |rs|
    ensures forall i :: 0 <= i < |rs| ==> out[i].slug == rs[i].slug
  {
    seq(|rs|, i requires 0 <= i < |rs| =>
      if rs[i].slug in sel && IndexOf(rs, rs[i].slug) == i then rs[i].(category := c) else rs[i])
  }

  /**
   * `applyBatchAction`: no action or an empty selection changes nothing; a
   * confirmed delete removes every selected slug; a non-empty answer to the
   * category prompt recategorises the selected records. Both save once and
   * clear the selection; any other action changes nothing.
   */
  function ApplyBatch(st: State, action: string, confirmed: bool, answer: Option<string>): State {
    if action == "" || st.selected == {} then st
    else if action == "delete" then
      if confirmed then DeleteSelected(st) else st
    else if action == "category" then
      if answer.Some? && answer.value != "" then RecategoriseSelected(st, answer.value) else st
    else st
  }

  /** The confirmed batch delete. */
  function DeleteSelected(st: State): State {
    st.(records := Where(st.records, Keep(st.selected)), selected := {}, saves := st.saves + 1)
  }

  /** The batch recategorise with a non-empty answer. */
  function RecategoriseSelected(st: State, c: string): State {
    st.(records := Recategorised(st.records, st.selected, c), selected := {}, saves := st.saves + 1)
  }

  /** A confirmed batch delete keeps exactly the unselected records, in order, and saves once. */
  lemma BatchDeleteKeepsUnselected(st: State)
    requires st.selected != {}
    ensures var after := ApplyBatch(st, "delete", true, None);
      after.saves == st.saves + 1 && after.selected == {}
      && SubsequenceOf(after.records, st.records)
      && forall r :: r in after.records <==> r in st.records && r.slug !in st.selected
  {
    var after := ApplyBatch(st, "delete", true, None);
    WhereSubsequence(st.records, Keep(st.selected));
    forall r ensures r in after.records <==> r in st.records && r.slug !in st.selected {
      WhereMember(st.records, Keep(st.selected), r);
    }
  }

  /**
   * A batch recategorise changes only the category, and only of the first
   * record for each selected slug; every other field and record is as before.
   */
  lemma BatchRecategorise(st: State, c: string)
    requires st.selected != {} && c != ""
    ensures var after := ApplyBatch(st, "category", false, Some(c));
      |after.records| == |st.records| && after.saves == st.saves + 1 && after.selected == {}
      && forall i :: 0 <= i < |st.records| ==>
           after.records[i] == if st.records[i].slug in st.selected && IndexOf(st.records, st.records[i].slug) == i
                               then st.records[i].(category := c) else st.records[i]
  {
  }

  /** An empty or cancelled answer to the category prompt changes nothing. */
  lemma BatchRecategoriseCancelled(st: State, answer: Option<string>)
    requires answer.None? || answer.value == ""
    ensures ApplyBatch(st, "category", true, answer) == st
  {
  }

  /** Nothing selected: no batch action changes anything. */
  lemma BatchNeedsSelection(st: State, action: string, confirmed: bool, answer: Option<string>)
    requires st.selected == {}
    ensures ApplyBatch(st, action, confirmed, answer) == st
  {
  }

  /** Batch actions keep slugs unique. */
  lemma BatchUnique(st: State, action: string, confirmed: bool, answer: Option<string>)
    requires UniqueSlugs(st.records)
    ensures UniqueSlugs(ApplyBatch(st, action, confirmed, answer).records)
  {
    var rs := ApplyBatch(st, action, confirmed, answer).records;
    if action == "delete" && confirmed && st.selected != {} {
      WhereSubsequence(st.records, Keep(st.selected));
      SubsequenceUnique(rs, st.records);
    }
  }

  /** A subsequence of a list with unique slugs has unique slugs. */
  lemma {:induction false} SubsequenceUnique(a: seq<Record>, b: seq<Record>)
    requires SubsequenceOf(a, b) && UniqueSlugs(b)
    ensures UniqueSlugs(a)
    decreases |b|
  {
    if a != [] {
      var b1 := b[1..];
      assert UniqueSlugs(b1) by {
        forall i, j | 0 <= i < j < |b1| ensures b1[i].slug != b1[j].slug {
          assert b1[i] == b[i + 1] && b1[j] == b[j + 1];
        }
      }
      if a[0] == b[0] {
        SubsequenceUnique(a[1..], b1);
        forall j | 0 < j < |a| ensures a[0].slug != a[j].slug {
          assert a[1..][j - 1] == a[j];
          SubsequenceMember(a[1..], b1, a[j]);
          var m :| 0 <= m < |b1| && b1[m] == a[j];
          assert b[m + 1] == a[j];
        }
        forall i, j | 0 <= i < j < |a| ensures a[i].slug != a[j].slug {
          if i > 0 {
            assert a[1..][i - 1] == a[i] && a[1..][j - 1] == a[j];
          }
        }
      } else {
        SubsequenceUnique(a, b1);
      }
    }
  }

  // ---------------------------------------------------------------- trackView, toggleFavorite

  /** `trackView(slug)`: the first record with the slug gains a view and records when; saved once. */
  function TrackView(st: State, slug: string, now: int): State {
    var k := IndexOf(st.records, slug);
    if k < 0 then st
    else
      var r := st.records[k];
      st.(records := st.records[k := r.(views := r.views + 1, lastViewed := Some(now))], saves := st.saves + 1)
  }

  /**
   * A view of a present slug raises that record's views by one, touches no
   * other record, and so raises the total views shown in the stats by one.
   */
  lemma TrackViewCounts(st: State, slug: string, now: int)
    requires IndexOf(st.records, slug) >= 0
    ensures var k := IndexOf(st.records, slug);
      var after := TrackView(st, slug, now);
      |after.records| == |st.records| && after.saves == st.saves + 1
      && after.records[k].views == st.records[k].views + 1 && after.records[k].lastViewed == Some(now)
      && (forall i :: 0 <= i < |st.records| && i != k ==> after.records[i] == st.records[i])
      && StatsOf(after.records).views == StatsOf(st.records).views + 1
      && StatsOf(after.records).photos == StatsOf(st.records).photos
  {
    var k := IndexOf(st.records, slug);
    var r := st.records[k];
    var x := r.(views := r.views + 1, lastViewed := Some(now));
    SumOfUpdate(ViewCount, st.records, k, x);
    SumOfUpdate(PhotoCount, st.records, k, x);
  }

  /** A view of an absent slug changes nothing. */
  lemma TrackViewAbsent(st: State, slug: string, now: int)
    requires forall i :: 0 <= i < |st.records| ==> st.records[i].slug != slug
    ensures TrackView(st, slug, now) == st
  {
  }

  /** `toggleFavorite(slug)`: the first record with the slug flips its flag; saved once. */
  function ToggleFavorite(st: State, slug: string): State {
    var k := IndexOf(st.records, slug);
    if k < 0 then st
    else st.(records := st.records[k := st.records[k].(favorite := !st.records[k].favorite)], saves := st.saves + 1)
  }

  /** Toggling twice restores the list, at the cost of two saves. */
  lemma ToggleFavoriteTwice(st: State, slug: string)
    requires IndexOf(st.records, slug) >= 0
    ensures var after := ToggleFavorite(ToggleFavorite(st, slug), slug);
      after.records == st.records && after.saves == st.saves + 2
  {
    var once := ToggleFavorite(st, slug);
    IndexOfSameSlugs(st.records, once.records, slug);
  }

  /** Per-record updates keep slugs unique. */
  lemma TrackAndFavoriteUnique(st: State, slug: string, now: int)
    requires UniqueSlugs(st.records)
    ensures UniqueSlugs(TrackView(st, slug, now).records)
    ensures UniqueSlugs(ToggleFavorite(st, slug).records)
  {
    var a := TrackView(st, slug, now).records;
    var b := ToggleFavorite(st, slug).records;
    assert forall i :: 0 <= i < |a| ==> a[i].slug == st.records[i].slug;
    assert forall i :: 0 <= i < |b| ==> b[i].slug == st.records[i].slug;
  }

  // ---------------------------------------------------------------- toggleActressSelection

  /** `toggleActressSelection(slug, selected)`: add or remove the slug; nothing is saved. */
  function ToggleSelection(st: State, slug: string, checked: bool): (after: State)
    ensures after.selected == if checked then st.selected + {slug} else st.selected - {slug}
    ensures after.records == st.records && after.saves == st.saves && after.editingSlug == st.editingSlug
  {
    if checked then st.(selected := st.selected + {slug}) else st.(selected := st.selected - {slug})
  }

  /** Checking then unchecking a slug that was not selected restores the selection. */
  lemma SelectionUndo(st: State, slug: string)
    requires slug !in st.selected
    ensures ToggleSelection(ToggleSelection(st, slug, true), slug, false) == st
  {
  }

  // ---------------------------------------------------------------- processImportedData, loadActresses

  /** An import replaces the list only when decoding succeeded and the user confirmed; then it saves once. */
  function Import(st: State, decoded: Result<seq<Record>>, confirmed: bool): State {
    if decoded.Ok? && confirmed then st.(records := decoded.value, saves := st.saves + 1) else st
  }

  /** A rejected import leaves the state as it was; an accepted, confirmed one installs exactly the imported list. */
  lemma ImportReplaces(st: State, file: ImportFile, now: int, parseDate: string -> Option<int>, confirmed: bool)
    ensures var decoded := DecodeImport(file, now, parseDate);
      var after := Import(st, decoded, confirmed);
      (decoded.Err? || !confirmed ==> after == st)
      && (decoded.Ok? && confirmed ==>
            after.records == decoded.value && after.saves == st.saves + 1
            && after.selected == st.selected && after.editingSlug == st.editingSlug)
  {
  }

  /** Importing a JSON payload that is not an array changes nothing. */
  lemma ImportRejectsNonArray(st: State, j: Json, now: int, parseDate: string -> Option<int>, confirmed: bool)
    requires !j.JArr?
    ensures Import(st, DecodeImport(JsonFile(Some(j)), now, parseDate), confirmed) == st
  {
  }

  /** Importing a JSON array with an element that fails the check changes nothing. */
  lemma ImportRejectsInvalid(st: State, items: seq<Json>, i: nat, now: int, parseDate: string -> Option<int>, confirmed: bool)
    requires i < |items| && !ValidItem(items[i])
    ensures Import(st, DecodeImport(JsonFile(Some(JArr(items))), now, parseDate), confirmed) == st
  {
    JsonImportDecision(Some(JArr(items)), now, parseDate);
  }

  /** Start-up: the stored records when they load, otherwise the sample data, which is saved. */
  function Load(st: State, saved: Saved, now: int, parseDate: string -> Option<int>): (after: State)
    ensures after.editingSlug == st.editingSlug && after.selected == st.selected
    ensures LoadedRecords(saved, parseDate).Some? ==> after == st.(records := LoadedRecords(saved, parseDate).value)
    ensures LoadedRecords(saved, parseDate).None? ==> after == st.(records := SampleData(now), saves := st.saves + 1)
  {
    match LoadedRecords(saved, parseDate)
    case Some(rs) => st.(records := rs)
    case None => st.(records := SampleData(now), saves := st.saves + 1)
  }

  /** Loading what was saved restores the list without writing it again. */
  lemma LoadRestoresSaved(st: State, rs: seq<Record>, text: string, iso: int -> string,
                          parseDate: string -> Option<int>, now: int)
    requires text != "" && forall r :: r in rs ==> r.slug != ""
    requires forall x :: parseDate(iso(x)) == Some(x)
    ensures Load(st, Stored(text, Some(StoreJson(rs, iso))), now, parseDate) == st.(records := rs)
  {
    SaveThenLoad(rs, text, iso, parseDate);
  }

  /** With nothing stored, start-up installs and saves the sample data. */
  lemma LoadFallsBack(st: State, now: int, parseDate: string -> Option<int>)
    ensures Load(st, Absent, now, parseDate) == st.(records := SampleData(now), saves := st.saves + 1)
  {
  }
}
