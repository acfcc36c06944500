/**
 * The catalog page's global state as the handlers keep it: the `actresses`
 * array, `editingSlug`, the `selectedActresses` set and the number of writes
 * to storage. Each handler changes the fields in place and is proved to
 * reach the state that the matching step of `Store` describes, so every
 * lemma proved there about a step holds of the handler too.
 */
module App {
  import opened Wrappers
  import opened Text
  import opened Lists
  import opened Records
  import opened Persistence
  import opened Store

  /** Removing one more slug after some were removed keeps exactly the records outside both. */
  lemma KeepMore(rs: seq<Record>, done: set<string>, s: string)
    ensures Where(Where(rs, Keep(done)), Keep({s})) == Where(rs, Keep(done + {s}))
  {
    WhereWhere(rs, Keep(done), Keep({s}), Keep(done + {s}));
  }

  /** Recategorising nothing changes nothing. */
  lemma RecategorisedNone(rs: seq<Record>, c: string)
    ensures Recategorised(rs, {}, c) == rs
  {
    var out := Recategorised(rs, {}, c);
    assert forall i :: 0 <= i < |rs| ==> out[i] == rs[i];
  }

  /**
   * One pass of the batch recategorise loop: setting the category of the
   * first record carrying `s`, if any, extends the recategorised selection
   * by `s`.
   */
  lemma RecategoriseStep(rs: seq<Record>, done: set<string>, s: string, c: string)
    ensures var cur := Recategorised(rs, done, c);
      var k := IndexOf(cur, s);
      (if k >= 0 then cur[k := cur[k].(category := c)] else cur) == Recategorised(rs, done + {s}, c)
  {
    var cur := Recategorised(rs, done, c);
    IndexOfSameSlugs(cur, rs, s);
    var k := IndexOf(cur, s);
    var next := Recategorised(rs, done + {s}, c);
    var got := if k >= 0 then cur[k := cur[k].(category := c)] else cur;
    forall i | 0 <= i < |rs| ensures got[i] == next[i] {
      if i == k {
        assert rs[i].slug == s && IndexOf(rs, rs[i].slug) == i;
      } else if rs[i].slug == s {
        assert IndexOf(rs, rs[i].slug) != i;
      }
    }
  }

  class Catalog {
    var records: seq<Record>
    var editingSlug: Option<string>
    var selected: set<string>
    var saves: nat

    /** The fields as one value. */
    function Snapshot(): State
      reads this
    {
      State(records, editingSlug, selected, saves)
    }

    /** The page before anything is loaded: no profiles, no edit, no selection. */
    constructor ()
      ensures Snapshot() == State([], None, {}, 0)
    {
      records := [];
      editingSlug := None;
      selected := {};
      saves := 0;
    }

    /** `handleAddActress`. */
    method Submit(form: Form, now: int)
      modifies this
      ensures Snapshot() == Store.Submit(old(Snapshot()), form, now)
    {
      var name := JsTrim(form.name);
      if name == "" || form.category == "" {
        return;
      }
      var editing := Editing(Snapshot());
      if editing.None? {
        AddNew(form, name, now);
      } else {
        SaveEdit(form, name, editing.value, now);
      }
    }

    /** Adding under the slug derived from the trimmed name. */
    method AddNew(form: Form, name: string, now: int)
      modifies this
      ensures Snapshot() == Store.AddNew(old(Snapshot()), form, name, now)
    {
      var slug := SlugOf(name);
      if IndexOf(records, slug) >= 0 {
        return;
      }
      records := records + [FormRecord(form, slug, name, None, now)];
      saves := saves + 1;
      editingSlug := None;
    }

    /** Saving the record being edited, at its own index. */
    method SaveEdit(form: Form, name: string, slug: string, now: int)
      modifies this
      ensures Snapshot() == Store.SaveEdit(old(Snapshot()), form, name, slug, now)
    {
      var k := IndexOf(records, slug);
      if k < 0 {
        return;
      }
      records := records[k := FormRecord(form, slug, name, Some(records[k]), now)];
      saves := saves + 1;
      editingSlug := None;
    }

    /** `editActress`. */
    method BeginEdit(slug: string)
      modifies this
      ensures Snapshot() == Store.BeginEdit(old(Snapshot()), slug)
    {
      var k := IndexOf(records, slug);
      if k >= 0 {
        editingSlug := Some(records[k].slug);
      }
    }

    /** Switching tab or closing the panel: `resetForm` clears only the form's inputs. */
    method CancelEdit()
      modifies this
      ensures Snapshot() == Store.CancelEdit(old(Snapshot()))
    {
    }

    /** `deleteActress`. */
    method Delete(slug: string, confirmed: bool)
      modifies this
      ensures Snapshot() == Store.Delete(old(Snapshot()), slug, confirmed)
    {
      if IndexOf(records, slug) < 0 || !confirmed {
        return;
      }
      records := Where(records, Keep({slug}));
      saves := saves + 1;
    }

    /**
     * `applyBatchAction`. Both actions visit the selected slugs one at a
     * time, in an order the model leaves open; the result is the same for
     * every order.
     */
    method ApplyBatch(action: string, confirmed: bool, answer: Option<string>)
      modifies this
      ensures Snapshot() == Store.ApplyBatch(old(Snapshot()), action, confirmed, answer)
    {
      if action == "" || selected == {} {
        return;
      }
      if action == "delete" {
        if confirmed {
          DeleteSelected();
        }
      } else if action == "category" {
        if answer.Some? && answer.value != "" {
          RecategoriseSelected(answer.value);
        }
      }
    }

    /** The confirmed batch delete: one filter per selected slug, then one save. */
    method DeleteSelected()
      modifies this
      ensures Snapshot() == Store.DeleteSelected(old(Snapshot()))
    {
      var todo := selected;
      ghost var done: set<string> := {};
      WhereAll(records, Keep(done));
      while todo != {}
        invariant todo + done == selected == old(selected)
        invariant records == Where(old(records), Keep(done))
        invariant saves == old(saves) && editingSlug == old(editingSlug)
        decreases |todo|
      {
        var s :| s in todo;
        KeepMore(old(records), done, s);
        records := Where(records, Keep({s}));
        todo := todo - {s};
        done := done + {s};
      }
      saves := saves + 1;
      selected := {};
    }

    /** The batch recategorise: the first record for each selected slug gets the category, then one save. */
    method RecategoriseSelected(c: string)
      modifies this
      ensures Snapshot() == Store.RecategoriseSelected(old(Snapshot()), c)
    {
      var todo := selected;
      ghost var done: set<string> := {};
      RecategorisedNone(records, c);
      while todo != {}
        invariant todo + done == selected == old(selected)
        invariant records == Recategorised(old(records), done, c)
        invariant saves == old(saves) && editingSlug == old(editingSlug)
        decreases |todo|
      {
        var s :| s in todo;
        RecategoriseStep(old(records), done, s, c);
        var k := IndexOf(records, s);
        if k >= 0 {
          records := records[k := records[k].(category := c)];
        }
        todo := todo - {s};
        done := done + {s};
      }
      saves := saves + 1;
      selected := {};
    }

    /** `trackView`. */
    method TrackView(slug: string, now: int)
      modifies this
      ensures Snapshot() == Store.TrackView(old(Snapshot()), slug, now)
    {
      var k := IndexOf(records, slug);
      if k >= 0 {
        var r := records[k];
        records := records[k := r.(views := r.views + 1, lastViewed := Some(now))];
        saves := saves + 1;
      }
    }

    /** `toggleFavorite`. */
    method ToggleFavorite(slug: string)
      modifies this
      ensures Snapshot() == Store.ToggleFavorite(old(Snapshot()), slug)
    {
      var k := IndexOf(records, slug);
      if k >= 0 {
        records := records[k := records[k].(favorite := !records[k].favorite)];
        saves := saves + 1;
      }
    }

    /** `toggleActressSelection`. */
    method ToggleSelection(slug: string, checked: bool)
      modifies this
      ensures Snapshot() == Store.ToggleSelection(old(Snapshot()), slug, checked)
    {
      if checked {
        selected := selected + {slug};
      } else {
        selected := selected - {slug};
      }
    }

    /** `processImportedData`, given the decoded file and the answer to the confirmation. */
    method Import(decoded: Result<seq<Record>>, confirmed: bool)
      modifies this
      ensures Snapshot() == Store.Import(old(Snapshot()), decoded, confirmed)
    {
      if decoded.Ok? && confirmed {
        records := decoded.value;
        saves := saves + 1;
      }
    }

    /** `loadActresses`, given what storage holds. */
    method Load(saved: Saved, now: int, parseDate: string -> Option<int>)
      modifies this
      ensures Snapshot() == Store.Load(old(Snapshot()), saved, now, parseDate)
    {
      var loaded := LoadedRecords(saved, parseDate);
      if loaded.Some? {
        records := loaded.value;
      } else {
        records := SampleData(now);
        saves := saves + 1;
      }
    }
  }
}
