# Actress catalog and JSON merger — a Dafny model

This project models two programs.

**The catalog page** (`script.js`) is a browser catalog of profile records. Each record has a slug, name, category, tags, links, gallery, thumbnail, view counter, dates and a favourite flag. The model covers the in-memory store and the handlers that change it:

- add and edit through the shared form;
- single and batch delete, and batch recategorise;
- view tracking, the favourite toggle and the selection set;
- import with structural validation, and start-up load with its slug filter;
- the read-only views: search filter, sort menu, statistics bar and category list;
- CSV import parsing and CSV export rows;
- the view-mode cycle and the image viewer's position.

The page's global variables become the class `App.Catalog`. Its fields are `records`, `editingSlug`, `selected` and `saves`, where `saves` counts writes to storage. Each handler changes the fields in place. Each handler's contract says it reaches the state that the matching pure step in module `Store` computes. The properties of the catalog are proved as lemmas about those steps.

**The merger** (`testttyyy.py`) is a desktop tool that merges JSON profile files into one list. The model covers:

- the slug and display name derived from a file name;
- the per-item normalisation of `process_file`: the metadata-preserve rules, the default category, and thumbnail and gallery path prefixing;
- the merge run of `JSONFileMerger.merge_files`: gather, dedupe by slug keeping the first occurrence, then a stable newest-first sort on `createdAt`;
- the window's file-list bookkeeping and the merge-button rule.

`process_file`, `merge_files` and `add_files` are loops in the source, so they are `while` loops in the model. Each loop is proved to compute a specification function, and the properties are proved about those functions. The merger's one field, `merged_data`, is the field `mergedData` of the class `MergeRun.JsonFileMerger`.

Python exceptions that the source does not catch are modelled as `Err`. For example, calling `startswith` on a thumbnail that is not a string, or hashing a list-valued slug, gives `Err`. An `Err` ends the whole run, as it does in the program.

What is a parameter rather than modelled:

- **Time stamps.** `new Date()` and `datetime.now()` enter as integers or strings (`now`, `Options.now`).
- **Dates.** `toISOString`, `Date.parse` and `toLocaleDateString` are function parameters (`iso`, `parseDate`, `date`).
- **Dialogs.** The answers to `confirm()`, `prompt()` and the file dialogs are parameters.
- **JSON values.** Files and local storage are given as already parsed JSON values (`Json`, module `JsonValues`). `None` stands for text that does not parse.

Four behaviours of the code that the model keeps:

- **CSV header.** `exportCSV` quotes the header row too (`"Name","Category",…`).
- **CSV photos column.** Re-importing an export puts the photo count in the column where the import expects an image URL.
- **CSV import validation.** A CSV import always passes validation, because `parseCSV` always derives a non-empty slug.
- **Cancelling an edit.** Switching tab or closing the panel while editing does not leave edit mode (see Findings).

## Model

| member | source | states |
|---|---|---|
| Records.SlugChar | script.js:1147 | a slug character is in `[a-z0-9-]`, and a character already in that set is kept |
| Records.SlugOf | script.js:1147 | the slug has the name's length, uses only `[a-z0-9-]`, and keeps every lower-case letter and digit of the name in place |
| Records.SlugOfSlug | script.js:1147 | a string made of slug characters is its own slug |
| Records.SlugOfIdempotent | script.js:1147 | deriving the slug of a slug changes nothing |
| Records.SlugOfCollides | script.js:1147 | two different names (`A/B`, `a b`) can derive the same slug, so the derivation is not injective |
| Records.SampleData | script.js:2237-2287 | the seed data has three records, each with a non-empty slug and stamped with the load time |
| Records.SampleSlugNotDerived | script.js:2271-2272 | the third seed record's slug (`Lisa`) is not the slug its name derives |
| Store.IndexOf | script.js:1172 | the result is -1 exactly when no record has the slug; otherwise it is the first position holding the slug |
| Store.IndexOfSameSlugs | script.js:1008-1011 | lists with the same slugs position by position give the same lookup result, so changing categories does not move later lookups |
| Store.Submit | script.js:1126-1212 | the form handler's step: validation, then the add or the edit branch; its properties are proved in Store.SubmitRejectsBlank, Store.SubmitAdds, Store.SubmitEdits, Store.SubmitAllOrNothing and Store.SubmitUnique |
| Store.FormRecord | script.js:1159-1170 | the record the form's fields describe; Store.SubmitAdds and Store.SubmitEdits state which of its fields reach the list |
| Store.AddNew | script.js:1147-1156 | the add branch; Store.SubmitAdds and Store.SubmitRejectsDuplicate state its effect |
| Store.SaveEdit | script.js:1172-1182 | the edit branch; Store.SubmitEdits and Store.SubmitEditMissing state its effect |
| Store.SubmitRejectsBlank | script.js:1130-1143 | an empty trimmed name or an empty category leaves the whole state unchanged |
| Store.SubmitRejectsDuplicate | script.js:1149-1156 | adding under a slug that is already taken leaves the whole state unchanged |
| Store.SubmitAdds | script.js:1147-1195 | a valid add appends exactly one record at the end, with the derived slug, no views, no last view, and the placeholder thumbnail when none is given; it saves once and leaves edit mode |
| Store.SubmitEdits | script.js:1159-1195 | a valid edit keeps the list's length, replaces the edited record at its own index, keeps its slug, views, creation date and last view, leaves every other record unchanged, and saves once |
| Store.SubmitEditMissing | script.js:1172-1182 | editing a slug that is no longer in the list changes nothing: no save, and edit mode stays on |
| Store.SubmitAllOrNothing | script.js:1126-1212 | a submit either changes nothing, or saves exactly once and sets `editingSlug` to null |
| Store.SubmitUnique | script.js:1147-1187 | if no two records share a slug before a submit, none do after it |
| Store.BeginEdit | script.js:1581-1597 | editing a present slug turns edit mode on for that slug and changes nothing else; an absent slug changes nothing |
| Store.CancelEdit | script.js:326-339 | the cancel as written, through `resetForm`; Store.CancelKeepsEditing and Store.StaleEditAfterCancel state what it leaves |
| Store.CancelEditIntended | script.js:1457-1461 | the cancel that ends edit mode; Store.AddAfterIntendedCancel states what the next submit then does |
| Store.CancelKeepsEditing | script.js:326-339 | cancelling by changing tab or closing the panel leaves `editingSlug` as it was |
| Store.StaleEditAfterCancel | script.js:1329-1349 | after such a cancel, a form filled in for a new profile overwrites the record that was being edited, and the list does not grow |
| Store.AddAfterIntendedCancel | script.js:1457-1461 | with a cancel that ends edit mode, the same form appends a new record under its derived slug |
| Store.Delete | script.js:1931-1943 | the single delete; Store.DeleteAbsent and Store.DeleteRemoves state its effect |
| Store.DeleteAbsent | script.js:1931-1933 | deleting a slug no record has changes nothing, whatever the confirmation answer |
| Store.DeleteRemoves | script.js:1935-1937 | a confirmed delete removes exactly the records with that slug, keeps the others in order, and saves once |
| Store.ApplyBatch | script.js:980-1020 | the batch action; Store.BatchNeedsSelection, Store.BatchDeleteKeepsUnselected, Store.BatchRecategorise, Store.BatchRecategoriseCancelled and Store.BatchUnique state its effect |
| Store.DeleteSelected | script.js:994-1003 | the state after a batch delete; Store.BatchDeleteKeepsUnselected states what it keeps |
| Store.RecategoriseSelected | script.js:1006-1016 | the state after a batch recategorise; Store.BatchRecategorise states what it changes |
| Store.Recategorised | script.js:1007-1012 | recategorising keeps the list's length and every slug in its place |
| Store.BatchDeleteKeepsUnselected | script.js:994-1003 | a confirmed batch delete keeps exactly the records whose slug is not selected, in their order; it saves once and clears the selection |
| Store.BatchRecategorise | script.js:1006-1016 | a batch recategorise gives the new category only to the first record for each selected slug; all other fields and records are unchanged; it saves once and clears the selection |
| Store.BatchRecategoriseCancelled | script.js:1007-1008 | an empty or cancelled category prompt changes nothing |
| Store.BatchNeedsSelection | script.js:987-990 | with nothing selected, no batch action changes anything |
| Store.BatchUnique | script.js:980-1020 | batch actions keep slugs unique |
| Store.SubsequenceUnique | script.js:996 | a list obtained by deleting records from a list with unique slugs has unique slugs |
| Store.TrackView | script.js:1029-1037 | the view counter step; Store.TrackViewCounts and Store.TrackViewAbsent state its effect |
| Store.ToggleFavorite | script.js:2630-2637 | the favourite toggle; Store.ToggleFavoriteTwice and Store.TrackAndFavoriteUnique state its properties |
| Store.TrackViewCounts | script.js:1029-1037 | a view of a present slug raises that record's views by exactly one and sets its last view; no other record changes; the total views in the stats rise by one; it saves once |
| Store.TrackViewAbsent | script.js:1030-1031 | a view of an absent slug changes nothing |
| Store.ToggleFavoriteTwice | script.js:2630-2637 | toggling a favourite twice restores the list, and saves twice |
| Store.TrackAndFavoriteUnique | script.js:1029-1037 | view tracking and the favourite toggle keep slugs unique |
| Store.ToggleSelection | script.js:1562-1569 | checking adds the slug to the selection and unchecking removes it; records, saves and edit mode are unchanged |
| Store.SelectionUndo | script.js:1562-1569 | checking, then unchecking, a slug that was not selected restores the state |
| Store.Import | script.js:2059-2095 | the import step; Store.ImportReplaces, Store.ImportRejectsNonArray and Store.ImportRejectsInvalid state its effect |
| Store.ImportReplaces | script.js:2059-2095 | a rejected or unconfirmed import leaves the state unchanged; a confirmed, valid one installs exactly the decoded list and saves once |
| Store.ImportRejectsNonArray | script.js:2069-2071 | a JSON payload that is not an array changes nothing |
| Store.ImportRejectsInvalid | script.js:2074-2080 | a JSON array with any element that fails the structure check changes nothing |
| Store.Load | script.js:2189-2220 | start-up keeps edit mode and the selection; when `Persistence.LoadedRecords` yields records it installs exactly those and writes nothing, and otherwise it installs the sample data and saves once |
| Store.LoadRestoresSaved | script.js:2189-2231 | loading what was saved restores the same records without writing again, given that dates survive their ISO form |
| Store.LoadFallsBack | script.js:2215-2218 | with nothing stored, start-up installs the sample data and saves it |
| App.Catalog.constructor | script.js:11 | the page starts with no records, no edit, no selection and no saves |
| App.Catalog.Submit | script.js:1126-1212 | the handler reaches the state that `Store.Submit` describes |
| App.Catalog.AddNew | script.js:1147-1195 | the add branch reaches `Store.AddNew`'s state |
| App.Catalog.SaveEdit | script.js:1172-1195 | the edit branch reaches `Store.SaveEdit`'s state |
| App.Catalog.BeginEdit | script.js:1581-1597 | reaches `Store.BeginEdit`'s state |
| App.Catalog.CancelEdit | script.js:326-339 | reaches `Store.CancelEdit`'s state, which is the old state |
| App.Catalog.Delete | script.js:1931-1943 | reaches `Store.Delete`'s state |
| App.Catalog.ApplyBatch | script.js:980-1020 | reaches `Store.ApplyBatch`'s state |
| App.Catalog.DeleteSelected | script.js:994-1003 | the loop over the selection, in any order, reaches the state where every selected slug is filtered out, with one save |
| App.Catalog.RecategoriseSelected | script.js:1008-1016 | the loop over the selection, in any order, reaches the state where each selected slug's first record is recategorised, with one save |
| App.RecategoriseStep | script.js:1009-1011 | one pass of the recategorise loop extends the recategorised set by one slug |
| App.KeepMore | script.js:995-997 | one more pass of the delete loop removes exactly the records of one more slug |
| App.RecategorisedNone | script.js:1008-1012 | recategorising an empty set of slugs changes nothing |
| App.Catalog.TrackView | script.js:1029-1037 | the handler reaches `Store.TrackView`'s state |
| App.Catalog.ToggleFavorite | script.js:2630-2637 | the handler reaches `Store.ToggleFavorite`'s state |
| App.Catalog.ToggleSelection | script.js:1562-1569 | the handler reaches `Store.ToggleSelection`'s state |
| App.Catalog.Import | script.js:2059-2095 | the handler reaches `Store.Import`'s state |
| App.Catalog.Load | script.js:2189-2220 | the handler reaches `Store.Load`'s state |
| Query.NormalizeQuery | script.js:929 | the normalised query is no longer than the query and has no upper-case letter |
| Query.Wanted | script.js:925-936 | the search condition on one record; Query.FilterIsWhere and Query.FilterMembers state how it selects |
| Query.FilterActresses | script.js:922-939 | the two filter stages; Query.FilterIsWhere, Query.FilterSubsequence, Query.FilterMembers and Query.FilterBlankAll state what it returns |
| Query.FilterIsWhere | script.js:922-939 | the category stage followed by the text stage is one filter by a single condition: category `all` or equal, and a blank query or a match in the name, category or some tag |
| Query.FilterSubsequence | script.js:922-939 | the result keeps the store's order: it is the store with some records deleted |
| Query.FilterMembers | script.js:922-939 | a record is in the result exactly when it is in the store and meets the condition, and it appears as often as in the store |
| Query.FilterBlankAll | script.js:925-930 | a blank query in category `all` returns the whole store |
| Query.Before | script.js:946-959 | the comparator of each sort key; Query.BeforeTotalPreorder states that it is a total preorder |
| Query.SortActresses | script.js:944-961 | the sort menu's result; Query.SortActressesCorrect, Query.SortByViews, Query.SortByCounts and Query.SortUnknownKey state its order |
| Query.BeforeTotalPreorder | script.js:944-961 | every key's comparator is total and transitive, so the sort is well defined |
| Query.SortActressesCorrect | script.js:944-961 | the sort returns a permutation of its input, ordered by the key, and records that tie keep their input order |
| Query.SortByViews | script.js:952-953 | under `views` the output has views in non-increasing order |
| Query.SortByCounts | script.js:954-957 | under `photos` and `links` the output has gallery and link counts in non-increasing order |
| Query.SortUnknownKey | script.js:958-959 | an unrecognised key sorts by name, ascending |
| Query.StatsOf | script.js:810-811 | the profile count is the store's length |
| Query.StatsAppend | script.js:813-825 | appending a record adds its own gallery length, link count and views to the three totals, and one to the count |
| Query.StatsNonNegative | script.js:813-820 | the photo and link totals are never negative |
| Query.RecordCategories | script.js:2665-2669 | a category is collected exactly when some record has it, non-empty, in lower case |
| Query.AllCategories | script.js:2663-2675 | the category list; Query.AllCategoriesCorrect states its contents and order |
| Query.AllCategoriesCorrect | script.js:2663-2675 | the category list holds exactly the record categories in lower case and the three defaults, each once, in strictly increasing code-point order |
| Csv.DigitValue | script.js:2111 | a digit's value is below 16 |
| Csv.LeadingDigits | script.js:2111 | the result is the longest prefix made of digits of the radix |
| Csv.ParseInt | script.js:2111 | `parseInt` on a field; Csv.ParseIntDecimal, Csv.ParseIntNegative and Csv.ParseIntRoundTrip state what it reads |
| Csv.ParseIntDecimal | script.js:2111 | `parseInt` reads a run of decimal digits as its value |
| Csv.ParseIntNegative | script.js:2111 | `parseInt` reads a minus sign followed by digits as the negated value |
| Csv.ParseIntRoundTrip | script.js:2111 | reading back the decimal rendering of any integer gives that integer |
| Csv.CleanField | script.js:2105 | a cleaned value contains no `"` |
| Csv.Fields | script.js:2105 | every line yields at least one value |
| Csv.CsvRecord | script.js:2104-2118 | a parsed record's slug is derived from its name; its category is never empty; it has no links; its gallery has at most one entry; the thumbnail is that entry or the placeholder; it is stamped with the import time |
| Csv.ParseCsv | script.js:2100-2119 | the CSV import parser; Csv.ParseCsvRecords and Csv.ExportImport state what it returns |
| Csv.ParseCsvRecords | script.js:2100-2119 | the header line is skipped, so at most one record per later line, and every record has the shape above |
| Csv.Quote | script.js:1973 | a field in double quotes; Csv.QuotesDrop states that the import removes them again |
| Csv.CsvLine | script.js:1973-1975 | the quoted fields joined by commas; Csv.UnquotedLine and Csv.RowFields state what it holds |
| Csv.ExportCsv | script.js:1961-1975 | the export text; Csv.ExportLines and Csv.ExportImport state its lines and that it reads back |
| Csv.ExportFields | script.js:1963-1971 | each export row has seven fields |
| Csv.ExportRows | script.js:1962-1975 | the export has one row per record, in store order |
| Csv.RowSingleLine | script.js:1973-1975 | a row contains no newline when the record's text fields contain none |
| Csv.ExportLines | script.js:1961-1975 | when no field holds a newline, the export has one more line than there are records: the header, then each record's row in order |
| Csv.UnquotedLine | script.js:1973-1974 | with the quotes removed, a line is its fields joined by commas, so the header reads `Name,Category,Tags,Views,Photos,Links,Created` |
| Csv.QuotesDrop | script.js:2105 | removing the quotes of a quoted field gives the field back |
| Csv.QuotedField | script.js:2105 | the import reads a quoted field with no quote or surrounding space as the field itself |
| Csv.TagsField | script.js:2110 | tags joined by `;` and split again are the same tags, and the joined field is empty exactly when there are none |
| Csv.RowFields | script.js:1973-1974 | splitting a row at commas gives back its first five quoted fields |
| Csv.LineValues | script.js:1973-1974 | the first five values the import reads from an exported row are the row's first five fields |
| Csv.RowRoundTrip | script.js:1961-1975 | importing one exported row gives back the record's name, category, tags and views |
| Csv.ExportImport | script.js:2100-2119 | export followed by import gives one record per portable record, in order, with its name, category, tags and views |
| Persistence.TextsOf | script.js:2231 | one string per array element |
| Persistence.RecordJson | script.js:2231 | every saved record is an object carrying its slug |
| Persistence.StoreJson | script.js:2231 | the saved array has one element per record |
| Persistence.TextsRoundTrip | script.js:2231 | a saved list of strings reads back unchanged |
| Persistence.WebsiteRoundTrip | script.js:2231 | a saved link reads back unchanged |
| Persistence.DateRoundTrip | script.js:2231 | a saved date reads back unchanged, given that the date parser inverts the ISO rendering |
| Persistence.ToRecord | script.js:2195 | the record a stored object stands for; Persistence.RecordRoundTrip and Persistence.StoredItems state that it reads back what was written |
| Persistence.RecordRoundTrip | script.js:2231 | reading back a saved record gives the record |
| Persistence.ValidItem | script.js:2074-2076 | the structure check on one element; Persistence.JsonImportDecision and Persistence.ValidItemRecord state its role |
| Persistence.DecodeImport | script.js:2063-2080 | the import decision; Persistence.JsonImportDecision and Persistence.CsvImportAccepted state when it succeeds and what it yields |
| Persistence.FirstInvalid | script.js:2074-2076 | the check stops at the first element that fails it, and every element before it passes |
| Persistence.CsvImportAccepted | script.js:2063-2080 | a CSV import always passes the check and installs exactly what `parseCSV` built |
| Persistence.JsonImportDecision | script.js:2066-2080 | a JSON import succeeds exactly when the payload is an array whose every element passes the check; it then yields one record per element, in order |
| Persistence.ValidItemRecord | script.js:2074-2076 | an accepted element whose slug, name and category are not arrays gives a record that passes the same check |
| Persistence.LoadedRecords | script.js:2189-2213 | the records start-up installs, or none; Persistence.LoadKeepsSlugged and Persistence.SaveThenLoad state them |
| Persistence.LoadKeepsSlugged | script.js:2189-2213 | loading falls back exactly when nothing is stored, the text is empty or does not parse, the value is not an array, or an element is `null`; otherwise it keeps exactly the elements with a truthy slug, in stored order |
| Persistence.StoredItems | script.js:2202-2208 | every element written for a record with a slug has a slug and reads back as that record |
| Persistence.StoredKept | script.js:2202-2208 | the load filter drops none of the elements that were saved for records with slugs |
| Persistence.SaveThenLoad | script.js:2189-2231 | loading what was saved gives back the same records, provided each has a slug |
| ViewState.ModeIndex | script.js:530 | the position is -1 exactly for an unknown mode, and otherwise names the mode |
| ViewState.NextMode | script.js:530-532 | the next layout in the cycle; ViewState.NextModeCycles, ViewState.ModeCycle and ViewState.FourTogglesReturn state the cycle |
| ViewState.NextModeCycles | script.js:527-536 | the toggle always lands on a known mode, and an unknown mode goes to `grid` |
| ViewState.ModeCycle | script.js:529-532 | the cycle is grid, masonry, list, slideshow, then grid again |
| ViewState.FourTogglesReturn | script.js:527-536 | four toggles return to a known starting mode, and fewer do not |
| ViewState.LoadedMode | script.js:510-515 | a stored mode replaces the current one exactly when it is non-empty and known |
| ViewState.LoadedModeValid | script.js:510-515 | from a known mode, loading can only give a known mode |
| ViewState.JsRem | script.js:656-665 | JavaScript's `%` keeps the sign of the dividend |
| ViewState.NextIndex | script.js:662-668 | the forward step of the viewer; ViewState.StepsInverse and ViewState.StepsOnEmpty state its range and wrap |
| ViewState.PrevIndex | script.js:653-659 | the backward step of the viewer; ViewState.StepsInverse and ViewState.StepsOnEmpty state its range and wrap |
| ViewState.StepsInverse | script.js:653-668 | on a non-empty gallery both steps stay in range, wrap at the ends, and undo each other |
| ViewState.StepsOnEmpty | script.js:654-663 | on an empty gallery both steps leave the index unchanged |
| ViewState.View.constructor | script.js:623-624 | the page starts in grid layout with an empty viewer |
| ViewState.View.LoadMode | script.js:510-523 | the mode becomes `LoadedMode` of the stored value; nothing else changes |
| ViewState.View.SetMode | script.js:463-466 | the mode is set and stored |
| ViewState.View.Toggle | script.js:527-536 | the mode becomes the next one in the cycle, and is stored |
| ViewState.View.OpenViewer | script.js:629-631 | the viewer takes the gallery and the starting index |
| ViewState.View.Next | script.js:662-668 | the index steps forward, wrapping, and stays put on an empty gallery |
| ViewState.View.Previous | script.js:653-659 | the index steps back, wrapping, and stays put on an empty gallery |
| Merger.BaseName | testttyyy.py:415 | the base name is a suffix of the path and contains no `/` |
| Merger.LastDot | testttyyy.py:291 | the result is -1 exactly when there is no dot; otherwise it is the position of the last dot |
| Merger.Stem | testttyyy.py:291 | the stem is a prefix of the name |
| Merger.StemDropsExtension | testttyyy.py:291 | a name with an extension loses exactly the extension |
| Merger.StemWithoutDot | testttyyy.py:291 | a name without a dot is its own stem |
| Merger.ExtractSlug | testttyyy.py:290-293 | the slug of a file name; Merger.ExtractSlugShape and Merger.ExtractSlugOfSlug state its characters and that it is stable |
| Merger.ExtractSlugShape | testttyyy.py:290-293 | the slug is no longer than the stem, and holds only ASCII lower-case letters, digits, `-` and `_` |
| Merger.ExtractSlugOfSlug | testttyyy.py:290-293 | a slug used as a file name, with any extension, gives the same slug back |
| Merger.TitleFrom | testttyyy.py:297 | title-casing keeps the length |
| Merger.TitleAt | testttyyy.py:297 | a letter after a letter becomes lower case, any other letter upper case, and everything else is kept |
| Merger.ExtractName | testttyyy.py:295-298 | the display name of a file name; Merger.ExtractNameShape states it character by character |
| Merger.ExtractNameShape | testttyyy.py:295-298 | the name has one character per character of the stem: separators become spaces, each word starts upper case and continues lower case, and nothing else changes |
| Merger.ItemSlug | testttyyy.py:338-343 | the item's slug by the preserve rule; Merger.NormalisedIdentity states which slug is used |
| Merger.GalleryOf | testttyyy.py:376-385 | the gallery step; Merger.NormalisedGallery and Merger.NormalisedFails state its paths and its errors |
| Merger.GalleryPaths | testttyyy.py:376-385 | one path per entry, in order, each rewritten by the gallery rule |
| Merger.Named | testttyyy.py:338-363 | slug, name and category are set by the preserve rules; with metadata kept, every other field is the item's; without, nothing else is present |
| Merger.Finished | testttyyy.py:387-404 | websites, tags and the creation date follow the preserve rules; with metadata kept, views and last view are copied; no field other than these five changes |
| Merger.Staged | testttyyy.py:366-385 | the thumbnail and gallery steps set exactly those two fields and leave the rest as named |
| Merger.Stages | testttyyy.py:318-408 | an item that goes through passed both the thumbnail and gallery steps, and is the finished form of its staged form |
| Merger.Normalised | testttyyy.py:333-406 | the per-item normalisation; the Merger.Normalised lemmas below and MergeRun.NormaliseItem state each of its fields |
| Merger.NormalisedFails | testttyyy.py:366-385 | a string thumbnail and a gallery of strings never make an item fail; a thumbnail of any other type always does |
| Merger.NormalisedIdentity | testttyyy.py:338-360 | the slug and name are the item's own when they are truthy and metadata is kept, and come from the file name otherwise |
| Merger.NormalisedDefaults | testttyyy.py:362-397 | the category is `onlyfans` and the creation date is the run's time stamp, unless metadata is kept and the item has them |
| Merger.NormalisedCounters | testttyyy.py:400-404 | views and last view are copied from the item when metadata is kept, and are absent otherwise |
| Merger.NormalisedLinks | testttyyy.py:388-393 | websites and tags, when present, are the item's own |
| Merger.NormalisedKeeps | testttyyy.py:353-356 | with metadata kept, every field other than slug, name, thumbnail and gallery is the item's own |
| Merger.NormalisedFresh | testttyyy.py:353-406 | without metadata kept, the output has only the fields the merger writes |
| Merger.NormalisedGallery | testttyyy.py:376-385 | the gallery keeps its length and order: `http` entries verbatim, every other entry under `{base}/{slug}/` |
| Merger.ThumbRule | testttyyy.py:366-373 | the thumbnail the code produces in each case, as written, so a placeholder under kept metadata stays; Merger.NormalisedThumb states that the output carries it |
| Merger.ThumbOf | testttyyy.py:366-373 | the thumbnail step as written; Merger.ThumbStep, Merger.NormalisedThumb and Merger.PlaceholderKept state what it does |
| Merger.NormalisedThumb | testttyyy.py:366-373 | the thumbnail is the one `ThumbRule` states: a kept thumbnail stays; a reset one is the item's own `http` URL if it has one, else the local `thumb.jpg` |
| Merger.ThumbStep | testttyyy.py:366-373 | the thumbnail step either sets the rule's thumbnail, or leaves one in place that equals it |
| Merger.PlaceholderKept | testttyyy.py:366-370 | as written, a placeholder thumbnail under kept metadata is set back to itself, so it is never replaced |
| Merger.ThumbOfIntended | testttyyy.py:366-373 | the corrected thumbnail step; Merger.PlaceholderReplaced and Merger.IntendedAgrees state how it differs |
| Merger.PlaceholderReplaced | testttyyy.py:366-373 | with the correction, a placeholder thumbnail becomes the local `thumb.jpg` |
| Merger.IntendedAgrees | testttyyy.py:366-373 | the correction treats every thumbnail that is not a placeholder as the source does |
| MergeRun.Objects | testttyyy.py:327-336 | the objects kept are no more than the items, and every one is an item of the input |
| MergeRun.ProcessAllObjects | testttyyy.py:333-406 | the loop succeeds exactly when every object normalises, and then returns one normalised object per input object, in input order |
| MergeRun.ProcessAllFailureSticks | testttyyy.py:333-406 | once an item raises, the later items change nothing |
| MergeRun.ProcessAllSingle | testttyyy.py:333-406 | a single object gives its normalised form, or its exception |
| MergeRun.ProcessFileSpec | testttyyy.py:318-408 | what `process_file` returns; MergeRun.ProcessFileShapes and MergeRun.ProcessFile state it |
| MergeRun.ProcessFileShapes | testttyyy.py:318-331 | an unreadable or empty file gives `None`; a single object is processed as a list of one; a file never yields more objects than it holds |
| MergeRun.BuildGallery | testttyyy.py:376-385 | the loop builds exactly the gallery paths of the rule |
| MergeRun.NormaliseItem | testttyyy.py:338-406 | building the item field by field gives exactly the normalised item, or its exception |
| MergeRun.ThumbStepOf | testttyyy.py:366-373 | the test on the copied item gives the thumbnail step of the rule |
| MergeRun.FinishItem | testttyyy.py:387-404 | the steps after the gallery give the finished item |
| MergeRun.ProcessItem | testttyyy.py:334-406 | one pass of the loop skips a non-object, and otherwise appends the object's normalised form or stops with its exception, as the specification's next step does |
| MergeRun.ProcessFile | testttyyy.py:318-408 | `process_file` returns what the specification function gives |
| MergeRun.Collected | testttyyy.py:414-423 | the items gathered from the files; MergeRun.CollectedFailureSticks, MergeRun.SkippedFile and MergeRun.MergeFailures state its cases |
| MergeRun.CollectedFailureSticks | testttyyy.py:414-423 | once a file raises, the later files are not looked at |
| MergeRun.SkippedFile | testttyyy.py:418-423 | a file that gives nothing or no objects adds nothing |
| MergeRun.HashKey | testttyyy.py:428 | `item["slug"]` as a set key; MergeRun.FirstSlugError states when it fails |
| MergeRun.Deduped | testttyyy.py:426-433 | the items after the `seen_slugs` loop; MergeRun.JsonFileMerger.RemoveDuplicates and MergeRun.MergedSlugsDistinct state what it keeps |
| MergeRun.FirstSlugError | testttyyy.py:428 | there is no error exactly when every slug is present and hashable |
| MergeRun.KeyLe | testttyyy.py:436 | the order of sort keys; MergeRun.KeyLeTotal and MergeRun.KeyLeTransitive state that it is a total preorder |
| MergeRun.SortedNewestFirst | testttyyy.py:436 | the newest-first sort; MergeRun.LaterTotalPreorder and MergeRun.MergedNewestFirst state its order |
| MergeRun.KeyLeTotal | testttyyy.py:436 | the sort-key order is total |
| MergeRun.KeyLeTransitive | testttyyy.py:436 | the sort-key order is transitive |
| MergeRun.LaterTotalPreorder | testttyyy.py:436 | newest-first order is a total preorder on items |
| MergeRun.DistinctKeysPermutation | testttyyy.py:433-436 | sorting keeps keys distinct |
| MergeRun.MergedSlugsDistinct | testttyyy.py:426-433 | after a successful run the slugs are pairwise distinct, every gathered slug is represented, and the first item for each slug is the one kept |
| MergeRun.MergedNewestFirst | testttyyy.py:426-436 | after a successful run the items are a permutation of the deduplicated items, newest first, and items with equal keys keep their post-dedupe order |
| MergeRun.Finish | testttyyy.py:426-448 | dedupe, sort and write; MergeRun.MergedSlugsDistinct and MergeRun.MergedNewestFirst state its output |
| MergeRun.MergeSpec | testttyyy.py:410-448 | the whole run; MergeRun.MergeFailures and MergeRun.JsonFileMerger.MergeFiles state its result |
| MergeRun.MergeFailures | testttyyy.py:410-448 | a run fails exactly when a file raises, a slug cannot be looked up, or two keys cannot be compared; otherwise it returns whether the write succeeded |
| MergeRun.JsonFileMerger.constructor | testttyyy.py:287-288 | a new merger has no merged data |
| MergeRun.JsonFileMerger.MergeFiles | testttyyy.py:410-448 | the run's return value and the new `merged_data` are those of the specification `MergeSpec` |
| MergeRun.JsonFileMerger.RemoveDuplicates | testttyyy.py:426-433 | the `seen_slugs` loop gives the first item for each slug, or the exception of the first bad slug |
| MergerGui.Added | testttyyy.py:140-144 | the file list after adding; MergerGui.AddedKeepsDistinct states its contents |
| MergerGui.MergeEnabled | testttyyy.py:183-186 | the merge-button rule; MergerGui.StatusText and MergerGui.FileList.StartMerge state where it applies |
| MergerGui.AddedKeepsDistinct | testttyyy.py:140-144 | adding files never repeats a path, keeps the old list as a prefix, and leaves exactly the old and the chosen paths |
| MergerGui.RemovedKeepsDistinct | testttyyy.py:162-169 | removing an entry keeps the list free of repeats, shortens it by one, and the removed path is gone |
| MergerGui.StatusText | testttyyy.py:181-197 | the status reads "Ready to merge files!" exactly when there is a file and a non-blank output path |
| MergerGui.FileList.constructor | testttyyy.py:17 | the window starts with no files and no output path |
| MergerGui.FileList.AddFiles | testttyyy.py:134-147 | the list becomes `Added` of the old list and the chosen paths, and stays free of repeats |
| MergerGui.FileList.ChooseOutput | testttyyy.py:149-160 | a chosen name replaces the output path, and a cancelled dialog keeps it |
| MergerGui.FileList.RemoveSelected | testttyyy.py:162-169 | the first selected entry is removed, the list stays free of repeats, and no selection changes nothing |
| MergerGui.FileList.Clear | testttyyy.py:171-175 | the list becomes empty |
| MergerGui.FileList.StartMerge | testttyyy.py:199-224 | a merge starts exactly when the button would be enabled, with the trimmed output path and image base, and a blank base replaced by `images/actresses` |
| Text.JsTrimEmpty | script.js:1130 | `trim()` gives the empty string exactly when the string is all white space |
| Text.ContainsIffOccurs | script.js:932-934 | `includes` holds exactly when the text occurs at some position |
| Text.JoinSplit | script.js:2101 | joining the pieces of a split gives the string back |
| Text.SplitJoin | script.js:2110 | splitting a join of separator-free pieces gives the pieces back |
| Text.LexLeTotal | script.js:948 | the string order is total |
| Text.LexLeTransitive | script.js:948 | the string order is transitive |
| Text.LexLeAntisymmetric | script.js:2674 | the string order is antisymmetric |
| Lists.SortPermutes | testttyyy.py:436 | the stable sort returns a permutation of its input |
| Lists.SortSorted | testttyyy.py:436 | for a total preorder, the output is in order |
| Lists.SortStable | testttyyy.py:436 | elements that tie keep their input order |
| Lists.DedupeKeepsFirst | testttyyy.py:426-433 | the dedupe keeps, in input order, exactly the first element for each key |
| Lists.WhereSubsequence | script.js:926 | a filter keeps order |
| Lists.WhereWhere | script.js:926-936 | two filters in a row are one filter by both conditions |
| Lists.SumOfAppend | script.js:814-824 | a `reduce` sum over two lists joined is the sum of the two sums |
| Lists.SumOfUpdate | script.js:1032 | replacing one element changes the sum by the difference of its terms |

## Left out

- DOM rendering, modals, toasts, themes, keyboard shortcuts, downloads, printing and the form's staged population with `setTimeout` are presentation. The form's values reach the model as a `Form` value.
- The search debounce and the `fetch`/`FileReader` import are timers and I/O. The model starts from the decoded file.
- `localStorage`, `JSON.parse` and `JSON.stringify` work on text; the model works on parsed values. The number of writes is the `saves` counter. Dict key order and pretty-printing are not modelled.
- Clock and locale: `new Date()`, `toISOString`, `Date.parse` and `toLocaleDateString` are parameters. `createdAt` is an integer number of milliseconds.
- Query.SortActressesCorrect: `localeCompare` is modelled as code-point order (`LexLe`), which is not locale-aware.
- Query.Before: under `recent`, a record without `createdAt` is placed after the dated ones; JavaScript's comparator returns `NaN` there, and the resulting order is up to the engine.
- Case mapping on the page covers ASCII only: `toLowerCase` in the search, the category list and the slug changes `A`–`Z` and leaves every other character as it is.
- Merger.ExtractSlug: `isalnum()` and `lower()` are ASCII-only here, so the slug drops non-ASCII letters and digits, where Python keeps them and lower-cases them: `penélope-cruz.json` gives `penlope-cruz` here and `penélope-cruz` in Python, and `émile.json` gives `mile`.
- Merger.ExtractSlugShape: the alphabet it proves (ASCII lower-case letters, digits, `-` and `_`) holds because the model drops non-ASCII letters and digits; a Python slug can contain them.
- Merger.TitleFrom: only ASCII letters count as cased, so a non-ASCII letter is neither re-cased nor counted as a preceding letter: `émile` gives `éMile` here, where `title()` gives `Émile`.
- Merger.ExtractName: it inherits the ASCII-only casing of Merger.TitleFrom, so `émile.json` gives `éMile`.
- Merger.ExtractNameShape: the word-initial capitals it states are those of ASCII words; around non-ASCII letters it differs from `title()` as Merger.TitleFrom does.
- Query.AllCategories: the list is ordered by code points (`Text.LexLe`), while `.sort()` with no comparator orders by UTF-16 code units. The two orders differ between characters above U+FFFF and characters in U+E000–U+FFFF: JavaScript puts `😀` (code units D83D DE00) before U+FFFD, and the model puts it after.
- Query.AllCategoriesCorrect: the strictly increasing order it proves is code-point order, which differs from the order of `.sort()` as stated for Query.AllCategories.
- Csv.ParseIntRoundTrip: numbers are unbounded integers, while `parseInt` yields a double, which loses precision beyond 2^53.
- Persistence.ToRecord: field types are normalised when a stored element is read: a missing or mistyped `views` reads as 0, non-array `tags`, `websites` or `gallery` as empty, and a non-string slug or name as its text. The page keeps the parsed objects as they are, so its coercions on mistyped fields (`"5" + 1` giving `"51"`) and the exceptions they raise (`a.tags.some` on a string) are not modelled.
- ViewState.View.OpenViewer: the view that `openImageViewer` records for a non-empty gallery (script.js:646) is not part of this method; it is the catalog's separate step `App.Catalog.TrackView`.
- Persistence.ValidItemRecord: it holds only for elements whose slug, name and category are not arrays. The check accepts an array there, since an array is truthy, but `String([])` is empty, so an element with slug `[]` passes the check and gives a record with an empty slug.
- Opening the batch panel (`openBatchActions`) clears the selection. The model has no step for this, and the rest of that handler is display.
- Persistence.TextOf: `String(v)` of an object is not modelled exactly. A truthy object reads as a non-empty text, which is all the validation needs.
- App.Catalog.DeleteSelected and App.Catalog.RecategoriseSelected pick the selected slugs in any order, not in the `Set`'s insertion order. The contracts are proved for every order, so this loses nothing.
- The confirmation prompts and the category prompt are parameters.
- The duplicated definitions of `switchToEditMode`, `populateFormWithActressData` and `attachQuickActionListeners` are form glue.
- Merger.GalleryOf: a gallery given as a non-empty object is an error here. Python would iterate its keys.
- MergeRun.SortedNewestFirst: a list-valued `createdAt` is treated as an error here, where Python compares lists element by element.
- MergeRun.SortedNewestFirst: when the sort raises, the model keeps the deduplicated list. CPython may leave it partly reordered.
- MergeRun.CreatedKey: floats are not modelled, since JSON numbers are integers here.
- The creation time stamp `datetime.now()` is one value per run (`Options.now`). Python reads the clock once per item.
- Merger.BaseName splits at `/` only, not at the Windows `\`.
- `read_json_file` is not modelled. The model starts from its result: `None` for a file that cannot be read or parsed, or the parsed value.
- Writing the merged file is not modelled. Its success is the `written` parameter.
- `get_merge_summary`, `open_containing_folder`, `os.startfile` and the tkinter widgets are display.
- The merge thread of `start_merge` and `perform_merge`'s reporting of exceptions are concurrency and display. `StartMerge` returns the settings the thread would be started with.
- JsonValues.PyRepr: the text of a non-empty dict used as a slug in a path is only sketched.

## Findings

| source | as written | input that shows it | evidently intended | confidence | as-written member | corrected member |
|---|---|---|---|---|---|---|
| script.js:326-339 | Cancelling an edit (switching tab or closing the admin panel) calls `resetForm`, which leaves `editingSlug` set. | Edit "Emma Stone", switch tab, then add a new profile "Zoe": the submit overwrites Emma Stone's record with Zoe's data. | Cancel ends edit mode ("Edit cancelled"), so the next submit adds a record. | not executed | Store.StaleEditAfterCancel | Store.AddAfterIntendedCancel |
| testttyyy.py:366-373 | A placeholder thumbnail sends the item down the reset branch, but the reset keeps any thumbnail starting with `http`, and every placeholder does. | Metadata kept, thumbnail `https://via.placeholder.com/300`: the output thumbnail is still the placeholder. | A placeholder is replaced by `{base}/{slug}/thumb.jpg`. | not executed | Merger.PlaceholderKept | Merger.PlaceholderReplaced |

For both findings the handlers and `process_file` are modelled as the code behaves, through `Store.CancelEdit` and `Merger.ThumbOf`, so that the model's contracts describe the program as it runs. The corrected definitions, `Store.CancelEditIntended` and `Merger.ThumbOfIntended`, stand beside them. `Merger.IntendedAgrees` shows that the thumbnail correction changes nothing except placeholders.
