/**
 * The merger window's bookkeeping: the list of chosen input paths, the
 * output path, whether the merge button is enabled, and what pressing it
 * starts. The dialogs are parameters: the paths the user picked, the index
 * selected in the list, and the file name typed into the save dialog.
 */
module MergerGui {
  import opened Text
  import opened Lists

  /** The image base path used when the field is left blank. */
  const DefaultImageBase: string := "images/actresses"

  /** `add_files`: each chosen path not yet in the list is appended, in the order chosen. */
  function Added(files: seq<string>, chosen: seq<string>): seq<string>
    decreases |chosen|
  {
    if chosen == [] then files
    else
      var front := Added(files, chosen[..|chosen| - 1]);
      var c := chosen[|chosen| - 1];
      if c in front then front else front + [c]
  }

  /**
   * Adding files keeps the old list as a prefix, never repeats a path,
   * and leaves exactly the old paths and the chosen ones in the list.
   */
  lemma {:induction false} AddedKeepsDistinct(files: seq<string>, chosen: seq<string>)
    requires Distinct(files)
    ensures var r := Added(files, chosen);
      Distinct(r) && |files| <= |r| && r[..|files|] == files
      && (forall p :: p in r <==> p in files || p in chosen)
    decreases |chosen|
  {
    if chosen != [] {
      var init := chosen[..|chosen| - 1];
      var c := chosen[|chosen| - 1];
      AddedKeepsDistinct(files, init);
      var front := Added(files, init);
      assert chosen == init + [c];
      if c !in front {
        var r := front + [c];
        forall i, j | 0 <= i < j < |r| ensures r[i] != r[j] {
          if j == |front| {
            assert r[i] == front[i];
          }
        }
        assert r[..|files|] == front[..|files|];
      }
    }
  }

  /** Removing the entry at one index keeps the other paths, in order. */
  lemma RemovedKeepsDistinct(files: seq<string>, k: nat)
    requires Distinct(files) && k < |files|
    ensures var r := files[..k] + files[k + 1..];
      Distinct(r) && |r| == |files| - 1 && files[k] !in r
  {
    var r := files[..k] + files[k + 1..];
    forall i, j | 0 <= i < j < |r| ensures r[i] != r[j] {
      var a := if i < k then i else i + 1;
      var b := if j < k then j else j + 1;
      assert r[i] == files[a] && r[j] == files[b];
    }
    forall i | 0 <= i < |r| ensures r[i] != files[k] {
      var a := if i < k then i else i + 1;
      assert r[i] == files[a];
    }
  }

  /** `update_merge_button_state`: at least one file and a non-blank output path. */
  predicate MergeEnabled(files: seq<string>, output: string) {
    |files| >= 1 && PyStrip(output) != ""
  }

  /** The status line the button update shows. */
  function StatusText(files: seq<string>, output: string): (t: string)
    ensures t == "Ready to merge files!" <==> MergeEnabled(files, output)
  {
    var hasFiles := |files| >= 1;
    var hasOutput := PyStrip(output) != "";
    if hasFiles && hasOutput then "Ready to merge files!"
    else if !hasFiles && !hasOutput then "Select files and choose save location"
    else if !hasFiles then "Select files to merge"
    else "Choose where to save the merged file"
  }

  /** What pressing the merge button does: a warning, or a merge run with its settings. */
  datatype Start =
    | Warning(message: string)
    | Run(files: seq<string>, output: string, imageBase: string, preserve: bool)

  /** The file list and the output path of the merger window. */
  class FileList {
    var inputFiles: seq<string>
    var output: string

    /** No path appears twice in the list. */
    ghost predicate Valid()
      reads this
    {
      Distinct(inputFiles)
    }

    constructor ()
      ensures Valid() && inputFiles == [] && output == ""
    {
      inputFiles := [];
      output := "";
    }

    /** `add_files`, given the paths picked in the dialog. */
    method AddFiles(chosen: seq<string>)
      requires Valid()
      modifies this
      ensures Valid()
      ensures inputFiles == Added(old(inputFiles), chosen) && output == old(output)
    {
      AddedKeepsDistinct(inputFiles, chosen);
      ghost var start := inputFiles;
      var i := 0;
      while i < |chosen|
        invariant 0 <= i <= |chosen|
        invariant inputFiles == Added(start, chosen[..i]) && output == old(output)
      {
        assert chosen[..i + 1][..i] == chosen[..i] && chosen[..i + 1][i] == chosen[i];
        if chosen[i] !in inputFiles {
          inputFiles := inputFiles + [chosen[i]];
        }
        i := i + 1;
      }
      assert chosen[..i] == chosen;
    }

    /** `choose_output_location`, given the name typed into the save dialog (empty when cancelled). */
    method ChooseOutput(filename: string)
      modifies this
      ensures output == (if filename != "" then filename else old(output))
      ensures inputFiles == old(inputFiles)
    {
      if filename != "" {
        output := filename;
      }
    }

    /** `remove_selected_file`, given the list box's selection; only its first index is removed. */
    method RemoveSelected(selection: seq<nat>)
      requires Valid()
      requires selection != [] ==> selection[0] < |inputFiles|
      modifies this
      ensures Valid() && output == old(output)
      ensures selection == [] ==> inputFiles == old(inputFiles)
      ensures selection != [] ==>
                inputFiles == old(inputFiles)[..selection[0]] + old(inputFiles)[selection[0] + 1..]
                && old(inputFiles)[selection[0]] !in inputFiles
    {
      if selection != [] {
        var k := selection[0];
        RemovedKeepsDistinct(inputFiles, k);
        inputFiles := inputFiles[..k] + inputFiles[k + 1..];
      }
    }

    /** `clear_files`. */
    method Clear()
      modifies this
      ensures Valid() && inputFiles == [] && output == old(output)
    {
      inputFiles := [];
    }

    /**
     * `start_merge`, given the image base field and the preserve check box:
     * it runs exactly when the button would be enabled, with the trimmed
     * output path and image base, the blank base replaced by the default.
     */
    method StartMerge(imageBase: string, preserve: bool) returns (s: Start)
      ensures s.Run? <==> MergeEnabled(inputFiles, output)
      ensures s.Run? ==> s.files == inputFiles && s.output == PyStrip(output) && s.output != "" && s.preserve == preserve
      ensures s.Run? ==> s.imageBase == (if PyStrip(imageBase) == "" then DefaultImageBase else PyStrip(imageBase))
    {
      if |inputFiles| < 1 {
        return Warning("Please select at least 1 file to merge.");
      }
      var out := PyStrip(output);
      if out == "" {
        return Warning("Please choose where to save the merged file.");
      }
      var base := PyStrip(imageBase);
      if base == "" {
        base := DefaultImageBase;
      }
      return Run(inputFiles, out, base, preserve);
    }
  }
}
