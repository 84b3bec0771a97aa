/** The decisions of the data viewer app: which folder to read, which file in it, which
    columns to group by, and how the columns of the building-by-status table are renamed.
    The file system answers are inputs. */
module Viewer {
  import opened Options
  import opened Text
  import Export

  /** A candidate data folder and what the file system says about it. */
  datatype Candidate = Candidate(path: string, present: bool, isDir: bool)

  predicate Usable(c: Candidate) {
    c.present && c.isDir
  }

  /** The folder used when no candidate is usable. */
  const CurrentDir: string := "."

  /** The data folder: the first candidate that exists and is a folder, else the current one. */
  function DataDir(candidates: seq<Candidate>): (r: string)
    ensures (forall i :: 0 <= i < |candidates| ==> !Usable(candidates[i])) ==> r == CurrentDir
    ensures (exists i :: 0 <= i < |candidates| && Usable(candidates[i])) ==>
              exists i :: 0 <= i < |candidates| && Usable(candidates[i]) && r == candidates[i].path
                          && forall j :: 0 <= j < i ==> !Usable(candidates[j])
  {
    if candidates == [] then CurrentDir
    else if Usable(candidates[0]) then candidates[0].path
    else
      var r := DataDir(candidates[1..]);
      assert forall j :: 1 <= j < |candidates| ==> candidates[j] == candidates[1..][j - 1];
      r
  }

  /** The file the viewer loads from the folder's listing. `readable` is whether reading the
      chosen file succeeds; a failed read shows an error and loads nothing. */
  function LatestData(listing: seq<Export.FileEntry>, readable: bool): (r: Option<Export.FileEntry>)
    ensures r.None? <==> !readable || forall f :: f in listing ==> !Export.IsCsv(f)
    ensures r.Some? ==> r.value in listing && Export.IsCsv(r.value)
    ensures r.Some? ==> forall f :: f in listing && Export.IsCsv(f) ==> f.mtime <= r.value.mtime
  {
    var latest := Export.MostRecent(listing);
    if latest.None? || !readable then None else latest
  }

  /** The building column: "Building" if the table has it, else "building". */
  function BuildingColumn(columns: seq<string>): (r: Option<string>)
    ensures r.None? <==> "Building" !in columns && "building" !in columns
    ensures r.Some? ==> r.value in columns
    ensures "Building" in columns ==> r == Some("Building")
    ensures "Building" !in columns && "building" in columns ==> r == Some("building")
  {
    if "Building" in columns then Some("Building")
    else if "building" in columns then Some("building")
    else None
  }

  /** Words that mark a column as a status column. */
  const StatusWords: seq<string> := ["status", "available", "checked"]

  predicate StatusLike(column: string) {
    ContainsAny(Lower(column), StatusWords)
  }

  /** The status column: the first whose lower-cased name mentions one of the status words. */
  function StatusColumn(columns: seq<string>): (r: Option<string>)
    ensures r.None? <==> forall i :: 0 <= i < |columns| ==> !StatusLike(columns[i])
    ensures r.Some? ==> exists i :: 0 <= i < |columns| && columns[i] == r.value && StatusLike(r.value)
                          && forall j :: 0 <= j < i ==> !StatusLike(columns[j])
  {
    if columns == [] then None
    else if StatusLike(columns[0]) then Some(columns[0])
    else
      var r := StatusColumn(columns[1..]);
      assert forall j :: 1 <= j < |columns| ==> columns[j] == columns[1..][j - 1];
      r
  }

  const AvailableLabel: string := "Available"
  const CheckedOutLabel: string := "Checked Out"

  /** The new name of a table's only column. */
  function SingleLabel(name: string): (r: string)
    ensures Contains(Lower(name), "available") ==> r == AvailableLabel
    ensures (!Contains(Lower(name), "available")
             && (Contains(Lower(name), "checked") || Contains(Lower(name), "out"))) ==> r == CheckedOutLabel
    ensures r != AvailableLabel && r != CheckedOutLabel ==> r == name
    ensures (!Contains(Lower(name), "available") && !Contains(Lower(name), "checked")
             && !Contains(Lower(name), "out")) ==> r == name
  {
    var lowered := Lower(name);
    if Contains(lowered, "available") then AvailableLabel
    else if Contains(lowered, "checked") || Contains(lowered, "out") then CheckedOutLabel
    else name
  }

  /** The column names of the building-by-status table after renaming. Two columns are renamed
      by position whatever they held; one column by its name; any other count is kept. */
  function Relabel(columns: seq<string>): (r: seq<string>)
    ensures |r| == |columns|
    ensures |columns| == 2 ==> r == [AvailableLabel, CheckedOutLabel]
    ensures |columns| == 1 ==> r == [SingleLabel(columns[0])]
    ensures |columns| != 1 && |columns| != 2 ==> r == columns
  {
    if |columns| == 2 then [AvailableLabel, CheckedOutLabel]
    else if |columns| == 1 then [SingleLabel(columns[0])]
    else columns
  }

  /** Renaming twice is renaming once: the new names are their own new names. */
  lemma RelabelIdempotent(columns: seq<string>)
    ensures Relabel(Relabel(columns)) == Relabel(columns)
  {
    if |columns| == 1 {
      var renamed := SingleLabel(columns[0]);
      if renamed == AvailableLabel {
        AvailableStaysAvailable();
      } else if renamed == CheckedOutLabel {
        CheckedOutStaysCheckedOut();
      }
    }
  }

  lemma AvailableStaysAvailable()
    ensures SingleLabel(AvailableLabel) == AvailableLabel
  {
    AvailableLowered();
    AvailableWord("available", 0);
  }

  lemma AvailableLowered()
    ensures Lower(AvailableLabel) == "available"
  {
    LowerPointwise(AvailableLabel, "available");
  }

  lemma CheckedOutStaysCheckedOut()
    ensures SingleLabel(CheckedOutLabel) == CheckedOutLabel
  {
    CheckedOutLowered();
    CheckedOutWords();
  }

  lemma CheckedOutLowered()
    ensures Lower(CheckedOutLabel) == "checked out"
  {
    LowerPointwise(CheckedOutLabel, "checked out");
  }

  lemma CheckedOutWords()
    ensures !Contains("checked out", "available") && Contains("checked out", "checked")
  {
    AbsentLetter("checked out", "available", 1);
    assert OccursAt("checked out", "checked", 0);
  }

  /** The single-column rule tests substrings, so a table whose only status is "Unavailable"
      is shown under "Available". */
  lemma UnavailableShownAsAvailable()
    ensures Relabel(["Unavailable"]) == [AvailableLabel]
  {
    UnavailableLowered();
    UnavailableMentionsAvailable();
  }

  lemma UnavailableMentionsAvailable()
    ensures Contains("unavailable", "available")
  {
    AvailableWord("unavailable", 2);
  }

  lemma UnavailableLowered()
    ensures Lower("Unavailable") == "unavailable"
  {
    LowerPointwise("Unavailable", "unavailable");
  }

  /** A lower-cased name holding "available" at `i` mentions it. */
  lemma AvailableWord(lowered: string, i: nat)
    requires OccursAt(lowered, "available", i)
    ensures Contains(lowered, "available")
  {
  }

  /** The two-column rule ignores the names: a table whose statuses sort as "Checked Out" then
      "In Stock" has its checked-out counts shown under "Available", although the same column
      alone would be shown as "Checked Out". */
  lemma TwoColumnsRenamedByPosition()
    ensures Relabel([CheckedOutLabel, "In Stock"]) == [AvailableLabel, CheckedOutLabel]
    ensures Relabel([CheckedOutLabel]) == [CheckedOutLabel]
  {
    CheckedOutStaysCheckedOut();
  }
}
