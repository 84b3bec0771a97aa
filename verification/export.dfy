/** The report export of the scraper: finding the export button, driving the export menu from
    the keyboard, and polling the downloads folder for the file the browser saves. The page,
    the folder listings and the clock are inputs. */
module Export {
  import opened Options
  import opened Text
  import opened Locators
  import opened Seqs

  /** Class, title and label selectors of the third button-finding strategy, in order. */
  const ExportSelectors: seq<string> := [
    "button[class*='export']", "button[class*='download']", "button[class*='icon']",
    "button[title*='Export']", "button[title*='Download']",
    "button[aria-label*='Export']", "button[aria-label*='Download']"
  ]

  /** The third strategy's selectors are all sent as CSS selectors. */
  function ExportQueries(): (qs: seq<Query>)
    ensures |qs| == |ExportSelectors|
    ensures forall i :: 0 <= i < |qs| ==> qs[i] == Css(ExportSelectors[i])
  {
    seq(|ExportSelectors|, i requires 0 <= i < |ExportSelectors| => Css(ExportSelectors[i]))
  }

  /** The export button. The first two strategies inspect the page's icons and the buttons
      near the "Records" caption; their answers are given. The third is a selector search
      that takes the first displayed match. */
  function ExportButton(byIcon: Option<Element>, nearRecords: Option<Element>, page: Page): (r: Option<Element>)
    requires byIcon.Some? ==> byIcon.value.displayed
    requires nearRecords.Some? ==> nearRecords.value.displayed
    ensures byIcon.Some? ==> r == byIcon
    ensures byIcon.None? && nearRecords.Some? ==> r == nearRecords
    ensures byIcon.None? && nearRecords.None? ==> r == Found(FirstMatch(page, ExportQueries(), Visible))
    ensures r.None? <==> byIcon.None? && nearRecords.None?
                         && forall i :: 0 <= i < |ExportSelectors| ==>
                              forall e :: e in Find(page, Css(ExportSelectors[i])) ==> !e.displayed
    ensures r.Some? ==> r.value.displayed
  {
    if byIcon.Some? then byIcon
    else if nearRecords.Some? then nearRecords
    else
      var hit := FirstMatch(page, ExportQueries(), Visible);
      if hit.None? then
        assert forall i :: 0 <= i < |ExportSelectors| ==>
                 FirstAccepted(Find(page, ExportQueries()[i]), Visible).None?;
        None
      else Found(hit)
  }

  /** A file in the downloads folder, with its modification time in seconds. */
  datatype FileEntry = FileEntry(name: string, mtime: int)

  /** One poll: the folder's listing and the clock when it was taken. */
  datatype Snapshot = Snapshot(files: seq<FileEntry>, now: int)

  function ModifiedAt(f: FileEntry): int {
    f.mtime
  }

  /** The folder is searched for names matching "*.csv". */
  predicate IsCsv(f: FileEntry) {
    EndsWith(f.name, ".csv")
  }

  /** Seconds between polls, the total wait, and the age under which a file counts as new. */
  const PollInterval: nat := 2
  const MaxWait: nat := 60
  const FreshAge: int := 60

  /** The number of polls the loop makes before giving up: one per interval of the wait. */
  const MaxPolls: nat := 30

  /** The CSV files of a listing, in listing order. */
  function CsvFiles(files: seq<FileEntry>): (r: seq<FileEntry>)
    ensures |r| <= |files|
    ensures forall f :: f in r <==> f in files && IsCsv(f)
  {
    if files == [] then []
    else (if IsCsv(files[0]) then [files[0]] else []) + CsvFiles(files[1..])
  }

  /** Each CSV file is kept as often as it is listed, and nothing else is kept. */
  lemma {:induction false} CsvFilesCount(files: seq<FileEntry>, f: FileEntry)
    ensures multiset(CsvFiles(files))[f] == if IsCsv(f) then multiset(files)[f] else 0
  {
    if files != [] {
      assert files == [files[0]] + files[1..];
      CsvFilesCount(files[1..], f);
    }
  }

  /** The CSV files keep their listing order: filtering a listing in two parts filters each. */
  lemma {:induction false} CsvFilesAppend(front: seq<FileEntry>, back: seq<FileEntry>)
    ensures CsvFiles(front + back) == CsvFiles(front) + CsvFiles(back)
  {
    if front == [] {
      assert front + back == back;
    } else {
      var head := if IsCsv(front[0]) then [front[0]] else [];
      assert (front + back)[0] == front[0];
      assert (front + back)[1..] == front[1..] + back;
      CsvFilesAppend(front[1..], back);
      assert CsvFiles(front + back) == head + (CsvFiles(front[1..]) + CsvFiles(back));
      assert CsvFiles(front) == head + CsvFiles(front[1..]);
    }
  }

  /** The head of the listing's CSV files after the stable sort by descending modification
      time: the earliest-listed CSV among those modified last. */
  function MostRecent(files: seq<FileEntry>): (r: Option<FileEntry>)
    ensures r.None? <==> forall f :: f in files ==> !IsCsv(f)
    ensures r.Some? ==> r.value in files && IsCsv(r.value)
    ensures r.Some? ==> forall f :: f in files && IsCsv(f) ==> f.mtime <= r.value.mtime
  {
    var csvs := CsvFiles(files);
    var m := FirstMaxIndex(csvs, ModifiedAt);
    if m == -1 then None
    else
      LatestIsMax(files, m);
      Some(csvs[m])
  }

  /** Ties go to the earliest-listed file: every CSV listed before the chosen one is older. */
  lemma MostRecentIsFirstLatest(files: seq<FileEntry>)
    requires MostRecent(files).Some?
    ensures exists k :: 0 <= k < |CsvFiles(files)| && CsvFiles(files)[k] == MostRecent(files).value
                        && forall j :: 0 <= j < k ==> CsvFiles(files)[j].mtime < MostRecent(files).value.mtime
  {
    var m := FirstMaxIndex(CsvFiles(files), ModifiedAt);
    assert CsvFiles(files)[m] == MostRecent(files).value;
  }

  lemma LatestIsMax(files: seq<FileEntry>, m: int)
    requires m == FirstMaxIndex(CsvFiles(files), ModifiedAt) && m != -1
    ensures forall f :: f in files && IsCsv(f) ==> f.mtime <= CsvFiles(files)[m].mtime
  {
    var csvs := CsvFiles(files);
    forall f | f in files && IsCsv(f) ensures f.mtime <= csvs[m].mtime {
      assert f in csvs;
      var j :| 0 <= j < |csvs| && csvs[j] == f;
    }
  }

  /** No CSV in the folder was modified less than a minute before the poll. */
  predicate NoFreshCsv(snap: Snapshot) {
    forall f :: f in snap.files && IsCsv(f) ==> snap.now - f.mtime >= FreshAge
  }

  /** No CSV of the listing was modified after `f`. */
  predicate NewestCsv(files: seq<FileEntry>, f: FileEntry) {
    forall g :: g in files && IsCsv(g) ==> g.mtime <= f.mtime
  }

  /** What one poll returns: the most recent CSV, when it was modified less than a minute ago.
      A poll comes back empty exactly when no CSV in the folder is younger than a minute, so
      looking only at the most recent file loses nothing. */
  function FreshDownload(snap: Snapshot): (r: Option<FileEntry>)
    ensures r.None? <==> NoFreshCsv(snap)
    ensures r.Some? ==> r.value in snap.files && IsCsv(r.value) && snap.now - r.value.mtime < FreshAge
    ensures r.Some? ==> NewestCsv(snap.files, r.value)
    ensures r.Some? ==> r == MostRecent(snap.files)
  {
    var latest := MostRecent(snap.files);
    if latest.Some? && snap.now - latest.value.mtime < FreshAge then latest else None
  }

  /** The polling loop: every two seconds, up to a minute, look at `observe(k)` on the k-th
      round with `check` and stop at the first answer. */
  method AwaitFirst<S, T>(observe: nat -> S, check: S -> Option<T>) returns (r: Option<T>, polls: nat)
    ensures 1 <= polls <= MaxPolls
    ensures forall k: nat :: k < polls - 1 ==> check(observe(k)).None?
    ensures r == check(observe(polls - 1))
    ensures r.None? ==> polls == MaxPolls
  {
    var waited: nat := 0;
    polls := 0;
    r := None;
    while waited < MaxWait
      invariant waited == 2 * polls && polls <= MaxPolls
      invariant forall k: nat :: k < polls ==> check(observe(k)).None?
      invariant polls > 0 ==> r == check(observe(polls - 1))
    {
      r := check(observe(polls));
      polls := polls + 1;
      if r.Some? {
        return;
      }
      waited := waited + PollInterval;
    }
  }

  /** The download wait: `observe(k)` is what the k-th poll of the folder sees. */
  method AwaitDownload(observe: nat -> Snapshot) returns (r: Option<FileEntry>, polls: nat)
    ensures 1 <= polls <= MaxPolls
    ensures forall k: nat :: k < polls - 1 ==> NoFreshCsv(observe(k))
    ensures r == FreshDownload(observe(polls - 1))
    ensures r.None? ==> polls == MaxPolls
  {
    r, polls := AwaitFirst(observe, FreshDownload);
  }

  /** The keys sent once the export menu is open: three steps down to the CSV entry, then Enter. */
  datatype Key = ArrowDown | Enter

  const MenuKeys: seq<Key> := [ArrowDown, ArrowDown, ArrowDown, Enter]

  /** Why an export fails. */
  datatype ExportError = ExportButtonNotFound | CsvNotDownloaded

  /** The export: the keys sent, and the downloaded file or the error. */
  datatype ExportRun = ExportRun(keys: seq<Key>, outcome: ExportOutcome)
  datatype ExportOutcome = Downloaded(file: FileEntry) | Failed(error: ExportError)

  /** The download wait's outcome: the fresh file of the poll that found one, or a failure
      when all the polls came back empty. */
  method AwaitExport(observe: nat -> Snapshot) returns (outcome: ExportOutcome)
    ensures outcome != Failed(ExportButtonNotFound)
    ensures outcome.Downloaded? ==>
              IsCsv(outcome.file)
              && exists k: nat :: k < MaxPolls && outcome.file in observe(k).files
                                  && observe(k).now - outcome.file.mtime < FreshAge
                                  && forall f :: f in observe(k).files && IsCsv(f) ==> f.mtime <= outcome.file.mtime
    ensures outcome == Failed(CsvNotDownloaded) ==>
              forall k: nat :: k < MaxPolls ==> NoFreshCsv(observe(k))
  {
    var file, polls := AwaitDownload(observe);
    var last: nat := polls - 1;
    if file.None? {
      assert polls == MaxPolls;
      forall k: nat | k < MaxPolls
        ensures NoFreshCsv(observe(k))
      {
        if k < last {
        } else {
          assert k == last;
        }
      }
      outcome := Failed(CsvNotDownloaded);
    } else {
      assert file.value in observe(last).files && observe(last).now - file.value.mtime < FreshAge;
      assert forall f :: f in observe(last).files && IsCsv(f) ==> f.mtime <= file.value.mtime;
      outcome := Downloaded(file.value);
    }
  }

  /** `export_reports_data` after the page has loaded. */
  method ExportReport(byIcon: Option<Element>, nearRecords: Option<Element>, page: Page,
                      observe: nat -> Snapshot) returns (run: ExportRun)
    requires byIcon.Some? ==> byIcon.value.displayed
    requires nearRecords.Some? ==> nearRecords.value.displayed
    ensures run.outcome == Failed(ExportButtonNotFound) <==> ExportButton(byIcon, nearRecords, page).None?
    ensures run.outcome == Failed(ExportButtonNotFound) ==> run.keys == []
    ensures run.outcome != Failed(ExportButtonNotFound) ==> run.keys == MenuKeys
    ensures run.outcome.Downloaded? ==>
              IsCsv(run.outcome.file)
              && exists k: nat :: k < MaxPolls && run.outcome.file in observe(k).files
                                  && observe(k).now - run.outcome.file.mtime < FreshAge
                                  && forall f :: f in observe(k).files && IsCsv(f) ==> f.mtime <= run.outcome.file.mtime
    ensures run.outcome == Failed(CsvNotDownloaded) ==>
              forall k: nat :: k < MaxPolls ==> NoFreshCsv(observe(k))
  {
    var button := ExportButton(byIcon, nearRecords, page);
    if button.None? {
      return ExportRun([], Failed(ExportButtonNotFound));
    }
    var outcome := AwaitExport(observe);
    run := ExportRun(MenuKeys, outcome);
  }
}
