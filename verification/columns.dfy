/** Column-header normalisation and field lookup of the theft-prevention dashboard
    (`_normalize_column_names`, `_find_column`, `_identify_columns`). */
module ColumnMapping {
  import opened Options
  import opened Text

  /** The canonical field names a header can be renamed to. */
  datatype Canonical = Status | Location | CheckoutDate | DueDate | AssignedTo | AssetName | Category {

    /** The header the column is renamed to. */
    function Name(): string {
      match this
      case Status => "status"
      case Location => "location"
      case CheckoutDate => "checkout_date"
      case DueDate => "due_date"
      case AssignedTo => "assigned_to"
      case AssetName => "asset_name"
      case Category => "category"
    }

    /** Position in the order in which the renaming tests the categories. */
    function Rank(): nat {
      match this
      case Status => 0
      case Location => 1
      case CheckoutDate => 2
      case DueDate => 3
      case AssignedTo => 4
      case AssetName => 5
      case Category => 6
    }

    /** The lower-case words whose presence in a lower-cased header selects this category. */
    function Keywords(): seq<string> {
      match this
      case Status => ["status"]
      case Location => ["building", "location", "site", "facility"]
      case CheckoutDate => ["checkout", "check-out", "checked out", "out date"]
      case DueDate => ["due", "return", "expected return"]
      case AssignedTo => ["user", "assignee", "assigned to", "checked out to"]
      case AssetName => ["asset", "equipment", "item", "tool"]
      case Category => ["category", "type", "class"]
    }

    /** The names `_identify_columns` looks up, most preferred first. */
    function Preferences(): seq<string> {
      match this
      case Status => ["status", "state", "condition"]
      case Location => ["location", "building", "site", "facility"]
      case CheckoutDate => ["checkout_date", "checkout", "checked out"]
      case DueDate => ["due_date", "due", "return date"]
      case AssignedTo => ["assigned_to", "user", "assignee"]
      case AssetName => ["asset_name", "asset", "equipment", "item"]
      case Category => ["category", "type", "class"]
    }
  }

  /** The lower-cased header mentions one of the category's words. */
  predicate Matches(lowered: string, c: Canonical) {
    ContainsAny(lowered, c.Keywords())
  }

  /** The category a header is mapped to, given the categories already assigned: the first in
      priority order whose words the header mentions and which is still free. */
  function Pick(lowered: string, taken: set<Canonical>): (r: Option<Canonical>)
    ensures r.Some? ==> Matches(lowered, r.value) && r.value !in taken
  {
    if Matches(lowered, Status) && Status !in taken then Some(Status)
    else if Matches(lowered, Location) && Location !in taken then Some(Location)
    else if Matches(lowered, CheckoutDate) && CheckoutDate !in taken then Some(CheckoutDate)
    else if Matches(lowered, DueDate) && DueDate !in taken then Some(DueDate)
    else if Matches(lowered, AssignedTo) && AssignedTo !in taken then Some(AssignedTo)
    else if Matches(lowered, AssetName) && AssetName !in taken then Some(AssetName)
    else if Matches(lowered, Category) && Category !in taken then Some(Category)
    else None
  }

  /** A header is given a category only when every higher-priority category it mentions is
      already taken, and is given none only when every category it mentions is taken. */
  lemma PickPriority(lowered: string, taken: set<Canonical>, k: Canonical)
    ensures var r := Pick(lowered, taken);
            r.Some? && k.Rank() < r.value.Rank() && Matches(lowered, k) ==> k in taken
    ensures Pick(lowered, taken).None? && Matches(lowered, k) ==> k in taken
  {
  }

  /** The renaming dictionary: original header to canonical category. */
  type ColumnMap = map<string, Canonical>

  /** No category is the target of two headers. */
  predicate Injective(m: ColumnMap) {
    forall a, b :: a in m && b in m && a != b ==> m[a] != m[b]
  }

  /** One iteration of the loop over the headers; a header seen twice overwrites its entry. */
  function Step(m: ColumnMap, col: string): ColumnMap {
    match Pick(Lower(col), m.Values)
    case Some(c) => m[col := c]
    case None => m
  }

  /** The dictionary built by the loop over `cols`. */
  function MappingOf(cols: seq<string>): (m: ColumnMap)
    ensures forall k :: k in m ==> k in cols && Matches(Lower(k), m[k])
    ensures Injective(m)
  {
    if |cols| == 0 then map[]
    else
      var prev := MappingOf(cols[..|cols| - 1]);
      assert forall k :: k in cols[..|cols| - 1] ==> k in cols;
      Step(prev, cols[|cols| - 1])
  }

  /** `df.rename(columns=mapping)`: mapped headers take their canonical name, others are kept. */
  function Rename(cols: seq<string>, m: ColumnMap): seq<string> {
    seq(|cols|, i requires 0 <= i < |cols| => if cols[i] in m then m[cols[i]].Name() else cols[i])
  }

  /** The headers after normalisation. */
  function Normalize(cols: seq<string>): (r: seq<string>)
    ensures |r| == |cols|
    ensures forall i :: 0 <= i < |cols| && cols[i] !in MappingOf(cols) ==> r[i] == cols[i]
    ensures forall i :: 0 <= i < |cols| && cols[i] in MappingOf(cols) ==>
              Matches(Lower(cols[i]), MappingOf(cols)[cols[i]]) && r[i] == MappingOf(cols)[cols[i]].Name()
    ensures forall i, j :: 0 <= i < |cols| && 0 <= j < |cols| && cols[i] in MappingOf(cols) && cols[j] in MappingOf(cols)
              && r[i] == r[j]
              ==> cols[i] == cols[j]
  {
    Rename(cols, MappingOf(cols))
  }

  predicate NoDuplicates(cols: seq<string>) {
    forall i, j :: 0 <= i < j < |cols| ==> cols[i] != cols[j]
  }

  /** With distinct headers, an entry made for a prefix of the headers survives to the end. */
  lemma {:induction false} PrefixStable(cols: seq<string>, n: nat, k: string)
    requires NoDuplicates(cols) && n <= |cols|
    requires k in MappingOf(cols[..n])
    ensures k in MappingOf(cols) && MappingOf(cols)[k] == MappingOf(cols[..n])[k]
    decreases |cols|
  {
    if n == |cols| {
      assert cols[..n] == cols;
    } else {
      var init := cols[..|cols| - 1];
      var last := cols[|cols| - 1];
      assert init[..n] == cols[..n];
      assert NoDuplicates(init);
      PrefixStable(init, n, k);
      var prev := MappingOf(init);
      assert k in init;
      var i :| 0 <= i < |init| && init[i] == k;
      assert k != last;
      StepKeeps(prev, last, k);
    }
  }

  /** A step for one header leaves the entries of the other headers alone. */
  lemma StepKeeps(m: ColumnMap, col: string, k: string)
    requires k != col
    ensures k in Step(m, col) <==> k in m
    ensures k in m ==> Step(m, col)[k] == m[k]
  {
  }

  /** The entry the loop makes at position `i` is the pick for that header given the
      categories assigned to the earlier headers. */
  lemma EntryAt(cols: seq<string>, i: nat)
    requires NoDuplicates(cols) && i < |cols|
    ensures var p := Pick(Lower(cols[i]), MappingOf(cols[..i]).Values);
            (p.Some? ==> cols[i] in MappingOf(cols) && MappingOf(cols)[cols[i]] == p.value)
            && (p.None? ==> cols[i] !in MappingOf(cols))
  {
    var p := Pick(Lower(cols[i]), MappingOf(cols[..i]).Values);
    StepAt(cols, i);
    if p.Some? {
      PrefixStable(cols, i + 1, cols[i]);
    } else {
      NotYetEntered(cols, i);
      assert !EnteredAt(cols, i);
      EnteredIfKey(cols, i);
    }
  }

  /** With distinct headers, a header that ends up in the dictionary was entered when the loop
      reached it. */
  lemma EnteredIfKey(cols: seq<string>, i: nat)
    requires NoDuplicates(cols) && i < |cols|
    ensures cols[i] in MappingOf(cols) ==> EnteredAt(cols, i)
  {
    if cols[i] in MappingOf(cols) {
      var j := FirstEntry(cols, cols[i]);
      assert j == i;
    }
  }

  /** The mapping of a prefix one longer is one step further. */
  lemma StepAt(cols: seq<string>, i: nat)
    requires i < |cols|
    ensures MappingOf(cols[..i + 1]) == Step(MappingOf(cols[..i]), cols[i])
  {
    TakeOfTake(cols, i + 1, i);
  }

  /** With distinct headers, a header has no entry before the loop reaches it. */
  lemma NotYetEntered(cols: seq<string>, i: nat)
    requires NoDuplicates(cols) && i < |cols|
    ensures cols[i] !in MappingOf(cols[..i])
  {
    forall j | 0 <= j < i
      ensures cols[..i][j] != cols[i]
    {
    }
  }

  lemma TakeOfTake(s: seq<string>, n: nat, m: nat)
    requires m <= n <= |s|
    ensures s[..n][..m] == s[..m]
  {
  }

  /** The loop made an entry for the header at position `j` when it reached it. */
  predicate EnteredAt(cols: seq<string>, j: nat)
    requires j < |cols|
  {
    cols[j] in MappingOf(cols[..j + 1])
  }

  /** Every key of the dictionary was entered at some position of the loop. */
  lemma {:induction false} FirstEntry(cols: seq<string>, k: string) returns (j: nat)
    requires k in MappingOf(cols)
    ensures j < |cols| && cols[j] == k && EnteredAt(cols, j)
    decreases |cols|
  {
    var n := |cols| - 1;
    if k == cols[n] {
      assert cols[..n + 1] == cols;
      j := n;
    } else {
      var init := cols[..n];
      StepKeeps(MappingOf(init), cols[n], k);
      j := FirstEntry(init, k);
      TakeOfTake(cols, n, j + 1);
      assert cols[j] == init[j];
    }
  }

  /** Distinct categories have distinct priorities. */
  lemma RankInjective(a: Canonical, b: Canonical)
    requires a != b
    ensures a.Rank() != b.Rank()
  {
  }

  /** With distinct headers, the header renamed to a category is the first one that mentions
      it: every earlier header mentioning that category was given one of higher priority. */
  lemma FirstMatchWins(cols: seq<string>, j: nat, i: nat)
    requires NoDuplicates(cols) && j < i < |cols|
    requires cols[i] in MappingOf(cols)
    requires Matches(Lower(cols[j]), MappingOf(cols)[cols[i]])
    ensures cols[j] in MappingOf(cols)
    ensures MappingOf(cols)[cols[j]].Rank() < MappingOf(cols)[cols[i]].Rank()
  {
    var m := MappingOf(cols);
    var c := m[cols[i]];
    var before := MappingOf(cols[..j]);
    forall k | k in before
      ensures before[k] != c
    {
      PrefixStable(cols, j, k);
      assert k in cols[..j];
      var x :| 0 <= x < j && cols[..j][x] == k;
      assert k != cols[i];
    }
    var p := Pick(Lower(cols[j]), before.Values);
    PickPriority(Lower(cols[j]), before.Values, c);
    assert p.Some?;
    EntryAt(cols, j);
    assert p.value != c;
    RankInjective(p.value, c);
  }

  /** With distinct headers, a header that keeps its name mentions only categories that an
      earlier header already took. */
  lemma UnmappedKeepsName(cols: seq<string>, i: nat, c: Canonical)
    requires NoDuplicates(cols) && i < |cols|
    requires cols[i] !in MappingOf(cols)
    requires Matches(Lower(cols[i]), c)
    ensures exists j :: 0 <= j < i && cols[j] in MappingOf(cols) && MappingOf(cols)[cols[j]] == c
  {
    var j := EarlierTaker(cols, i, c);
  }

  /** The earlier header that took the category. */
  lemma EarlierTaker(cols: seq<string>, i: nat, c: Canonical) returns (j: nat)
    requires NoDuplicates(cols) && i < |cols|
    requires cols[i] !in MappingOf(cols)
    requires Matches(Lower(cols[i]), c)
    ensures j < i && cols[j] in MappingOf(cols) && MappingOf(cols)[cols[j]] == c
  {
    var k := TakenBefore(cols, i, c);
    assert k in cols[..i];
    j :| 0 <= j < i && cols[..i][j] == k;
    assert cols[j] == k;
    PrefixStable(cols, i, k);
  }

  /** When the loop reaches a header it leaves unmapped, every category it mentions is taken. */
  lemma TakenBefore(cols: seq<string>, i: nat, c: Canonical) returns (k: string)
    requires NoDuplicates(cols) && i < |cols|
    requires cols[i] !in MappingOf(cols)
    requires Matches(Lower(cols[i]), c)
    ensures k in MappingOf(cols[..i]) && MappingOf(cols[..i])[k] == c
  {
    var before := MappingOf(cols[..i]);
    EntryAt(cols, i);
    PickPriority(Lower(cols[i]), before.Values, c);
    k :| k in before && before[k] == c;
  }

  /** `_find_column`: the earliest preferred name present among the headers, if any. */
  function FindColumn(prefs: seq<string>, cols: seq<string>): (r: Option<string>)
    ensures r.None? <==> forall p :: p in prefs ==> p !in cols
    ensures r.Some? ==> exists i :: 0 <= i < |prefs| && prefs[i] == r.value && r.value in cols
                          && forall j :: 0 <= j < i ==> prefs[j] !in cols
  {
    if |prefs| == 0 then None
    else if prefs[0] in cols then Some(prefs[0])
    else
      var rest := FindColumn(prefs[1..], cols);
      assert forall p :: p in prefs ==> p == prefs[0] || p in prefs[1..];
      if rest.Some? then
        var i :| 0 <= i < |prefs[1..]| && prefs[1..][i] == rest.value && rest.value in cols
                 && forall j :: 0 <= j < i ==> prefs[1..][j] !in cols;
        assert prefs[i + 1] == rest.value;
        rest
      else rest
  }

  /** The headers `_identify_columns` settles on for each field. */
  datatype Fields = Fields(status: Option<string>, location: Option<string>, checkout: Option<string>,
                           due: Option<string>, assignee: Option<string>, asset: Option<string>,
                           category: Option<string>)
  {
    function Get(c: Canonical): Option<string> {
      match c
      case Status => status
      case Location => location
      case CheckoutDate => checkout
      case DueDate => due
      case AssignedTo => assignee
      case AssetName => asset
      case Category => category
    }
  }

  /** `_identify_columns` over the (normalised) headers. */
  function Identify(cols: seq<string>): (f: Fields)
    ensures forall c: Canonical :: f.Get(c) == FindColumn(c.Preferences(), cols)
  {
    Fields(FindColumn(Status.Preferences(), cols), FindColumn(Location.Preferences(), cols),
           FindColumn(CheckoutDate.Preferences(), cols), FindColumn(DueDate.Preferences(), cols),
           FindColumn(AssignedTo.Preferences(), cols), FindColumn(AssetName.Preferences(), cols),
           FindColumn(Category.Preferences(), cols))
  }

  /** Every category the normalisation assigned is then found under its canonical name. */
  lemma IdentifyFindsRenamed(cols: seq<string>, c: Canonical)
    requires c in MappingOf(cols).Values
    ensures Identify(Normalize(cols)).Get(c) == Some(c.Name())
  {
    var m := MappingOf(cols);
    var k :| k in m && m[k] == c;
    var i :| 0 <= i < |cols| && cols[i] == k;
    var r := Normalize(cols);
    assert r[i] == c.Name();
    assert c.Preferences()[0] == c.Name();
  }

  /** "Checked Out To" names the checkout date, not the assignee. */
  lemma CheckedOutToIsCheckoutDate()
    ensures Normalize(["Checked Out To"]) == ["checkout_date"]
  {
    var cols := ["Checked Out To"];
    CheckedOutToStep();
    MappingStep(cols);
    assert cols[..0] == [];
  }

  lemma CheckedOutToStep()
    ensures Step(map[], "Checked Out To") == map["Checked Out To" := CheckoutDate]
  {
    CheckedOutToLowered();
    CheckedOutToPick();
    StepBy(map[], "Checked Out To", "checked out to", CheckoutDate);
  }

  lemma StepBy(m: ColumnMap, col: string, lowered: string, c: Canonical)
    requires Lower(col) == lowered && Pick(lowered, m.Values) == Some(c)
    ensures Step(m, col) == m[col := c]
  {
  }

  lemma MappingStep(cols: seq<string>)
    requires |cols| > 0
    ensures MappingOf(cols) == Step(MappingOf(cols[..|cols| - 1]), cols[|cols| - 1])
  {
  }

  lemma CheckedOutToLowered()
    ensures Lower("Checked Out To") == "checked out to"
  {
    LowerPointwise("Checked Out To", "checked out to");
  }

  /** Headers of an export that carries both a status and a site-status column. */
  const StatusHeader := "Status"
  const SiteStatusHeader := "Site " + StatusHeader

  lemma StatusLowered()
    ensures Lower(StatusHeader) == "status"
  {
    LowerPointwise(StatusHeader, "status");
  }

  lemma SiteStatusLowered()
    ensures Lower(SiteStatusHeader) == "site status"
  {
    LowerPointwise(SiteStatusHeader, "site status");
  }

  lemma StatusIsLower()
    ensures Lower("status") == "status"
  {
    LowerPointwise("status", "status");
  }

  lemma CheckedOutToPick()
    ensures Pick("checked out to", {}) == Some(CheckoutDate)
  {
    CheckedOutToNotStatus();
    CheckedOutToNotLocation();
    CheckedOutToIsCheckout();
  }

  lemma CheckedOutToNotStatus()
    ensures !Matches("checked out to", Status)
  {
    AbsentLetter("checked out to", "status", 0);
  }

  lemma CheckedOutToNotLocation()
    ensures !Matches("checked out to", Location)
  {
    var l := "checked out to";
    AbsentLetter(l, "building", 0);
    AbsentLetter(l, "location", 0);
    AbsentLetter(l, "site", 0);
    AbsentLetter(l, "facility", 0);
  }

  lemma CheckedOutToIsCheckout()
    ensures Matches("checked out to", CheckoutDate)
  {
    assert OccursAt("checked out to", CheckoutDate.Keywords()[2], 0);
  }

  /** A second status header falls through to the next category it mentions. */
  lemma SecondStatusFallsThrough()
    ensures Normalize([StatusHeader, SiteStatusHeader]) == ["status", "location"]
  {
    StatusThenSiteStatus();
    var r := Normalize([StatusHeader, SiteStatusHeader]);
    assert r[0] == Status.Name() && r[1] == Location.Name();
  }

  lemma StatusThenSiteStatus()
    ensures MappingOf([StatusHeader, SiteStatusHeader])
            == map[StatusHeader := Status, SiteStatusHeader := Location]
  {
    var cols := [StatusHeader, SiteStatusHeader];
    FirstStatusStep();
    SiteStatusStep();
    assert cols[..1] == [StatusHeader];
    MappingStep(cols);
  }

  /** With the status taken, "Site Status" goes on to the location. */
  lemma SiteStatusStep()
    ensures Step(map[StatusHeader := Status], SiteStatusHeader)
            == map[StatusHeader := Status, SiteStatusHeader := Location]
  {
    SiteStatusLowered();
    SiteStatusPick();
    var m1 := map[StatusHeader := Status];
    assert StatusHeader in m1 && m1[StatusHeader] == Status;
    assert m1.Values == {Status};
    StepBy(m1, SiteStatusHeader, "site status", Location);
  }

  /** The first header "Status" takes the status category. */
  lemma FirstStatusStep()
    ensures MappingOf([StatusHeader]) == map[StatusHeader := Status]
  {
    var cols := [StatusHeader];
    StatusLowered();
    SiteStatusPick();
    assert cols[..0] == [];
    StepBy(map[], StatusHeader, "status", Status);
    MappingStep(cols);
  }

  lemma SiteStatusPick()
    ensures Pick("status", {}) == Some(Status)
    ensures Pick("site status", {Status}) == Some(Location)
  {
    assert OccursAt("status", Status.Keywords()[0], 0);
    assert OccursAt("site status", Status.Keywords()[0], 5);
    assert OccursAt("site status", Location.Keywords()[2], 0);
  }

  /** A header spelled like a canonical name but not renamed keeps its spelling, so it ends up
      sharing that name with the header renamed to it: the renaming does not keep the headers
      distinct. */
  lemma DuplicateStatusCollides()
    ensures Normalize([StatusHeader, "status"]) == ["status", "status"]
  {
    var cols := [StatusHeader, "status"];
    FirstStatusStep();
    assert cols[..1] == [StatusHeader];
    StatusIsLower();
    StatusOnlyStatus();
    var m1 := map[StatusHeader := Status];
    assert m1.Values == {Status};
    assert Step(m1, "status") == m1;
    MappingStep(cols);
    var r := Normalize(cols);
    assert "status" !in MappingOf(cols);
    assert r[0] == Status.Name() && r[1] == "status";
  }

  /** "status" mentions no category's word except its own, so once Status is taken it is
      given none. */
  lemma StatusOnlyStatus()
    ensures Pick("status", {Status}) == None
  {
    StatusNotLocation();
    StatusNotCheckoutDate();
    StatusNotDueDate();
    StatusNotAssignedTo();
    StatusNotAssetName();
    StatusNotCategory();
  }

  lemma StatusNotLocation()
    ensures !Matches("status", Location)
  {
    var s := "status";
    AbsentLetter(s, "building", 0);
    AbsentLetter(s, "location", 0);
    AbsentLetter(s, "site", 1);
    AbsentLetter(s, "facility", 0);
  }

  lemma StatusNotCheckoutDate()
    ensures !Matches("status", CheckoutDate)
  {
    var s := "status";
    AbsentLetter(s, "checkout", 0);
    AbsentLetter(s, "check-out", 0);
    AbsentLetter(s, "checked out", 0);
    AbsentLetter(s, "out date", 0);
  }

  lemma StatusNotDueDate()
    ensures !Matches("status", DueDate)
  {
    var s := "status";
    AbsentLetter(s, "due", 0);
    AbsentLetter(s, "return", 0);
    AbsentLetter(s, "expected return", 0);
  }

  lemma StatusNotAssignedTo()
    ensures !Matches("status", AssignedTo)
  {
    var s := "status";
    AbsentLetter(s, "user", 2);
    AbsentLetter(s, "assignee", 4);
    AbsentLetter(s, "assigned to", 4);
    AbsentLetter(s, "checked out to", 0);
  }

  lemma StatusNotAssetName()
    ensures !Matches("status", AssetName)
  {
    var s := "status";
    AbsentLetter(s, "asset", 3);
    AbsentLetter(s, "equipment", 0);
    AbsentLetter(s, "item", 0);
    AbsentLetter(s, "tool", 1);
  }

  lemma StatusNotCategory()
    ensures !Matches("status", Category)
  {
    var s := "status";
    AbsentLetter(s, "category", 0);
    AbsentLetter(s, "type", 1);
    AbsentLetter(s, "class", 0);
  }
}
