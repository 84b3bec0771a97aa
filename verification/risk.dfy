/** Risk classification of the theft-prevention dashboard: which assets are missing, overdue
    or long-term checkouts, the counts behind the metric cards, the per-location counts behind
    the heatmap, and the alert table with its severities and ordering. */
module RiskModel {
  import opened Options
  import opened Text
  import opened Seqs
  import ColumnMapping

  /** Timestamps are whole seconds; this many make a day. */
  const SecondsPerDay: int := 86400

  /** `(now - t).days`: whole days elapsed, rounded down as `timedelta.days` does. */
  function DaysSince(now: int, t: int): int {
    (now - t) / SecondsPerDay
  }

  /** One table row, projected onto the identified columns. `status` is the cell as `astype(str)`
      renders it; `None` stands for a null cell (or a date that failed to parse). */
  datatype Asset = Asset(status: string, location: Option<string>, due: Option<int>,
                         checkout: Option<int>, name: Option<string>, assignee: Option<string>)

  /** The normalised table: which fields `_identify_columns` found, and the rows. */
  datatype Sheet = Sheet(hasStatus: bool, hasLocation: bool, hasCheckout: bool, hasDue: bool,
                         hasAssignee: bool, hasAsset: bool, rows: seq<Asset>)

  /** The sheet whose field flags are the lookups of `_identify_columns`. */
  function SheetOf(fields: ColumnMapping.Fields, rows: seq<Asset>): (s: Sheet)
    ensures s.hasStatus <==> fields.Get(ColumnMapping.Status).Some?
    ensures s.hasDue <==> fields.Get(ColumnMapping.DueDate).Some?
    ensures s.hasCheckout <==> fields.Get(ColumnMapping.CheckoutDate).Some?
    ensures s.hasLocation <==> fields.Get(ColumnMapping.Location).Some?
    ensures s.hasAssignee <==> fields.Get(ColumnMapping.AssignedTo).Some?
    ensures s.hasAsset <==> fields.Get(ColumnMapping.AssetName).Some?
    ensures s.rows == rows
  {
    Sheet(fields.status.Some?, fields.location.Some?, fields.checkout.Some?, fields.due.Some?,
          fields.assignee.Some?, fields.asset.Some?, rows)
  }

  /** The words that mark a status as missing in the metrics and the missing list. */
  const MissingWords: seq<string> := ["missing", "lost", "stolen", "unaccounted"]

  /** The shorter list the location heatmap uses. */
  const HeatmapMissingWords: seq<string> := ["missing", "lost", "stolen"]

  /** The row-level tests the dashboard filters and counts by. */
  datatype Test =
    | Missing                                  // status mentions a missing word
    | HeatMissingIn(locations: set<string>)    // at one of `locations`, status mentions a heatmap word
    | Overdue(now: int)                        // due date strictly before now
    | OverdueAt(now: int, location: string)    // overdue and at `location`
    | LongTerm(now: int, days: int)            // checked out strictly more than `days` days
    | At(location: string)                     // at `location`

  predicate Holds(t: Test, a: Asset) {
    match t
    case Missing => ContainsAny(Lower(a.status), MissingWords)
    case HeatMissingIn(locs) =>
      a.location.Some? && a.location.value in locs && ContainsAny(Lower(a.status), HeatmapMissingWords)
    case Overdue(now) => a.due.Some? && a.due.value < now
    case OverdueAt(now, loc) => a.location == Some(loc) && a.due.Some? && a.due.value < now
    case LongTerm(now, days) => a.checkout.Some? && DaysSince(now, a.checkout.value) > days
    case At(loc) => a.location == Some(loc)
  }

  /** Boolean indexing `df[mask]`: the rows passing `t`, in table order. */
  function Select(rows: seq<Asset>, t: Test): (r: seq<Asset>)
    ensures forall a :: a in r <==> a in rows && Holds(t, a)
    ensures |r| <= |rows|
  {
    if |rows| == 0 then []
    else
      var rest := Select(rows[1..], t);
      assert forall a :: a in rows <==> a == rows[0] || a in rows[1..];
      if Holds(t, rows[0]) then [rows[0]] + rest else rest
  }

  /** Selection keeps table order: selecting from two parts of a table selects from each part. */
  lemma {:induction false} SelectAppend(front: seq<Asset>, back: seq<Asset>, t: Test)
    ensures Select(front + back, t) == Select(front, t) + Select(back, t)
  {
    if front == [] {
      assert front + back == back;
    } else {
      var whole := front + back;
      assert whole[0] == front[0];
      assert whole[1..] == front[1..] + back;
      SelectFirst(whole, t);
      SelectFirst(front, t);
      SelectAppend(front[1..], back, t);
      var head := if Holds(t, front[0]) then [front[0]] else [];
      calc {
        Select(whole, t);
        head + Select(front[1..] + back, t);
        head + (Select(front[1..], t) + Select(back, t));
        (head + Select(front[1..], t)) + Select(back, t);
        Select(front, t) + Select(back, t);
      }
    }
  }

  lemma SelectFirst(rows: seq<Asset>, t: Test)
    requires rows != []
    ensures Select(rows, t) == (if Holds(t, rows[0]) then [rows[0]] else []) + Select(rows[1..], t)
  {
  }

  /** Each row passing `t` is kept as often as it occurs in the table, and no other row is kept. */
  lemma {:induction false} SelectOccurrences(rows: seq<Asset>, t: Test)
    ensures forall a :: multiset(Select(rows, t))[a] == if Holds(t, a) then multiset(rows)[a] else 0
  {
    if rows != [] {
      SelectOccurrences(rows[1..], t);
      assert rows == [rows[0]] + rows[1..];
      var head := if Holds(t, rows[0]) then [rows[0]] else [];
      assert Select(rows, t) == head + Select(rows[1..], t);
    }
  }

  /** `mask.sum()`: how many rows pass `t`. */
  function Count(rows: seq<Asset>, t: Test): (n: nat)
    ensures n <= |rows|
  {
    if |rows| == 0 then 0
    else (if Holds(t, rows[0]) then 1 else 0) + Count(rows[1..], t)
  }

  /** Counting and selecting agree. */
  lemma {:induction false} SelectCount(rows: seq<Asset>, t: Test)
    ensures |Select(rows, t)| == Count(rows, t)
  {
    if |rows| > 0 {
      SelectCount(rows[1..], t);
    }
  }

  /** An asset together with the day count the dashboard attaches to it. */
  datatype Dated = Dated(asset: Asset, days: int)

  /** Sort key for `sort_values(..., ascending=False)` on the day count. */
  function DaysDescending(d: Dated): int {
    -d.days
  }

  /** `get_missing_assets`. */
  function MissingAssets(sheet: Sheet): (r: seq<Asset>)
    ensures !sheet.hasStatus ==> r == []
    ensures sheet.hasStatus ==> forall a :: a in r <==> a in sheet.rows && Holds(Missing, a)
    ensures sheet.hasStatus ==>
              forall a :: multiset(r)[a] == if Holds(Missing, a) then multiset(sheet.rows)[a] else 0
  {
    if !sheet.hasStatus then []
    else
      SelectOccurrences(sheet.rows, Missing);
      Select(sheet.rows, Missing)
  }

  function AssetOf(d: Dated): Asset {
    d.asset
  }

  /** The rows a dated list is about, in its order. */
  function AssetsOf(ds: seq<Dated>): seq<Asset> {
    Map(ds, AssetOf)
  }

  /** Each selected row with `days_overdue` attached. */
  function WithDaysOverdue(s: seq<Asset>, now: int): (r: seq<Dated>)
    ensures |r| == |s|
    ensures forall i :: 0 <= i < |s| ==> r[i].asset == s[i]
  {
    seq(|s|, i requires 0 <= i < |s| => Dated(s[i], DaysSince(now, s[i].due.GetOr(now))))
  }

  /** Each selected row with `days_checked_out` attached. */
  function WithDaysOut(s: seq<Asset>, now: int): (r: seq<Dated>)
    ensures |r| == |s|
    ensures forall i :: 0 <= i < |s| ==> r[i].asset == s[i]
    ensures forall i :: 0 <= i < |s| && s[i].checkout.Some? ==> r[i].days == DaysSince(now, s[i].checkout.value)
  {
    seq(|s|, i requires 0 <= i < |s| => Dated(s[i], DaysSince(now, s[i].checkout.GetOr(now))))
  }

  /** `get_overdue_assets`: rows whose due date is before `now`, most overdue first. */
  function OverdueAssets(sheet: Sheet, now: int): (r: seq<Dated>)
    ensures !sheet.hasDue ==> r == []
    ensures sheet.hasDue ==> |r| == Count(sheet.rows, Overdue(now))
    ensures forall d :: d in r ==> d.asset in sheet.rows && d.asset.due.Some? && d.asset.due.value < now
                                   && d.days == DaysSince(now, d.asset.due.value)
    ensures sheet.hasDue ==> forall a :: a in sheet.rows && a.due.Some? && a.due.value < now ==>
                               exists d :: d in r && d.asset == a
    ensures forall i, j :: 0 <= i < j < |r| ==> r[i].days >= r[j].days
    ensures sheet.hasDue ==> forall a :: multiset(AssetsOf(r))[a] ==
                               if a.due.Some? && a.due.value < now then multiset(sheet.rows)[a] else 0
  {
    if !sheet.hasDue then []
    else
      SelectCount(sheet.rows, Overdue(now));
      OverdueSound(sheet.rows, now);
      OverdueComplete(sheet.rows, now);
      OverdueOccurrences(sheet.rows, now);
      SortBy(WithDaysOverdue(Select(sheet.rows, Overdue(now)), now), DaysDescending)
  }

  lemma OverdueSound(rows: seq<Asset>, now: int)
    ensures forall d :: d in SortBy(WithDaysOverdue(Select(rows, Overdue(now)), now), DaysDescending) ==>
              d.asset in rows && d.asset.due.Some? && d.asset.due.value < now
              && d.days == DaysSince(now, d.asset.due.value)
  {
    var picked := Select(rows, Overdue(now));
    var dated := WithDaysOverdue(picked, now);
    var r := SortBy(dated, DaysDescending);
    forall d | d in r
      ensures d.asset in rows && d.asset.due.Some? && d.asset.due.value < now
      ensures d.days == DaysSince(now, d.asset.due.value)
    {
      SameElements(r, dated, d);
      var i :| 0 <= i < |dated| && dated[i] == d;
      assert picked[i] in picked;
    }
  }

  /** Each overdue row appears as often as it occurs in the table. */
  lemma OverdueOccurrences(rows: seq<Asset>, now: int)
    ensures forall a :: multiset(AssetsOf(SortBy(WithDaysOverdue(Select(rows, Overdue(now)), now), DaysDescending)))[a]
                        == if a.due.Some? && a.due.value < now then multiset(rows)[a] else 0
  {
    var picked := Select(rows, Overdue(now));
    var dated := WithDaysOverdue(picked, now);
    var r := SortBy(dated, DaysDescending);
    assert AssetsOf(dated) == picked;
    MapPermutation(r, dated, AssetOf);
    SelectOccurrences(rows, Overdue(now));
  }

  lemma OverdueComplete(rows: seq<Asset>, now: int)
    ensures forall a :: a in rows && a.due.Some? && a.due.value < now ==>
              exists d :: d in SortBy(WithDaysOverdue(Select(rows, Overdue(now)), now), DaysDescending)
                          && d.asset == a
  {
    var picked := Select(rows, Overdue(now));
    var dated := WithDaysOverdue(picked, now);
    var r := SortBy(dated, DaysDescending);
    forall a | a in rows && a.due.Some? && a.due.value < now
      ensures exists d :: d in r && d.asset == a
    {
      var i :| 0 <= i < |picked| && picked[i] == a;
      SameElements(r, dated, dated[i]);
    }
  }

  /** `get_long_term_checkouts(days)`: rows checked out more than `days` days, longest first. */
  function LongTermCheckouts(sheet: Sheet, now: int, days: int): (r: seq<Dated>)
    ensures !sheet.hasCheckout ==> r == []
    ensures sheet.hasCheckout ==> |r| == Count(sheet.rows, LongTerm(now, days))
    ensures forall d :: d in r ==> d.asset in sheet.rows && d.asset.checkout.Some?
                                   && d.days == DaysSince(now, d.asset.checkout.value) && d.days > days
    ensures sheet.hasCheckout ==>
              forall a :: (a in sheet.rows && a.checkout.Some? && DaysSince(now, a.checkout.value) > days)
                ==> exists d :: d in r && d.asset == a
    ensures forall i, j :: 0 <= i < j < |r| ==> r[i].days >= r[j].days
    ensures sheet.hasCheckout ==>
              forall a :: multiset(AssetsOf(r))[a] ==
                if a.checkout.Some? && DaysSince(now, a.checkout.value) > days then multiset(sheet.rows)[a] else 0
  {
    if !sheet.hasCheckout then []
    else
      SelectCount(sheet.rows, LongTerm(now, days));
      LongTermSound(sheet.rows, now, days);
      LongTermComplete(sheet.rows, now, days);
      LongTermOccurrences(sheet.rows, now, days);
      SortBy(WithDaysOut(Select(sheet.rows, LongTerm(now, days)), now), DaysDescending)
  }

  lemma LongTermSound(rows: seq<Asset>, now: int, days: int)
    ensures forall d :: d in SortBy(WithDaysOut(Select(rows, LongTerm(now, days)), now), DaysDescending) ==>
              d.asset in rows && d.asset.checkout.Some?
              && d.days == DaysSince(now, d.asset.checkout.value) && d.days > days
  {
    var picked := Select(rows, LongTerm(now, days));
    var dated := WithDaysOut(picked, now);
    var r := SortBy(dated, DaysDescending);
    forall d | d in r
      ensures d.asset in rows && d.asset.checkout.Some?
      ensures d.days == DaysSince(now, d.asset.checkout.value) && d.days > days
    {
      SameElements(r, dated, d);
      var i :| 0 <= i < |dated| && dated[i] == d;
      var a := picked[i];
      assert a in picked;
      assert Holds(LongTerm(now, days), a);
      assert d.asset == a && d.days == DaysSince(now, a.checkout.value);
    }
  }

  /** Each long-term row appears as often as it occurs in the table. */
  lemma LongTermOccurrences(rows: seq<Asset>, now: int, days: int)
    ensures forall a :: multiset(AssetsOf(SortBy(WithDaysOut(Select(rows, LongTerm(now, days)), now), DaysDescending)))[a]
                        == if Holds(LongTerm(now, days), a) then multiset(rows)[a] else 0
  {
    SortedOutAssets(Select(rows, LongTerm(now, days)), now);
    SelectOccurrences(rows, LongTerm(now, days));
  }

  /** Sorting the dated rows by days out keeps the rows themselves, as a multiset. */
  lemma SortedOutAssets(s: seq<Asset>, now: int)
    ensures multiset(AssetsOf(SortBy(WithDaysOut(s, now), DaysDescending))) == multiset(s)
  {
    var dated := WithDaysOut(s, now);
    OutAssets(s, now);
    MapPermutation(SortBy(dated, DaysDescending), dated, AssetOf);
  }

  lemma OutAssets(s: seq<Asset>, now: int)
    ensures AssetsOf(WithDaysOut(s, now)) == s
  {
    assert forall i :: 0 <= i < |s| ==> AssetsOf(WithDaysOut(s, now))[i] == s[i];
  }

  lemma LongTermComplete(rows: seq<Asset>, now: int, days: int)
    ensures forall a :: (a in rows && a.checkout.Some? && DaysSince(now, a.checkout.value) > days) ==>
              exists d :: d in SortBy(WithDaysOut(Select(rows, LongTerm(now, days)), now), DaysDescending)
                          && d.asset == a
  {
    var picked := Select(rows, LongTerm(now, days));
    var dated := WithDaysOut(picked, now);
    var r := SortBy(dated, DaysDescending);
    forall a | a in rows && a.checkout.Some? && DaysSince(now, a.checkout.value) > days
      ensures exists d :: d in r && d.asset == a
    {
      var i :| 0 <= i < |picked| && picked[i] == a;
      SameElements(r, dated, dated[i]);
    }
  }

  /** The counts of `calculate_risk_metrics` (the percentages and score are left out). */
  datatype RiskCounts = RiskCounts(total: nat, overdue: nat, missing: nat, longTerm: nat)

  /** The threshold, in days, for a long-term checkout in the metrics and alerts. */
  const LongTermDays: int := 30

  function Metrics(sheet: Sheet, now: int): (m: RiskCounts)
    ensures m.total == |sheet.rows|
    ensures m.overdue <= m.total && m.missing <= m.total && m.longTerm <= m.total
  {
    RiskCounts(|sheet.rows|,
               if sheet.hasDue then Count(sheet.rows, Overdue(now)) else 0,
               if sheet.hasStatus then Count(sheet.rows, Missing) else 0,
               if sheet.hasCheckout then Count(sheet.rows, LongTerm(now, LongTermDays)) else 0)
  }

  /** The metric cards count exactly the rows the detail lists return. */
  lemma MetricsMatchLists(sheet: Sheet, now: int)
    ensures Metrics(sheet, now).missing == |MissingAssets(sheet)|
    ensures Metrics(sheet, now).overdue == |OverdueAssets(sheet, now)|
    ensures Metrics(sheet, now).longTerm == |LongTermCheckouts(sheet, now, LongTermDays)|
    ensures Metrics(sheet, now).missing <= Metrics(sheet, now).total
  {
    SelectCount(sheet.rows, Missing);
  }

  /** `df[location_col].dropna().unique()`: the non-null locations, each once, in order of
      first appearance. */
  function Locations(rows: seq<Asset>): (r: seq<string>)
    ensures forall i, j :: 0 <= i < j < |r| ==> r[i] != r[j]
    ensures forall l :: l in r <==> exists a :: a in rows && a.location == Some(l)
  {
    if |rows| == 0 then []
    else
      var init := rows[..|rows| - 1];
      var last := rows[|rows| - 1];
      var seen := Locations(init);
      assert forall a :: a in rows <==> a in init || a == last;
      if last.location.Some? && last.location.value !in seen then seen + [last.location.value] else seen
  }

  /** One bar of the location heatmap (the risk score itself is left out). */
  datatype HeatRow = HeatRow(location: string, total: nat, missing: nat, overdue: nat)

  /** One location's bar: the rows at `l`, those of them whose status names a heatmap word
      (when there is a status column), and those of them overdue (when there is a due column). */
  function Bar(sheet: Sheet, now: int, l: string): (b: HeatRow)
    ensures b.location == l
    ensures b.total == |Select(sheet.rows, At(l))|
    ensures b.missing == if sheet.hasStatus then |Select(sheet.rows, HeatMissingIn({l}))| else 0
    ensures b.overdue == if sheet.hasDue then |Select(sheet.rows, OverdueAt(now, l))| else 0
  {
    SelectCount(sheet.rows, At(l));
    SelectCount(sheet.rows, HeatMissingIn({l}));
    SelectCount(sheet.rows, OverdueAt(now, l));
    HeatRow(l, Count(sheet.rows, At(l)),
            if sheet.hasStatus then Count(sheet.rows, HeatMissingIn({l})) else 0,
            if sheet.hasDue then Count(sheet.rows, OverdueAt(now, l)) else 0)
  }

  /** The rows behind `render_location_risk_heatmap`; nothing without a location column. */
  function Heatmap(sheet: Sheet, now: int): (r: seq<HeatRow>)
    ensures !sheet.hasLocation ==> r == []
    ensures forall i, j :: 0 <= i < j < |r| ==> r[i].location != r[j].location
    ensures forall l :: (exists i :: 0 <= i < |r| && r[i].location == l) <==>
                          sheet.hasLocation && exists a :: a in sheet.rows && a.location == Some(l)
    ensures forall i :: 0 <= i < |r| ==> r[i].total == |Select(sheet.rows, At(r[i].location))|
    ensures forall i :: 0 <= i < |r| ==>
              r[i].missing == if sheet.hasStatus then |Select(sheet.rows, HeatMissingIn({r[i].location}))| else 0
    ensures forall i :: 0 <= i < |r| ==>
              r[i].overdue == if sheet.hasDue then |Select(sheet.rows, OverdueAt(now, r[i].location))| else 0
  {
    if !sheet.hasLocation then []
    else
      var locs := Locations(sheet.rows);
      var r := seq(|locs|, i requires 0 <= i < |locs| => Bar(sheet, now, locs[i]));
      assert forall i :: 0 <= i < |r| ==> r[i] == Bar(sheet, now, locs[i]);
      assert forall l :: l in locs ==> exists i :: 0 <= i < |locs| && locs[i] == l;
      r
  }

  /** Every bar counts at least one row, and its missing and overdue counts are among them; so
      the risk score's division by the total is always defined. */
  lemma HeatRowsBounded(sheet: Sheet, now: int)
    ensures forall h :: h in Heatmap(sheet, now) ==>
              0 < h.total && h.missing <= h.total && h.overdue <= h.total
  {
    var r := Heatmap(sheet, now);
    forall h | h in r
      ensures 0 < h.total && h.missing <= h.total && h.overdue <= h.total
    {
      var i :| 0 <= i < |r| && r[i] == h;
      assert exists j :: 0 <= j < |r| && r[j].location == h.location;
      BarBounded(sheet, now, h.location);
    }
  }

  /** The bar of a location some row is at. */
  lemma BarBounded(sheet: Sheet, now: int, l: string)
    requires exists a :: a in sheet.rows && a.location == Some(l)
    ensures 0 < |Select(sheet.rows, At(l))|
    ensures |Select(sheet.rows, HeatMissingIn({l}))| <= |Select(sheet.rows, At(l))|
    ensures |Select(sheet.rows, OverdueAt(now, l))| <= |Select(sheet.rows, At(l))|
  {
    var a :| a in sheet.rows && a.location == Some(l);
    SelectCount(sheet.rows, At(l));
    SelectCount(sheet.rows, HeatMissingIn({l}));
    SelectCount(sheet.rows, OverdueAt(now, l));
    CountPositive(sheet.rows, At(l), a);
    CountMonotone(sheet.rows, HeatMissingIn({l}), At(l));
    CountMonotone(sheet.rows, OverdueAt(now, l), At(l));
  }

  /** A row that passes the test is counted. */
  lemma {:induction false} CountPositive(rows: seq<Asset>, t: Test, a: Asset)
    requires a in rows && Holds(t, a)
    ensures Count(rows, t) > 0
  {
    if rows[0] != a {
      assert a in rows[1..];
      CountPositive(rows[1..], t, a);
    }
  }

  /** A test that implies another counts no more rows. */
  lemma {:induction false} CountMonotone(rows: seq<Asset>, t: Test, u: Test)
    requires forall a :: Holds(t, a) ==> Holds(u, a)
    ensures Count(rows, t) <= Count(rows, u)
  {
    if rows != [] {
      CountMonotone(rows[1..], t, u);
    }
  }

  function SumMissing(rows: seq<HeatRow>): nat {
    if |rows| == 0 then 0 else rows[0].missing + SumMissing(rows[1..])
  }

  /** The per-location missing counts never add up to more than the global missing count:
      they use fewer words and skip rows without a location. */
  lemma HeatmapMissingBounded(sheet: Sheet, now: int)
    ensures SumMissing(Heatmap(sheet, now)) <= Metrics(sheet, now).missing
  {
    var h := Heatmap(sheet, now);
    if sheet.hasLocation {
      var locs := Locations(sheet.rows);
      if sheet.hasStatus {
        SumOverLocations(sheet.rows, locs, h);
        HeatMissingIsMissing(sheet.rows, set l | l in locs);
      } else {
        NoStatusNoMissing(h);
      }
    }
  }

  lemma {:induction false} NoStatusNoMissing(h: seq<HeatRow>)
    requires forall i :: 0 <= i < |h| ==> h[i].missing == 0
    ensures SumMissing(h) == 0
  {
    if |h| > 0 {
      NoStatusNoMissing(h[1..]);
    }
  }

  /** Summing the single-location counts over distinct locations counts the rows at any of them. */
  lemma {:induction false} SumOverLocations(rows: seq<Asset>, locs: seq<string>, h: seq<HeatRow>)
    requires |h| == |locs|
    requires forall i, j :: 0 <= i < j < |locs| ==> locs[i] != locs[j]
    requires forall i :: 0 <= i < |h| ==> h[i].missing == Count(rows, HeatMissingIn({locs[i]}))
    ensures SumMissing(h) == Count(rows, HeatMissingIn(set l | l in locs))
  {
    if |locs| == 0 {
      assert (set l | l in locs) == {};
      EmptyLocationsCountNothing(rows);
    } else {
      SumOverLocations(rows, locs[1..], h[1..]);
      var rest := set l | l in locs[1..];
      assert (set l | l in locs) == rest + {locs[0]};
      assert locs[0] !in rest;
      CountSplit(rows, rest, locs[0]);
    }
  }

  lemma {:induction false} EmptyLocationsCountNothing(rows: seq<Asset>)
    ensures Count(rows, HeatMissingIn({})) == 0
  {
    if |rows| > 0 {
      EmptyLocationsCountNothing(rows[1..]);
    }
  }

  /** Rows at a new location add their own count to the count for the other locations. */
  lemma {:induction false} CountSplit(rows: seq<Asset>, locs: set<string>, l: string)
    requires l !in locs
    ensures Count(rows, HeatMissingIn(locs + {l})) == Count(rows, HeatMissingIn(locs)) + Count(rows, HeatMissingIn({l}))
  {
    if |rows| > 0 {
      CountSplit(rows[1..], locs, l);
    }
  }

  /** A status the heatmap counts as missing is one the metrics count as missing. */
  lemma {:induction false} HeatMissingIsMissing(rows: seq<Asset>, locs: set<string>)
    ensures Count(rows, HeatMissingIn(locs)) <= Count(rows, Missing)
  {
    if |rows| > 0 {
      HeatMissingIsMissing(rows[1..], locs);
      if Holds(HeatMissingIn(locs), rows[0]) {
        var s := Lower(rows[0].status);
        var k :| 0 <= k < |HeatmapMissingWords| && Contains(s, HeatmapMissingWords[k]);
        assert MissingWords[k] == HeatmapMissingWords[k];
      }
    }
  }

  datatype AlertKind = OverdueAlert | MissingAlert | LongTermAlert

  datatype Severity = Critical | High | Medium | Low {
    /** `severity_order`: the position the alert table sorts by. */
    function Rank(): nat {
      match this
      case Critical => 0
      case High => 1
      case Medium => 2
      case Low => 3
    }
  }

  /** One line of the alert table; `days` is `None` where the table shows "N/A". */
  datatype Alert = Alert(kind: AlertKind, severity: Severity, asset: Option<string>, days: Option<int>,
                         location: Option<string>, assignee: Option<string>)

  /** How many overdue and how many long-term rows the alert table takes (`head(10)`). */
  const AlertsPerList: nat := 10

  function OverdueSeverity(days: int): Severity {
    if days > 30 then High else Medium
  }

  function LongTermSeverity(days: int): Severity {
    if days < 60 then Medium else High
  }

  /** The alert shows row `a`'s asset, location and assignee cells, or the table's placeholder
      for a column the table does not have. */
  predicate Describes(sheet: Sheet, alert: Alert, a: Asset) {
    && alert.asset == (if sheet.hasAsset then a.name else Some("Unknown"))
    && alert.location == (if sheet.hasLocation then a.location else Some("N/A"))
    && alert.assignee == (if sheet.hasAssignee then a.assignee else Some("N/A"))
  }

  /** A new alert about `a`, filling absent columns with the table's placeholders. */
  function AlertFor(sheet: Sheet, kind: AlertKind, severity: Severity, a: Asset, days: Option<int>): Alert {
    Alert(kind, severity,
          if sheet.hasAsset then a.name else Some("Unknown"),
          days,
          if sheet.hasLocation then a.location else Some("N/A"),
          if sheet.hasAssignee then a.assignee else Some("N/A"))
  }

  function Head<T>(s: seq<T>, n: nat): (r: seq<T>)
    ensures |r| == if |s| <= n then |s| else n
    ensures forall i :: 0 <= i < |r| ==> r[i] == s[i]
  {
    if |s| <= n then s else s[..n]
  }

  /** One alert per overdue row, in the list's order. */
  function OverdueAlerts(sheet: Sheet, ds: seq<Dated>): (r: seq<Alert>)
    ensures |r| == |ds|
    ensures forall i :: 0 <= i < |r| ==> WellRated(r[i])
    ensures forall i :: 0 <= i < |r| ==>
              r[i].kind == OverdueAlert && r[i].days == Some(ds[i].days) && Describes(sheet, r[i], ds[i].asset)
  {
    seq(|ds|, i requires 0 <= i < |ds| =>
      AlertFor(sheet, OverdueAlert, OverdueSeverity(ds[i].days), ds[i].asset, Some(ds[i].days)))
  }

  /** One Critical alert per missing row, without a day count. */
  function MissingAlerts(sheet: Sheet, s: seq<Asset>): (r: seq<Alert>)
    ensures |r| == |s|
    ensures forall i :: 0 <= i < |r| ==> WellRated(r[i])
    ensures forall i :: 0 <= i < |r| ==>
              r[i].kind == MissingAlert && r[i].severity == Critical && r[i].days.None?
              && Describes(sheet, r[i], s[i])
  {
    seq(|s|, i requires 0 <= i < |s| => AlertFor(sheet, MissingAlert, Critical, s[i], None))
  }

  /** One alert per long-term row, in the list's order. */
  function LongTermAlerts(sheet: Sheet, ds: seq<Dated>): (r: seq<Alert>)
    ensures |r| == |ds|
    ensures forall i :: 0 <= i < |r| ==> WellRated(r[i])
    ensures forall i :: 0 <= i < |r| ==>
              r[i].kind == LongTermAlert && r[i].days == Some(ds[i].days) && Describes(sheet, r[i], ds[i].asset)
  {
    seq(|ds|, i requires 0 <= i < |ds| =>
      AlertFor(sheet, LongTermAlert, LongTermSeverity(ds[i].days), ds[i].asset, Some(ds[i].days)))
  }

  /** The alerts in the order they are appended: overdue, missing, long-term. */
  function RawAlerts(sheet: Sheet, now: int): seq<Alert> {
    OverdueAlerts(sheet, Head(OverdueAssets(sheet, now), AlertsPerList))
    + MissingAlerts(sheet, MissingAssets(sheet))
    + LongTermAlerts(sheet, Head(LongTermCheckouts(sheet, now, LongTermDays), AlertsPerList))
  }

  function SeverityKey(a: Alert): int {
    a.severity.Rank()
  }

  /** A line of the table obeys the severity rule of its kind. */
  predicate WellRated(a: Alert) {
    && (a.kind == MissingAlert <==> a.severity == Critical)
    && (a.kind == MissingAlert ==> a.days.None?)
    && (a.kind == OverdueAlert ==> a.days.Some? && (a.severity == High <==> a.days.value > 30)
                                   && (a.severity == Medium <==> a.days.value <= 30))
    && (a.kind == LongTermAlert ==> a.days.Some? && (a.severity == Medium <==> a.days.value < 60)
                                    && (a.severity == High <==> a.days.value >= 60))
  }

  /** `render_alerts_table`: the alerts sorted by severity, Critical first. */
  function Alerts(sheet: Sheet, now: int): (r: seq<Alert>)
    ensures multiset(r) == multiset(RawAlerts(sheet, now))
    ensures forall i, j :: 0 <= i < j < |r| ==> r[i].severity.Rank() <= r[j].severity.Rank()
    ensures forall a :: a in r ==> WellRated(a)
    ensures |r| == |Head(OverdueAssets(sheet, now), AlertsPerList)| + |MissingAssets(sheet)|
                   + |Head(LongTermCheckouts(sheet, now, LongTermDays), AlertsPerList)|
    ensures |r| <= 2 * AlertsPerList + |MissingAssets(sheet)|
    ensures multiset(Map(r, KindOf))[OverdueAlert] == |Head(OverdueAssets(sheet, now), AlertsPerList)|
    ensures multiset(Map(r, KindOf))[OverdueAlert] <= AlertsPerList
    ensures multiset(Map(r, KindOf))[MissingAlert] == |MissingAssets(sheet)|
    ensures multiset(Map(r, KindOf))[LongTermAlert] == |Head(LongTermCheckouts(sheet, now, LongTermDays), AlertsPerList)|
    ensures multiset(Map(r, KindOf))[LongTermAlert] <= AlertsPerList
  {
    var raw := RawAlerts(sheet, now);
    var r := SortBy(raw, SeverityKey);
    RawWellRated(sheet, now);
    RawKinds(sheet, now);
    MapPermutation(r, raw, KindOf);
    forall a | a in r
      ensures WellRated(a)
    {
      SameElements(r, raw, a);
    }
    r
  }

  function KindOf(a: Alert): AlertKind {
    a.kind
  }

  /** The appended alerts hold one overdue line per listed overdue row, one missing line per
      missing row and one long-term line per listed long-term row. */
  lemma RawKinds(sheet: Sheet, now: int)
    ensures multiset(Map(RawAlerts(sheet, now), KindOf))[OverdueAlert]
            == |Head(OverdueAssets(sheet, now), AlertsPerList)|
    ensures multiset(Map(RawAlerts(sheet, now), KindOf))[MissingAlert] == |MissingAssets(sheet)|
    ensures multiset(Map(RawAlerts(sheet, now), KindOf))[LongTermAlert]
            == |Head(LongTermCheckouts(sheet, now, LongTermDays), AlertsPerList)|
  {
    var o := OverdueAlerts(sheet, Head(OverdueAssets(sheet, now), AlertsPerList));
    var m := MissingAlerts(sheet, MissingAssets(sheet));
    var l := LongTermAlerts(sheet, Head(LongTermCheckouts(sheet, now, LongTermDays), AlertsPerList));
    assert RawAlerts(sheet, now) == o + m + l;
    KindsOfConcat(o, m, l);
    OfOneKind(o, OverdueAlert);
    OfOneKind(m, MissingAlert);
    OfOneKind(l, LongTermAlert);
  }

  lemma KindsOfConcat(o: seq<Alert>, m: seq<Alert>, l: seq<Alert>)
    ensures multiset(Map(o + m + l, KindOf))
            == multiset(Map(o, KindOf)) + multiset(Map(m, KindOf)) + multiset(Map(l, KindOf))
  {
    assert Map(o + m + l, KindOf) == Map(o, KindOf) + Map(m, KindOf) + Map(l, KindOf);
  }

  /** Alerts all of kind `k` count once each under `k` and not at all under another kind. */
  lemma OfOneKind(alerts: seq<Alert>, k: AlertKind)
    requires forall i :: 0 <= i < |alerts| ==> alerts[i].kind == k
    ensures forall other: AlertKind :: multiset(Map(alerts, KindOf))[other] == if other == k then |alerts| else 0
  {
    forall other: AlertKind
      ensures multiset(Map(alerts, KindOf))[other] == if other == k then |alerts| else 0
    {
      ConstantOccurrences(Map(alerts, KindOf), k, other);
    }
  }

  lemma RawWellRated(sheet: Sheet, now: int)
    ensures forall a :: a in RawAlerts(sheet, now) ==> WellRated(a)
  {
    var o := OverdueAlerts(sheet, Head(OverdueAssets(sheet, now), AlertsPerList));
    var m := MissingAlerts(sheet, MissingAssets(sheet));
    var l := LongTermAlerts(sheet, Head(LongTermCheckouts(sheet, now, LongTermDays), AlertsPerList));
    assert RawAlerts(sheet, now) == o + m + l;
    ConcatWellRated(o, m, l);
  }

  lemma ConcatWellRated(o: seq<Alert>, m: seq<Alert>, l: seq<Alert>)
    requires forall i :: 0 <= i < |o| ==> WellRated(o[i])
    requires forall i :: 0 <= i < |m| ==> WellRated(m[i])
    requires forall i :: 0 <= i < |l| ==> WellRated(l[i])
    ensures forall a :: a in o + m + l ==> WellRated(a)
  {
    forall a | a in o + m + l
      ensures WellRated(a)
    {
      if a in o {
        var i :| 0 <= i < |o| && o[i] == a;
      } else if a in m {
        var i :| 0 <= i < |m| && m[i] == a;
      } else {
        var i :| 0 <= i < |l| && l[i] == a;
      }
    }
  }

  /** All missing-asset alerts come before every other alert. */
  lemma MissingAlertsFirst(sheet: Sheet, now: int, i: nat, j: nat)
    requires i < j < |Alerts(sheet, now)|
    requires Alerts(sheet, now)[j].kind == MissingAlert
    ensures Alerts(sheet, now)[i].kind == MissingAlert
  {
    var r := Alerts(sheet, now);
    assert r[i] in r && r[j] in r;
  }
}
