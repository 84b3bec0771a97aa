# RedBeam export and asset-risk dashboards, modelled in Dafny

The repository automates a daily export from the RedBeam asset-tracking web application and
shows the exported table in two dashboards. This project models the decision logic of that
pipeline and proves properties of it:

- **Column mapping** (`ColumnMapping`, columns.dfy): the theft-prevention dashboard renames
  free-form spreadsheet headers to canonical names (`status`, `location`, `checkout_date`,
  `due_date`, `assigned_to`, `asset_name`, `category`) by a priority chain of keyword tests.
  It then looks up each field under a list of preferred names.
- **Risk classification** (`RiskModel`, risk.dfy): missing, overdue and long-term rows, the
  counts behind the metric cards, the per-location counts behind the heatmap, and the alert
  table with its severities and severity ordering.
- **Element search** (`Locators`, locators.dfy): the scraper's loops over selector lists. Each
  selector is sent as XPath or CSS. The first acceptable element of the earliest selector that
  has one is taken.
- **Login** (`Login`, login.dfy): the two-step identity-provider form. It covers the username,
  continue, password and login-button searches with their fallbacks, the actions taken, the
  three error exits and the check of the address after the redirect wait.
- **Export and download** (`Export`, export.dfy): the export-button strategies, the keys that
  pick the CSV entry of the export menu, and the poll of the downloads folder for a fresh CSV.
- **Archive name** (`Archive`, archive.dfy): `redbeam_data_YYYYMMDD_HHMMSS.csv`, with its
  inverse.
- **Data viewer** (`Viewer`, viewer.dfy): the data-folder and latest-file choice, the building
  and status columns, and the renaming of the building-by-status table's columns.

`Options`, `Text` and `Seqs` hold the shared pieces: an option type, ASCII lower-casing and
substring tests, and a stable insertion sort by an integer key.

The browser, the file system and the clock are inputs. A page is a map from queries to the
elements they return. A folder poll is a listing with modification times, plus the current
time. Dates are whole seconds. The credentials are parameters of the login.

## Model

| member | source | states |
|---|---|---|
| ColumnMapping.Pick | theft_prevention_dashboard.py:36-55 | a header is given a category only if the lower-cased header mentions one of that category's words and no earlier header has that category |
| ColumnMapping.PickPriority | theft_prevention_dashboard.py:36-55 | every higher-priority category that the header also mentions is already taken; a header gets no category only when every category it mentions is taken |
| ColumnMapping.MappingOf | theft_prevention_dashboard.py:32-55 | the renaming dictionary only has headers of the table, each mentioning a word of its category, and no category is the target of two headers |
| ColumnMapping.PrefixStable | theft_prevention_dashboard.py:33-55 | with distinct headers, the category given to a header when the loop reaches it is never changed by later headers |
| ColumnMapping.Normalize | theft_prevention_dashboard.py:29-58 | the header count is kept; unmapped headers keep their name; mapped headers get their category's canonical name; two mapped headers never share a canonical name |
| ColumnMapping.FirstMatchWins | theft_prevention_dashboard.py:33-55 | with distinct headers, any earlier header that mentions the category of a later renamed header was itself given a category of strictly higher priority |
| ColumnMapping.UnmappedKeepsName | theft_prevention_dashboard.py:33-58 | with distinct headers, a header that keeps its name only mentions categories already taken by earlier headers |
| ColumnMapping.CheckedOutToIsCheckoutDate | theft_prevention_dashboard.py:42-49 | a "Checked Out To" header becomes `checkout_date`, not `assigned_to`, because the checkout test comes first in the chain |
| ColumnMapping.SecondStatusFallsThrough | theft_prevention_dashboard.py:36-40 | in the headers "Status", "Site Status", the second falls through to `location` once `status` is taken |
| ColumnMapping.DuplicateStatusCollides | theft_prevention_dashboard.py:33-58 | in the headers "Status", "status", the first is renamed to `status` and the second, with its only category taken, keeps its name, so the table has two columns named `status` |
| ColumnMapping.FindColumn | theft_prevention_dashboard.py:70-75 | the result is absent exactly when no preferred name is a header; otherwise it is the earliest preferred name that is a header |
| ColumnMapping.Identify | theft_prevention_dashboard.py:60-68 | each field is looked up under its own preference list |
| ColumnMapping.IdentifyFindsRenamed | theft_prevention_dashboard.py:25-27 | every category assigned by the renaming is then found under its canonical name |
| RiskModel.SheetOf | theft_prevention_dashboard.py:60-68 | each of the six field flags (status, location, checkout, due, assignee, asset) is set exactly when that field's lookup succeeded |
| RiskModel.Select | theft_prevention_dashboard.py:155 | a boolean mask keeps exactly the rows passing the test |
| RiskModel.SelectAppend | theft_prevention_dashboard.py:155 | masking two parts of a table and joining the results equals masking the whole table, so the kept rows stay in table order |
| RiskModel.SelectOccurrences | theft_prevention_dashboard.py:155 | a row passing the test is kept as many times as it occurs in the table; a failing row is never kept |
| RiskModel.SelectCount | theft_prevention_dashboard.py:87-111 | counting a mask and taking the masked rows agree |
| RiskModel.Metrics | theft_prevention_dashboard.py:77-133 | the total is the number of rows, and the overdue, missing and long-term counts never exceed it |
| RiskModel.MissingAssets | theft_prevention_dashboard.py:163-171 | with a status column, each row whose status mentions missing, lost, stolen or unaccounted, as many times as it occurs in the table, and no other row; without one, nothing |
| RiskModel.OverdueAssets | theft_prevention_dashboard.py:145-161 | without a due column, nothing; otherwise each row due before now appears as many times as it occurs in the table, with its days overdue, and no other row appears; most overdue first |
| RiskModel.LongTermCheckouts | theft_prevention_dashboard.py:173-190 | without a checkout column, nothing; otherwise each row checked out more than `days` days appears as many times as it occurs in the table, with that day count, and no other row appears; longest first |
| RiskModel.SortedOutAssets | theft_prevention_dashboard.py:173-190 | sorting the rows dated by days checked out keeps the rows themselves, each as many times as before |
| RiskModel.MetricsMatchLists | theft_prevention_dashboard.py:77-127 | the missing, overdue and long-term metric counts equal the lengths of the corresponding lists, and missing never exceeds the total |
| RiskModel.Locations | theft_prevention_dashboard.py:256 | each non-null location once, and nothing else |
| RiskModel.Heatmap | theft_prevention_dashboard.py:248-284 | no bars without a location column; otherwise one bar per distinct non-null location and a bar for no other location; each bar's total is the number of rows at its location, its missing count the rows there whose status names missing, lost or stolen (0 without a status column), its overdue count the rows there due before now (0 without a due column) |
| RiskModel.Bar | theft_prevention_dashboard.py:256-273 | one location's bar: the size of the rows at that location, of those among them whose status names missing, lost or stolen, and of those among them that are overdue, each masked count 0 when its column is absent |
| RiskModel.BarBounded | theft_prevention_dashboard.py:256-277 | at a location some row is at, the masked location table is non-empty, and its missing and overdue sub-masks are no larger |
| RiskModel.HeatRowsBounded | theft_prevention_dashboard.py:255-277 | every bar counts at least one row, so the risk score's division by the total always happens; its missing and overdue counts never exceed that total |
| RiskModel.HeatMissingIsMissing | theft_prevention_dashboard.py:262-265 | a row counted missing by the heatmap's shorter word list is missing by the metrics' list too |
| RiskModel.HeatmapMissingBounded | theft_prevention_dashboard.py:248-266 | the heatmap's per-location missing counts add up to at most the global missing count |
| RiskModel.Head | theft_prevention_dashboard.py:373 | `head(n)` keeps the first n entries |
| RiskModel.OverdueAlerts | theft_prevention_dashboard.py:372-384 | one Overdue alert per listed row, in list order, showing that row's days overdue and its asset, location and assignee cells (or "Unknown"/"N/A" when the column is absent); High when overdue more than 30 days, Medium otherwise |
| RiskModel.MissingAlerts | theft_prevention_dashboard.py:386-398 | one Missing/Lost alert per missing row, in list order, always Critical, with no day count, showing that row's asset, location and assignee cells or the placeholders |
| RiskModel.LongTermAlerts | theft_prevention_dashboard.py:400-412 | one Long-term Checkout alert per listed row, in list order, showing that row's days checked out and its asset, location and assignee cells or the placeholders; Medium under 60 days and High from 60 |
| RiskModel.Alerts | theft_prevention_dashboard.py:366-420 | the table is a permutation of the appended alerts, sorted by severity rank; every line obeys its kind's severity rule; it holds at most 10 overdue lines, at most 10 long-term lines, and exactly one missing line per missing row |
| RiskModel.RawKinds | theft_prevention_dashboard.py:371-412 | the appended alerts hold one overdue line per listed overdue row, one missing line per missing row and one long-term line per listed long-term row |
| RiskModel.MissingAlertsFirst | theft_prevention_dashboard.py:416-419 | every missing-asset alert comes before every other alert |
| Seqs.SortBy | theft_prevention_dashboard.py:158 | the result is sorted by the key and is a permutation of the input |
| Seqs.MapPermutation | theft_prevention_dashboard.py:158 | reordering rows and then reading one field of each gives the same values, counted with multiplicity, as reading the field before reordering |
| Seqs.FirstMaxIndex | streamlit_app.py:44 | the first position holding the largest key, or -1 for an empty list |
| Locators.Dispatch | redbeam_scraper.py:182-185 | a selector is sent as XPath exactly when it starts with "//", otherwise as CSS, with its text unchanged |
| Locators.FirstAccepted | redbeam_scraper.py:187-195 | the first element passing the test, absent exactly when none passes |
| Locators.FirstMatch | redbeam_scraper.py:181-202 | absent exactly when no selector yields an acceptable element; otherwise the earliest such selector and its first acceptable element |
| Locators.LaterQueriesIgnored | redbeam_scraper.py:199-200 | once a selector has produced an element, appending more selectors changes nothing |
| Login.UsernameField | redbeam_scraper.py:143-222 | the selector search's element wins whenever it finds one; only when it fails is the first displayed, enabled input whose type is not password, hidden, submit or button taken; the field is never a password input; none exactly when both searches fail |
| Login.PasswordField | redbeam_scraper.py:310-356 | the selector search's element wins whenever it finds one; only when it fails is the first displayed password input taken; none exactly when both searches fail |
| Login.ContinueControl | redbeam_scraper.py:249-284 | the first displayed, enabled element of the earliest continue selector that has one; none exactly when every selector fails |
| Login.LoginControl | redbeam_scraper.py:368-425 | the selector search's element wins whenever it finds one; only when it fails is the first displayed submit-type element taken; none exactly when both fail |
| Login.Submit | redbeam_scraper.py:286-292 | a found control is clicked; otherwise Enter is pressed in the field |
| Login.RunLogin | redbeam_scraper.py:143-478 | "username field not found" exactly when no username field exists, and then nothing was typed; "password field not found" exactly when the username step succeeded and no password field exists, and then only the two username-step actions were taken; "still on login page" exactly when the wait timed out on an address whose lower-cased form mentions "login"; each step submits by clicking its control when one was found and by pressing Enter in its field otherwise |
| Login.LoginSteps | redbeam_scraper.py:143-478 | the same outcome and actions, stated over the looked-up username field, password field, continue control and login control: no username field gives no actions; no password field gives exactly the two username-step actions; otherwise four actions, and "still on login page" exactly when the wait timed out on an address whose lower-cased form mentions "login" |
| Login.StillOnLoginIsLoginWord | redbeam_scraper.py:451-453 | the three address tests amount to one: the lower-cased address contains "login" |
| Login.AwaitApp | redbeam_scraper.py:438-447 | the wait ends as redirected exactly when some observed address passes the wait's test, else it times out on the final address |
| Login.Authenticate | redbeam_scraper.py:437-478 | with the intended wait, a successful login saw a non-login application address or ended on an address that is not a login page |
| Login.LoginPageFailsWhenIntended | redbeam_scraper.py:437-478 | with the intended wait, a login whose addresses all stay on login pages fails with "still on login page" |
| Login.LoginHostPassesAsWritten | redbeam_scraper.py:441-443 | as written, the login host's address `https://login.app.redbeam.com/u/login` ends the wait, so that login is reported a success |
| Export.ExportButton | redbeam_scraper.py:526-652 | the icon strategy wins, then the near-"Records" strategy; otherwise the first displayed element of the earliest of the seven class and label selectors that has one; the button is always displayed; none exactly when all three fail |
| Export.CsvFiles | redbeam_scraper.py:694 | exactly the listing's files whose names end in ".csv" |
| Export.CsvFilesAppend | redbeam_scraper.py:694 | filtering two parts of a listing and joining the results equals filtering the whole listing, so the CSV files keep their listing order |
| Export.CsvFilesCount | redbeam_scraper.py:694 | each CSV file is kept as many times as it is listed, and no other file is kept |
| Export.MostRecent | redbeam_scraper.py:694-697 | none exactly when there is no CSV; otherwise a listed CSV with the latest modification time |
| Export.MostRecentIsFirstLatest | redbeam_scraper.py:696-697 | among CSVs with the same latest time, the earliest listed one is taken, as the stable descending sort does |
| Export.FreshDownload | redbeam_scraper.py:694-701 | a poll comes back empty exactly when no CSV in the folder is younger than 60 seconds; a file it returns is a listed CSV younger than 60 seconds and the newest CSV of the listing (no CSV has a later modification time), the earliest listed among equally new ones |
| Export.AwaitFirst | redbeam_scraper.py:690-704 | at most 30 polls; every check before the last came back empty; the result is the last poll's; no result only after all 30 |
| Export.AwaitDownload | redbeam_scraper.py:687-706 | the same, for polls of the downloads folder |
| Export.AwaitExport | redbeam_scraper.py:687-712 | a download is a CSV seen fresh, and newest among the CSVs, by one of the 30 polls; a failure means all 30 polls came back empty |
| Export.ExportReport | redbeam_scraper.py:498-712 | "export button not found" exactly when all strategies fail, and then no key is sent; otherwise Down three times and Enter, then the download outcome |
| Archive.Two | redbeam_scraper.py:968 | two zero-padded digits |
| Archive.Four | redbeam_scraper.py:968 | four zero-padded digits |
| Archive.ArchiveName | redbeam_scraper.py:966-969 | 32 characters: the prefix "redbeam_data_", the date, '_', the time and ".csv" |
| Archive.ParseArchiveNameInverts | redbeam_scraper.py:966-969 | every archive name reads back as the time it was made from |
| Archive.ParsedNameIsArchiveName | redbeam_scraper.py:966-969 | a name that reads back as a time is exactly that time's archive name |
| Archive.ArchiveNameInjective | redbeam_scraper.py:966-969 | different seconds give different names |
| Archive.MorningExportName | redbeam_scraper.py:968-969 | 5 March 2024 09:00:00 gives "redbeam_data_20240305_090000.csv" |
| Viewer.DataDir | streamlit_app.py:20-35 | the first candidate that exists and is a folder, or "." when there is none |
| Viewer.LatestData | streamlit_app.py:37-50 | nothing when there is no CSV or the read fails; otherwise a listed CSV with the latest modification time |
| Viewer.BuildingColumn | streamlit_app.py:84-85 | "Building" when present, else "building" when present, else none |
| Viewer.StatusColumn | streamlit_app.py:88-91 | the first column whose lower-cased name mentions status, available or checked; none exactly when no column does |
| Viewer.SingleLabel | streamlit_app.py:101-110 | "Available" if the lower-cased name mentions available; else "Checked Out" if it mentions checked or out; a name mentioning none of the three words is kept |
| Viewer.Relabel | streamlit_app.py:97-113 | two columns become Available, Checked Out by position; one column is renamed by its name; other counts are kept |
| Viewer.RelabelIdempotent | streamlit_app.py:97-113 | renaming the renamed columns again changes nothing |
| Viewer.UnavailableShownAsAvailable | streamlit_app.py:102-104 | a single "Unavailable" column is shown as "Available", since the test is a substring test |
| Viewer.TwoColumnsRenamedByPosition | streamlit_app.py:97-107 | statuses that sort as "Checked Out", "In Stock" are shown as "Available", "Checked Out", though "Checked Out" alone would keep its name |

## Left out

- Selenium itself: driver setup, page loads, `WebDriverWait` on page state, sleeps, clicks, key events, screenshots and page-source dumps. Pages and polls are inputs instead.
- A selector lookup that raises (an invalid selector) is modelled as a query that returns nothing. The selector loops catch it and go on to the next selector.
- Locators.FirstAccepted: an element whose `is_displayed()` or `is_enabled()` raises (a stale element) is not modelled; an element is only displayed or not and enabled or not. In the username, continue, password and login selector loops and the input scans (redbeam_scraper.py:188-197, 210-220, 273-280, 330-337, 347-353, 403-410) such a raise skips only that element. In the submit-button scan (lines 418-425) it ends the whole scan, and the login falls back to pressing Enter (lines 427-431). In the export selector loop (lines 635-645) it ends that selector's list, and the next selector is tried.
- ColumnMapping.Normalize: only mapped headers are kept apart. A header left unmapped that is spelled like a canonical name keeps that name next to the column renamed to it (ColumnMapping.DuplicateStatusCollides), and the dashboard's later lookups of that name (theft_prevention_dashboard.py:108, 168) then select two columns where they expect one, and fail.
- Export.ExportButton: the first two strategies inspect SVG markup and the elements near the "Records" caption (redbeam_scraper.py:528-620). Their answers are inputs; only the third strategy's selector search is modelled. Both strategies skip hidden buttons (lines 537 and 605), so their answers are required to be displayed.
- The CSV menu-item search at redbeam_scraper.py:714-914 is left out. It is unreachable, because the keyboard-navigation block before it always returns or raises. Its poll loop (891-914) is the same as the one modelled.
- The navigation to the login page (redbeam_scraper.py:95-133) is left out. Only the wait for the identity-provider redirect (lines 99-106) falls back, to the direct login address. The waits for the page body (lines 111-113) and for the page to finish loading (lines 119-121) raise after 30 seconds. Lines 492-495 re-raise that error, so the login fails.
- The same two 30-second waits on the reports page (redbeam_scraper.py:506-516) raise on timeout, and the export fails. These timeouts are error exits the model does not have: its pages are always loaded.
- `save_to_excel`, moving the downloaded file, creating folders, and `schedule_daily.py`'s scheduler loop.
- The credentials are parameters. Their hard-coded values are not reproduced.
- The developer's own folder, the first data-folder candidate, is an input like the others. Path joining is not modelled.
- Date parsing (`pd.to_datetime` with coercion) and `datetime.now()`: dates are whole seconds, and a null or unparsable date is `None`.
- Fractional seconds in the file-age test are left out. File ages are whole seconds.
- RiskModel.Metrics: the percentages and the weighted risk score are floating point and are left out.
- RiskModel.Heatmap: the bars are in `Locations` order, by first appearance. The dashboard sorts them by a floating-point risk score, and that score and the sort are left out.
- RiskModel.OverdueAssets, RiskModel.LongTermCheckouts, RiskModel.Alerts: pandas' default sort is not stable, so the order among equal keys is unspecified. The model sorts stably, and only sortedness and the permutation are claimed.
- The dashboard's rows are projected onto the identified columns. Cells are strings, with `astype(str)` for the status, and other column types are not modelled.
- `str.lower` is modelled for ASCII letters only.
- The `.csv` suffix test is case-sensitive, as `glob` is on Linux. On Windows, glob ignores case.
- Archive.Four: `%Y` is modelled as four zero-padded digits. Some C libraries print years before 1000 with fewer digits.
- Viewer: pandas sorts the status values into the table's column order. `Relabel` takes that column list as given, and the group counts are not modelled.
- User-activity analysis, status distribution, all Streamlit and Plotly rendering, the file-upload fallback, `asset_visualization_dashboard.py` and `example_theft_dashboard_usage.py` are presentation only.

## Findings

| source | as written | input that shows it | evidently intended | confidence | as-written member | corrected member |
|---|---|---|---|---|---|---|
| redbeam_scraper.py:441-443 | the redirect wait ends as soon as the address contains "app.redbeam.com" | after submitting, the browser stays on `https://login.app.redbeam.com/u/login`; that address contains "app.redbeam.com", so the wait ends at once and the login is reported a success | wait for an application address that is not a login page; the timeout branch at lines 451-453 itself treats `login.app.redbeam.com` as the login page | medium; not executed | Login.LoginHostPassesAsWritten | Login.LoginPageFailsWhenIntended |

Both tests are in `Login.ReachedApp`. `Login.Authenticate` runs the login with the intended
test.
