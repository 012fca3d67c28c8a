# Employee dashboard data layer in Dafny

This project models the client-side data layer of the Jotish employee
dashboard, a React application. The model covers:

- **Row normalisation** (`employeeService.ts`): the loop that turns the rows
  of the remote table into employee records. It covers `parseSalary`,
  `deriveAgeFromId` and the drop rules for short rows and blank names or ids.
  The fetch result is an input (`ApiResponse`).
- **The three React contexts**, each as a class whose methods change its
  fields the way the context's setters and effects do:
  - the employee cache (`EmployeeProvider`): `loadEmployees` and the
    auto-load effect;
  - the session (`AuthProvider`): `login`, `logout` and the restore on mount;
  - the colour theme (`ThemeProvider`): restore, persist and toggle.

  All three share one `Browser.Window`, which holds the local storage as a
  `map<string, string>` and the body's "dark" class. It also keeps ghost
  logs of router navigations and toasts.
- **The pages' derived views**:
  - the list page's CSV export, search filter and persisted search;
  - the bar chart's first ten rows;
  - the map's per-city counting loop against the seven-city table;
  - the details page's id resolution, first-match lookup, last-viewed memory
    and capture-photo routing;
  - the login page's submit flow and redirect rule.

Supporting modules:

- `Wrappers`: `Option`, `Result`, and the shape the three context hooks share.
- `Text`: ASCII `trim`, `trimEnd`, `toLowerCase` and `includes`, the digit
  and currency-stripping regular expressions, and decimal notation.
- `JsNumber`: `Number(text)` and `String(number)` over integers, the two
  infinities and NaN. The overflow threshold is the exact IEEE-754 one,
  2^1024 − 2^970: the largest finite double, 2^1024 − 2^971, lies below
  it, and every integer from it on rounds to Infinity.
- `Sequences`: order-preserving filter and filter-map, and the
  first-appearance order of a JavaScript `Map`.
- `Rfc4180`: a reader for the CSV grammar of section 2 of RFC 4180. It is
  the reference the CSV writer is proved against: everything written reads
  back as the table it came from.

Two behaviours of the code are worth knowing when reading the model:

- In `EmployeeContext.tsx` the "has fetched" flag is set only after a
  successful fetch, not when the fetch starts. A failed first load leaves
  `hasFetched` false, and the auto-load effect does not run again because
  its dependencies did not change (`EmployeeProvider.Commit`).
- The CSV header is written as `ID,Name,Salary,City,Age`, with no spaces
  after the commas.

## Model

| member | source | states |
|---|---|---|
| EmployeeService.ParseSalary | src/services/employeeService.ts:10-17 | non-strings give 0; a string, after '$' and ',' are removed and the text is trimmed, gives `Number` of that text when it is finite (its decimal value for a digit string) and 0 whenever it is not finite: NaN, an infinity, or an overflowing digit string; the result is always finite |
| EmployeeService.ParseSalaryIgnoresSeparator | src/services/employeeService.ts:13 | inserting a '$' or ',' anywhere in the salary text does not change the salary |
| JsNumber.ParseNumber | src/services/employeeService.ts:14 | `Number` of blank text is 0, and of a digit string is its value, rounded to Infinity from 2^1024 − 2^970 on, the least magnitude IEEE-754 double rounding sends to Infinity |
| JsNumber.NumberRoundTrip | src/pages/List.tsx:31 | `Number(String(n))` gives back n for both infinities, for NaN and for every finite n of magnitude below 2^1024 − 2^970; an integer at or beyond it, which no double holds, reads back as the infinity of its sign |
| JsNumber.NumberToString | src/pages/List.tsx:31 | `String(n)` is never empty, and for a finite n it is a digit string, with a leading '-' for a negative n |
| JsNumber.FiniteRoundTrip | src/pages/List.tsx:31 | the decimal text of any integer reads back as that integer, or as the infinity of its sign at or beyond the overflow threshold |
| JsNumber.ParseSignedBranch | src/services/employeeService.ts:14 | trimmed text of a '-' followed by digits reads as the negated value of the digits, rounded at the overflow threshold |
| JsNumber.OverflowValue | src/services/employeeService.ts:14 | the overflow threshold is 16^256 − 4·16^242, that is 2^1024 − 2^970 |
| EmployeeService.DeriveAgeFromId | src/services/employeeService.ts:19-23 | the age lies in [22, 56]; it is 22 plus the id's digits, read as a decimal number, modulo 35, or 30 when that number is at least 2^1024 − 2^970 and so reads as Infinity |
| EmployeeService.AgeIgnoresNonDigit | src/services/employeeService.ts:20 | dropping a non-digit character from the id does not change the age |
| EmployeeService.NormalizeRow | src/services/employeeService.ts:44-59 | a row gives a record exactly when it is an array of at least 6 cells whose trimmed cells 0 and 3 are non-empty; the record is trimmed cell 0 as name, trimmed cell 2 as city, trimmed cell 3 as id, `parseSalary(cell 5)` as salary and the id's derived age |
| EmployeeService.NormalizeRowWellFormed | src/services/employeeService.ts:46-58 | every record the loop emits has a non-empty trimmed name and id, a trimmed city, a finite salary and the age derived from its id |
| EmployeeService.NormalizedWellFormed | src/services/employeeService.ts:43-60 | the output is never longer than the input and all its records are well formed |
| EmployeeService.NormalizedMembers | src/services/employeeService.ts:43-60 | a record is in the normalised table (`Normalized`) exactly when some input row yields it |
| EmployeeService.NormalizedInsert | src/services/employeeService.ts:43-60 | a row contributes its own record at its own position, or nothing: input order is kept and nothing is merged or deduplicated |
| EmployeeService.NormalizeRows | src/services/employeeService.ts:41-62 | the push loop's result is the normalised table |
| EmployeeService.FetchEmployees | src/services/employeeService.ts:25-66 | a transport error or a missing or non-array table gives the single error "Failed to fetch employees"; otherwise the normalised rows |
| EmployeeContext.ErrorMessage | src/context/EmployeeContext.tsx:34 | an `Error` shows its own message, and any other thrown value shows "Failed to load employees." |
| EmployeeContext.EmployeeProvider.constructor | src/context/EmployeeContext.tsx:20-23 | initially: no employees, not loading, no error, `hasFetched` false |
| EmployeeContext.EmployeeProvider.BeginLoad | src/context/EmployeeContext.tsx:26-27 | starting a load sets `loading` and clears the error; the employees are untouched |
| EmployeeContext.EmployeeProvider.CompleteLoad | src/context/EmployeeContext.tsx:29-38 | success replaces the employees wholesale and sets `hasFetched`; failure records the message and keeps the employees and `hasFetched`; `loading` ends false, and loading and an error are never both set |
| EmployeeContext.EmployeeProvider.LoadEmployees | src/context/EmployeeContext.tsx:25-39 | a whole load ends with the normalised table and no error, or with "Failed to fetch employees" and the previous employees; `hasFetched` never goes back to false |
| EmployeeContext.EmployeeProvider.Commit | src/context/EmployeeContext.tsx:25-45 | the effect starts a load only when `hasFetched` changed since its last run and is false; at most one automatic load ever starts; when it starts, loading ends and the table's normalised rows are stored with `hasFetched` set and no error, or, on a failed request, the employees are kept, `hasFetched` stays false and the fetch error is set; otherwise nothing changes |
| EmployeeContext.UseEmployees | src/context/EmployeeContext.tsx:60-68 | outside a provider the hook throws its error message; inside, it returns the provider's value |
| AuthContext.StoredFlag | src/context/AuthContext.tsx:27-28 | the restored flag is true exactly when the key is stored with the exact value "true" |
| AuthContext.SessionTouchesOnlyItsKey | src/context/AuthContext.tsx:31-50 | login and logout leave every storage key but `auth_is_authenticated` as it was |
| AuthContext.ReloadRestoresSession | src/context/AuthContext.tsx:26-50 | a reload after a login restores that login's result, and after a logout restores false |
| AuthContext.LogoutIdempotent | src/context/AuthContext.tsx:45-50 | a second logout leaves the storage as the first left it |
| AuthContext.AuthProvider.constructor | src/context/AuthContext.tsx:22 | the first render is not authenticated |
| AuthContext.AuthProvider.Restore | src/context/AuthContext.tsx:26-29 | the mount effect adopts the stored flag |
| AuthContext.AuthProvider.Login | src/context/AuthContext.tsx:31-43 | returns true exactly for "testuser" and "Test123"; the flag becomes the result; success stores "true" under the key, failure removes the key |
| AuthContext.AuthProvider.Logout | src/context/AuthContext.tsx:45-50 | signs out, removes the key, navigates once to "/login" replacing the history entry, and shows one info toast "You have been logged out." |
| AuthContext.UseAuth | src/context/AuthContext.tsx:59-67 | outside a provider the hook throws its error message; inside, it returns the provider's value |
| ThemeContext.ParseTheme | src/context/ThemeContext.tsx:23-26 | a stored value names a theme exactly when it is "light" or "dark", and it is that theme |
| ThemeContext.ThemeNameRoundTrip | src/context/ThemeContext.tsx:23-30 | reading back a persisted theme name gives the theme |
| ThemeContext.PersistedThemeRestores | src/context/ThemeContext.tsx:22-36 | after the theme was persisted, the next mount restores it |
| ThemeContext.Toggled | src/context/ThemeContext.tsx:38-40 | toggling always changes the theme |
| ThemeContext.ToggleTwice | src/context/ThemeContext.tsx:39 | toggling twice restores the original theme |
| ThemeContext.ThemeProvider.constructor | src/context/ThemeContext.tsx:20 | the theme starts as light |
| ThemeContext.ThemeProvider.Persist | src/context/ThemeContext.tsx:29-36 | `app_theme` holds the theme's name, no other key changes, and the body is dark exactly for the dark theme |
| ThemeContext.ThemeProvider.Mount | src/context/ThemeContext.tsx:22-36 | the mounted theme is the stored one when it is valid and otherwise stays as it was; afterwards storage and body agree with it |
| ThemeContext.ThemeProvider.ToggleTheme | src/context/ThemeContext.tsx:38-40 | the theme flips, and storage and body agree with the new theme |
| ThemeContext.UseTheme | src/context/ThemeContext.tsx:45-51 | outside a provider the hook throws its error message; inside, it returns the provider's value |
| ListPage.DoubleQuotes | src/pages/List.tsx:17 | doubling the quotes never shortens a value |
| ListPage.EscapeCsvValueIdentity | src/pages/List.tsx:15-20 | `escapeCsvValue` returns the value unchanged exactly when it holds no double quote, comma or line feed |
| ListPage.EscapeCsvValue | src/pages/List.tsx:15-20 | a value without '"', ',' or '\n' is written as it is; any other value is written so that the RFC 4180 reader reads exactly the value back as one field |
| ListPage.EscapeAgreesWithoutCarriageReturn | src/pages/List.tsx:15-20 | the corrected escape agrees with `escapeCsvValue` on every value without a carriage return |
| ListPage.UnquotedIsPlain | src/pages/List.tsx:16 | a value the escape leaves unquoted is a valid non-escaped field of RFC 4180 |
| ListPage.PlainRoundTrip | src/pages/List.tsx:19 | an unquoted field reads back as itself up to the next delimiter |
| ListPage.EscapedRoundTrip | src/pages/List.tsx:17 | a value with its quotes doubled and a closing quote reads back as the value |
| ListPage.FieldRoundTrip | src/pages/List.tsx:15-20 | every escaped field reads back as the original value, whatever delimiter follows |
| ListPage.CarriageReturnNotRecovered | src/pages/List.tsx:16 | `escapeCsvValue("\r")` is "\r" unquoted, and the reader recovers an empty field instead |
| ListPage.EncodeRecordCons | src/pages/List.tsx:39 | a row of several cells is its first escaped cell, a comma, and the rest of the row |
| ListPage.EncodeDocumentCons | src/pages/List.tsx:38-40 | a document of several rows is its first row, CRLF, and the rest of the document |
| ListPage.EncodeRecordEmpty | src/pages/List.tsx:39 | a row is written as non-empty text unless it is a single empty cell |
| ListPage.RecordRoundTripOne | src/pages/List.tsx:39 | a one-cell row reads back as that cell |
| ListPage.RecordRoundTripCons | src/pages/List.tsx:39 | a longer row reads back as its first cell followed by the rest |
| ListPage.RecordRoundTrip | src/pages/List.tsx:39 | every row written by `EncodeRecord` (each cell escaped, joined with ',') reads back as its cells, with the following CRLF or end of text left over |
| ListPage.DocumentRoundTripCons | src/pages/List.tsx:38-40 | a longer document reads back as its first row followed by the rest |
| ListPage.DocumentRoundTrip | src/pages/List.tsx:38-40 | a document written by `EncodeDocument` (rows joined with CRLF) of non-empty rows reads back as exactly those rows |
| ListPage.CsvCells | src/pages/List.tsx:28-36 | an employee's five cells are id, name, salary, city and age; the salary cell is `String(salary)` for a finite salary and empty otherwise; the age cell is `String(age)` for an age that is present and not NaN, and empty otherwise |
| ListPage.CsvTable | src/pages/List.tsx:27-38 | the header `ID,Name,Salary,City,Age`, then one row per employee in collection order |
| ListPage.ExportCsv | src/pages/List.tsx:22-40 | exporting an empty collection produces nothing |
| ListPage.ExportCsvRoundTrip | src/pages/List.tsx:22-40 | the exported text reads back as the header and every employee's cells, in order |
| ListPage.NumberTextHasNoCarriageReturn | src/pages/List.tsx:31-35 | a salary or age cell never holds a carriage return |
| ListPage.ExportCsvAsWritten | src/pages/List.tsx:22-40 | the export as written, every cell through `escapeCsvValue`, produces nothing exactly for an empty collection |
| ListPage.EncodeRecordAgrees | src/pages/List.tsx:38-39 | a row without carriage returns is written the same by `escapeCsvValue` and by the corrected escape |
| ListPage.EncodeRecordAsWrittenSplit | src/pages/List.tsx:39 | a row of several cells is written by `escapeCsvValue` as its first escaped cell, a comma and the rest of the row |
| ListPage.EncodeDocumentAsWrittenCons | src/pages/List.tsx:38-40 | the document as written is its first row, CRLF and the rest of the document |
| ListPage.EncodeDocumentAsWrittenSplit | src/pages/List.tsx:38-40 | the same, grouped as the first row followed by CRLF and the rest |
| ListPage.ExportCsvAsWrittenAgrees | src/pages/List.tsx:22-40 | when no id, name or city holds a carriage return, the export as written downloads exactly the corrected export's text |
| ListPage.ExportCsvAsWrittenRoundTrip | src/pages/List.tsx:22-40 | under the same condition, the text the export as written downloads reads back as the header and every employee's cells |
| ListPage.CarriageReturnNameUnquoted | src/pages/List.tsx:15-20 | a name with a carriage return between two parts free of delimiters is written without quotes |
| ListPage.BareCarriageReturnUnreadable | src/pages/List.tsx:16 | an unquoted field that runs into a carriage return not followed by a line feed makes its record unreadable |
| ListPage.RecordWithCarriageReturnUnreadable | src/pages/List.tsx:38-39 | a row as written whose name cell holds such a carriage return does not read back |
| ListPage.ExportCsvAsWrittenNotRecovered | src/pages/List.tsx:22-40 | for one employee named like "A\rB", the corrected export reads back as its table and the export as written reads back as nothing |
| ListPage.CarriageReturnNameIsKept | src/services/employeeService.ts:44-59 | a raw name cell "A\rB" survives normalisation unchanged, so such a name reaches the export |
| ListPage.SalaryCellRoundTrip | src/pages/List.tsx:31 | a finite salary's cell reads back as the same salary below the overflow threshold, and as the infinity of its sign at or beyond it; an empty cell reads back as 0 |
| ListPage.BlankQueryKeepsAll | src/pages/List.tsx:125-128 | a blank or whitespace-only query returns the collection unchanged |
| ListPage.FilterKeepsMatches | src/pages/List.tsx:130-136 | any other query keeps exactly the employees whose lowercased name or city contains the lowercased trimmed query |
| ListPage.FilterEmployees | src/pages/List.tsx:125-137 | a blank query keeps the list as it is; any other query keeps only employees of the list that match the lowercased trimmed query, never more than the list holds |
| ListPage.MatchesContained | src/pages/List.tsx:132-135 | an employee whose name or city contains the query text, in any letter case, matches the lowercased query |
| ListPage.FilterPreservesOrder | src/pages/List.tsx:132-136 | the filter works row by row, so it keeps the collection order |
| ListPage.FilterIdempotentLemma | src/pages/List.tsx:125-137 | filtering the filtered rows again changes nothing |
| ListPage.PersistedSearch | src/pages/List.tsx:108-113 | the key `employee_search_query` holds the trimmed input when that is non-blank and is absent otherwise; every other key is unchanged |
| ListPage.InitialSearchInput | src/pages/List.tsx:98 | the page starts from the stored search when the key is present, and from "" otherwise |
| ListPage.PersistedSearchReplays | src/pages/List.tsx:98-113 | a list page opened after the search was persisted shows the same rows as the page that persisted it |
| ListPage.SearchBox.constructor | src/pages/List.tsx:98-99 | the input starts as the stored search or "", and the applied query equals it |
| ListPage.SearchBox.Type | src/pages/List.tsx:169 | a keystroke changes the input and not the applied query |
| ListPage.SearchBox.ApplySearch | src/pages/List.tsx:104-114 | when the timer fires, the query becomes the input and storage becomes the persisted search |
| BarChart.ChartLabel | src/pages/BarChart.tsx:29-33 | the label is non-empty and at most 12 characters; names up to 12 characters are kept; a longer one becomes its first 11 characters without their trailing whitespace, plus '…' (never "Unknown"); an empty name becomes "Unknown" |
| BarChart.BlankLongLabel | src/pages/BarChart.tsx:29-33 | a name longer than 12 whose first 11 characters are blank is labelled '…' alone |
| BarChart.ChartRow | src/pages/BarChart.tsx:27-35 | an employee gets a bar exactly when the salary is finite, with its label and the salary unchanged |
| BarChart.Take | src/pages/BarChart.tsx:24 | the slice is the prefix of length min(limit, size) |
| BarChart.BuildChartData | src/pages/BarChart.tsx:20-37 | there are at most min(limit, number of employees) bars |
| BarChart.ChartData | src/pages/BarChart.tsx:43-46 | the chart page draws at most 10 bars |
| BarChart.ChartMembers | src/pages/BarChart.tsx:24-36 | a bar exists exactly when one of the first `limit` employees has a finite salary and that bar's label and salary |
| BarChart.ChartIgnoresTail | src/pages/BarChart.tsx:24 | employees after the first `limit` never influence the chart |
| BarChart.ChartKeepsOrder | src/pages/BarChart.tsx:26-36 | within the limit, bars follow collection order: nothing is sorted by salary |
| MapView.CityTableSize | src/pages/MapView.tsx:20-28 | the coordinate table has at most seven cities |
| MapView.CountedCity | src/pages/MapView.tsx:45-49 | an employee is counted exactly when the trimmed city is non-empty and, case-sensitively, one of the table keys |
| MapView.CountedCitiesKnown | src/pages/MapView.tsx:44-52 | every counted city is a table key |
| MapView.MarkerCities | src/pages/MapView.tsx:54 | every marker city is a table key |
| MapView.CountCities | src/pages/MapView.tsx:42-52 | the loop's map counts each counted city's occurrences and holds nothing else; its key order is first appearance |
| MapView.BuildMarkers | src/pages/MapView.tsx:41-63 | the loop builds `Markers`: one marker per counted city (`CountedCities`), in first-appearance order, each with its occurrence count and its table coordinates |
| MapView.MarkersDistinct | src/pages/MapView.tsx:51-54 | no city has two markers |
| MapView.MarkerCounts | src/pages/MapView.tsx:51-54 | a city has a marker exactly when some employee is counted under it, and then its count is at least 1 |
| MapView.AtMostSevenMarkers | src/pages/MapView.tsx:20-28 | there are never more than seven markers |
| MapView.MarkerCountsSum | src/pages/MapView.tsx:44-58 | the counts add up to the number of employees counted on the map |
| MapView.CountedCityAsWritten | src/pages/MapView.tsx:48-49 | the guard as written also lets through every name that a plain object inherits |
| MapView.CountedCitiesAsWrittenKnown | src/pages/MapView.tsx:44-52 | as written, every counted city is a table key or an inherited member name |
| MapView.CountedCitiesAsWrittenAgree | src/pages/MapView.tsx:44-52 | when no trimmed city is an inherited member name, the loop as written counts exactly the cities the corrected guard counts |
| MapView.ToStringCityPassesGuard | src/pages/MapView.tsx:45-49 | an employee whose city field is "toString" is counted as written and not by the corrected guard |
| MapView.PrototypeNamePassesGuard | src/pages/MapView.tsx:48-49 | an employee whose city is "toString" passes the guard as written even though the table has no such city |
| DetailsPage.EffectiveId | src/pages/Details.tsx:24 | the route id when present, otherwise the stored last-viewed id, otherwise none |
| DetailsPage.FindIndex | src/pages/Details.tsx:27 | the position of the first employee with the id, or none when no employee has it |
| DetailsPage.FindEmployee | src/pages/Details.tsx:26-29 | the lookup returns the first employee whose id matches, comparing with "" when there is no effective id |
| DetailsPage.NoIdFindsNothing | src/pages/Details.tsx:27 | with no effective id no normalised employee matches, because their ids are non-empty |
| DetailsPage.RememberedEmployeeFoundAgain | src/pages/Details.tsx:24-35 | reopening the page without a route id, after an employee was shown, finds the same employee again |
| DetailsPage.CapturePhotoNavigation | src/pages/Details.tsx:41-48 | navigates to "/photo", carrying `employeeId` exactly when the route id is present and non-empty |
| DetailsPage.DetailsView.Show | src/pages/Details.tsx:24-35 | finds the first match for the effective id, and writes `last_viewed_employee_id` only when one is found, with that employee's id |
| DetailsPage.DetailsView.CapturePhoto | src/pages/Details.tsx:41-48 | exactly one navigation, the capture-photo one |
| LoginPage.RedirectTarget | src/pages/Login.tsx:36 | the page the user came from when present, non-empty and not "/login"; otherwise "/list" |
| LoginPage.LoginForm.constructor | src/pages/Login.tsx:18-21 | the form starts empty with no error and not submitting |
| LoginPage.LoginForm.EnterUsername | src/pages/Login.tsx:58 | typing sets the username |
| LoginPage.LoginForm.EnterPassword | src/pages/Login.tsx:72 | typing sets the password |
| LoginPage.LoginForm.BeginSubmit | src/pages/Login.tsx:25-26 | submitting first clears the error and sets `isSubmitting` |
| LoginPage.LoginForm.HandleSubmit | src/pages/Login.tsx:23-38 | logs in with the trimmed username and the password unchanged; on failure shows "Invalid username or password.", re-enables the form and does not navigate; on success navigates exactly once to the redirect target, replacing the history entry |

## Left out

- The POST request through `apiClient` is not part of this model: its
  endpoint, credentials and transport are replaced by the `ApiResponse`
  input.
- The storage utility (`src/utils/storage`) and the toast context are not
  part of this model. Storage is a `map<string, string>` that never fails.
  Toasts and navigations are ghost logs.
- JsNumber.ParseNumber: decimals, exponents, and hexadecimal, octal and
  binary literals are not modelled. Such text reads as NaN, so a salary
  like "1200.50" becomes 0 in the model. Non-integer salaries are out of
  scope.
- EmployeeService.DeriveAgeFromId: `%` is exact here. For digit strings above
  2^53, JavaScript first rounds the number to a double, so its age can
  differ.
- JsNumber.NumberToString: finite values are written in plain decimal.
  JavaScript switches to exponent notation from 10^21, so the exported
  salary cell differs for such values.
- Text.Trim and Text.ToLower fold only ASCII. The exact JavaScript
  whitespace set and full Unicode case mapping are not modelled.
- BarChart.ChartLabel counts characters, where JavaScript counts UTF-16 code
  units. The two agree unless a name holds characters outside the Basic
  Multilingual Plane.
- The 250 ms debounce timer and its cleanup are not modelled:
  `SearchBox.ApplySearch` is the moment the timer fires. The same goes for
  the chart animation.
- Overlapping `refresh` calls, races between fetches, and React StrictMode's
  double-invoked effects are not modelled: loads run one at a time.
- `formatSalary` and `toLocaleString` formatting, and the `lastUpdated` clock
  timestamp, are presentation only and are not modelled.
- The Blob and anchor download of the CSV is not modelled: the model stops
  at the CSV text.
- The Leaflet map, its icons and clustering, and the Recharts widgets are
  not modelled. Coordinates are `real` values carried to the markers.
- The `Rfc4180` reader widens the grammar's TEXTDATA to every character
  other than the comma, the double quote, CR and LF. This matches what the
  writer emits for non-ASCII names.
- ListPage.ExportCsv: cells are written with the corrected escape
  (`EscapeCsvField`, see Findings). `ListPage.ExportCsvAsWritten` is the
  export with `escapeCsvValue` as written; it is the same text when no
  id, name or city holds a carriage return (`ExportCsvAsWrittenAgrees`).
- ListPage.ExportCsvRoundTrip: proved for the corrected export. For the
  export as written it holds only without carriage returns
  (`ExportCsvAsWrittenRoundTrip`); a name such as "A\rB" makes the text
  unreadable (`ExportCsvAsWrittenNotRecovered`).
- MapView.CountedCity: models the own-key lookup, the corrected guard (see
  Findings). As written, `CITY_COORDINATES[rawCity]` also lets through the
  names a plain object inherits, such as "toString"
  (`MapView.CountedCityAsWritten`).
- MapView.CountedCitiesKnown: holds for the corrected guard only. As
  written, a counted city is a table key or an inherited name
  (`MapView.CountedCitiesAsWrittenKnown`).
- MapView.MarkerCities: every marker city is a table key only with the
  corrected guard. As written, an inherited name also gets a marker.
- MapView.CountCities: the loop looks the city up as an own key. The loop
  as written counts the same cities when no trimmed city is an inherited
  name (`MapView.CountedCitiesAsWrittenAgree`).
- MapView.BuildMarkers: every marker has table coordinates only with the
  corrected guard. As written, a marker for an inherited name has no
  coordinates (`coords[0]` is undefined), and such markers are not
  modelled.
- MapView.AtMostSevenMarkers: holds for the corrected guard only. As
  written, inherited names can add up to twelve more markers.
- JsNumber.ParseNumber: integers above 2^53 are exact here. JavaScript
  rounds them to the nearest double, so `Number("9007199254740993")` is
  9007199254740992.
- EmployeeService.ParseSalary: for the same reason a salary above 2^53 is
  exact here but rounded in JavaScript.
- ListPage.SalaryCellRoundTrip: holds in JavaScript only for salaries that
  are exact doubles; the model proves it for every integer below the
  overflow threshold, where JavaScript's values above 2^53 are rounded.
- JsNumber.NumberRoundTrip: the same; above 2^53 JavaScript's round trip
  is through the rounded double.
- Markup, routing and wiring files are not modelled: JSX,
  `src/components/Skeleton.tsx`, `src/components/Navbar.tsx`,
  `src/App.tsx`, `src/main.tsx`, `src/types/react-leaflet-cluster.d.ts` and
  the photo page.

## Findings

| source | as written | input that shows it | evidently intended | confidence | as-written member | corrected member |
|---|---|---|---|---|---|---|
| src/pages/MapView.tsx:48-49 | `CITY_COORDINATES[rawCity]` looks the city up on a plain object, so every name inherited from `Object.prototype` passes the `if (!coords)` guard | an employee whose city is "toString" (or "constructor", "valueOf", ...): it is counted and gets a marker, and the marker's `coords[0]` is `undefined` | only the seven cities of the table are counted (an own-property lookup) | high; not executed | MapView.PrototypeNamePassesGuard | MapView.CountedCity |
| src/pages/List.tsx:16 | `escapeCsvValue` quotes a value holding `"`, `,` or `\n`, but not one holding a bare `\r` | an employee named "A\rB" (normalisation keeps the name): the name is written unquoted, and a reader following RFC 4180 section 2 stops at the CR, which is not followed by LF, so the document does not read back | a carriage return forces quoting as well, as RFC 4180 section 2 rule 6 requires for CR and LF | medium; not executed | ListPage.ExportCsvAsWrittenNotRecovered | ListPage.ExportCsvRoundTrip |
