# isagro-indicadores-api: query, maintenance and health-key logic in Dafny

This project models the parts of the isagro-indicadores-api repository that
hold logic of their own, and proves properties about them:

- **Chart and report lookup** (`ChartService.findByParams`, `ReportService.findByParams`, `toDTO`).
  The where-condition is built from three mandatory parameters and four optional ones.
  An optional parameter is added only when it is truthy.
  The repository's `find` is an equality filter over those columns.
  A null answer becomes a not-found error.
  The DTO projection copies the exposed fields in order.
  Modules: `QueryFilter`, `ChartService`, `ReportService`.
- **Country normalisation** (`update_countries.py`). Rows whose country is longer than two
  characters or all digits are fetched. Each is resolved to an ISO 3166-1 alpha-2 code:
  digits become "BR"; otherwise the manual table is consulted, then the iso3166 library.
  The row is rewritten by id and counted. The table is an `array` updated in place.
  Module: `UpdateCountries` (with `ChartTable`).
- **State normalisation** (`update_state.py`). A geocode-to-state dict is loaded from CSV rows.
  One `UPDATE ... WHERE state = geocode` runs per pair, in the dict's insertion order.
  The two manual corrections follow. Then the remaining numeric or NULL states are listed.
  Modules: `UpdateState` and `PyDict` (a Python dict as an insertion-ordered sequence of entries).
- **Header insertion** (`add-header.js`, `addHeaderToFile`). The regular expression
  `^(\s*\/\/.*\n)*\s*` removes leading comment lines and blank space. Then `// <path>` is
  prepended unless it is already there. Module: `AddHeader`.
- **Health indicator** (`HealthService.isHealthy`). The key is derived from the destination
  URL, and the probe's outcome is classified as up or down. `IsHealthy` follows the code as
  written, where a 200 answer is logged before it is reported up; `IsHealthyIntended` is the
  classification the code evidently means (see Findings). Module: `Health`.

`Common` holds Option/Result, ASCII character classes, Python's `str.strip` and decimal rendering.

## Model

| member | source | states |
|---|---|---|
| Common.DropLeadingSpaceIsSuffix | src/db/update_state.py:12-13 | dropping leading whitespace leaves a suffix, removes only whitespace and leaves no leading whitespace |
| Common.DropTrailingSpaceIsPrefix | src/db/update_state.py:12-13 | dropping trailing whitespace leaves a prefix, removes only whitespace and leaves no trailing whitespace |
| Common.PyStripTrims | src/db/update_countries.py:55 | `strip()` returns a contiguous slice; everything removed on either side is whitespace; the result neither starts nor ends with whitespace |
| Common.NatToDecimal | src/app/health/health.service.ts:77 | the rendering of a number is a non-empty string of digits with no leading zero |
| Common.NatToDecimalRoundTrip | src/app/health/health.service.ts:77 | reading the rendered digits back gives the number |
| QueryFilter.Conditions | src/app/chart/chart.service.ts:17-34 | analysis, country and state are always present with the given values; each optional key is present exactly when its parameter is truthy, with that value; no other key appears |
| QueryFilter.BuildWhereConditions | src/app/chart/chart.service.ts:17-34 | the object literal plus four guarded insertions equals the declarative condition map |
| QueryFilter.MandatoryConditions | src/app/chart/chart.service.ts:17-21 | the object literal holds exactly the analysis, country and state conditions |
| QueryFilter.SatisfiesQuery | src/app/chart/chart.service.ts:17-42 | a row that satisfies the where-condition holds the mandatory values and every truthy optional value in the matching columns |
| QueryFilter.Find | src/app/chart/chart.service.ts:37-42 | `find({ where })` keeps exactly the rows that satisfy every equality: each such row as often as the table holds it, every other row never, and no more rows than it was given |
| QueryFilter.FindNarrows | src/app/chart/chart.service.ts:23-42 | searching with a condition map that extends another equals searching the first result again |
| QueryFilter.MoreFiltersNarrow | src/app/chart/chart.service.ts:23-42 | setting one more optional parameter never adds rows: the result is a subset, no longer, and equal to refining the coarser result |
| ChartService.ToDto | src/app/chart/chart.service.ts:51-67 | one DTO per entity, in order, every exposed field copied; external_id is undefined because the entity has no such column |
| ChartService.ToDtoConcat | src/app/chart/chart.service.ts:52-65 | the projection is element-wise: it distributes over concatenation |
| ChartService.HiddenFieldsNotExposed | src/app/chart/chart.service.ts:54-63 | entities that differ only in id, created_at, updated_at or transaction_type give identical DTOs |
| ChartService.FindByParams | src/app/chart/chart.service.ts:13-49 | fails with "Chart not found" exactly when the repository answers null; otherwise returns the projection of the matching rows (empty when none match) |
| ChartService.EntityMatchesQuery | src/app/chart/chart.service.ts:17-42 | a chart entity matching the where-condition has the query's values in its fields |
| ChartService.ResultsSatisfyQuery | src/app/chart/chart.service.ts:17-48 | every returned DTO comes from a stored row and carries the requested analysis, country, state and every truthy optional value |
| ReportService.ToDto | src/app/report/report.service.ts:51-67 | one DTO per entity, in order, every field including external_id copied |
| ReportService.ToDtoInjective | src/app/report/report.service.ts:52-65 | for the modelled report entity, whose fields are exactly those toDTO reads, the projection loses nothing: different entity lists give different DTO lists |
| ReportService.FindByParams | src/app/report/report.service.ts:13-49 | fails with "Report not found" exactly when the repository answers null; otherwise returns the projection of the matching rows |
| ReportService.EntityMatchesQuery | src/app/report/report.service.ts:17-42 | a report entity matching the where-condition has the query's values in its fields |
| ReportService.ResultsSatisfyQuery | src/app/report/report.service.ts:17-48 | every returned DTO comes from a stored row and carries the requested values |
| UpdateCountries.ManualCodesAreAlpha2 | src/db/update_countries.py:6-28 | every value of the manual table is two upper-case letters |
| UpdateCountries.CountRewritten | src/db/update_countries.py:45-70 | the count is at most one per row |
| UpdateCountries.SelectCandidates | src/db/update_countries.py:37-42 | the SELECT returns no more pairs than there are rows |
| UpdateCountries.SelectedFrom | src/db/update_countries.py:37-42 | every fetched pair is the (id, country) of a row whose country is longer than two characters or all digits |
| UpdateCountries.CandidateSelected | src/db/update_countries.py:37-42 | every such row is fetched |
| UpdateCountries.SelectedIdsDistinct | src/db/update_countries.py:37-42 | since id is the primary key, the fetched ids are distinct |
| UpdateCountries.CountResolvable | src/db/update_countries.py:45-70 | the number of fetched names that resolve is at most the number fetched |
| UpdateCountries.CountResolvableSnoc | src/db/update_countries.py:46-70 | the counter grows by one exactly for a pair that resolves |
| UpdateCountries.CountSelected | src/db/update_countries.py:45-70 | counting resolvable fetched pairs is counting the rows the script rewrites |
| UpdateCountries.WithCountry | src/db/update_countries.py:64-69 | the UPDATE by id changes the country of the row with that id and of no other row |
| UpdateCountries.SetCountryById | src/db/update_countries.py:64-69 | the in-place UPDATE leaves the table equal to that image |
| UpdateCountries.ProcessNext | src/db/update_countries.py:46-70 | handling the next fetched pair normalises exactly its row and keeps the earlier rows normalised |
| UpdateCountries.UpdateCountryCodes | src/db/update_countries.py:30-74 | after the loop every row is its normalised self and the returned count is the number of rewritten rows |
| UpdateCountries.ResolutionCases | src/db/update_countries.py:46-61 | rows not selected stay; all-digit countries become BR; otherwise the manual table wins over the library; unknown names stay and are not counted; id and state never change |
| UpdateCountries.NormaliseTable | src/db/update_countries.py:46-70 | the table after the script is the row-wise normalisation |
| UpdateCountries.RewrittenRowIsFinal | src/db/update_countries.py:39 | a rewritten row holds a two-letter code, which the SELECT no longer returns, so normalising is idempotent per row |
| UpdateCountries.SecondRunRewritesNothing | src/db/update_countries.py:30-74 | running the script again rewrites nothing and counts zero |
| UpdateCountries.RewrittenRowChanges | src/db/update_countries.py:50-70 | a row is counted if and only if its content changes |
| PyDict.Keys | src/db/update_state.py:14 | one key per entry, in iteration order |
| PyDict.Get | src/db/update_state.py:14 | a lookup succeeds exactly for keys present |
| PyDict.PutGet | src/db/update_state.py:14 | after `d[k] = v`, k maps to v and every other key keeps its value |
| PyDict.PutKeys | src/db/update_state.py:14 | assigning an existing key keeps the key order; a new key is appended |
| PyDict.PutDistinct | src/db/update_state.py:14 | assignment keeps keys distinct |
| UpdateState.LoadGeocodeMapping | src/db/update_state.py:4-15 | the loop builds exactly the mapping: header skipped, stripped column 0 to stripped column 1, or the error the file raises |
| UpdateState.HeaderIgnored | src/db/update_state.py:9 | the header row's content never affects the mapping |
| UpdateState.LoadFromSucceeds | src/db/update_state.py:11-14 | loading succeeds when every data row has two fields |
| UpdateState.LoadFromFailsAtFirstShortRow | src/db/update_state.py:12-13 | otherwise it fails at the first short row, reporting that row's position |
| UpdateState.LoadedRowsAreLongEnough | src/db/update_state.py:11-14 | a successful load has seen only rows with two fields |
| UpdateState.LoadFromUntouched | src/db/update_state.py:14 | a geocode no row names keeps its earlier value |
| UpdateState.LoadFromLastWins | src/db/update_state.py:14 | the last row naming a geocode decides its state |
| UpdateState.MappingLastRowWins | src/db/update_state.py:4-15 | in the loaded mapping a geocode maps to the state of the last row naming it, and a geocode no row names is absent |
| UpdateState.LoadFromDistinct | src/db/update_state.py:6-14 | the loaded mapping has distinct keys |
| UpdateState.RewriteAllConcat | src/db/update_state.py:27-38 | running one batch of UPDATEs and then another equals running them as one sequence |
| UpdateState.UnmatchedStateUntouched | src/db/update_state.py:28-33 | a state equal to no geocode, NULL included, is never changed |
| UpdateState.NoCorrectedCodeLeft | src/db/update_state.py:35-38 | after the corrections no row holds state '1' or '34' |
| UpdateState.SetStateWhere | src/db/update_state.py:38 | `UPDATE ... SET state = to WHERE state = from` rewrites exactly the rows holding `from` |
| UpdateState.ApplyRewrites | src/db/update_state.py:27-33 | one UPDATE per pair, in the dict's order, gives every row its sequentially rewritten state |
| UpdateState.InvalidStates | src/db/update_state.py:45-51 | the check query returns exactly the distinct states that are numeric or NULL |
| UpdateState.UpdateStates | src/db/update_state.py:17-58 | a load error leaves the table unchanged; otherwise every row's state is rewritten by the mapping and then the corrections, and the invalid states of the new table are reported |
| AddHeader.SpaceRun | add-header.js:13 | `\s*` takes the longest run of whitespace |
| AddHeader.LineRun | add-header.js:13 | `.*` takes the longest run without line terminators |
| AddHeader.CommentLine | add-header.js:13 | a match of the group `\s*\/\/.*\n` is at least three characters long and lies inside the text |
| AddHeader.CommentLineAt | add-header.js:13 | for whitespace, `//`, text without terminators and one terminator, `\s*` takes exactly the whitespace, and the line matches exactly when the terminator is `\n`, with its full length |
| AddHeader.CommentLineShape | add-header.js:13 | the same for text built as whitespace + `//` + text + terminator + rest |
| AddHeader.StripLeading | add-header.js:13-15 | the stripped text is a suffix of the input, starts with no whitespace and with no complete comment line |
| AddHeader.StripLeadingFixedPoint | add-header.js:13-15 | text that starts with neither whitespace nor a complete comment line is left unchanged |
| AddHeader.CommentLineText | add-header.js:13 | the line a match takes is whitespace, `//`, text without terminators and `\n` |
| AddHeader.LeadingCommentLines | add-header.js:13 | the repeated group takes consecutive comment lines from the start, each a whole comment line, and stops where no comment line follows |
| AddHeader.StripAfterLines | add-header.js:13-15 | once no comment line starts the text, only the leading whitespace is removed |
| AddHeader.StripLeadingRemovedLength | add-header.js:13-15 | the strip removes exactly the leading comment lines and then the whitespace after them (length form) |
| AddHeader.StripLeadingRemovesLines | add-header.js:13-15 | the stripped text is the input from the end of the leading comment lines and the whitespace after them on |
| AddHeader.RemovedSuffix | add-header.js:13-15 | once the stripped length is known to be the comment lines plus the whitespace run, the stripped text is exactly the input after them |
| AddHeader.LineRunStopsAt | add-header.js:13 | `.*` stops at the first line terminator |
| AddHeader.StripRemovesCommentLine | add-header.js:12-15 | a leading line of whitespace, `//`, any text and `\n` is removed whatever it says |
| AddHeader.CrlfCommentLineKept | add-header.js:13-15 | for any whitespace and any text without terminators, a comment line ended by `\r\n` is kept and only the whitespace before it is removed, since `.` does not match `\r` |
| AddHeader.LineAfterSpacesKept | add-header.js:13-15 | whitespace followed by a `//` line ended by a terminator other than `\n`: only the whitespace is removed |
| AddHeader.StripNewlineThen | add-header.js:13-27 | a newline in front of already stripped text is removed again |
| AddHeader.NormalizePath | add-header.js:18 | every backslash becomes `/`, every other character is kept, and the length is unchanged |
| AddHeader.AddHeaderToFile | add-header.js:5-37 | nothing is written when the stripped text starts with the header; a write holds newline, header, blank line and stripped text, and differs from the old content |
| AddHeader.StripHeaderLine | add-header.js:13-27 | the header line the script writes, when it holds no line terminator, is a complete comment line and is stripped with its newline |
| AddHeader.StripOwnOutputSingleLine | add-header.js:13-27 | stripping the script's output gives back the stripped text |
| AddHeader.StripOwnOutputMultiLine | add-header.js:13-27 | with a path holding `\r`, U+2028 or U+2029 the stripped output still starts with the header |
| AddHeader.AddHeaderIdempotent | add-header.js:5-37 | running the script on its own output writes nothing (for paths without a newline) |
| AddHeader.NewlineInPathNotIdempotent | add-header.js:13-30 | with a newline in the path (the character after it neither whitespace nor a slash), the strip removes only the header's first line, and a second run writes again |
| Health.RemoveSchemes | src/app/health/health.service.ts:68-69 | removing the patterns never lengthens the text |
| Health.RemoveSchemesKeepsFirst | src/app/health/health.service.ts:69 | where no alternative starts, the character is kept and the scan moves on by one |
| Health.Alternative | src/app/health/health.service.ts:69 | where an alternative matches, "https://" is tried before "http://", and the one returned is a prefix of the text |
| Health.Scan | src/app/health/health.service.ts:69 | the text splits into kept characters and cut occurrences that cover it in order; every cut is an alternative, and no alternative starts at a kept character |
| Health.RemoveSchemesDeletesOccurrences | src/app/health/health.service.ts:69 | the result is the input with exactly the scanned occurrences deleted |
| Health.RemoveSchemesDropsPrefix | src/app/health/health.service.ts:69 | a leading "http://", "https://" or "www." is removed entirely |
| Health.RemoveSchemesPatternFree | src/app/health/health.service.ts:69 | text in which no pattern occurs is unchanged |
| Health.RemoveSchemesKeeps | src/app/health/health.service.ts:69 | a character other than 'h' and 'w' is kept and the scan moves past it |
| Health.RemoveSchemesKeepsAll | src/app/health/health.service.ts:69 | text without 'h' and 'w' passes through unchanged |
| Health.RemoveSchemesSinglePass | src/app/health/health.service.ts:69 | the global replace is one left-to-right pass: a removal can join a new "http://" that stays |
| Health.Sanitise | src/app/health/health.service.ts:70 | same length; each alphanumeric character kept in place; every other character becomes `_` |
| Health.SanitiseIdempotent | src/app/health/health.service.ts:70 | sanitising a sanitised key changes nothing |
| Health.DeriveKey | src/app/health/health.service.ts:68-70 | the key is no longer than the URL and made only of ASCII letters, digits and `_` |
| Health.DeriveKeyIgnoresPrefix | src/app/health/health.service.ts:68-70 | a leading scheme or "www." does not change the key |
| Health.IsHealthy | src/app/health/health.service.ts:57-84 | as written: null exactly when the app is not ready; up exactly for a decoded URL answered with 200 whose response the log can serialise, with no message; a serialisation error of the 200 log is reported down with its message; "Status code N" for other statuses; the thrown message otherwise; key "undefined" when decoding fails |
| Health.LoggedSafely | src/app/health/health.service.ts:71-73 | the same probe with a log that cannot fail: same kind and status |
| Health.IsHealthyIntended | src/app/health/health.service.ts:57-84 | as intended: null exactly when not ready; up exactly for a decoded URL answered with 200, with no message; otherwise the status or thrown message, under the derived key |
| Health.LoggingFailureReportsDown | src/app/health/health.service.ts:72-74 | a 200 answer whose log fails is down as written and up as intended |
| Health.IsHealthyAsIntendedOtherwise | src/app/health/health.service.ts:57-84 | on every other probe the two agree |
| Health.ResultKeyIsSanitised | src/app/health/health.service.ts:65-82 | whenever the URL decodes, the result's key is made of letters, digits and `_` |
| Health.StatusMessageNamesStatus | src/app/health/health.service.ts:76-78 | the number in a "Status code N" message reads back as the status |

## Left out

- Database connections, cursors, commits and the `try`/`finally` around them are not modelled. Logging and console output are not modelled either. Each script is modelled as its effect on the table.
- `updated_at = NOW()` in update_countries.py (line 66) is not modelled: it reads the clock. `TableRow` holds only id, country and state.
- The iso3166 library is a parameter: a map from stripped names to alpha-2 codes. A name it does not know stands for the `KeyError`. `LibraryIsAlpha2` is an assumption about that library; it is not proved.
- `str.isdigit()` and the SQL `~ '^[0-9]+$'` are modelled as non-empty ASCII digit strings. Python's Unicode digits outside ASCII are left out.
- The CSV reader is not modelled. update_state.py's input is the list of rows `csv.reader` yields, and reading the file is left out.
- The repository's `find` returns rows in table order. SQL without ORDER BY promises no order, so order facts about `Find` go beyond the database.
- `period` is compared as a string. The date column's own conversions are not modelled.
- src/app/entities/report.ts is not part of this model. `ReportEntity` holds exactly the fields `toDTO` reads.
- `decodeURIComponent` is not modelled. Its outcome is a parameter, and the HTTP request's outcome is a parameter too (`Probe`). axios' `validateStatus` is therefore not modelled either.
- Health.IsHealthy: cannot state that no request is made when the app is not ready, because the request is a parameter. It only states that the probe's outcome does not affect the null result.
- The `checkMe`, `checkEndpointSessionTokenURL` and `verifyEndpointSessionHealthCheck` health checks are left out. They only combine Terminus indicators.
- add-header.js's directory walk, file reading and file writing are left out. JavaScript strings are modelled as sequences of code points, not UTF-16 code units.
- AddHeader.AddHeaderIdempotent: requires a path without `\n`. A path with a newline splits the header line: the strip removes only its first line, so the output is not a fixed point. `NewlineInPathNotIdempotent` proves this for a newline followed by a character that is neither whitespace nor a slash; other such paths are not covered.
- QueryFilter.Query: `analysis`, `country` and `state` are always-present strings here. src/app/report/report.controller.ts:70-79 passes the `@Query` values to `findByParams` unchecked, so an absent parameter reaches the where-object of src/app/report/report.service.ts:17-21 as `undefined`. How the ORM treats an `undefined` equality is not modelled.
- Health.Sanitise: works on code points. Without the `u` flag, `/[^a-zA-Z0-9]/g` replaces each UTF-16 code unit, so a character outside the Basic Multilingual Plane becomes "__" in the source and "_" here; the key length then differs.
- Health.IsHealthy: the outcome of `JSON.stringify(response)` in the log call is a parameter of the probe (`logFailure`), not derived from the response object.

## Findings

| source | as written | input that shows it | evidently intended | confidence | as-written member | corrected member |
|---|---|---|---|---|---|---|
| src/app/health/health.service.ts:72-74, 80-82 | a 200 answer is logged with `JSON.stringify(response)` before `up` is returned; an exception there is caught and reported as down | an axios response, which holds the circular request and socket objects, so `JSON.stringify` throws a TypeError | a 200 answer is up | high; not executed | Health.LoggingFailureReportsDown | Health.IsHealthyIntended |
