# Investment dashboard core, modelled in Dafny

This project models the logic core of a browser dashboard that tracks personal
investments against a small REST store (`app.js`). The dashboard keeps one
master list of investment records in memory. It talks to the store through a
client that tries a list of hosts in order and remembers the last one that
answered. After every successful change it filters the list and computes
summary totals and chart data for the records on screen.

What is modelled, module by module:

- `Investments` (`investments.dfy`): the investment record, `safeNumber`,
  `computeROI` and `computeSummary`. Amounts are mathematical reals. An amount
  is `Option<real>`, where `None` stands for a field that `Number(...)` turns
  into NaN or an infinity. Negative amounts are allowed, as in the source.
- `Filters` (`filters.dfy`): `applyFilters` with its four inputs passed as a
  `Criteria` value. A date is `Option<int>`, where `None` is an Invalid Date.
- `Text` (`text.dfy`): the JavaScript `trim` (ECMAScript white space and line
  terminators), `toLowerCase` on ASCII letters, and `includes`.
- `Lists` (`lists.dfy`): the generic `filter` (stable, order-preserving) and
  the `reduce` sum (a left fold from zero) that the other modules use.
- `Client` (`client.dfy`): the class `App`. It holds the source's
  module-level state as fields: `apiBase`, `investments` and `lastApiError`.
  Its methods are `fetchWithFallback` (a loop over the candidate hosts),
  `fetchInvestments`, `addInvestment`, `updateInvestment` (with the
  `findIndex` loop), `deleteInvestment`, the table's click handler and the
  create form's submit handler. The network is a function from host to reply
  (a status code, or unreachable). The JSON body that `res.json()` would read
  is a parameter, `None` when it does not parse. Every method returns the
  hosts it contacted, so "no request was sent" is stated as `tried == []`.
- `Forms` (`forms.dfy`): the create form's required-field check and
  `collectRowPatch`.
- `Markup` (`markup.dfy`): `escapeAttr`, `escapeHtml` (as written, and as
  intended; see Findings) and `categorySelect`.
- `Charts` (`charts.dfy`): `groupBy`, the category labels, and the
  per-category sums behind the two charts.
- `Wrappers` (`wrappers.dfy`): the `Option` and `Result` datatypes.

Behaviour worth noting, as the code has it:

- Amounts are not clamped at zero. `safeNumber` keeps negative numbers.
- A failed load leaves the master list as it was. It does not empty the list.
- `updateInvestment` replaces only the first record with a matching id.
  `deleteInvestment` removes every record with that id.
- On total failure the client raises the last attempt's error itself, not a
  separate "network unavailable" error.

## Model

| member | source | states |
|---|---|---|
| `Investments.SafeNumber` | app.js:32-35 | a finite number is returned unchanged (negatives included); NaN or an infinity becomes 0 |
| `Investments.ComputeROI` | app.js:37-42 | ROI is 0 when the coerced amount invested is ≤ 0; otherwise ROI × invested = (current − invested) × 100 |
| `Investments.ROISign` | app.js:37-42 | with a positive stake, ROI ≥ 0 exactly when current ≥ invested, and ROI = 0 exactly when they are equal |
| `Investments.ROIAtLeastMinus100` | app.js:37-42 | a record whose current value is not negative never shows a loss beyond −100 % |
| `Investments.ComputeSummary` | app.js:44-55 | invested and current are the sums of the `safeNumber`-coerced fields; net = current − invested; roi = 0 when total invested ≤ 0, else roi × invested = net × 100 |
| `Investments.SummaryOfEmpty` | app.js:44-55 | the empty list gives all-zero totals |
| `Investments.SummaryAppend` | app.js:44-51 | invested, current and net totals are additive over list concatenation |
| `Investments.SummaryOfOne` | app.js:37-55 | the summary of one record has that record's amounts and its `computeROI` |
| `Investments.SummaryExample` | app.js:44-55 | records (100 → 150) and (200 → 150) summarise to 300 / 300 / net 0 / ROI 0 |
| `Lists.KeepMembers` | app.js:84-94 | `filter` keeps an element exactly when it is in the input and satisfies the callback |
| `Lists.KeepIsSubsequence` | app.js:84-94 | `filter` returns an order-preserving subsequence of its input |
| `Lists.Keep` | app.js:84-94 | the callback `filter`: never longer than its input, and every element kept is from the input and passes the callback |
| `Lists.SumOf` | app.js:45-51 | the `reduce` sum from zero: a sum of non-negative amounts is non-negative |
| `Text.TrimStart` | app.js:79 | removes exactly the leading white space: the result is a suffix of the input, everything dropped is white space, and it does not start with white space |
| `Text.TrimEnd` | app.js:79 | removes exactly the trailing white space: the result is a prefix of the input, everything dropped is white space, and it does not end with white space |
| `Text.Trim` | app.js:259 | the trimmed text is no longer than the input and neither starts nor ends with white space |
| `Text.TrimIsSlice` | app.js:259 | the trimmed text is a contiguous slice with only white space cut off both ends; it is empty exactly when the input is all white space |
| `Text.TrimIdempotent` | app.js:79 | trimming twice is trimming once |
| `Text.ToLower` | app.js:87 | same length; each character is lower-cased on its own |
| `Text.ToLowerIdempotent` | app.js:79 | lower-casing twice is lower-casing once |
| `Text.TrimToLower` | app.js:79 | trimming and lower-casing commute: case never affects what `trim` removes |
| `Text.Contains` | app.js:88 | `includes`: the empty needle is found in any text, and a found needle is no longer than the text |
| `Filters.ApplyFilters` | app.js:78-95 | the filtered view is never longer than the list |
| `Filters.Matches` | app.js:84-94 | the `filter` callback: starts from `ok = true` and lets each active criterion (search, category, from, to) turn it false; its meaning is stated by `Filters.MatchesIff` |
| `Filters.MatchesIff` | app.js:84-94 | a record passes exactly when it meets every active criterion: substring of the lower-cased "name notes" text, exact category, date ≥ from, date ≤ to |
| `Filters.QueryCaseInsensitive` | app.js:79-88 | two search texts that agree after lower-casing select exactly the same records |
| `Filters.LowerCaseQuery` | app.js:79 | typing the search in lower case selects the same records |
| `Filters.RecordCaseInsensitive` | app.js:87-88 | records whose name and notes agree after lower-casing (and with the same category and date) pass or fail together |
| `Filters.ApplyFiltersSpec` | app.js:78-95 | the result is an order-preserving subsequence of the input and holds exactly the records that match |
| `Filters.ApplyFiltersAppend` | app.js:84-94 | filtering distributes over concatenation |
| `Filters.NoCriteriaIsIdentity` | app.js:79-93 | with a blank or all-white-space search, no category and no dates, the list comes back unchanged |
| `Filters.ApplyFiltersIdempotent` | app.js:78-95 | applying the filters twice is applying them once |
| `Filters.InvalidDateFailsBounds` | app.js:91-92 | a record whose date does not parse fails whenever a date bound is set |
| `Filters.InvalidBoundShowsNothing` | app.js:81-92 | a date input that does not parse sets a bound that no record meets, so the view is empty |
| `Client.CandidateHostsSpec` | app.js:58 | the candidates are the remembered host, then the configured hosts without it in order, or the configured hosts alone; they include every configured host and have no duplicates when the configured hosts have none |
| `Client.CandidateHosts` | app.js:58 | never empty when hosts are configured, at most one more than the configured hosts, and made only of configured hosts and the remembered one |
| `Client.Fallback` | app.js:57-72 | a success names a host of the list whose reply is ok; a failure carries an attempt's HTTP or network error, or the initial error when no host was tried |
| `Client.TriedHostsSpec` | app.js:59-70 | the hosts contacted are a prefix of the candidates that ends at the host that answered, after only failed ones; on failure they are all the candidates |
| `Client.FallbackSpec` | app.js:57-72 | the fallback succeeds with the first host whose reply is ok, after every earlier host failed; it fails exactly when no host is ok, with the last attempt's error |
| `Client.FallbackToSecondHost` | app.js:57-66 | with the first configured host down and the second up, the call succeeds on the second, which then heads the next call's candidate list |
| `Client.App.FetchWithFallback` | app.js:57-72 | the loop gives exactly `Fallback` over the candidate list; it contacts exactly the hosts up to and including the first ok one (at least one); it remembers the host that answered, and keeps the old host when every host failed |
| `Client.App.constructor` | app.js:4 | a stored empty host counts as no host; the list starts empty with no error |
| `Client.App.FetchInvestments` | app.js:97-108 | contacts the same hosts and remembers the same host as `fetchWithFallback`; when a host answers and the body parses, the list becomes the body and the error is cleared; otherwise the list is unchanged and the error is the store error or the parse error |
| `Client.App.AddInvestment` | app.js:110-120 | the payload's amounts are `safeNumber`-coerced; the request is always sent; the result is the created record exactly when a host answers and the body parses, else the store error or the parse error; on success that record is appended, otherwise the list is unchanged; the answering host is remembered |
| `Client.FirstIndex` | app.js:129 | the first index whose record has the id, or −1 when no record has it |
| `Client.FindIndex` | app.js:129 | the loop returns the first index whose record has the id, or −1 when none does |
| `Client.App.UpdateInvestment` | app.js:122-132 | the request is always sent, with the given patch as its body; the result is the store's record exactly when a host answers and the body parses; on success the first record with the id is replaced by it, otherwise the list is unchanged; the answering host is remembered |
| `Client.ReplaceFirstSpec` | app.js:129-130 | update keeps the length, puts the new record at the first index with the id, changes no other index, and is a no-op when no record has it |
| `Client.ReplaceFirst` | app.js:129-130 | the list after an update keeps its length, and an index that changed held a record with the id and now holds the new record |
| `Client.App.DeleteInvestment` | app.js:134-137 | the request is always sent; it succeeds exactly when some host answers; on success every record with the id is removed, otherwise the list is unchanged; the answering host is remembered |
| `Client.RemoveIdSpec` | app.js:136 | delete keeps exactly the records with another id, in their order and with their multiplicity: every copy of such a record survives and no record with the id does |
| `Client.RemoveIdCounts` | app.js:136 | each record with another id occurs in the result as often as in the list; a record with the id does not occur |
| `Client.RemoveId` | app.js:136 | the list after a delete is no longer, and every record left is from the list and has another id |
| `Client.DuplicateIdAsymmetry` | app.js:129-136 | with a duplicated id, update changes only the first copy while delete removes both |
| `Client.App.HandleRowClick` | app.js:180-212 | a declined delete, Edit and Cancel send no request and change nothing; a save that fails validation sends no request, changes nothing and alerts; a valid save sends exactly `collectRowPatch`'s trimmed, coerced patch; a confirmed delete or a valid save always sends the request, refreshes exactly when the store call succeeds (for a save: and the body parses), alerts with the error otherwise, and leaves the list and the remembered host as the store call does |
| `Client.App.SubmitCreateForm` | app.js:362-379 | a missing name, category or date alerts and sends no request; otherwise the POST is always sent with the coerced payload of the form's fields as its body, the form refreshes exactly when a host answers and the body parses (the created record is then appended), and alerts with the error otherwise, leaving the list unchanged |
| `Forms.CreatePayload` | app.js:111 | the payload keeps the form's text fields and carries both amounts through `safeNumber`, so an unparsable amount is sent as 0 |
| `Forms.CollectRowPatch` | app.js:258-267 | fails exactly when the trimmed name, the category or the date is empty; otherwise returns the trimmed name, the other text fields as read and the coerced amounts |
| `Forms.RowPatchNameTrimmed` | app.js:259 | an accepted patch has a non-empty name with no white space at either end |
| `Forms.WhiteSpaceNameAsymmetry` | app.js:367 | a name of white space only passes the create form's check but is rejected when a row is saved |
| `Forms.RowCheckStricter` | app.js:367 | every row that passes the save check also passes the create check |
| `Forms.CreateFieldsFilled` | app.js:367 | the create form's check: name, category and date are all non-empty, with white space counting as filled (see `Forms.WhiteSpaceNameAsymmetry`) |
| `Markup.EscapeAttr` | app.js:340-342 | the output contains none of `"`, `'`, `<`, `>` and is at least as long as the input |
| `Markup.EscapeAttrRoundTrip` | app.js:340-342 | decoding the five entities in the output gives back the input, so every other character is copied in order and each special becomes its entity |
| `Markup.EscapeAttrAppend` | app.js:341 | the replacement works one character at a time: it distributes over concatenation |
| `Markup.EscapeAttrPlain` | app.js:341 | text without special characters is returned unchanged |
| `Markup.HtmlRun` | app.js:338 | the length of the maximal run of `& < > "` at the front, which is what the regex matches there |
| `Markup.EscapeHtml` | app.js:337-339 | `escapeHtml` as written, one regex match at a time: the output is empty exactly when the input is |
| `Markup.EscapeHtmlSafe` | app.js:337-339 | whatever the input, the output of `escapeHtml` as written never contains `<`, `>` or `"` |
| `Markup.EscapeHtmlAppend` | app.js:338 | splitting the input at a point that is not inside a run of specials splits the output |
| `Markup.EscapeHtmlLone` | app.js:338 | a lone `& < > "` between ordinary characters is replaced by its entity |
| `Markup.EscapeHtmlRun` | app.js:338 | a run of two or more adjacent specials is replaced by the text "undefined" |
| `Markup.EscapeHtmlKeepsApostrophe` | app.js:338 | `'` is not escaped |
| `Markup.EscapeHtmlPlain` | app.js:338 | text with none of `& < > "` passes through unchanged |
| `Markup.EscapeHtmlRunCounterexample` | app.js:338 | "<<" and "&&" both come out as "undefined"; the corrected escaping gives "&lt;&lt;" and "&amp;&amp;" |
| `Markup.EscapeHtmlIntended` | app.js:337-339 | the corrected escaping never outputs `<`, `>` or `"` |
| `Markup.EscapeHtmlIntendedRoundTrip` | app.js:337-339 | the corrected escaping loses nothing: decoding its output gives back the input |
| `Markup.CategorySelect` | app.js:269-273 | the markup is a select element of class `edt-category` |
| `Markup.OptionTag` | app.js:271 | an option tag starts `<option selected>` exactly when its category equals the selected one |
| `Markup.JoinOptions` | app.js:270-271 | the joined options are empty exactly when there are no categories |
| `Markup.JoinOptionsSpec` | app.js:270-271 | the options are one tag per category, in the fixed order |
| `Markup.CategorySelectMarks` | app.js:269-273 | an option is marked `selected` exactly when it equals `sel`; a value outside the list marks none |
| `Charts.GroupBySpec` | app.js:329-335 | the group of a key holds exactly the elements with that key, in input order, and a key has a group exactly when some element has that key |
| `Charts.GroupByMember` | app.js:329-335 | every element is in the group of its own key and in no other group |
| `Charts.GroupBy` | app.js:329-335 | every group is non-empty, and every element's key has a group |
| `Charts.GroupSizesAddUp` | app.js:329-335 | the group sizes add up to the input length |
| `Charts.Labels` | app.js:278 | the chart labels are exactly the group keys, with no repeats |
| `Charts.GroupTotals` | app.js:279 | one total per label: the sum of that label's group |
| `Charts.CategoryValues` | app.js:277-279 | one value per category label: the sum of the current values of the records in that category |
| `Charts.CategoryNets` | app.js:303-306 | one value per category label: the sum of the net gains of the records in that category |
| `Charts.CategoryTotalsAddUp` | app.js:277-306 | for any per-record amount, the per-category totals add up to the total over the list |
| `Charts.CategoryValuesAddUp` | app.js:277-279 | the pie chart's per-category current values add up to `computeSummary(list).current` |
| `Charts.CategoryNetsAddUp` | app.js:303-306 | the bar chart's per-category net gains add up to `computeSummary(list).net` |

## Findings

| source | as written | input that shows it | evidently intended | confidence | as-written member | corrected member |
|---|---|---|---|---|---|---|
| app.js:338 | the regex `/[&<>"]+/g` matches whole runs of specials, but the lookup table has single-character keys, so a run of two or more becomes the text "undefined" | a name or notes containing `<<`, `&&` or `<>` | replace each special character by its own entity, as `escapeAttr` does | high; not executed | `Markup.EscapeHtmlRunCounterexample` | `Markup.EscapeHtmlIntended` |

The corrected escaping is proved lossless (`Markup.EscapeHtmlIntendedRoundTrip`).
In the source, `escapeHtml` is used only by the table rendering, which is
not modelled. So no other member depends on either version.

## Left out

- Rendering is not modelled: `renderTable`, `renderSummary`, `enterEditMode`, `exitEditMode` and `setYear` only write `innerHTML` or `textContent`. `exitEditMode` without `restore` does nothing. `refresh` is filter, then summary, then render; the filter and the summary are modelled.
- Chart construction, palette selection and CSS variable reads are calls into Chart.js and the browser. Only the grouping and the per-category sums are modelled.
- Currency formatting through `Intl.NumberFormat` and the `toFixed` in `pct` are locale and rounding behaviour, so they are not modelled.
- All arithmetic is on mathematical reals. IEEE-754 rounding is not modelled.
- `Number(...)` string parsing, `new Date(...)` parsing and `toISOString` are abstracted as already-parsed inputs (`Option<real>`, `Option<int>`).
- `Text.ToLower`: lower-cases only the ASCII letters A–Z, while JavaScript's `toLowerCase` also maps other Unicode letters.
- `Charts.Labels`: gives the keys in first-occurrence order. JavaScript's `Object.keys` lists integer-like keys (such as "42") first, in numeric order. Only the order of the chart labels differs; every sum is unaffected.
- `fetch`, `res.json()`, `JSON.stringify` and `localStorage` are I/O. Each host's reply and the parsed body are parameters. The saved host is a constructor argument. The `localStorage` write after a successful call is not modelled.
- Record ids are integers compared by value. The conversion `Number(row.dataset.id)` is not modelled. The source compares ids with `===`, so any id the store issues that is not a JavaScript number (a digit string such as "7" included) never equals the converted row id: update and delete then leave the local list unchanged, and the handler still refreshes; the model does not capture that case.
- A body from `GET /investments` that is not an array is outside the model, because the body parameter is typed as a list of records.
- `escapeHtml` and `escapeAttr` take strings. The `String(...)` conversion of other values (for example a numeric amount given to `escapeAttr`) is not modelled.
- async/await, event-listener registration (`bindForm`, `bindFilters`, `bindTableEvents`, `init`), `confirm` and `alert` are not modelled. The confirmation answer is a parameter. An alert is the `Alerted` outcome. The reset button only clears the four filter inputs.
- A click outside any row (`if (!row) return`) is not modelled. Every handled click names a row and one of its buttons.
- `refresh` can throw after a successful change, and the model does not capture this. The list has already changed, but the handler's `catch` then shows an alert. The model reports `Refreshed` in that case. Two inputs cause it. The first is a non-empty record date that does not parse: `toISOString` throws in the table rendering. The second is a category named after an `Object.prototype` member, such as "toString" or "constructor": the `||=` in `groupBy` finds the inherited member and `push` throws.
- `Charts.GroupBy`: treats every category as an ordinary map key. JavaScript's object lookup also sees inherited members and the special `__proto__` key, so such categories break grouping in the source (see the line above).
- A record with no name is modelled with the empty string as its name. The source builds the search text with a template literal, which turns a missing name into the text "undefined". A search for "undef" therefore matches such a record in the source but not in the model.
