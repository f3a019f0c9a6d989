# sis-timetracker invoicing core, in Dafny

A Dafny model of the invoicing logic of sis-timetracker, a small React/Supabase app
for freelancers: they log hours against projects, issue numbered invoices as PDFs,
and get reminded on billing days. The model covers these parts:

- **Billing calendar.**
  - `InvoiceReminder` models `isInvoiceDay` (src/utils/invoiceReminder.ts).
  - `InvoiceUtils` models `getNextCycleDate` and `getNextInvoiceDue` (src/utils/invoiceUtils.ts).
  - Both are built on `Calendar`, a proleptic Gregorian calendar. It numbers days from 0001-01-01. It models
    `setDate(getDate() + k)` as `AddDays` and `setMonth(getMonth() + 1)`, with JavaScript's overflow
    into the following month, as `AddMonthJs`.
- **Invoice numbers.**
  - `InvoiceNumber` is the `SIS-` + `padStart(4, '0')` format.
  - `InvoiceCounter` covers the three counters:
    - the backend service in its TypeScript version (src/services/invoiceService.ts);
    - the backend service in its JavaScript version (src/services/invoiceService.js);
    - the browser-storage counter (src/utils/invoice.js).
- **Invoice generation.**
  - `InvoiceSelection` is the entry filter and the totals.
  - `InvoiceForm` is `generateInvoice` of src/components/InvoiceForm.tsx: the field guard, number
    reservation, duplicate check, save and counter commit, as a trace of backend effects.
  - `InvoiceFormJsx` is the older form (src/components/InvoiceForm.jsx).
  - `RegenerateInvoice` is the regeneration dialog (src/components/RegenerateInvoiceModal.tsx).
  - `InvoicePdf` is the vertical layout of the PDF: breakdown pagination, closing block and page footers.
- **Lists and dashboards.**
  - `ListFilters` is the project / financial-year filters and the year options.
  - `CsvExport` is `exportCSV`.
  - `Dashboard` is the reminder effect and the cards of src/pages/RedesignedDashboard.tsx.
  - `RevenueChart` is the monthly revenue chart.
  - `ResetPassword` is the password-reset page's validation and update call.
- **Shared modules.**
  - `Records` holds the stored rows and the `find` lookups.
  - `Seqs` and `Text` hold generic sequence and string functions: filter, stable insertion sort, sums,
    dedup, decimal text, padding, split/join and string order.
  - `Wrappers` holds `Option`.

The browser's clock, the backend's responses and the text-metric results of the PDF library are inputs.
Each backend call appears in the model as the response it returned, and each operation returns the
effects it performs, in order.

Only the regeneration dialog's PDF paginates its breakdown (RegenerateInvoiceModal.tsx:245-252) and
moves the closing block to a new page when it starts too low (RegenerateInvoiceModal.tsx:263-266). The
form's PDF (InvoiceForm.tsx:235-283) does neither. Both draw the acknowledgement paragraph at a fixed
height, whatever the cursor. See Findings.

## Model

| member | source | states |
|---|---|---|
| InvoiceReminder.IsInvoiceDay | src/utils/invoiceReminder.ts:1-17 | a billing day is never before the start date, and only the cycles weekly, fortnightly and monthly ever fire |
| InvoiceReminder.WeeklyDays | src/utils/invoiceReminder.ts:7-8 | weekly billing fires exactly on the days a whole number of weeks after the start |
| InvoiceReminder.FortnightlyDays | src/utils/invoiceReminder.ts:9-10 | fortnightly billing fires exactly on the days a whole number of fortnights after the start |
| InvoiceReminder.FixedPeriodDays | src/utils/invoiceReminder.ts:2-10 | for a fixed period, a non-negative day difference divisible by the period is the same as some whole number of periods after the start |
| InvoiceReminder.FortnightlyIsWeekly | src/utils/invoiceReminder.ts:7-10 | every fortnightly billing day is also a weekly one |
| InvoiceReminder.MonthlyDays | src/utils/invoiceReminder.ts:4-13 | monthly billing fires exactly on the days, on or after the start, that share the start's day of the month |
| InvoiceReminder.StartDayFires | src/utils/invoiceReminder.ts:2-13 | on the start day every known cycle fires |
| InvoiceReminder.MonthlyMissesShortMonths | src/utils/invoiceReminder.ts:11-13 | a start on the 31st never fires in a month of 30 days or fewer |
| Calendar.AddDays | src/components/InvoiceForm.tsx:25 | moving a date by k days moves its day number by exactly k |
| Calendar.AddMonthJs | src/utils/invoiceUtils.ts:25 | `setMonth(getMonth() + 1)` advances by the length of the current month |
| Calendar.AddMonthJsLands | src/utils/invoiceUtils.ts:25 | it lands on the same day of the next month, or overflows into the month after when the next month is too short |
| InvoiceUtils.CycleStep | src/utils/invoiceUtils.ts:24-27 | one turn of the loop moves the date forward by 14 to 31 days |
| InvoiceUtils.NextCycleDate | src/utils/invoiceUtils.ts:22-30 | for monthly and fortnightly cycles the result is after today; for any other cycle, or a start after today, it is the start itself; it is never before the start |
| InvoiceUtils.BoundariesIncrease | src/utils/invoiceUtils.ts:24-27 | the successive dates the loop visits strictly increase |
| InvoiceUtils.FirstBoundaryAfter | src/utils/invoiceUtils.ts:22-30 | the result is the first boundary after today: every earlier boundary is on or before today |
| InvoiceUtils.FortnightlyNext | src/utils/invoiceUtils.ts:26 | for a start on or before today, the fortnightly result is a whole number of fortnights after the start and 1 to 14 days after today |
| InvoiceUtils.FortnightlyAgreesWithReminder | src/utils/invoiceUtils.ts:22-30 | today is a fortnightly invoice day for `isInvoiceDay` exactly when the next cycle date computed from yesterday is today |
| InvoiceUtils.MonthlyBoundariesAreInvoiceDays | src/utils/invoiceUtils.ts:25 | a monthly start on day 28 or earlier keeps its day of the month at every boundary, so `isInvoiceDay` fires on each boundary |
| InvoiceUtils.Upcoming | src/utils/invoiceUtils.ts:10-16 | no more reminders than projects: every billable project whose next cycle date is after today gives a reminder with that date, and every reminder comes from such a project |
| InvoiceUtils.UpcomingConcat | src/utils/invoiceUtils.ts:10-16 | the reminders keep the project list's order: those of two lists one after the other are those of the first, then those of the second, and a single project gives its own reminder or none |
| InvoiceUtils.NextInvoiceDueFirstListed | src/utils/invoiceUtils.ts:17-19 | ties go to the project listed first: the reminder returned is that of a listed billable project with a date after today, and every upcoming project (billable, next date after today) listed before it has a strictly later date |
| InvoiceUtils.NextInvoiceDue | src/utils/invoiceUtils.ts:3-20 | null exactly when nothing is upcoming; otherwise the first upcoming reminder with the minimal date, as a stable sort puts it first |
| InvoiceUtils.NextInvoiceDueIsSoonest | src/utils/invoiceUtils.ts:3-20 | null exactly when no billable project has a next date after today; otherwise a billable project's next date, after today, no later than any other billable project's next date after today |
| InvoiceUtils.NonAdvancingNeverDue | src/utils/invoiceUtils.ts:16-28 | a started weekly (or unknown-cycle) project is never reported, because its date stays on or before today |
| Seqs.SortBy | src/utils/invoiceUtils.ts:17 | the sorted list is ordered by due day, has the same length and the same elements |
| Seqs.SortByPermutes | src/utils/invoiceUtils.ts:17 | the sorted list is a permutation of the input |
| Seqs.SortHeadIsFirstMinimal | src/utils/invoiceUtils.ts:17-19 | the head of the stable sort is the earliest element with the minimal key |
| InvoiceNumber.FormatShape | src/utils/invoice.js:4 | an invoice number is `SIS-` plus at least four characters and never `SIS-ERROR`; for n ≥ 0 the tail is digits that read back as n; below 10000 it is 8 characters; from 1000 on the digits are unpadded |
| InvoiceNumber.PaddedDigits | src/services/invoiceService.ts:22 | padding a non-negative number keeps its value, gives four digits below 10000 and adds nothing from 1000 on |
| InvoiceNumber.FormatInjective | src/services/invoiceService.ts:22 | different non-negative counter values give different invoice numbers |
| InvoiceNumber.FormatOne | src/utils/invoice.js:4 | the first number is `SIS-0001` |
| InvoiceNumber.FormatFiveDigits | src/services/invoiceService.ts:22 | a five-digit counter keeps all its digits: `SIS-12345` |
| InvoiceCounter.TextIsSentinelOnFailure | src/services/invoiceService.ts:16-33 | the returned string is `SIS-ERROR` exactly when the call failed |
| InvoiceCounter.GetNextInvoiceNumber | src/services/invoiceService.ts:8-37 | a failed or empty fetch returns the error sentinel and writes nothing; a number is returned exactly when fetch and update both succeed, and it is counter + 1; the TypeScript service stores counter + 1 and the JavaScript one counter + 2 |
| InvoiceCounter.ReserveInSequence | src/services/invoiceService.ts:21-28 | n successful calls in a row return strictly increasing numbers spaced by the service's stride, and leave the counter n strides on |
| InvoiceCounter.TextsDistinct | src/services/invoiceService.ts:22-36 | strictly increasing non-negative numbers give pairwise different invoice numbers |
| InvoiceCounter.TsConsecutive | src/services/invoiceService.ts:21-28 | two successful calls return counter + 1 and counter + 2 |
| InvoiceCounter.JsSkipsNumbers | src/services/invoiceService.js:16-22 | two successful calls return counter + 1 and counter + 3, and no later call from the same run ever returns counter + 2 |
| InvoiceCounter.LocalFirstNumber | src/utils/invoice.js:2-4 | with nothing stored, `LocalNextInvoiceNumber` gives `SIS-0001` and stores 2 |
| InvoiceCounter.LocalInSequence | src/utils/invoice.js:1-5 | n calls of `LocalNextInvoiceNumber` return consecutive numbers from the stored value on (from 1 when nothing is stored) and leave the stored value n higher |
| InvoiceSelection.DefaultRange | src/components/InvoiceForm.tsx:22-26 | the default range runs from 13 days before today to today |
| InvoiceSelection.DefaultRangeIsFourteenDays | src/components/InvoiceForm.tsx:22-26 | a date lies in the default range exactly when it is one of the fourteen days ending today |
| InvoiceSelection.SelectEntries | src/components/InvoiceForm.tsx:42-50 | an entry is selected exactly when it belongs to the project and its date lies in the inclusive range; an empty date field selects nothing |
| InvoiceSelection.SelectionCounts | src/components/InvoiceForm.tsx:42-50 | the selection holds every copy of a selected entry and no copy of any other |
| InvoiceSelection.SelectionKeepsOrder | src/components/InvoiceForm.tsx:42-50 | selecting from two lists one after the other is selecting from their concatenation |
| InvoiceSelection.AmountIsSumOfLines | src/components/InvoiceForm.tsx:52-53 | the amount is the sum over the selected entries of hours times rate |
| InvoiceSelection.TotalsNonNegative | src/components/InvoiceForm.tsx:52-53 | with no negative hours and a non-negative rate, both totals are non-negative |
| InvoiceSelection.ProjectRate | src/components/RegenerateInvoiceModal.tsx:60 | the project's rate, or 0 when there is no project |
| InvoiceSelection.RangeSplit | src/components/InvoiceForm.tsx:42-53 | the hours of a range are the hours of its two halves split at any day |
| Records.FindProject | src/components/InvoiceForm.tsx:33 | the found project is in the list with that id; none exactly when no project has the id |
| Records.FindProjectFirst | src/components/InvoiceForm.tsx:33 | the found project is the first one listed with that id |
| Records.FindClient | src/components/InvoiceForm.tsx:34 | the found client is in the list with that id; none exactly when no client has the id |
| Records.FindClientFirst | src/components/InvoiceForm.tsx:34 | the found client is the first one listed with that id |
| Records.ClientOf | src/components/InvoiceForm.tsx:34 | a client found is in the client list and has the project's `client_id`; none exactly when there is no project or no listed client has that id |
| Records.ClientOfFirst | src/components/InvoiceForm.tsx:34 | the client found is the first one listed with the project's `client_id` |
| InvoiceForm.RateAfterSelection | src/components/InvoiceForm.tsx:36-40 | a selected project with a non-zero rate replaces the rate; otherwise the rate stays |
| InvoiceForm.RateFollowsProject | src/components/InvoiceForm.tsx:36-40 | after selecting a project the form's rate is that project's rate (as regeneration recomputes it) exactly when the project's rate is non-zero or the rate entered was 0: a project with rate 0 leaves a stale rate |
| InvoiceForm.DuplicateQuery | src/components/InvoiceForm.tsx:72-89 | not found exactly when the query succeeds and no stored invoice has the same project, start and end; found only when one does |
| InvoiceForm.DraftOf | src/components/InvoiceForm.tsx:95-104 | the saved invoice carries the form's project, dates and reserved number, the id of the project's client, the selected entries' total hours, and hours times rate |
| InvoiceForm.AfterGuard | src/components/InvoiceForm.tsx:60-128 | after the guard: a missing or `SIS-ERROR` reservation stops after reserving; a query error or duplicate stops before building; success needs a reservation, a clean query, no duplicate and a saved URL, and runs reserve, check, build, save, commit in that order; a failed save stops before commit |
| InvoiceForm.DraftMaker | src/components/InvoiceForm.tsx:95-104 | for every reserved number, the invoice built is the form's draft with that number |
| InvoiceForm.GenerateInvoice | src/components/InvoiceForm.tsx:55-59 | the run ends with the missing-fields notice exactly when project, dates or client are missing, and then does nothing |
| InvoiceForm.GenerateInvoiceOutcome | src/components/InvoiceForm.tsx:55-135 | over the whole function: which responses lead to which notice, and the exact effect trace of a success, of a failed save and of an early exit |
| InvoiceForm.EarlyExitsHaveNoLateEffects | src/components/InvoiceForm.tsx:56-89 | a run stopped by the guard, the reservation or the duplicate check neither builds, saves nor commits |
| InvoiceForm.CommitOnlyAfterSave | src/components/InvoiceForm.tsx:95-111 | the counter is committed only after a save that returned a URL, with the reserved number's `next` |
| InvoiceForm.DuplicateBlocksBuild | src/components/InvoiceForm.tsx:72-89 | an existing invoice for the same project and period stops the run before any build or save |
| InvoiceFormJsx.ProjectRateOf | src/components/InvoiceForm.jsx:20-21 | the rate of the first listed project with the selected id, and 0 when no listed project has that id |
| InvoiceFormJsx.GenerateClick | src/components/InvoiceForm.jsx:62 | each click takes the stored number and stores one more |
| InvoiceFormJsx.ClickTotals | src/components/InvoiceForm.jsx:42-53 | the printed hours and amount are those of the selected entries at the project's rate |
| InvoiceFormJsx.EveryClickConsumesANumber | src/components/InvoiceForm.jsx:62 | two clicks on the same form print two consecutive, different numbers |
| RegenerateInvoice.Regenerate | src/components/RegenerateInvoiceModal.tsx:47-99 | the run builds, then overwrites the invoice with the same number, project and dates and with totals recomputed from the refetched entries at the project's rate; it closes with success exactly when the update returned a URL |
| RegenerateInvoice.RegenerationReproducesGeneration | src/components/RegenerateInvoiceModal.tsx:51-84 | regenerating a freshly generated invoice from the same entries, with the form's rate equal to the project's, writes back the same number, project, client, period and totals |
| RegenerateInvoice.RegenerationRewritesAmount | src/components/RegenerateInvoiceModal.tsx:57-84 | the converse: regenerating a freshly generated invoice keeps its hours and moves its amount by the hours times (project's rate − form's rate), so the amount changes whenever there are hours and the form's rate was not the project's |
| RegenerateInvoice.DraftRegeneration | src/components/RegenerateInvoiceModal.tsx:57-84 | for the draft of any complete form: regeneration keeps the hours and moves the amount by the hours times the rate difference |
| RegenerateInvoice.RegeneratedTotals | src/components/RegenerateInvoiceModal.tsx:57-61 | regeneration writes the hours of the refetched entries of the invoice's project and period, and their amount at the project's rate (0 when the project is gone) |
| InvoicePdf.SlotsCover | src/components/RegenerateInvoiceModal.tsx:242-259 | every wrapped line of every entry is drawn once, and nothing else is |
| InvoicePdf.DrawLine | src/components/RegenerateInvoiceModal.tsx:245-256 | a new page starts exactly when the cursor is below the line limit; otherwise the line goes at the cursor and the cursor moves by 6 |
| InvoicePdf.Breakdown | src/components/RegenerateInvoiceModal.tsx:234-261 | the lines drawn are every wrapped line of every entry, in order, each within the page's printable area; when the last line fits above the limit, all stay on the first page and the cursor ends 6 below the last |
| InvoicePdf.ClosingStart | src/components/RegenerateInvoiceModal.tsx:263-266 | the closing block starts at or above 237, on the same page or one page on, and stays put when it fits |
| InvoicePdf.PageFooters | src/components/RegenerateInvoiceModal.tsx:304-310 | page i of N gets the footer `Page i of N`, for every page |
| InvoicePdf.RegeneratedLayout | src/components/RegenerateInvoiceModal.tsx:145-313 | every breakdown line is within the page, carries the hours label exactly on an entry's first line and lies on a page up to the closing page; each page has its footer; without a breakdown the closing block starts at 144 on page 1, and after a breakdown that fits on page 1 it starts where `RegeneratedClosing` puts it |
| InvoicePdf.FixedAcknowledgementOverlaps | src/components/RegenerateInvoiceModal.tsx:260-301 | among breakdowns that fit on page 1, exactly those of 10 to 13 lines leave the closing block on page 1 with its bank-details line at or below the acknowledgement fixed at 260 (10 lines: both at 260); the page check keeps that line on the page |
| InvoicePdf.UnpaginatedOverflows | src/components/InvoiceForm.tsx:235-283 | the form's bank-details line leaves the 297 mm page exactly from 15 entries on (at 15 it is at 300), and a breakdown line does exactly from 24 entries on (line 23 is at 298) |
| InvoicePdf.FormAcknowledgementOverlaps | src/components/InvoiceForm.tsx:255-292 | the form's bank-details line reaches the acknowledgement fixed at 270 exactly from 10 entries on |
| InvoicePdf.PaginatedFormBreakdown | src/components/InvoiceForm.tsx:235-283 | with the dialog's pagination and page check, every entry's line lies within the printable area, the bank details stay on the page, and the closing block starts where the form starts it whenever that is above the limit |
| InvoicePdf.AcknowledgementStart | src/components/RegenerateInvoiceModal.tsx:295-301 | the acknowledgement placed after the closing block: on the same page it starts below the bank details and ends above the footer; otherwise it goes to the next page at its usual height, and it ends above the footer whenever it fits there; it stays at its usual height whenever the block ends above it and it fits |
| InvoicePdf.OneLineEach | src/components/InvoiceForm.tsx:243-251 | with one line per entry, line i belongs to entry i |
| ListFilters.FilterEntries | src/pages/RedesignedDashboard.tsx:89-95 | an entry is kept exactly when it passes both filters; the list does not grow |
| ListFilters.FilterInvoices | src/components/InvoiceList.tsx:47-53 | an invoice is kept exactly when it passes both filters; the list does not grow |
| ListFilters.NoFilterKeepsAll | src/components/InvoiceList.tsx:47-53 | with both filters empty, every row is kept, in order |
| ListFilters.ProjectFilterExact | src/pages/Dashboard.tsx:37-43 | a project filter alone keeps exactly that project's rows |
| ListFilters.YearFilterDropsUnknownProjects | src/pages/Dashboard.tsx:37-43 | a year filter drops every row whose project is not in the list |
| ListFilters.FiltersCompose | src/pages/Dashboard.tsx:37-43 | applying the year filter after the project filter gives the combined filter |
| ListFilters.NoInvoicesRowIff | src/components/InvoiceList.tsx:128-134 | the empty-state row shows exactly when no invoice passes the filters |
| ListFilters.Years | src/pages/Dashboard.tsx:115 | one financial year per project, in order |
| ListFilters.YearOptions | src/pages/Dashboard.tsx:115 | the options are pairwise different, are exactly the projects' years, and keep first-occurrence order |
| CsvExport.Cells | src/pages/Dashboard.tsx:55-64 | five cells: the date, the project's name and year (empty without a project), the hours text and the notes (empty without notes) |
| CsvExport.Rows | src/pages/Dashboard.tsx:55-67 | one row per filtered entry, in order |
| CsvExport.ExportCsv | src/pages/Dashboard.tsx:54-70 | an empty selection fails (`rows[0]` is undefined); otherwise the text starts with the header and a line break |
| CsvExport.IsoDateHasNoSeparators | src/pages/Dashboard.tsx:58 | a date cell holds neither a comma nor a line break |
| CsvExport.RowRoundTrip | src/pages/Dashboard.tsx:55-67 | a row without commas or line breaks in its fields splits back into its cells |
| CsvExport.CsvRoundTrip | src/pages/Dashboard.tsx:54-70 | splitting the file at line breaks gives the header and one line per entry, and each line splits back into that entry's cells |
| CsvExport.LinesRoundTrip | src/pages/Dashboard.tsx:66-67 | a first line joined with rows that have no line break splits back into them |
| CsvExport.HeaderHasNoBreak | src/pages/Dashboard.tsx:66 | the header is a single line |
| CsvExport.ExportMatchesDisplayedList | src/pages/RedesignedDashboard.tsx:63-95 | the export's own re-filter gives the same file as exporting the displayed list |
| Dashboard.Scheduled | src/pages/RedesignedDashboard.tsx:45 | exactly the projects with a billing start date and cycle |
| Dashboard.ReminderEffect | src/pages/RedesignedDashboard.tsx:44-53 | the reminder is shown afterwards exactly when it was shown before or some scheduled project is due today; the loop stops at the first such project and never hides the reminder |
| Dashboard.MonthOnlyEntries | src/pages/RedesignedDashboard.tsx:113 | as written: the entries whose month number equals this month's, in any year |
| Dashboard.ThisMonthEntries | src/pages/RedesignedDashboard.tsx:113 | as intended: the entries dated in the current year and month |
| Dashboard.ThisMonthWithinMonthOnly | src/pages/RedesignedDashboard.tsx:113 | the card as written counts at least the intended entries |
| Dashboard.MonthOnlyCountsLastYear | src/pages/RedesignedDashboard.tsx:113 | an entry from the same month last year is counted as written but not as intended |
| Dashboard.UninvoicedProjects | src/pages/RedesignedDashboard.tsx:114 | the card counts at most every project |
| Dashboard.UninvoicedCountsScheduled | src/pages/RedesignedDashboard.tsx:114 | the card counts at least every project that can raise the reminder, and every billable project |
| RevenueChart.Charge | src/components/RevenueChart.tsx:17-22 | an entry adds revenue exactly when its project exists with a non-zero rate, and then adds hours times that project's rate under its month key |
| RevenueChart.AddTo | src/components/RevenueChart.tsx:24 | an existing key's total grows by the amount; a new key is appended with the amount; keys stay distinct; the sum grows by the amount |
| RevenueChart.Accumulate | src/components/RevenueChart.tsx:16-25 | the keys are distinct and a key is present exactly when some element adds to it |
| RevenueChart.AccumulateTotals | src/components/RevenueChart.tsx:16-25 | each key holds exactly the amount its elements add, and an absent key has none |
| RevenueChart.AccumulateSum | src/components/RevenueChart.tsx:16-25 | the totals together hold every amount added |
| RevenueChart.MonthlyTotals | src/components/RevenueChart.tsx:16-25 | one total per month with counted entries, equal to that month's revenue; the totals add up to all counted revenue |
| RevenueChart.SortedKeys | src/components/RevenueChart.tsx:27 | the keys in strictly increasing string order, exactly the months with counted entries |
| Text.SortStrings | src/components/RevenueChart.tsx:27 | sorting distinct strings keeps them all and orders them strictly |
| RevenueChart.Bars | src/components/RevenueChart.tsx:27-41 | one bar per sorted key, holding that month's revenue |
| RevenueChart.MonthKeyOrder | src/components/RevenueChart.tsx:20-27 | for four-digit years, string order on month keys is calendar order |
| RevenueChart.BarsAreChronological | src/components/RevenueChart.tsx:27-41 | of two counted entries in different years, the earlier year's bar comes first |
| ResetPassword.Validate | src/pages/ResetPassword.tsx:31-39 | a mismatch exactly when the fields differ; too short exactly when they match with fewer than 6 characters; accepted otherwise |
| ResetPassword.HandleReset | src/pages/ResetPassword.tsx:28-61 | the password is sent exactly when accepted; each rejection and each answer gets its toast; the redirect to /dashboard happens exactly on success; loading ends false |
| ResetPassword.OnlyConfirmedPasswordsAreSent | src/pages/ResetPassword.tsx:31-46 | whatever is sent equals both fields and has at least 6 characters |
| ResetPassword.MismatchReportedFirst | src/pages/ResetPassword.tsx:31-39 | a short mismatched password is reported as a mismatch |

## Left out

- Time zones and clock time: dates are calendar days in one local calendar. `today` and `now` are parameters. The timestamp comparison `next <= today` is compared on day numbers, since start dates are midnights.
- Floating point: hours, rates and amounts are exact `real`s. `toFixed` and `toLocaleString` formatting is not modelled.
- CsvExport.ExportCsv: the text of the hours cell (`String(hours)`) is a parameter `render`. The round trip is stated only for fields without commas or line breaks, because the code writes no CSV quoting.
- The Blob download, `URL.createObjectURL` and the link click are browser I/O.
- `formatMonthLabel` and `toLocaleDateString` (the chart's labels) are locale formatting. `formatDate` on the PDF is text only.
- PDF drawing: jsPDF's text, fonts, images and colours. `splitTextToSize` is a text-metric call, so each entry's number of wrapped lines, and the acknowledgement's, is an input.
- InvoicePdf: only the lines' vertical positions are modelled; whether two lines at different heights overlap on paper depends on font size, which is not modelled, so an overlap is stated as one line lying at or below another's.
- The reset page's mount-time check of the reset-link session (src/pages/ResetPassword.tsx:11-26) decides only whether the form renders; it is outside the validation and update modelled here.
- `reserveNextInvoiceNumber`, `incrementInvoiceCounter`, `saveInvoiceToSupabase` and `updateInvoiceInSupabase` are services whose source is not part of this model. Their results are inputs.
- Supabase queries and authentication are modelled by their answers only.
- Concurrency: two clients reserving a number at once is not modelled. Each run sees one sequence of answers.
- InvoiceCounter.LocalNextInvoiceNumber: browser storage holds a natural number. A non-numeric stored string (`parseInt` gives NaN) is not modelled.
- The 2-second redirect timers and the loading spinner's intermediate state: only the final redirect target and the final `loading` are stated.
- InvoiceForm.GenerateInvoice: the catch branch taken when an unseen service throws is not modelled. Failures are modelled as error answers.
- RegenerateInvoice.Regenerate: the same applies to its catch branch.
- Form date inputs are `Option<Date>`, with `None` for an empty field. Unparseable date text is not modelled.
- `Math.floor` of a millisecond difference is the day-number difference. Daylight-saving hours are not modelled.
- ResetPassword.Validate: `password.length` counts UTF-16 code units, while the model counts the `char`s of a string.
- Dashboard.UninvoicedProjects: only its bounds against the scheduled and billable projects are stated. The count itself is a filter length with nothing further to promise.
- React state, rendering and routing beyond the values listed above.

## Findings

| source | as written | input that shows it | evidently intended | confidence | as-written member | corrected member |
|---|---|---|---|---|---|---|
| src/services/invoiceService.js:22 | writes `next + 1` back after returning `next`, so every call skips a number | counter 5: the first call returns 6 and stores 7, the second returns 8; 7 is never issued | store `next`, as src/services/invoiceService.ts:25-28 does, so numbers are consecutive | not executed | InvoiceCounter.JsSkipsNumbers | InvoiceCounter.TsConsecutive |
| src/components/InvoiceForm.tsx:243-283 | the breakdown draws line k at y = 160 + 6k and the closing block after it, on one page, with no page break or page check | 15 selected entries with details: the bank-details line is at y = 300, below the 297 mm A4 page; 24 entries put a breakdown line at 298 | start a new page below `pageHeight - bottomBuffer` and before a closing block that starts below `pageHeight - 60`, as RegenerateInvoiceModal.tsx:245-266 does | not executed | InvoicePdf.UnpaginatedOverflows | InvoicePdf.PaginatedFormBreakdown |
| src/components/RegenerateInvoiceModal.tsx:300-301 | draws the acknowledgement at the fixed y = 260 + 5i, though the closing block above it may start as low as 237 | 10 one-line entries with details: the closing block starts at 216 and its bank-details line is at 260, the acknowledgement's first line | place the acknowledgement below the closing block, on a new page when it does not fit | not executed | InvoicePdf.FixedAcknowledgementOverlaps | InvoicePdf.AcknowledgementStart |
| src/components/InvoiceForm.tsx:291-292 | draws the acknowledgement at the fixed y = 270 + 5i, whatever the breakdown's length | 10 selected entries with details: the bank-details line is at 270, the acknowledgement's first line | the same placement below the closing block | not executed | InvoicePdf.FormAcknowledgementOverlaps | InvoicePdf.AcknowledgementStart |
| src/pages/RedesignedDashboard.tsx:113 | "Entries This Month" compares only `getMonth()`, ignoring the year | today 2025-07-10 and an entry on 2024-07-01: the card counts it | count entries of the current year and month | not executed | Dashboard.MonthOnlyCountsLastYear | Dashboard.ThisMonthEntries |
