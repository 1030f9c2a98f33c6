# Widgets, their background jobs, the Kanban ordering and the contact form

This project models the core of a Laravel application that manages **widgets**. The
pieces are:

- **The `widgets` table.** A widget has a name, a description, a price, a quantity, a
  status and JSON metadata. It also has two stamps, `processed_at` and `email_sent_at`,
  and is soft-deleted through `deleted_at`.
- **Four queued jobs** that work on that table:
  - `ProcessWidgetJob` stores price × quantity and a high-value flag under
    `metadata.processing`, and stamps `processed_at`.
  - `SendWidgetFollowUpEmailJob` sends a one-shot follow-up mail to the address kept in
    the metadata, then stamps `email_sent_at`.
  - `ProcessWidgetBatchJob` selects widgets, either an explicit id list or a sweep of at
    most 50 unprocessed rows, and fans out one processing job per widget.
  - `GenerateDailyWidgetReportJob` counts rows per calendar day and per status, and mails
    the snapshot to one administrator address.
- **`WidgetJobService`**, the facade that enqueues those jobs.
- **`WidgetService`**, which covers:
  - the filtered, whitelisted-sort, paginated listing;
  - `find`, `search`;
  - `create` (which enqueues the processing job and the follow-up job 24 hours out);
  - `update` and the soft `delete`.
- **The `Widget` model's scopes and accessors**: `active`, `inactive`, `search`,
  `priceRange`, `formatted_price` and `status_label`.
- **The `Sortable` behaviour** shared by Kanban `Column`s and `Item`s:
  - a row is created after its siblings;
  - `move` shifts the siblings between the old and the new place;
  - deleting a row first moves it out of the way.
- **`PartialUpdateWidgetRequest`**, the validation rules of the `PATCH` endpoint, and what
  the validated body does to the row.
- **The Livewire `ContactForm`**: its validation, the honeypot, the stored submission and
  the best-effort notification mail.

How values are represented:

- Prices are whole numbers of cents.
- Instants are whole seconds, and a calendar day is `t / 86400`.
- JSON is the `Common.Json` datatype.
- Failures that the program throws (and the queue retries) are values: `Outcome` and
  `Result`.
- The widgets table, the job queue, the mail transport, the sortable tables, the
  submissions table and the contact-form component are classes whose fields the methods
  update in place.
- The pure logic is functions, with lemmas about them.
- Whether the database accepts a write, the transport accepts a mail, or a query succeeds
  is passed in as a boolean parameter (`writeOk`, `sendOk`, `queryOk`, `storeOk`, `mailOk`).
- The clock is passed in as `now`, and configuration values as `Option<string>`
  parameters.

## Model

| member | source | states |
|---|---|---|
| ProcessWidgetJob.CalculateProcessingData | app/Jobs/ProcessWidgetJob.php:74-84 | a null price or quantity gives total 0 and not high-value. Otherwise the total is price × quantity. High-value iff the total exceeds 1000.00, which needs both operands |
| ProcessWidgetJob.CalculateProcessingDataExamples | app/Jobs/ProcessWidgetJob.php:74-84 | 150.00×10 is high-value and 25.00×10 is not. A total of exactly 1000.00 is not high-value (the threshold is strict). A null price counts as 0 |
| ProcessWidgetJob.HighValueMonotone | app/Jobs/ProcessWidgetJob.php:76-82 | with a non-negative price, raising the quantity never loses the high-value flag |
| ProcessWidgetJob.WithProcessing | app/Jobs/ProcessWidgetJob.php:48-54 | the result holds the new `processing` entry. Its keys are the old keys (null metadata read as empty) plus `processing`, and every other key keeps its value |
| ProcessWidgetJob.WithProcessingTwice | app/Jobs/ProcessWidgetJob.php:48-54 | a second `processing` entry replaces the first rather than nesting |
| ProcessWidgetJob.Processed | app/Jobs/ProcessWidgetJob.php:45-60 | after a run, `processed_at` is now and `processing` holds the total, the strict >1000.00 flag and version 1. The other metadata keys are kept, no other column changes, and `updated_at` is either kept or now |
| ProcessWidgetJob.ProcessedAsWritten | app/Jobs/ProcessWidgetJob.php:57-60 | as written, the metadata is that of `Processed`, but `processed_at` keeps its old value, since `fill()` drops it; no other column changes |
| ProcessWidgetJob.ProcessedNullMetadata | app/Jobs/ProcessWidgetJob.php:48 | null metadata ends up with `processing` as its only key |
| ProcessWidgetJob.ProcessIdempotent | app/Jobs/ProcessWidgetJob.php:45-60 | reprocessing leaves the metadata of a single run at the later instant. Two runs agree on everything but the `processed_at` stamps |
| ProcessWidgetJob.Dispatch | app/Jobs/ProcessWidgetJob.php:21-28 | enqueues one immediate task with 3 tries and a 60-second timeout |
| ProcessWidgetJob.Handle | app/Jobs/ProcessWidgetJob.php:41-67 | an unknown id fails with NotFound and a refused write fails with StorageFailure; in both cases the table is unchanged. On success only that row changes, to `Processed` |
| SendWidgetFollowUpEmailJob.MetadataAddress | app/Jobs/SendWidgetFollowUpEmailJob.php:80-82 | `email` wins when it is non-null and `contact_email` is the fallback. Null metadata yields no address, and the result is never JSON null |
| SendWidgetFollowUpEmailJob.EmailFromMetadata | app/Jobs/SendWidgetFollowUpEmailJob.php:78-83 | fails with a TypeError iff the `??` chain yields a JSON list or object, which a `?string` return cannot take. Otherwise it returns that chain's result, which is a scalar other than null when present |
| SendWidgetFollowUpEmailJob.Decide | app/Jobs/SendWidgetFollowUpEmailJob.php:47-58 | a list or object address fails first. Otherwise: skip when the address is missing or falsy; then skip when already stamped; then send to that scalar address. The checks run in that order |
| SendWidgetFollowUpEmailJob.Run | app/Jobs/SendWidgetFollowUpEmailJob.php:43-73 | at most one mail. A mail is sent iff the decision is to send and the transport accepts it. The row is stamped iff the mail was sent and the write succeeded. A mail failure and a lost stamp are reported as distinct failures. The attempt fails with a TypeError iff the address is a list or an object |
| SendWidgetFollowUpEmailJob.RunAsWritten | app/Jobs/SendWidgetFollowUpEmailJob.php:61-66 | as written, mails and outcome are those of a run whose write succeeds, but the row never changes, since `fill()` drops `email_sent_at` |
| SendWidgetFollowUpEmailJob.GuardNeverFiresAsWritten | app/Jobs/SendWidgetFollowUpEmailJob.php:55-66 | as written, two runs for a widget with a usable address deliver two mails, and the second still sees no stamp |
| SendWidgetFollowUpEmailJob.AlreadySentIsTerminal | app/Jobs/SendWidgetFollowUpEmailJob.php:47-58 | a stamped widget is neither mailed nor changed. The run ends normally, unless the address is a list or an object (a TypeError) |
| SendWidgetFollowUpEmailJob.ListOrObjectAddressFails | app/Jobs/SendWidgetFollowUpEmailJob.php:43-83 | a list or object address fails the attempt with a TypeError, with no mail and no write, whatever the transport and the database would do |
| SendWidgetFollowUpEmailJob.StampNeverCleared | app/Jobs/SendWidgetFollowUpEmailJob.php:55-66 | the job never clears or moves an `email_sent_at` stamp |
| SendWidgetFollowUpEmailJob.MissingAddressCheckedFirst | app/Jobs/SendWidgetFollowUpEmailJob.php:47-58 | without a usable address the run is a skip, whatever `email_sent_at` holds |
| SendWidgetFollowUpEmailJob.AtMostOneMail | app/Jobs/SendWidgetFollowUpEmailJob.php:55-66 | two successive runs deliver at most one mail, once the first run's stamp is stored |
| SendWidgetFollowUpEmailJob.LostStampResends | app/Jobs/SendWidgetFollowUpEmailJob.php:61-66 | when the stamp write fails after the send, the retry mails again (at-least-once delivery) |
| SendWidgetFollowUpEmailJob.AddressResolutionExamples | app/Jobs/SendWidgetFollowUpEmailJob.php:78-83 | `email` beats `contact_email`, and a null `email` falls through to it. An empty `email` shadows it and skips the mail. No address, or null metadata, means a skip |
| SendWidgetFollowUpEmailJob.NonStringAddressExamples | app/Jobs/SendWidgetFollowUpEmailJob.php:78-83 | a list under `email` fails the run. So does an empty object under `email`, which `??` picks over a usable `contact_email` |
| SendWidgetFollowUpEmailJob.Dispatch | app/Jobs/SendWidgetFollowUpEmailJob.php:23-30 | enqueues one task not before now + 24 h, with 3 tries and a 30-second timeout |
| SendWidgetFollowUpEmailJob.Handle | app/Jobs/SendWidgetFollowUpEmailJob.php:43-73 | an unknown id fails with NotFound and changes nothing. Otherwise the row becomes `Run`'s row, the outbox gains `Run`'s mails, and the outcome is `Run`'s (so a list or object address sends nothing, writes nothing and fails with a TypeError) |
| ProcessWidgetBatchJob.Select | app/Jobs/ProcessWidgetBatchJob.php:44-51 | with no ids: a prefix (in key order) of the unprocessed live rows, at most 50 long, complete when there are at most 50 and exactly 50 otherwise. With ids: exactly the live rows whose key is listed, processed or not |
| ProcessWidgetBatchJob.SweepReselectsAsWritten | app/Jobs/ProcessWidgetBatchJob.php:44-48 | as written, when the sweep takes every candidate, a row processed by the job is selected again by the next sweep |
| ProcessWidgetBatchJob.SweepSkipsProcessed | app/Jobs/ProcessWidgetBatchJob.php:44-48 | with the stamp stored, a processed row is never selected by a sweep |
| ProcessWidgetBatchJob.FanOut | app/Jobs/ProcessWidgetBatchJob.php:53-59 | one processing task per selected widget, in order |
| ProcessWidgetBatchJob.Dispatch | app/Jobs/ProcessWidgetBatchJob.php:21-36 | enqueues one batch task with 2 tries and a 300-second timeout |
| ProcessWidgetBatchJob.Handle | app/Jobs/ProcessWidgetBatchJob.php:41-66 | a failed query enqueues nothing. Otherwise the queue gains `FanOut(Select(...))`, the count equals the selection's length, and the table is never written |
| ProcessWidgetBatchJob.SelectExamples | app/Jobs/ProcessWidgetBatchJob.php:44-51 | the sweep skips processed and trashed rows; an explicit id list reprocesses a processed widget and ignores unknown and trashed keys |
| GenerateDailyWidgetReportJob.GenerateReportData | app/Jobs/GenerateDailyWidgetReportJob.php:58-108 | the report date is today's day. Every live count is bounded by the live total, and today's deletions plus the live total never exceed the table (the value of each count is `ReportCounts`) |
| GenerateDailyWidgetReportJob.DayConditionsAreWindows | app/Jobs/GenerateDailyWidgetReportJob.php:64-86 | each `whereDate(column, d)` condition holds iff the stamp lies in `d`'s midnight-to-midnight window |
| GenerateDailyWidgetReportJob.ReportCounts | app/Jobs/GenerateDailyWidgetReportJob.php:60-86 | each of today's figures counts the rows whose stamp lies between today's midnight and the next: live rows for created, updated (with `updated_at` ≠ `created_at`), processed and emails sent, trashed rows for deleted. Yesterday's figures use the window one day earlier. The totals count the live rows, and the live rows of each status |
| GenerateDailyWidgetReportJob.CreatedBeforeMidnight | app/Jobs/GenerateDailyWidgetReportJob.php:60-73 | a live widget created one second before today's midnight counts for yesterday, not for today |
| GenerateDailyWidgetReportJob.DeletedAndLiveDisjoint | app/Jobs/GenerateDailyWidgetReportJob.php:68-79 | trashed rows counted as deleted and live rows counted in the total never overlap |
| GenerateDailyWidgetReportJob.TotalsDecompose | app/Jobs/GenerateDailyWidgetReportJob.php:79-82 | the live total is active + inactive + archived + any other status |
| GenerateDailyWidgetReportJob.TotalsPartition | app/Jobs/GenerateDailyWidgetReportJob.php:79-82 | the three status totals add up to the total iff every live row holds an enum status |
| GenerateDailyWidgetReportJob.ReportDays | app/Jobs/GenerateDailyWidgetReportJob.php:60-61 | yesterday is the day before the report date, and an instant belongs to today iff it lies between today's midnight and the next |
| GenerateDailyWidgetReportJob.SoftDeleteMovesToDeleted | app/Jobs/GenerateDailyWidgetReportJob.php:68-79 | soft-deleting a live widget now lowers the total by one and raises today's deletions by one |
| GenerateDailyWidgetReportJob.TwoDaysScenario | app/Jobs/GenerateDailyWidgetReportJob.php:64-80 | a widget created today and one created a day earlier: each day counts one creation, and the totals count both |
| GenerateDailyWidgetReportJob.AdminAddress | app/Jobs/GenerateDailyWidgetReportJob.php:41 | the configured address wins, then `MAIL_TARGET`, then `admin@example.com` |
| GenerateDailyWidgetReportJob.Dispatch | app/Jobs/GenerateDailyWidgetReportJob.php:23-30 | enqueues one task with 2 tries and a 120-second timeout |
| GenerateDailyWidgetReportJob.Handle | app/Jobs/GenerateDailyWidgetReportJob.php:35-51 | query and mail failures send nothing. Otherwise exactly one report mail of `GenerateReportData` goes to `AdminAddress`, and the table is never written |
| WidgetJobService.DispatchProcessing | app/Services/WidgetJobService.php:19-22 | appends exactly the immediate processing task |
| WidgetJobService.DispatchFollowUp | app/Services/WidgetJobService.php:30-34 | appends exactly the follow-up task, not before now + 86400 s |
| WidgetJobService.DispatchBatch | app/Services/WidgetJobService.php:42-45 | appends exactly the batch task; a null id list becomes the empty list, meaning the sweep |
| WidgetJobService.DispatchDailyReport | app/Services/WidgetJobService.php:52-55 | appends exactly the report task |
| WidgetService.Matching | app/Services/WidgetService.php:20-51 | every matched row satisfies the filters, and every row that satisfies them is matched. The search filter is the `like '%s%'` test, with `%` and `_` in the term as wildcards |
| WidgetService.EmptyFiltersIgnored | app/Services/WidgetService.php:25-32 | an empty (`""` or `"0"`) search or status value is not applied |
| WidgetService.NoFiltersKeepsLive | app/Services/WidgetService.php:20-24 | without filters the listing keeps exactly the live rows |
| WidgetService.ResolveOrder | app/Services/WidgetService.php:53-62 | a non-whitelisted column means `created_at` descending, with the direction ignored. A whitelisted column takes the requested direction. A direction other than asc/desc (in any case) on a whitelisted column fails |
| WidgetService.BeforeTotal | app/Services/WidgetService.php:58-62 | the sort order compares every two rows |
| WidgetService.BeforeTrans | app/Services/WidgetService.php:58-62 | the sort order is transitive |
| WidgetService.Insert | app/Services/WidgetService.php:58-62 | inserting into a sorted sequence keeps it sorted and adds exactly that row |
| WidgetService.SortRows | app/Services/WidgetService.php:58-62 | the result is sorted in the requested order and is a permutation of the input |
| WidgetService.SortByNameExample | app/Services/WidgetService.php:58-62 | Zebra, Alpha, Beta by name ascending gives Alpha, Beta, Zebra |
| WidgetService.LastPage | app/Services/WidgetService.php:64 | the fewest pages that hold all rows, and at least one |
| WidgetService.Paginate | app/Services/WidgetService.php:64 | the page holds at most `perPage` rows, taken consecutively from the page's offset. It is full unless the rows run out. The total counts all rows, and page numbers below 1 read as 1 |
| WidgetService.EveryRowOnItsPage | app/Services/WidgetService.php:64 | row `i` appears on page `i / perPage + 1` at slot `i % perPage` |
| WidgetService.PaginationScenario | app/Services/WidgetService.php:64 | 25 rows at 10 per page: 10 items on page 1, total 25, last page 3 |
| WidgetService.List | app/Services/WidgetService.php:20-65 | fails iff the direction is invalid. Otherwise the page is the window of the matching rows, sorted in the resolved order, that starts at the page's offset, and it is full unless they run out. The total counts the matching rows, and every item matches. The page size is `perPage`, or 15 when that is 0. A page below 1 reads as 1. The last page is `LastPage` of the matching count |
| WidgetService.ListIn | app/Services/WidgetService.php:54-64 | once the order is resolved: the page is the window of the sorted matching rows at the page's offset, full unless they run out; total, page size, page number and last page as in `List` |
| WidgetService.ListInSorted | app/Services/WidgetService.php:58-64 | the page is sorted in the resolved order |
| WidgetService.ListInSelected | app/Services/WidgetService.php:20-64 | the page holds only rows of the table that the filters select |
| WidgetService.ListEveryRowOnItsPage | app/Services/WidgetService.php:54-64 | the matching row of rank `i` in the resolved order `o` is listed on page `i / perPage + 1`, at slot `i % perPage` |
| WidgetService.PageOfSorted | app/Services/WidgetService.php:58-64 | a page cut from a sorted sequence is sorted |
| WidgetService.PageFromRows | app/Services/WidgetService.php:58-64 | a page of any rearrangement of the matching rows holds only matching rows, and its total counts them all |
| WidgetService.ListIsPermutation | app/Services/WidgetService.php:58-64 | ordering neither drops nor duplicates a matching row |
| WidgetService.QuantityRangeExample | app/Services/WidgetService.php:45-51 | quantities 10, 25, 50, 100 with bounds [20, 75]: the listing counts two rows (the bounds are inclusive) |
| WidgetService.QuantityRangeMatching | app/Services/WidgetService.php:45-51 | the same four rows: exactly the second and the third match, in order |
| WidgetService.FindOrFail | app/Services/WidgetService.php:74-83 | fails with NotFound iff no live row has the key; otherwise returns that live row |
| WidgetService.SearchWidgets | app/Services/WidgetService.php:155-158 | exactly the live rows whose name or description matches `like '%query%'`; the field list is ignored |
| WidgetService.EmptySearchMatchesAll | app/Services/WidgetService.php:155-158 | an empty query matches every widget |
| WidgetService.NewRow | app/Services/WidgetService.php:91-93 | the inserted row has the next key, the supplied attributes and the column defaults (quantity 0, status active, nulls). Both timestamps are now, and no stamp or deletion is set |
| WidgetService.Fill | app/Services/WidgetService.php:114-124 | each supplied attribute overwrites the row's; all other columns keep their values |
| WidgetService.FillLaws | app/Services/WidgetService.php:114-124 | filling nothing is the identity, and filling the same data twice is filling it once |
| WidgetService.SoftDeleted | app/Services/WidgetService.php:141-146 | the row becomes trashed with both `deleted_at` and `updated_at` now; nothing else changes |
| WidgetService.CreateKeepsInvariants | app/Services/WidgetService.php:91-103 | a successful create keeps keys dense and names unique, and the new row is found under its key |
| WidgetService.UpdateKeepsUniqueNames | app/Services/WidgetService.php:114-132 | a successful update keeps names unique |
| WidgetService.DeleteThenFind | app/Services/WidgetService.php:141-146 | after a soft delete the key is not found, and every other key is found as before |
| WidgetService.Create | app/Services/WidgetService.php:91-103 | a rejected insert changes nothing and enqueues nothing. Otherwise it appends `NewRow` and enqueues the processing task, then the follow-up task 24 h out |
| WidgetService.Update | app/Services/WidgetService.php:114-132 | an unknown key, or a write the database refuses, changes nothing. Otherwise it saves the filled row and enqueues one processing task; `$partial` makes no difference |
| WidgetService.Delete | app/Services/WidgetService.php:141-146 | an unknown or trashed key fails with NotFound. Otherwise the row is soft-deleted and the result is true |
| Widgets.WithoutTrashed | app/Models/Widget.php:12 | exactly the rows without `deleted_at` |
| Widgets.IndexOf | app/Models/Widget.php:12 | the first row with that key, or none when no row has it |
| Widgets.Find | app/Models/Widget.php:12 | a found row is live and has the key. When none is found, every live row with that key comes after an earlier row with the same key, so with unique keys there is none |
| Widgets.FindDense | app/Models/Widget.php:12 | with dense keys, `find` fails iff the key is unknown or trashed; otherwise it returns row `id - 1` |
| Widgets.Active | app/Models/Widget.php:42-45 | exactly the rows whose status is active |
| Widgets.Inactive | app/Models/Widget.php:50-53 | exactly the rows whose status is inactive |
| Widgets.Search | app/Models/Widget.php:58-64 | exactly the rows whose name or (non-null) description matches `like '%s%'`, ignoring ASCII case. For a term without `%` or `_`, every such row contains the term |
| Widgets.SearchWithoutWildcards | app/Models/Widget.php:58-64 | for a term without `%` or `_`, a row matches iff its name or (non-null) description contains the term, ignoring ASCII case |
| Widgets.SearchWildcardExamples | app/Models/Widget.php:58-64 | `a_c` and `A%C` find `abc`; `a_c` does not find `ac` |
| Widgets.PriceRange | app/Models/Widget.php:69-80 | exactly the rows within the inclusive given bounds, where a null price fails any bound; with no bounds, every row |
| Widgets.FilterAll | app/Models/Widget.php:69-80 | a price range with both bounds null keeps every row |
| Widgets.StatusLabel | app/Models/Widget.php:93-101 | a known status capitalised, anything else "Unknown" |
| Widgets.StatusLabelInjective | app/Models/Widget.php:93-101 | distinct statuses get distinct labels, and no known status reads "Unknown" |
| Widgets.FormatCents | app/Models/Widget.php:87 | the result ends in a point and two digits, and starts with a minus iff the amount is negative |
| Widgets.FormatCentsRoundTrip | app/Models/Widget.php:87 | reading the formatted string back (sign, then its digits in order) gives the amount in cents: nothing is lost |
| Widgets.GroupedValue | app/Models/Widget.php:87 | the digits of the grouped integer part, commas left out, spell the number |
| Widgets.GroupedCommas | app/Models/Widget.php:87 | in the grouped integer part a comma stands exactly at every fourth place back from the end, and every other character is a digit |
| Widgets.FormatCentsCommas | app/Models/Widget.php:87 | between the sign and the decimal point, commas stand exactly every four places back from the point (groups of three digits), digits everywhere else |
| Widgets.FormattedPrice | app/Models/Widget.php:85-88 | null iff the price is null |
| Widgets.FormattedPriceExamples | app/Models/Widget.php:85-88 | 29.99 reads "29.99" and 1234567.89 reads "1,234,567.89" |
| Sortable.ScopeRows | app/Models/Sortable.php:12 | exactly the rows sharing the scope key |
| Sortable.MaxPosition | app/Models/Sortable.php:12 | null iff the scope is empty; otherwise the largest position in the scope |
| Sortable.NextPosition | app/Models/Sortable.php:11-13 | one more than the largest sibling position: above every sibling, and one more than some sibling's position. It is 1 in an empty scope |
| Sortable.NextPositionLocal | app/Models/Sortable.php:11-13 | rows of other scopes do not affect a new row's position |
| Sortable.NextPositionFromScope | app/Models/Sortable.php:11-13 | a new row's position depends only on its own scope's rows |
| Sortable.MaxPositionFromScope | app/Models/Sortable.php:12 | the maximum depends only on the scope's rows |
| Sortable.PlanAsWritten | app/Models/Sortable.php:31-40 | moving up increments `[current, target-1]`, and moving down decrements `[target+1, current]` |
| Sortable.Shift | app/Models/Sortable.php:33-40 | only the position changes, by delta exactly for the other siblings in range |
| Sortable.Moved | app/Models/Sortable.php:20-47 | the target is `position + 1`: moving to the current place is a no-op. The moved row lands on the target, the siblings in the planned range shift by one, and other scopes and all other columns are unchanged |
| Sortable.MoveKeepsOtherScopes | app/Models/Sortable.php:34-40 | a move leaves every other scope's rows exactly as they were |
| Sortable.MoveDuplicatesPositions | app/Models/Sortable.php:31-40 | positions 1, 2, 3 and `move(1)` on the first row leave two rows at position 2 |
| Sortable.IntendedPositionInjective | app/Models/Sortable.php:20-47 | the corrected shift keeps distinct positions distinct and within range |
| Sortable.IntendedMoved | app/Models/Sortable.php:20-47 | the corrected move puts the row on the target, changes only positions, and leaves other scopes unchanged |
| Sortable.IntendedMoveKeepsArrangement | app/Models/Sortable.php:20-47 | the corrected move keeps the distinct positions 1..n of a scope distinct, and leaves other scopes arranged |
| Sortable.AsWrittenVersusIntended | app/Models/Sortable.php:20-47 | on positions 1..3 the as-written move breaks the arrangement, while the corrected one swaps the two rows |
| Sortable.InsertByPosition | app/Models/Column.php:25 | inserting into a position-sorted sequence keeps it sorted and adds exactly that row |
| Sortable.OrderByPosition | app/Models/Column.php:25 | ascending positions, and a permutation of the input |
| Sortable.SortableTable.Create | app/Models/Sortable.php:11-13 | appends the row at `NextPosition`, whatever position was supplied, under a fresh key |
| Sortable.SortableTable.Move | app/Models/Sortable.php:20-47 | the table becomes `Moved`; keys stay unique |
| Sortable.SortableTable.Delete | app/Models/Sortable.php:15-17 | `move(9999)` and then removal of the row |
| Sortable.DeleteLeavesGap | app/Models/Sortable.php:15-17 | deleting the middle of 1, 2, 3 leaves positions 1 and 4 |
| Columns.CreateColumn | app/Models/Column.php:13-21 | the new column goes after the columns of its own board |
| Columns.Items | app/Models/Column.php:23-26 | exactly the column's items, in ascending position |
| Columns.MoveKeepsOtherColumnsItems | app/Models/Column.php:23-26 | moving an item of another column leaves this column's item list unchanged |
| Items.CreateItem | app/Models/Item.php:14-28 | the new item goes after every item of its column, whatever position was supplied |
| PartialUpdateWidgetRequest.Authorize | app/Http/Requests/Api/PartialUpdateWidgetRequest.php:13-16 | every caller is authorised |
| PartialUpdateWidgetRequest.Key | app/Http/Requests/Api/PartialUpdateWidgetRequest.php:27-34 | each field's key is one of the six rule keys |
| PartialUpdateWidgetRequest.KeyInjective | app/Http/Requests/Api/PartialUpdateWidgetRequest.php:27-34 | distinct fields have distinct keys |
| PartialUpdateWidgetRequest.RuledKeysAreFillable | app/Models/Widget.php:19-26 | the attributes with rules are exactly the widget's fillable attributes |
| PartialUpdateWidgetRequest.Validate | app/Http/Requests/Api/PartialUpdateWidgetRequest.php:23-35 | a field has an error iff it is present and fails its own rules on its own value |
| PartialUpdateWidgetRequest.BlankAndNullPass | app/Http/Requests/Api/PartialUpdateWidgetRequest.php:28-33 | a blank string passes every rule. Null passes every rule except name's, which fails on null |
| PartialUpdateWidgetRequest.NameRule | app/Http/Requests/Api/PartialUpdateWidgetRequest.php:28 | name fails iff it is not a string, is longer than 255, or another row (trashed included) holds it |
| PartialUpdateWidgetRequest.DescriptionRule | app/Http/Requests/Api/PartialUpdateWidgetRequest.php:29 | description fails iff it is neither null nor a string of at most 1000 characters |
| PartialUpdateWidgetRequest.PriceRule | app/Http/Requests/Api/PartialUpdateWidgetRequest.php:30 | price fails iff it is neither null nor a number from 0 to 999999.99 |
| PartialUpdateWidgetRequest.QuantityRule | app/Http/Requests/Api/PartialUpdateWidgetRequest.php:31 | quantity fails iff it is neither null nor a whole number of at least 0 |
| PartialUpdateWidgetRequest.StatusRule | app/Http/Requests/Api/PartialUpdateWidgetRequest.php:32 | status fails iff it is neither null nor one of the three enum values |
| PartialUpdateWidgetRequest.MetadataRule | app/Http/Requests/Api/PartialUpdateWidgetRequest.php:33 | metadata fails iff it is neither null, a list nor an object |
| PartialUpdateWidgetRequest.Validated | app/Http/Requests/Api/PartialUpdateWidgetRequest.php:23-35 | exactly the present keys that carry rules, with their values |
| PartialUpdateWidgetRequest.Attribute | app/Http/Requests/Api/PartialUpdateWidgetRequest.php:23-35 | present in the fill data iff present in the body |
| PartialUpdateWidgetRequest.FillData | app/Http/Requests/Api/PartialUpdateWidgetRequest.php:23-35 | an attribute is filled iff its key is in the body |
| PartialUpdateWidgetRequest.ExtraKeysIgnored | app/Http/Requests/Api/PartialUpdateWidgetRequest.php:23-35 | a key without a rule (`processed_at` included) changes neither the errors nor the fill data |
| PartialUpdateWidgetRequest.OmittingAField | app/Http/Requests/Api/PartialUpdateWidgetRequest.php:28-33 | leaving out one attribute removes its error and no other |
| PartialUpdateWidgetRequest.EmptyPatch | app/Http/Requests/Api/PartialUpdateWidgetRequest.php:28-33 | an empty body passes and leaves the row's attributes as they were |
| PartialUpdateWidgetRequest.PatchPriceOnly | app/Http/Requests/Api/PartialUpdateWidgetRequest.php:30 | patching only the price passes, is accepted by the database and changes only the price |
| PartialUpdateWidgetRequest.ValidationGap | app/Http/Requests/Api/PartialUpdateWidgetRequest.php:31-32 | a passing body is refused by the database iff it sets quantity or status to null |
| PartialUpdateWidgetRequest.NullQuantityPassesYetRejected | app/Http/Requests/Api/PartialUpdateWidgetRequest.php:31 | `{"quantity": null}` passes validation yet is refused by the database |
| PartialUpdateWidgetRequest.NullStatusPassesYetRejected | app/Http/Requests/Api/PartialUpdateWidgetRequest.php:32 | `{"status": null}` passes validation yet is refused by the database |
| PartialUpdateWidgetRequest.NullInNotNull | app/Http/Requests/Api/PartialUpdateWidgetRequest.php:31-32 | exactly the NOT NULL attributes (quantity, status) that the body sets to null |
| PartialUpdateWidgetRequest.ValidateIntended | app/Http/Requests/Api/PartialUpdateWidgetRequest.php:23-35 | under the rules with `nullable` removed from quantity and status: a field errs iff it is present and fails its corrected rules |
| PartialUpdateWidgetRequest.IntendedAddsNullChecks | app/Http/Requests/Api/PartialUpdateWidgetRequest.php:31-32 | the corrected rules reject exactly what the as-written rules reject, plus a null quantity or status |
| PartialUpdateWidgetRequest.IntendedValidationNeverRejected | app/Http/Requests/Api/PartialUpdateWidgetRequest.php:31-32 | under the corrected rules, a passing body is never refused by the database |
| ContactForm.Errors | app/Livewire/ContactForm.php:12-22 | each field errs iff it is blank or too long (255; 5000 for the message); the email also errs when it is malformed |
| ContactForm.ValidFormBounds | app/Livewire/ContactForm.php:12-22 | a passing form has four non-empty fields within their limits and a well-formed address |
| ContactForm.ResetFormIsInvalid | app/Livewire/ContactForm.php:59-60 | the reset form fails every rule, so an immediate resubmission stores nothing |
| ContactForm.InvalidFormExample | app/Livewire/ContactForm.php:12-22 | empty fields and a malformed address fail all four rules |
| ContactForm.ValidFormExample | app/Livewire/ContactForm.php:12-22 | the sample form passes, given a well-formed address |
| ContactForm.TrappedExamples | app/Livewire/ContactForm.php:32-34 | a filled honeypot is caught. Both `""` and `"0"` pass, because PHP counts `"0"` as empty |
| ContactForm.Client | app/Livewire/ContactForm.php:45-46 | an absent address or agent is stored as JSON null |
| ContactForm.Meta | app/Livewire/ContactForm.php:44-47 | exactly the keys `ip_address` and `user_agent`, with the client values |
| ContactForm.SubmissionTable.Create | app/Livewire/ContactForm.php:39-48 | appends one row with the next key and the given fields |
| ContactForm.Component.constructor | app/Livewire/ContactForm.php:12-27 | every property is empty, and there is no success flag |
| ContactForm.Component.Submit | app/Livewire/ContactForm.php:29-61 | a caught honeypot, a validation failure or a failed insert changes nothing. Otherwise one row is stored and a mail is sent if the transport accepts it. A mail failure does not fail the submission. Then the fields reset and success is set |
| Common.Lookup | app/Jobs/SendWidgetFollowUpEmailJob.php:82 | present iff the key is there and not JSON null |
| Common.StartOfDay | app/Jobs/GenerateDailyWidgetReportJob.php:60 | the first instant of the day, on the same day |
| Common.DayWindow | app/Jobs/GenerateDailyWidgetReportJob.php:64-70 | an instant falls on day `d` iff it lies in `d`'s midnight-to-midnight window |
| Common.PreviousDay | app/Jobs/GenerateDailyWidgetReportJob.php:61 | `subDay()` of a start of day is the previous day |
| Common.Filter | app/Services/WidgetService.php:22-51 | only rows satisfying the condition, and every such row (order and multiplicity: `FilterAppend` and `FilterSingleton`) |
| Common.FilterSingleton | app/Services/WidgetService.php:22-51 | one row is kept iff it satisfies the condition |
| Common.FilterAppend | app/Services/WidgetService.php:22-51 | filtering a concatenation is the concatenation of the filtered parts, so the result keeps each qualifying row once per occurrence, in order |
| Common.FilterCount | app/Jobs/GenerateDailyWidgetReportJob.php:64-86 | the number of rows a `where` keeps is the `count()` under it |
| Common.CountAgree | app/Jobs/GenerateDailyWidgetReportJob.php:64-86 | two conditions that agree on every row count the same |
| Common.FilterFilter | app/Services/WidgetService.php:22-51 | two `where` clauses are one clause of their conjunction |
| Common.Count | app/Jobs/GenerateDailyWidgetReportJob.php:64-86 | a count never exceeds the row count |
| Common.CountExtremes | app/Jobs/GenerateDailyWidgetReportJob.php:64-86 | a count is zero iff no row qualifies, and full iff all do |
| Common.CountMono | app/Jobs/GenerateDailyWidgetReportJob.php:79-82 | a weaker condition never counts fewer rows |
| Common.CountUpdate | app/Jobs/GenerateDailyWidgetReportJob.php:64-86 | replacing one row changes a count only by that row's contribution |
| Common.HasInfix | app/Models/Widget.php:61-62 | true iff the needle occurs somewhere in the text |
| Common.LikeAnything | app/Models/Widget.php:61-62 | the pattern `%` matches every string |
| Common.LikePrefix | app/Models/Widget.php:61-62 | for a wildcard-free `t`, `t%` matches exactly the strings that start with `t` |
| Common.LikeSuffix | app/Models/Widget.php:61-62 | `%q` matches a string iff `q` matches one of its suffixes |
| Common.LikeContains | app/Models/Widget.php:61-62 | for a wildcard-free `t`, `%t%` matches a string iff `t` occurs in it (`HasInfix`) |
| Common.LowerKeepsWildcards | app/Models/Widget.php:61-62 | lower-casing neither adds nor removes `%` and `_` |
| Common.StrLeTotal | app/Services/WidgetService.php:58-59 | the name order compares every two names |
| Common.StrLeTrans | app/Services/WidgetService.php:58-59 | the name order is transitive |
| Infra.Saved | app/Services/WidgetService.php:126 | a save writes the changed attributes with `updated_at` now, and writes nothing (keeping `updated_at`) when no attribute changed |

## Left out

- Floating point: prices are whole cents. The `float` cast, the comparisons in
  `priceRange` and `number_format`'s rounding of fractional cents are not modelled.
- The ISO-8601 rendering of `processed_at` inside metadata is the value `JTime(t)`. The
  `Y-m-d` rendering of the report date is the day number.
- Time zones: a calendar day is a UTC window of 86400 seconds.
- Logging is not modelled (`Log::info` and `Log::error`).
- The `failed()` hooks only log, so they are not modelled.
- The queue runtime is not modelled: retries, backoff, timeout enforcement, honouring the
  delay, and concurrency. The model has the parameters of each task (tries, timeout,
  not-before), and one handler run is one attempt.
- The race between the `email_sent_at` check and the stamp is not modelled. Concurrent
  attempts are outside the model.
- `SerializesModels`: a job carries the widget's id and re-reads the row when it runs.
  Trashed rows included, as model restoration ignores global scopes.
- The jobs' writes of `processed_at` and `email_sent_at`, which `$fillable` leaves out,
  are under "## Findings". The rest of the model stores both stamps.
- PartialUpdateWidgetRequest.PriceRule: numeric strings (`"12.50"`) are not modelled.
  Only JSON numbers count as `numeric`, and a float price is held in whole cents.
- PartialUpdateWidgetRequest.QuantityRule: numeric strings (`"5"`) are not modelled for
  `integer`.
- The request middleware (trimming strings and turning empty strings into null) is the
  `NoBlankStrings` precondition of the lemmas that need it. It is not an operation of
  the model.
- PartialUpdateWidgetRequest.FillData: non-empty JSON lists for `metadata` are filled as
  null. The model's metadata is an object, and how PHP's list arrays are stored is not
  modelled.
- The database collation is not modelled: `unique` and `like` compare as the model says,
  exact for `unique` and ASCII-case-insensitive for `like`.
- Widgets.MatchesSearch: `like` is modelled with `%` and `_` as wildcards and no escape
  character (SQLite's default). MySQL's and PostgreSQL's backslash escape is not
  modelled.
- SendWidgetFollowUpEmailJob.EmailFromMetadata: a scalar address is passed on as the JSON
  value. Its string rendering (`"1"` for `true`, the digits of a number) is not modelled.
  Its truthiness is the value's own.
- ContactForm.Errors: the `email` rule's address grammar is the parameter `isEmail`.
- The `decimal(10,2)` bounds of the price column are not enforced on writes.
- The HTTP layer is not modelled.
  - This covers the controller, resources, routes, views and the throttle middleware.
  - There is no rate limit on the contact form, which has none in the component itself.
  - The console command that dispatches the daily report is also left out.
- WidgetService.SortRows: ties are kept in key order by a stable insertion sort. The
  database's tie order is unspecified. A null price sorts first.
- ProcessWidgetBatchJob.Select: the queries have no `orderBy`, so the database may return
  rows in any order. The model returns them in key order. Which 50 rows the sweep takes
  among more than 50 candidates is that choice.
- Sortable.Moved: `SortRow` has no timestamps. The bulk `increment`/`decrement` and
  `save()` in `move` also set `updated_at` on the rows they touch, which the model does
  not record.
- WidgetService.Create: the result is the stored row, with the column defaults (quantity
  0, status active). `Widget::create` returns the in-memory model, which holds only the
  supplied attributes, the key and the timestamps, because the defaults are not read
  back. The stored row and the queued jobs are as in the program.
- Sortable.SortableTable.Move: the transaction in `move` is treated as atomic. Position
  updates by concurrent requests are not modelled.
- The configuration and environment lookups (`config`, `env`) are parameters.
- `request()->ip()` and `userAgent()` are parameters.
- `ContactSubmission` and the `contact_submissions` migration are not part of this model.
  They are represented by the `Submission` datatype and `ContactForm.SubmissionTable`.
- Mail to a null `MAIL_TARGET` is covered by `mailOk`: the transport either accepts the
  mail or throws, and the form catches the throw.
- The mailable classes' contents and templates are not modelled. A mail is the value it
  carries.

## Findings

| source | as written | input that shows it | evidently intended | confidence | as-written member | corrected member |
|---|---|---|---|---|---|---|
| app/Models/Sortable.php:31-40 | moving up increments the siblings in `[current, target-1]`, and moving down decrements those in `[target+1, current]`, so the rows the moved row passes shift away from the gap instead of into it | three siblings at positions 1, 2, 3 and `move(1)` on the first: positions 2, 2, 3. Deleting the middle one (`move(9999)`) leaves 1 and 4 | the moved row takes the target and the rows it passes close the gap, so positions stay a permutation of 1..n | not executed | Sortable.Moved, Sortable.MoveDuplicatesPositions, Sortable.DeleteLeavesGap, Sortable.AsWrittenVersusIntended | Sortable.IntendedMoved, Sortable.IntendedMoveKeepsArrangement |
| app/Http/Requests/Api/PartialUpdateWidgetRequest.php:31-32 | `quantity` and `status` are `nullable`, but their columns are NOT NULL (database/migrations/2025_11_19_173301_create_widgets_table.php:19-20) | `PATCH` with `{"quantity": null}` or `{"status": null}` passes validation and is then refused by the database: a server error instead of a validation error | the rules refuse null for the two NOT NULL columns, so a body that passes can always be written | not executed | PartialUpdateWidgetRequest.Validate, PartialUpdateWidgetRequest.NullQuantityPassesYetRejected, PartialUpdateWidgetRequest.NullStatusPassesYetRejected, PartialUpdateWidgetRequest.ValidationGap | PartialUpdateWidgetRequest.ValidateIntended, PartialUpdateWidgetRequest.IntendedAddsNullChecks, PartialUpdateWidgetRequest.IntendedValidationNeverRejected |
| app/Models/Widget.php:19-26 with app/Jobs/ProcessWidgetJob.php:57-60 and app/Jobs/SendWidgetFollowUpEmailJob.php:64-66 | both jobs stamp through `update()`, which is `fill()` then `save()`. `fill()` silently drops `processed_at` and `email_sent_at`, because neither is in `$fillable`, so neither stamp is ever stored | any widget: after `ProcessWidgetJob` its `processed_at` is still null, so the next sweep selects it again; with an address in its metadata, every follow-up run mails again, because `email_sent_at` stays null. tests/Unit/Jobs/ProcessWidgetJobTest.php:26-28 and tests/Unit/Jobs/SendWidgetFollowUpEmailJobTest.php:36-38 expect the stamps after `refresh()` | both stamps are stored, so the sweep skips processed rows and the follow-up mail goes out once | not executed | ProcessWidgetJob.ProcessedAsWritten, ProcessWidgetBatchJob.SweepReselectsAsWritten, SendWidgetFollowUpEmailJob.RunAsWritten, SendWidgetFollowUpEmailJob.GuardNeverFiresAsWritten | ProcessWidgetJob.Processed, ProcessWidgetBatchJob.SweepSkipsProcessed, SendWidgetFollowUpEmailJob.Run, SendWidgetFollowUpEmailJob.AtMostOneMail |
