# Verified model of the practice backend

A Dafny model of the parts of the Indian accounting practice's backend that keep
state or do real arithmetic, with their promises proved for every input, every
run and every interleaving. `dafny verify dfyconfig.toml` checks it.

| component | files | how it is modelled |
|---|---|---|
| double-entry engine | `Ledger`, `Reports`, `Books`, `Tallies`, `Sections`, `AccountingService` | a class whose journal list and id index share entry objects, each method tied to a state machine over values; reports built by loops over dictionaries and tied to sums over postings |
| keyset, offset and chunked paging | `Paging`, `InChunks` | the loops, against a table that is any function of the request number and a server with a silent cap |
| sliding-window limiter | `RateWindow`, `Limiter` | a class over a dictionary of deques, and runs of calls with a clock that never goes back |
| recurrence engine | `Calendar`, `Recurrence` | a proleptic Gregorian calendar; estimate-and-walk searches against the first member found by trying each |
| schema-drift guard | `ExpectedColumns`, `LiveSchema`, `DriftWatch` | the fold of migration statements, the counted read, and the watcher as interleaved steps of callers and threads |
| compliance records | `Compliance`, `ComplianceService`, `ComplianceRaces` | the rules of one record, the service as a class over the two tables, and overlapping calls on one record |
| text | `Decimal`, `MoneyText`, `StorageNames`, `StorageDoor`, `StorageRules`, `IstClock`, `CellDates`, `CellPatterns`, `Text`, `Sorting` | printers with readers, parsers with printers |

## Where the code and its words part

The model follows the code. These are proved, each with the exact condition under which the words hold.

- The balance sheet does not always balance: a posted line may name an account that is not charted, or has another type. It balances exactly when those lines net to nil (`Reports.AccountingEquation`); two calls from empty books make one that does not (`Books.UnbalancedSheetIsReachable`).
- `fetch_all` is not complete over a server capped below its page size: it takes the first page for the last, and something is missed exactly when the table held more than the cap (`Paging.FetchAll`, `Paging.CappedRead`).
- `fetch_all_in` says no row can come back twice. One does exactly when two chunks catch it, which takes a row whose column moves from an earlier chunk's value to a later one's (`InChunks.OnceUnlessCaughtTwice`, `InChunks.FixedColumnsComeOnce`); `InChunks.MovingBillComesTwice` is such a table.
- "One watcher per process" needs starts and stops that do not overlap and joins that do not time out (`DriftWatch.OneWatcherWhen`, with two runs that leave two watchers).
- A reopen says it will not write over a record filed again with a new date. Its guard is the status alone, so it does, exactly when a filing landed after it read and the last one to land left another date (`ComplianceRaces.RefiledDateIsLostWhen`; `RefiledRecordIsOverwritten` is a run).
- An update has no guard at all, so one that lands late can undo a filing or leave the record and its lock on different dates (`ComplianceRaces.LateWriteIsSafeWhen`, `LateLockIsSafeWhen`, and over runs `RunStaysGoodWhen`; `LateUpdateUndoesFiling` and `TwoFilingsPart` are runs).
- `in_ist_window` reads the zone's own offset and `ist_day_window` writes +05:30; they are twins only where both give the same day (`IstClock.OtherOffsetsAgreeWhen`). At six and a half hours a late evening lies in different days (`IstClock.LateEveningInstant`).
- A preview fails as a whole when the date after the last one asked for would fall past the year 9999 (`Recurrence.PreviewIsTheSeries`), as it does for a monthly start in its last December (`Recurrence.LastDateCannotBePreviewed`).
- A table without columns is invisible to the catalogue read and is reported missing; it is the only kind the report is wrong about (`LiveSchema.TableReportIsTrueWhen`, `LiveSchema.ColumnlessTableIsReported`).

## Model

| member | source | states |
|---|---|---|
| `Reports.AccountingEquation` | apps/api/domain/accounting_service.py:449-519 | Over posted entries that balance, the sheet's assets less its liabilities and equity are exactly minus the net posted outside the five account types, so it balances if and only if that net is nil |
| `Reports.EquationHoldsWhenCharted` | apps/api/domain/accounting_service.py:498-518 | Assets equal liabilities plus equity plus net profit whenever every posted line names an account charted under one of the five types |
| `Books.EveryReachableStateBalances` | apps/api/domain/accounting_service.py:196-295 | After any sequence of account creations and updates, entries created and entries posted, and for every cut-off day, the trial balance balances and the sheet is out by exactly what was posted outside the five types |
| `Books.ApplyKeepsGood` | apps/api/domain/accounting_service.py:246-295 | Every operation keeps "posted implies balanced" and an index that points at an entry of that id |
| `Books.RunKeepsGood` | apps/api/domain/accounting_service.py:246-295 | The same after any run of operations, refused ones included |
| `Books.TypeIsFixed` | apps/api/domain/accounting_service.py:213-219 | No run of operations changes the type of an account unless an account is created under the very same id |
| `Books.PostedIsFinal` | apps/api/domain/accounting_service.py:286-295 | A posted entry keeps its place, its status and its lines through every later operation |
| `Books.LoadedIsGood` | apps/api/domain/accounting_service.py:175 | Loading a list of entries builds an index that is true of it, the last entry of an id winning |
| `Books.PostTakesEffect` | apps/api/domain/accounting_service.py:286-295 | A post is granted exactly to an entry that is there, not posted and balanced; then that entry is posted and nothing else has changed, and otherwise nothing has |
| `Books.PostShows` | apps/api/domain/accounting_service.py:286-378 | A granted post shows: the sums of every report over a scope the entry lies within gain the entry's own lines, account by account, and no other report gains anything |
| `Books.PostedOnce` | apps/api/domain/accounting_service.py:287-289 | Posting the same id again is refused after any run in which no entry is made under it |
| `Books.EntryTakesEffect` | apps/api/domain/accounting_service.py:246-284 | An entry is refused exactly for fewer than two lines, for being born posted unbalanced, or for naming an account that is false, nothing or blank for active; otherwise it is the last of the list and under its id, with the date, narration and status given or the day of the call, none and draft |
| `Books.EntryShows` | apps/api/domain/accounting_service.py:246-378 | An entry born posted is in every report over its day and client at once, line for line, and a draft in none |
| `Books.AccountsTakeEffect` | apps/api/domain/accounting_service.py:196-219 | A new account has its six fields, active among them; an update changes the four fields it may and no other; every other account and the journal stand |
| `Books.ArchivedTakesNoEntries` | apps/api/domain/accounting_service.py:213-258 | An account set inactive takes no entry, and set active again refuses none on its own account |
| `Books.UnbalancedSheetIsReachable` | apps/api/domain/accounting_service.py:449-519 | From empty books, one account charted and one balanced entry posted against it and an id that is not charted make a sheet that is out by the whole amount |
| `Reports.TrialBalanceBalances` | apps/api/domain/accounting_service.py:334-378 | The trial balance of books whose posted entries balance is balanced, for every cut-off |
| `Reports.TrialRowsAre` | apps/api/domain/accounting_service.py:340-369 | Exactly one row for each account posted to, carrying that account's own debit, credit and net |
| `Sections.TrialRowShows` | apps/api/domain/accounting_service.py:340-377 | A row of the trial balance shows the chart's code, name and type of its account, nothing where it has none, its debits, its credits and the one less the other |
| `Reports.LastRunningIsNet` | apps/api/domain/accounting_service.py:324-330 | The ledger's last running balance is the account's net, although the rows were reordered by date in between; it has rows exactly when the account is posted to |
| `Reports.LedgerIsChronological` | apps/api/domain/accounting_service.py:325 | Ledger rows read in date order |
| `Reports.LedgerIsDetermined` | apps/api/domain/accounting_service.py:299-330 | The ledger is one ledger: nothing in its specification, rows of one day among it, is left open |
| `Reports.TrialBalanceIsDetermined` | apps/api/domain/accounting_service.py:334-378 | And so is the trial balance, accounts that share a code among it |
| `Reports.LedgerAgreesWithTrialBalance` | apps/api/domain/accounting_service.py:299-378 | An account's last running balance up to a day is its net in the trial balance of that day, and one has rows exactly when the other has a row for it |
| `Reports.BalanceSheetAgreesWithProfitLoss` | apps/api/domain/accounting_service.py:495-504 | The sheet's net profit is that of the unfiltered profit and loss from the first posted day to the sheet's day |
| `Reports.ProfitIsAdditive` | apps/api/domain/accounting_service.py:382-445 | Profit, revenue and expenses over two adjacent ranges add up to those over their union |
| `Sections.ProfitLossShows` | apps/api/domain/accounting_service.py:419-445 | The profit and loss lists every income account posted to by credits less debits and every expense account by debits less credits, nil or not, each once and in name order |
| `Sections.ProfitLossAddsUp` | apps/api/domain/accounting_service.py:419-445 | The lines of each section add up to the total under it, and the totals to the profit |
| `Sections.BalanceSheetShows` | apps/api/domain/accounting_service.py:476-509 | The sheet lists every asset, liability and equity account with a balance on its own side, nil left out, in name order, and the profit last under equity exactly when it is not nil |
| `Sections.BalanceSheetAddsUp` | apps/api/domain/accounting_service.py:476-509 | The lines of each section of the sheet, the profit among them, add up to its total |
| `Ledger.PostingsNetToZero` | apps/api/domain/accounting_service.py:286-295 | What any scope selects of posted entries that each balance nets to nil |
| `Ledger.SumByAccount` | apps/api/domain/accounting_service.py:340-368 | A sum over postings, taken account by account over the accounts in the order first seen, is the sum over all of them |
| `AccountingService.Service.constructor` | apps/api/domain/accounting_service.py:170-175 | Loading the seed gives one shared object to the list and to the index for each entry, and the books the specification says |
| `AccountingService.Service.CreateAccount` | apps/api/domain/accounting_service.py:196-211 | One new object, active, with the fields given, is charted under its id; everything else as it was |
| `AccountingService.Service.UpdateAccount` | apps/api/domain/accounting_service.py:213-219 | The name, subtype, parent and active flag of the named account change in place where the changes have them, and nothing else of it or of any other account; or the id is missing and nothing does |
| `AccountingService.Service.CreateJournalEntry` | apps/api/domain/accounting_service.py:246-284 | Refused exactly for fewer than two lines, for being born posted and unbalanced, or for naming an inactive account, and then list and index stand; otherwise one new object, with what was given and the defaults for what was not, ends the list and is the id's in the index |
| `AccountingService.Service.PostJournalEntry` | apps/api/domain/accounting_service.py:286-295 | Done exactly when the id is indexed and its entry is not posted and balances: that very object, in the list too, turns posted and no other changes; otherwise the refusal says why and nothing does |
| `AccountingService.Service.GetLedger` | apps/api/domain/accounting_service.py:299-330 | The nested loops, the stable sort and the running total produce the ledger of the specification, each row with its entry's reference and narration |
| `AccountingService.Service.GetTrialBalance` | apps/api/domain/accounting_service.py:334-378 | The loops over a dictionary of totals produce the trial balance of the specification, rows stably sorted by account code |
| `AccountingService.Service.GetProfitLoss` | apps/api/domain/accounting_service.py:382-445 | The loops produce the profit and loss of the specification, with its defaults for a missing bound |
| `AccountingService.Service.GetBalanceSheet` | apps/api/domain/accounting_service.py:449-519 | The loops produce the balance sheet of the specification |
| `Sorting.SortBy` | apps/api/domain/accounting_service.py:325 | The sort is the stable one: the same elements, ascending, ties in the order they came |
| `Sorting.StableIsUnique` | apps/api/domain/accounting_service.py:325 | The stable order has one solution: sorted arrangements of the same elements that keep ties in the order they came are equal |
| `Sorting.SortedIsUnique` | apps/api/domain/accounting_service.py:369 | With no two distinct elements tied there is only one sorted arrangement |
| `Paging.FetchAll` | apps/api/core/db_paging.py:71-142 | For every way the table changes between requests and every cap: strictly increasing keys, and a row is returned exactly when the read got as far as its key and the row was in the table at that key's turn. A short last page from a server that honours the page size misses nothing present throughout; a server capped lower ends the read after one page, and then something is missed exactly when the table held more than the cap; a read stopped by the page limit misses nothing as far as its last key. Of a table that does not change, exactly the stated prefix. The loop always ends |
| `Paging.CappedRead` | apps/api/core/db_paging.py:45-52 | From a server capped below the page size the one answer is complete exactly when the table fits under the cap |
| `Paging.PageIsExact` | apps/api/core/db_paging.py:111-130 | One page more keeps the row-by-row account: returned exactly when reached and there at its turn |
| `Paging.PageExtends` | apps/api/core/db_paging.py:105-130 | One page more keeps soundness, and completeness up to the new cursor, whatever the table was at that request |
| `Paging.KeyIsRead` | apps/api/core/db_paging.py:113-118 | A key present at every request and not past the new cursor has been read |
| `Paging.UnchangedRowIsRead` | apps/api/core/db_paging.py:78-86 | A row that never changes during the run is itself in the result |
| `Paging.StaticStep` | apps/api/core/db_paging.py:105-137 | On a table that does not change, a full page goes on as a prefix and a stop leaves exactly the rows it can return |
| `Paging.ViewIsUnique` | apps/api/core/db_paging.py:163-165 | The requested order with the id behind it is total: any two servers present one and the same view |
| `Paging.ViewReads` | apps/api/core/db_paging.py:155-165 | That order reads by the field asked for, up or down, and where it ties by the id, up or down, and holds the table's rows once each |
| `Paging.FetchWindow` | apps/api/core/db_paging.py:145-178 | The window is exactly the slice from its start, however the page size divides it; from a server capped lower, exactly what its first answer held |
| `InChunks.Wanted` | apps/api/core/db_paging.py:214 | The values are taken once each, none missing, in order |
| `InChunks.FetchAllIn` | apps/api/core/db_paging.py:187-220 | For every way the table changes while the chunks are read and every chunk size: nothing but rows of the table under a value asked for, a row twice exactly when two chunks catch it, every row that stays as it is when every read got to the end; and of a table that does not change, every row asked for, once |
| `InChunks.OnceUnlessCaughtTwice` | apps/api/core/db_paging.py:209-212 | No key comes back twice exactly when none was caught by two chunks: under a value of the one at its turn there and under a value of the other at its turn there |
| `InChunks.FixedColumnsComeOnce` | apps/api/core/db_paging.py:209-212 | While no row moves from one value to another no row comes back twice, whatever else changes |
| `InChunks.ChunksAreDisjoint` | apps/api/core/db_paging.py:214-217 | The chunks of a sorted list without repeats share no value |
| `InChunks.MovedRowRepeats` | apps/api/core/db_paging.py:209-219 | A row under an earlier chunk's value throughout that chunk and under a later one's throughout the later comes back twice |
| `InChunks.MovingBillComesTwice` | apps/api/core/db_paging.py:209-219 | A table at which it does, for every server that honours the page size |
| `RateWindow.NeverOverBudget` | apps/api/core/rate_window.py:59-81 | Over every run, a key never dropped is let through at most the budget of times in any half-open window |
| `RateWindow.RefusedOnlyWhenSpent` | apps/api/core/rate_window.py:69-81 | A call is refused only if a whole budget of hits of that key really was let through inside the window, dropped or not; for a key never dropped, exactly then |
| `RateWindow.AcceptedAreSpaced` | apps/api/core/rate_window.py:75-81 | An accepted hit and the one a whole budget later are a full window apart |
| `RateWindow.RunTracks` | apps/api/core/rate_window.py:70-80 | In every run a bucket is the tail of its key's accepted times and what it no longer holds has aged out, unless the key was dropped |
| `RateWindow.WaitIsExact` | apps/api/core/rate_window.py:78-79 | After a refusal naming a wait: that many seconds later the bucket has room, until the oldest event ages out it has none, and so one whole second earlier it has none (the delay of `Retry-After`, section 10.2.3 of RFC 9110) |
| `RateWindow.WaitIsHonoured` | apps/api/core/rate_window.py:62-66 | Over runs: the same key, not trying in between, is let through at any time at least the wait later, and refused one whole second short of it unless it was dropped |
| `RateWindow.HitKeepsGood` | apps/api/core/rate_window.py:68-81 | Every call keeps each bucket non-empty, in time order and within the budget, and the table within its cap |
| `RateWindow.RunKeepsGood` | apps/api/core/rate_window.py:41-48 | The table is so after every call of every run |
| `RateWindow.DropsTheColdest` | apps/api/core/rate_window.py:87-92 | A clearing drops a quarter of the cap, at least one, and no key warmer than one that stays |
| `RateWindow.DropsAreDetermined` | apps/api/core/rate_window.py:87-92 | Which keys a clearing drops is settled by the table, ties among them |
| `RateWindow.OthersLeaveBucket` | apps/api/core/rate_window.py:70-81 | A call for another key leaves this key's bucket as it was or drops it whole |
| `RateWindow.NothingLostBelowCap` | apps/api/core/rate_window.py:70-74 | Over every run, a call by a key the table holds, or while it holds fewer keys than its cap, loses no key and leaves every other bucket as it was |
| `RateWindow.ColdestLostAtCap` | apps/api/core/rate_window.py:87-92 | A call by a new key to a full table loses a quarter of the cap rounded down, or one key where that is none, those whose last hits are the oldest, and leaves the other buckets as they were |
| `RateWindow.FewKeysLoseNothing` | apps/api/core/rate_window.py:70-74 | In a run that names no more keys than the cap no call ever loses one |
| `RateWindow.FewKeysAreExact` | apps/api/core/rate_window.py:59-81 | So in such a run a call is refused if and only if a whole budget of its key's hits lies in its window, and no window holds more than a budget of anyone's |
| `RateWindow.CallIsRecorded` | apps/api/core/rate_window.py:75-81 | A call keeps of its bucket exactly the times inside the window; a full budget of them refuses it, and otherwise its own time is put behind them |
| `Limiter.SlidingWindowLimiter.HitOrWait` | apps/api/core/rate_window.py:59-81 | The bucket keeps the times inside the window and takes the call's own exactly when they are fewer than the budget; below the cap of keys nobody else is touched; and the dictionary of deques moves, and answers, as the specification's table |
| `Limiter.SlidingWindowLimiter.Hit` | apps/api/core/rate_window.py:50-57 | True exactly when the event was recorded, and the bucket says so |
| `Limiter.SlidingWindowLimiter.DropColdest` | apps/api/core/rate_window.py:87-92 | The keys popped are the front of the keys stably ranked by their last event |
| `Limiter.SlidingWindowLimiter.Create` | apps/api/core/rate_window.py:41-48 | A limiter exists only for a positive budget, window and key cap, and starts empty |
| `Limiter.PopExpired` | apps/api/core/rate_window.py:75-77 | The loop that pops the left end takes off exactly the leading events that have aged out |
| `Recurrence.AddMonthsClamped` | apps/api/domain/recurrence.py:48-55 | The day lands the stated number of months on, on the original day or the last day of a shorter month |
| `Recurrence.SeriesIncreases` | apps/api/domain/recurrence.py:58-65 | The series starts at its start, strictly increases, and every member of a monthly series has the start's own day cut only to its own month |
| `Recurrence.CadencesAre` | apps/api/domain/recurrence.py:35-65 | On the calendar, member n lies 7n days on, or n, 3n, 6n months on, or n years on in the same month |
| `Recurrence.CoarserSeries` | apps/api/domain/recurrence.py:58-65 | The quarterly series is every third member of the monthly one, the half-yearly every sixth, the yearly every twelfth, to the very day |
| `Recurrence.FloorIsClose` | apps/api/domain/recurrence.py:68-72 | The estimate is never too high and at most one too low: the member before it is before the reference, the member after it past it |
| `Recurrence.FirstIndexIsFirst` | apps/api/domain/recurrence.py:80-102 | The first member found by trying every one in turn from the start is the one at the estimate or the one after |
| `Recurrence.Search` | apps/api/domain/recurrence.py:80-102 | The search finds that first member; the walk back never runs and the walk forward at most once; an occurrence past the calendar ends it |
| `Recurrence.OccurrenceOnOrAfter` | apps/api/domain/recurrence.py:75-85 | The answer is the first member at or after the reference; a reference not past the start is answered before the cadence is looked at |
| `Recurrence.NextOccurrence` | apps/api/domain/recurrence.py:88-102 | The answer is the first member strictly after the reference, or the start; from the start itself one step of the cadence on, counted on the calendar |
| `Recurrence.OnOrAfterIsLeast` | apps/api/domain/recurrence.py:75-85 | No member at or past the reference is earlier than the answer, and the call fails exactly when the least one lies past the calendar |
| `Recurrence.NextOfMember` | apps/api/domain/recurrence.py:88-102 | After a member comes the next member |
| `Recurrence.NextIsOneStepOn` | apps/api/domain/recurrence.py:88-102 | And that is seven days, or one, three or six months, or a year on, on the start's own day cut to its month |
| `Recurrence.SteppingDoesNotDrift` | apps/api/domain/recurrence.py:17-23 | Feeding each answer back in visits exactly the members of the series in order: no drift |
| `Recurrence.TwoStepsAgreeWhen` | apps/api/domain/recurrence.py:17-23 | Clamping in two steps agrees with clamping from the start exactly when the month stepped on is no shorter than the day or the month aimed at |
| `Recurrence.PreviewOccurrences` | apps/api/domain/recurrence.py:105-125 | At most the count and at most 120 dates, beginning at the stored next run, at the start, or at the first member on or after the day asked from; each the next after the one before, none past the end date, and fewer only when the next one is past it |
| `Recurrence.PreviewIsTheSeries` | apps/api/domain/recurrence.py:116-125 | From a member the preview is consecutive members up to the count, the run bound or the end date; it fails as a whole exactly when some member it lists is the last on the calendar |
| `Recurrence.LastDateCannotBePreviewed` | apps/api/domain/recurrence.py:116-125 | A monthly template starting in the last December of the calendar has a date and cannot be previewed |
| `Recurrence.PreviewRejoinsTheSeries` | apps/api/domain/recurrence.py:110-124 | A stored next run off the series is listed as it stands and what follows is the series |
| `Calendar.OrdinalOrder` | apps/api/domain/recurrence.py:68-72 | Days are ordered as their numbers are, and no two share one |
| `Calendar.MonthsAlternate` | apps/api/domain/recurrence.py:48-55 | Months but February alternate between 31 and 30 days, the count beginning again at August; February has 28, or 29 in a leap year |
| `Calendar.LeapYears` | apps/api/domain/recurrence.py:48-55 | Every fourth year is a leap year, but of the centuries only every fourth |
| `Calendar.FourCenturies` | apps/api/domain/recurrence.py:48-55 | The calendar comes round every four hundred years, after a whole number of weeks |
| `Calendar.FirstDay` | apps/api/domain/recurrence.py:68-72 | Days are numbered from the first of January of the year one |
| `Calendar.AddDaysAddsToOrdinal` | apps/api/domain/recurrence.py:62 | Stepping n days on adds n to the day's number |
| `Calendar.IsoOrder` | apps/api/domain/accounting_service.py:310-313 | ISO dates compare as text exactly as their days do, which is what lets the models count days |
| `ExpectedColumns.LastEventWins` | apps/api/core/schema_guard.py:240-270 | A column is expected exactly when some statement adds it and none later, in file and statement order, drops it or its table, adds coming before drops inside one ALTER; no table is left with an empty set |
| `ExpectedColumns.AfterMeans` | apps/api/core/schema_guard.py:253-269 | What one statement does to one column, table and schema names folded, statements of other schemas passed over |
| `ExpectedColumns.StatementsMean` | apps/api/core/schema_guard.py:144-269 | What adds a column and what takes it away: an ALTER of the table for the public schema that adds it in some spelling and drops it in none, one that drops it, or a DROP that names its table |
| `ExpectedColumns.SkippedWhen` | apps/api/core/schema_guard.py:241-245 | Set aside are exactly the files whose names begin with an underscore or hold "rollback" |
| `ExpectedColumns.ExpectedColumns` | apps/api/core/schema_guard.py:216-270 | The nested loops over the sorted files, set-aside and rollback files skipped, compute that fold, and leave no table with an empty set |
| `ExpectedColumns.LastFileWins` | apps/api/core/schema_guard.py:240-270 | Over the files a column is expected exactly when some file not set aside leaves it standing and no later one says anything of it |
| `ExpectedColumns.ListingOrderIsIrrelevant` | apps/api/core/schema_guard.py:240 | With distinct file names what is expected does not depend on the order the directory is listed in |
| `LiveSchema.LiveColumns` | apps/api/core/schema_guard.py:295-340 | None exactly when the call failed, the answer has another shape, a column list is not a list, or the parsed columns are not as many as declared |
| `LiveSchema.PayloadIsUnwrapped` | apps/api/core/schema_guard.py:304-318 | An answer is taken bare or alone in a list, and only with both its parts |
| `LiveSchema.CountColumns` | apps/api/core/schema_guard.py:332 | The sum of the set sizes is the number of table and column pairs |
| `LiveSchema.ReadIsWhole` | apps/api/core/schema_guard.py:288-292 | An answer that names only what the catalogue holds and carries its true count is either refused or is the whole catalogue, column for column, whatever was cut out |
| `LiveSchema.WholeAnswerAccepted` | apps/api/core/schema_guard.py:329-338 | A whole answer is accepted exactly when no two columns of the catalogue share a lower-case name |
| `LiveSchema.CheckSchemaDrift` | apps/api/core/schema_guard.py:346-386 | Not checked exactly when something is expected and there is no read; otherwise missing and set-aside list each absent expectation once, the superseded ones apart, a table's columns together and in the order of their names |
| `LiveSchema.ReportIsSound` | apps/api/core/schema_guard.py:367-375 | Against a whole catalogue an expectation is reported missing exactly when it is not superseded and the database has it under no spelling, and set aside exactly when superseded and absent |
| `LiveSchema.SupersededAre` | apps/api/core/schema_guard.py:171-212 | Excused are exactly two whole tables and the firm's id on three others |
| `LiveSchema.FunctionsReadWhole` | apps/api/core/schema_guard.py:435-470 | A list of functions is refused or whole |
| `LiveSchema.FunctionReportedWhen` | apps/api/core/schema_guard.py:490-497 | Against a whole list a function the code calls is reported missing exactly when the database has it under no spelling |
| `LiveSchema.HalvesAreReadApart` | apps/api/core/schema_guard.py:473-498 | Each flag says exactly whether its half was read; a half that was not reports nothing, and nothing is reported that the code does not call |
| `LiveSchema.TableReportedWhen` | apps/api/core/schema_guard.py:473-496 | A table the code calls is reported missing exactly when the database has no column of it and the answer does not list it with none |
| `LiveSchema.TableReportIsTrueWhen` | apps/api/core/schema_guard.py:473-496 | From an answer that lists only tables with columns, the report is true of a table exactly when the database does not have it without columns |
| `LiveSchema.ColumnlessTableIsReported` | apps/api/core/schema_guard.py:473-496 | A database at which it is not: one table without columns, read whole and reported missing |
| `DriftWatch.EndsOnlyClean` | apps/api/core/schema_guard.py:649-669 | A watcher not told to stop ends only on judging the verdict it has just applied: checked, nothing missing, no object pending |
| `DriftWatch.WatchesUntilClean` | apps/api/core/schema_guard.py:649-669 | Over every run a watcher that is gone has judged clean a verdict it had just applied, or somebody has raised the flag; and while nobody has, it is gone exactly if it has judged clean |
| `DriftWatch.AsksAgain` | apps/api/core/schema_guard.py:652-669 | After any answer that is not clean the watcher sleeps and checks again |
| `DriftWatch.StopIsHeeded` | apps/api/core/schema_guard.py:639-652 | From the flag on, unless a start clears it, no watcher begins another check and none takes more than four steps before it is gone |
| `DriftWatch.OnlyReturnedIsHandedOver` | apps/api/core/schema_guard.py:655-659 | What is handed over, and what is shown, is what some check returned, or the verdict of the boot |
| `DriftWatch.LastHandedOverIsShown` | apps/api/core/schema_guard.py:655-659 | A verdict handed over is shown until the next one is |
| `DriftWatch.StartLeavesAWatcher` | apps/api/core/schema_guard.py:621-637 | A start leaves a live watcher on the books: the one that was there, untouched, or a new one with the flag down |
| `DriftWatch.AsksWhen` | apps/api/core/schema_guard.py:588-595 | A watcher is asked for exactly when there is a database and a verdict or an object to wait for |
| `DriftWatch.CleanVerdictIsItsLast` | apps/api/core/schema_guard.py:590-669 | In every interleaving each watcher was asked for by a start that needed one, and once it has ended cleanly the healthy verdict stays the last it applied |
| `DriftWatch.HealthIsLostOnlyIfPending` | apps/api/core/schema_guard.py:651-669 | A watcher replaces a healthy verdict of its own by an unhealthy one only if objects were pending when it judged it |
| `DriftWatch.VerdictStands` | apps/api/core/schema_guard.py:615-618 | With every watcher gone and none started since, the verdict and the objects do not change |
| `DriftWatch.OneWatcherWhen` | apps/api/core/schema_guard.py:621-646 | There is only ever one live watcher exactly when no start spawns one while a watcher a stop has taken off the books is still alive |
| `DriftWatch.OneWatcherIfOrderly` | apps/api/core/schema_guard.py:639-646 | That is so whenever starts and stops do not overlap and every join waits its watcher out |
| `DriftWatch.RacingStartLeavesTwo` | apps/api/core/schema_guard.py:627-644 | An interleaving with two live watchers: a start between a stop's flag and its lock |
| `DriftWatch.TimedOutJoinLeavesTwo` | apps/api/core/schema_guard.py:630-646 | Another: a join that times out on a watcher inside its check, and a start after it |
| `Compliance.UpdateKeepsGood` | apps/api/domain/compliance_record_service.py:411-480 | A call that reads and writes with nothing in between keeps "dated exactly when filed or completed" and "a filed GSTR-1 or GSTR-3B has its period locked with its own date", keeps them of every record of another period, moves only along the workflow, and never takes a settled record back |
| `Compliance.WorkflowEnteredFrom` | apps/api/domain/compliance_record_service.py:19-28 | The workflow told from the other end: exactly which statuses each status is entered from |
| `Compliance.ReturnsAndDepositsPart` | apps/api/domain/compliance_record_service.py:31-40 | Every obligation of a known type is a return or one of the five deposits, never both |
| `Compliance.UpdateRefusedWhen` | apps/api/domain/compliance_record_service.py:411-426 | An update without a status is granted; one short of Filed exactly when the workflow has the move; one into Filed exactly from Ready To File, the period ended and the date without fault |
| `Compliance.UpdateTakesEffect` | apps/api/domain/compliance_record_service.py:415-480 | What a granted update leaves in each column, the first completion's time and the filing's date among them, nothing else changed; and the one lock it adds, with that date and the acknowledgement |
| `Compliance.ReopenRefusedWhen` | apps/api/domain/compliance_record_service.py:507-523 | A reopen is refused exactly for a blank reason, one over 500 characters, a record not settled, and anything but the five deposits, in that order |
| `Compliance.ReopenTakesEffect` | apps/api/domain/compliance_record_service.py:529-539 | A reopened record is as it was but for its status, the note behind its notes, and the columns blanked |
| `Compliance.FilingRecords` | apps/api/domain/compliance_record_service.py:141-181 | Moving into Filed records the day given, or today for what closes no period, never in the future nor before a return's period ended, and locks the period with that very date |
| `Compliance.FilingRefusedWhen` | apps/api/domain/compliance_record_service.py:64-181 | A filing is refused exactly in the six listed cases |
| `Compliance.PreflightHolds` | apps/api/domain/compliance_record_service.py:588-589 | Checks that pass at the door pass on any later day |
| `ComplianceService.Service.AddObligation` | apps/api/migrations/108_compliance_engagement.sql:44-47 | A derived record is added exactly when none of its client, obligation and period exists, and the tables stay valid |
| `ComplianceService.Service.CreateRecord` | apps/api/domain/compliance_record_service.py:334-409 | Refused for a clash of client, type and period, then for a missing date, then for being born filed; otherwise exactly the stated row |
| `ComplianceService.Service.UpdateRecord` | apps/api/domain/compliance_record_service.py:411-489 | Refused exactly for a move the workflow lacks, a filing too early or with a fault in its date, or one that cannot be written, and then nothing changes; granted, each column is what was given or what was there, the first completion and a filing stamped, and the one lock added |
| `ComplianceService.Service.ReopenRecord` | apps/api/domain/compliance_record_service.py:491-539 | Refused in the four cases, in order; otherwise the record is as it was but for its status, the note and the columns of a filing, blank |
| `ComplianceService.Service.MarkFiled` | apps/api/domain/compliance_record_service.py:563-600 | From every open status a walk of allowed moves to Filed, four columns changed and no other, and the filing recorded; if the checks would refuse the last step no step is taken; already filed, only the acknowledgement may change; a filing that fails leaves it at Ready To File |
| `ComplianceService.LastStep` | apps/api/domain/compliance_record_service.py:592-599 | The last step is granted once the checks have passed, and carries the date and the acknowledgement into the filing |
| `ComplianceService.DoorRefusesWhen` | apps/api/domain/compliance_record_service.py:588-599 | The checks at the door refuse exactly a period yet to end, a fault in the date, and then a status the workflow does not know |
| `ComplianceRaces.LateWriteIsSafeWhen` | apps/api/domain/compliance_record_service.py:469-478 | A write that lands late keeps the record good, its date and its lock's one date, exactly when a move between open statuses finds it open, a completion finds it settled, and a filing finds the lock with its own date |
| `ComplianceRaces.StepTouches` | apps/api/domain/compliance_record_service.py:411-539 | A call that begins reads the row as it stands and changes nothing else; a lock changes the one period its plan files, a write the row alone; an update's write always lands, and no other call moves |
| `ComplianceRaces.LateLockIsSafeWhen` | apps/api/domain/compliance_record_service.py:189-230 | A lock put on late keeps the record good exactly when the record is still open or carries the same date |
| `ComplianceRaces.RunStaysGoodWhen` | apps/api/domain/compliance_record_service.py:411-539 | Over every interleaving of updates and reopens the record is good in every state, its lock quoting its date, exactly when every write and every lock lands as those two conditions say |
| `ComplianceRaces.TwoFilingsPart` | apps/api/domain/compliance_record_service.py:411-480 | A run in which two filings leave the record and its lock on different dates, for any two dates a filing may have |
| `ComplianceRaces.FiledReturnStaysFiled` | apps/api/domain/compliance_record_service.py:19-28 | Over every such interleaving a record that is not a deposit, a GSTR-1 or GSTR-3B among them, never leaves Filed or Completed and its period stays locked with its own date |
| `ComplianceRaces.OneReopenLands` | apps/api/repositories/compliance_records_repository.py:141-167 | Between two reopens that land the record was recorded as filed or completed again: of racing reopens one at most succeeds |
| `ComplianceRaces.ExactlyOneReopenLands` | apps/api/repositories/compliance_records_repository.py:141-167 | Of two reopens of one filed record that race over one run, the first to write lands and the other fails and changes nothing |
| `ComplianceRaces.ReopenFindsItsDateWhen` | apps/api/domain/compliance_record_service.py:529-539 | Over every run, a reopen that lands finds the date it read exactly when the last date written since, if any was, is that date |
| `ComplianceRaces.RefiledDateIsLostWhen` | apps/api/domain/compliance_record_service.py:529-539 | Over the runs that keep the record good, a reopen that lands takes away a date it never read exactly when some filing landed in between and the last one left another date |
| `ComplianceRaces.RefiledRecordIsOverwritten` | apps/api/domain/compliance_record_service.py:533-539 | A run in which a record filed again with a new date is written over |
| `ComplianceRaces.LateUpdateUndoesFiling` | apps/api/domain/compliance_record_service.py:417-476 | A run in which a late update sends a filed GSTR-1 or GSTR-3B back to In Progress, its date kept and its period locked |
| `MoneyText.GroupIndian` | apps/api/domain/money_text.py:61-73 | The loop that cuts, collects and reverses computes the grouping |
| `MoneyText.CommasStand` | apps/api/domain/money_text.py:61-73 | Read from the right a character is a comma exactly at every third place but the first: three digits, then twos |
| `MoneyText.GroupingLosesNothing` | apps/api/domain/money_text.py:61-73 | Dropping the commas gives the digits back |
| `MoneyText.PaiseReadBack` | apps/api/domain/money_text.py:76-81 | A reader recovers every integer from its rupees and paise; a missing amount reads as nil |
| `MoneyText.PaiseAreTold` | apps/api/domain/money_text.py:76-81 | Two amounts print alike only if they are equal |
| `MoneyText.MinorUnitsReadBack` | apps/api/domain/money_text.py:94-108 | A reader recovers every amount at every count of decimals |
| `MoneyText.NilAndPoint` | apps/api/domain/money_text.py:101-105 | A missing amount is nil; a point is printed exactly for a currency with decimals, before as many digits as it has |
| `MoneyText.WholeRupeesCutTowardNil` | apps/api/domain/money_text.py:84-91 | The amount cut toward nil, a minus only before a whole rupee or more |
| `Decimal.ValueOfDigits` | apps/api/domain/money_text.py:81 | Printed decimal digits read back as the count |
| `Text.LessWhen` | apps/api/domain/accounting_service.py:310-313 | Texts compare at the first place they differ, by code, and a beginning before the whole |
| `StorageNames.TidyIsIdempotent` | apps/api/core/uploads.py:188-196 | Every stem gives a name that is not empty, within the cap, of safe characters, without two dots or underscores together and with a letter or digit at both ends; tidying it again changes nothing |
| `StorageRules.WordsAreJoined` | apps/api/core/uploads.py:188-196 | A name of words with gaps of characters a key does not keep is stored as the words with one underscore between each two |
| `StorageRules.WrappingIsDropped` | apps/api/core/uploads.py:188-196 | Dots, dashes, underscores, blanks and characters a key does not keep, around a name, change neither what it is stored as nor how much of it is kept |
| `StorageRules.WhitelistJoins` | apps/api/core/uploads.py:158-192 | Cut where a safe character stands on either side, a stem is whitelisted piece by piece |
| `StorageRules.SingleJoins` | apps/api/core/uploads.py:194-195 | Cut where the character does not stand on both sides, runs are made single piece by piece |
| `StorageNames.StorageNameIs` | apps/api/core/uploads.py:206-210 | Every file name gives a stored name of safe characters, no two dots or underscores together, a letter or digit at both ends, within the cap and its extension, and ending in that extension |
| `StorageRules.SplitIs` | apps/api/core/uploads.py:161-172 | A caller's name is what follows its last separator, hidden characters and outer blanks gone, cut at its last dot unless that is its first character or there is none |
| `StorageRules.TidyIsStored` | apps/api/core/uploads.py:206-210 | A tidy name without a dot, of a hundred characters or fewer, is stored as it is |
| `StorageNames.BareNameStoresAgainWhen` | apps/api/core/uploads.py:206-210 | A name stored without an extension stores again as itself exactly when it has no dot |
| `StorageNames.StoredNameSplitsBack` | apps/api/core/uploads.py:166-172 | A stored name splits back into its stem and extension, and storing it again stores the same name |
| `Text.StripIs` | apps/api/core/uploads.py:166-168 | A text is what strip leaves, between blanks, and what it leaves neither begins nor ends with one |
| `StorageDoor.OwnsByParts` | apps/api/core/storage_door.py:81-90 | A key is owned exactly when its first parts are the door's segments, each later part names something, and what follows is clean: no owned key climbs out |
| `StorageRules.SegmentWhen` | apps/api/core/storage_door.py:30-64 | A folder's name is one to sixty-four letters, digits, dots, underscores, dashes and blanks, beginning with a letter or a digit, with no two dots together |
| `StorageRules.EncodedWhen` | apps/api/core/storage_door.py:40-41 | What is refused as a separator in disguise is a percent sign and two hexadecimal digits whose value is a dot's, a slash's or a backslash's |
| `StorageRules.NamesWhen` | apps/api/core/storage_door.py:81-88 | A part names something unless it is dots alone, two at most |
| `StorageDoor.StoredNameFitsItsDoor` | apps/api/core/storage_door.py:81-90 | Folder and stored name together are always accepted |
| `StorageDoor.DoorsAreApart` | apps/api/core/storage_door.py:72-79 | Two doors with as many segments own a common key only if their segments are equal |
| `StorageDoor.DoorsOverlapWhen` | apps/api/core/storage_door.py:72-90 | Doors of any depth share some key exactly when one folder lies in the other |
| `IstClock.WindowIsTheTwin` | apps/api/core/ist_clock.py:219-242 | At five and a half hours ahead of UTC, a readable instant is in the window exactly when it lies between the half-open bounds |
| `IstClock.InstantHasDayWhen` | apps/api/core/ist_clock.py:154-181 | An instant has a day exactly when that day is on the calendar, and it is the one the instant lies in |
| `IstClock.IndianDay` | apps/api/core/ist_clock.py:175-181 | The Indian day of an instant begins and ends at midnight five hours and thirty minutes ahead of UTC |
| `IstClock.WindowIs` | apps/api/core/ist_clock.py:219-230 | The window runs from Indian midnight at the start of the first day to Indian midnight at the end of the last, open where a day is not given; there is none exactly when the last day is the last there is |
| `IstClock.OtherOffsetsAgreeWhen` | apps/api/core/ist_clock.py:180-242 | Where the zone kept another offset, the two agree on every window exactly when both put the instant on the same day |
| `IstClock.LateEveningInstant` | apps/api/core/ist_clock.py:180-242 | An instant and an offset at which the two do not agree, on every day of the calendar but the last |
| `IstClock.DateIsInItsYear` | apps/api/core/ist_clock.py:38-55 | A date lies within the bounds of the financial year its label names |
| `IstClock.BoundsWhen` | apps/api/core/ist_clock.py:38-55 | The years known are 1900 to 2999, each from its first of April to the thirty-first of March |
| `IstClock.LabelReads` | apps/api/core/ist_clock.py:84-116 | A label is its year, a dash, and the last two digits of the next year |
| `IstClock.QuartersTile` | apps/api/core/ist_clock.py:58-81 | The quarters run from the year's first day to its last, each beginning the day after the one before, and a date of the year lies in exactly one |
| `IstClock.LabelsAreFixedPoints` | apps/api/core/ist_clock.py:84-116 | The normaliser answers only with labels, and its fixed points are exactly the labels of the years it knows |
| `IstClock.NormalisesSpellings` | apps/api/core/ist_clock.py:84-116 | The normaliser answers with a year's label for exactly its spellings: four digits, a dash or a slash, and the next year whole or by its last two digits, blanks around each |
| `IstClock.AssessmentOfPreceding` | apps/api/core/ist_clock.py:118-152 | The assessment year of the preceding year is the year itself |
| `IstClock.AssessmentOfBareYear` | apps/api/core/ist_clock.py:123-152 | A bare year is assessed in the year after it, as its label is |
| `CellDates.OneShape` | apps/api/domain/spreadsheet_cells.py:56-58 | No text has two of the shapes, the two-digit-year ones included |
| `CellPatterns.ReadsWhen` | apps/api/domain/spreadsheet_cells.py:56-101 | A date is read exactly from the texts that write it, told as what each is made of: yyyy-mm-dd with a time of day or none, day first, or with a month's name in any of its spellings; and only if it is on the calendar |
| `CellPatterns.ClockIs` | apps/api/domain/spreadsheet_cells.py:56 | The time of day taken run by run is the pattern's: one or two digits of hours, minutes, seconds and their part each only behind the one before |
| `CellPatterns.MonthOfWhen` | apps/api/domain/spreadsheet_cells.py:49-54 | A word is a month's name exactly in that month's spellings, whatever its case |
| `CellPatterns.BlamedWhen` | apps/api/domain/spreadsheet_cells.py:104-162 | A part is blamed exactly when the text writes a date with that very fault, day and month said to be swapped only in the day-first shape |
| `CellPatterns.ShortYearWhen` | apps/api/domain/spreadsheet_cells.py:70-73 | A year is called short exactly when the text would be a date but for its two digits |
| `CellDates.ReaderAndExplainerAgree` | apps/api/domain/spreadsheet_cells.py:80-162 | A date that is read is blamed for nothing; text not read is blamed for its two-digit year exactly when it has that shape, for an impossible part exactly when it has a whole shape whose parts are no date |
| `CellDates.PartsAgree` | apps/api/domain/spreadsheet_cells.py:104-124 | The parts are a date exactly when none is named impossible |
| `CellDates.IsoReadsBack` | apps/api/domain/spreadsheet_cells.py:88-90 | A date written yyyy-mm-dd is read as itself |
| `CellDates.DayFirstReadsBack` | apps/api/domain/spreadsheet_cells.py:91-93 | A date written dd-mm-yyyy is read as itself |
| `CellDates.NamedReadsBack` | apps/api/domain/spreadsheet_cells.py:94-98 | A date written dd-Mon-yyyy is read as itself |

## Left out

- Days are numbers in the accounting and compliance models; `Calendar.IsoOrder` says why text dates may be. Bad date text reaches the compliance model only as a malformed filing date.
- Identifiers, the clock and whether a filing can be written are parameters. Identifiers may repeat, as the code lets them, except where a new record's id is the database's to choose.
- Limiter.SlidingWindowLimiter.HitOrWait: time is real-valued and calls are sequential with a clock that never goes back, because the code reads the clock before it takes the lock; floating-point rounding is not modelled.
- Paging.FetchAll: the branch for a test double that cannot page is not modelled, and every row either carries its key or none does.
- InChunks.FetchAllIn: the chunk size is a parameter, and sizes below one are not modelled.
- AccountingService.Service.GetLedger: account names are the text the chart holds. The list of accounts, entry listings and the cash flow statement (which delegates to code that is not part of this model) are left out.
- ExpectedColumns.ExpectedColumns: begins from the statements the patterns extract; case folding is of ASCII letters.
- LiveSchema.CheckSchemaDrift: the order of the tables among one another, which is the dictionary's, is not modelled, and a total that is a truth value rather than a number is not distinguished.
- DriftWatch.OneWatcherWhen: a step is atomic where the code holds the lock or the interpreter makes it so, and applying a verdict either happens or raises without effect.
- ComplianceRaces.RunStaysGoodWhen: one record at a time; the filings only grow, as this service never removes one. That records do not share a period's lock is `ComplianceService`'s, where the unique keys of both kinds of record are kept.
- ComplianceService.Service.UpdateRecord: assignment and priority are passed through by the code and not carried; audit, timeline and the risk score are left out, and so is the health score, a bounded sum of counts.
- StorageNames.TidyIsIdempotent: Unicode normalisation and folding to ASCII are functions known only to leave ASCII alone.
- IstClock.LabelsAreFixedPoints: digits are ASCII digits, and the leniency of integer parsing (signs, underscores) is not modelled; `month_end_date` and `fy_code` would add easy members.
- CellDates.ReaderAndExplainerAgree: the text is taken as already stripped, digits and letters are ASCII.
- Extraction, classification and the document indexes (`document_intelligence_service.py`): the same sharing of list and index as the accounting engine's.
- Invoice totals (`extraction_totals.py`), party names (`party_duplicates.py`) and the counts of open items (`open_items_counts.py`): shorter arithmetic and text than what is here.
- Logging, audit, I/O, the network, authentication and everything the model's entities do not need.
