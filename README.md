# Budgeting and tasks app: a verified model of its logic

This project models the logic of a mobile budgeting and to-do app, written in
TypeScript and React, and proves properties of it in Dafny. The budgeting part
works in pay cycles that run from the 15th of one month to the 14th of the
next. The model covers:

- the pay-cycle resolver and the cycle metrics (totals, expected end balance,
  variance, safe-to-spend, per-category budget rows);
- the merchant-rule lookup;
- recurring templates: their weekly, fortnightly and monthly occurrences in a
  range, the planned transactions generated from them, the filter that stops
  the same plan from being created twice, and the per-cycle total;
- the transactions page: search, type filter, the five sort orders, grouping
  by date, the "Past Transactions" divider, row selection;
- the finance calendar: day buckets, daily totals, the month grid, week and
  month totals, the selected day, month navigation;
- the quick-add parser: the "merchant amount" regular expression and the
  submitted expense record;
- the CSV import: column mapping, amount and date normalisation, the
  import-hash de-duplication, and the import loop;
- the category editor's checks, the budget card's thresholds, and the
  swipe-to-reveal gesture of a transaction row;
- the to-do list (add, toggle, star, delete, counts), its filter tabs and the
  `filter` query parameter, the progress card, and the tasks calendar grid.

Dates are day numbers in the proleptic Gregorian calendar (`Dates.Day`, day 0
being 0001-01-01), with a (year, month, day) view and the JavaScript `Date`
and date-fns helpers restated on day numbers. Money is integer cents. Shares
and per-day amounts are Dafny `real`s. "Now" and "today", the JavaScript
parsers and the database's answers are parameters.

Each module follows one source file. `lists.dfy`, `text.dfy`, `dates.dfy`,
`finance_types.dfy` and `wrappers.dfy` hold what several of them share.

The model keeps these behaviours of the code as they stand:

- a monthly day that does not exist in a month (the 31st in April) rolls into
  the next month, as `setDate` does, rather than being skipped;
- a fortnightly template whose weekday falls before the range start in that
  week moves on 14 days, not 7;
- the per-cycle total has no payday exclusion, although the comment above it
  announces one, because the function that would make it is not part of the
  source.

Generation of planned transactions and the per-cycle total take the monthly
cursor as a parameter (`Recurrence.MonthlyCursor`). `AsWritten` is the code
as it stands; `Corrected` starts the monthly cursor on the 1st of the range's
month, the fix for the first finding below. Every contract about generation
holds for both.

## Model

| member | source | states |
|---|---|---|
| CycleMetrics.CurrentCycleDatesFacts | src/hooks/useFinance.ts:11-32 | The cycle around a day holds that day, starts on a 15th and ends on the 14th of the next month; it starts in the day's own month exactly when the day is the 15th or later |
| CycleMetrics.CurrentCycleYearTurn | src/hooks/useFinance.ts:20-25 | A cycle starting in December ends in January of the next year |
| CycleMetrics.CurrentCycle | src/hooks/useFinance.ts:54 | The first open cycle of the list, or none exactly when no cycle is open |
| CycleMetrics.FindCategory | src/hooks/useFinance.ts:148 | The first category with the id, or none exactly when no category has it |
| CycleMetrics.SumSpend | src/hooks/useFinance.ts:124-126 | The spend is never negative |
| CycleMetrics.SumIncome | src/hooks/useFinance.ts:128-130 | The income is never negative |
| CycleMetrics.SumAmountsSplit | src/hooks/useFinance.ts:124-134 | The sum of every amount equals the income less the spend |
| CycleMetrics.CategorySpend | src/hooks/useFinance.ts:149-150 | A category's spend is never negative |
| CycleMetrics.CategorySpendAtMost | src/hooks/useFinance.ts:149-150 | No category spends more than the whole cycle |
| CycleMetrics.PercentUsed | src/hooks/useFinance.ts:152 | The share times the planned amount is 100 times the spend when planned is positive; 0 otherwise; never negative for a spend |
| CycleMetrics.BudgetRows | src/hooks/useFinance.ts:147-161 | No more rows than budgets |
| CycleMetrics.BudgetRowsMembers | src/hooks/useFinance.ts:147-161 | The rows are exactly those of the budgets whose category is known |
| CycleMetrics.BudgetRowsFacts | src/hooks/useFinance.ts:147-161 | Every row has its category's spend, within the cycle's, the variance planned minus actual, and the share used |
| CycleMetrics.BudgetRowFacts | src/hooks/useFinance.ts:148-160 | One row: spend of its category, planned amount of its budget, their difference and the share used |
| CycleMetrics.SafeToSpend | src/hooks/useFinance.ts:143 | The allowance times the days left is what is left to spend; 0 when no days are left |
| CycleMetrics.ComputeMetrics | src/hooks/useFinance.ts:119-122 | Metrics exist exactly when the cycle, its transactions and its budgets are loaded |
| CycleMetrics.MetricsFacts | src/hooks/useFinance.ts:124-161 | Totals are SumSpend and SumIncome of the cycle's rows and the budget rows are BudgetRows; end balance = start + income (actual, else planned) + income in − spend; variance and amount left are its distance to the target; days left are max(0, dayDiff + 1); allowance = SafeToSpend of amount left over days left |
| CycleMetrics.FirstMatchingRule | src/hooks/useFinance.ts:386-388 | The first rule whose lower-cased pattern occurs in the lower-cased merchant, or none exactly when no rule matches |
| CycleMetrics.FindCategoryForMerchant | src/hooks/useFinance.ts:382-395 | The category whose id the first matching rule names; none exactly when no rule matches or no category has that id |
| CycleMetrics.PatternInMerchantMatches | src/hooks/useFinance.ts:386-388 | A merchant containing a rule's pattern, in any case, always finds a rule |
| Recurrence.MonthlyDates | src/hooks/useRecurringTransactions.ts:149-162 | The monthly while loop produces what the monthly loop function describes |
| Recurrence.StepDates | src/hooks/useRecurringTransactions.ts:169-194 | The weekly and fortnightly while loops produce what the step loop function describes |
| Recurrence.OccurrencesInRange | src/hooks/useRecurringTransactions.ts:141-198 | `getOccurrencesInRange` as written, branch by frequency |
| Recurrence.CorrectedOccurrencesInRange | src/hooks/useRecurringTransactions.ts:141-198 | The same with the monthly cursor started on the 1st of the range's month |
| Recurrence.MonthlyLoopFacts | src/hooks/useRecurringTransactions.ts:149-162 | Monthly dates lie in the range, strictly increase, number at most 11, and are each day `dom` counted from some month's 1st (overflow rolls on) |
| Recurrence.MonthlyLoopGrows | src/hooks/useRecurringTransactions.ts:157-161 | The monthly loop only appends, and stops holding at most 11 dates |
| Recurrence.MonthlyLoopMembers | src/hooks/useRecurringTransactions.ts:152-157 | Every added date is in the range and is the cursor with its day set |
| Recurrence.MonthlyLoopIncreasing | src/hooks/useRecurringTransactions.ts:151-159 | The monthly dates strictly increase |
| Recurrence.MonthlyOnTheDay | src/hooks/useRecurringTransactions.ts:152 | For a day every month has, a monthly date falls on exactly that day of the month |
| Recurrence.OccurrencesBounded | src/hooks/useRecurringTransactions.ts:151-193 | Every occurrence is in the range with both ends included; they strictly increase and number at most 11 |
| Recurrence.CorrectedOccurrencesBounded | src/hooks/useRecurringTransactions.ts:151-193 | The same for the corrected occurrences |
| Recurrence.StepOccurrencesBounded | src/hooks/useRecurringTransactions.ts:163-194 | The same for the weekly and fortnightly loops |
| Recurrence.MissingDayNoOccurrences | src/hooks/useRecurringTransactions.ts:149-197 | A template without the day field its frequency needs has no occurrences |
| Recurrence.StepSpacing | src/hooks/useRecurringTransactions.ts:175-191 | Weekly occurrences are exactly 7 days apart, fortnightly ones 14 |
| Recurrence.StepOccurrencesAreRun | src/hooks/useRecurringTransactions.ts:163-194 | The weekly and fortnightly occurrences are the progression from the first cursor, cut at the range end and at 11 |
| Recurrence.StepLoopClosedForm | src/hooks/useRecurringTransactions.ts:169-178 | The stepping loop from any state is its collected dates plus the progression from the first in-range cursor |
| Recurrence.StepLoopMembers | src/hooks/useRecurringTransactions.ts:169-194 | A 7- or 14-day loop from inside the range collects exactly the days on its phase up to the range end and at most 11 steps |
| Recurrence.WeeklyOccurrences | src/hooks/useRecurringTransactions.ts:163-178 | Weekly occurrences are exactly the range's days with the template's weekday, among the first 11 weeks |
| Recurrence.FortnightlyOccurrences | src/hooks/useRecurringTransactions.ts:179-194 | Fortnightly occurrences are the days 0, 14, 28, ... after the first cursor that lie in the range, at most 11 |
| Recurrence.FortnightlySkipsFirstMatch | src/hooks/useRecurringTransactions.ts:181-184 | When the weekday passed in the range start's week, the matching day a week later is in range but not an occurrence |
| Recurrence.CycleDueDayInCycle | src/hooks/useRecurringTransactions.ts:149-162 | In a 15th-to-14th cycle, day `dom` falls once, inside the cycle |
| Recurrence.MonthlyFromFifteenth | src/hooks/useRecurringTransactions.ts:151-159 | As written, a cycle's monthly loop never sees a day below 15 |
| Recurrence.AsWrittenMissesEarlyDays | src/hooks/useRecurringTransactions.ts:147-159 | As written, a monthly template on days 1 to 14 has no occurrence in a cycle that holds that day |
| Recurrence.AsWrittenMissesFirstOfApril | src/hooks/useRecurringTransactions.ts:147-159 | Concretely: day 1 in the cycle 2024-03-15 to 2024-04-14 gives nothing, though 2024-04-01 is in it |
| Recurrence.CorrectedMonthlyIs | src/hooks/useRecurringTransactions.ts:147-159 | The corrected monthly occurrences are the monthly loop from the 1st of the range's month |
| Recurrence.CorrectedOncePerCycle | src/hooks/useRecurringTransactions.ts:147-159 | Corrected, a monthly template on days 1 to 28 occurs exactly once per cycle, on its due day |
| Recurrence.ActiveTemplates | src/hooks/useRecurringTransactions.ts:87 | Exactly the active templates are kept |
| Recurrence.OccurrencesForBounded | src/hooks/useRecurringTransactions.ts:151-193 | Under either monthly cursor the occurrences lie in the range, strictly increase and number at most 11 |
| Recurrence.AppendPayloads | src/hooks/useRecurringTransactions.ts:90-105 | The inner loop appends one payload per date, in date order |
| Recurrence.GeneratePlannedTransactions | src/hooks/useRecurringTransactions.ts:80-109 | The nested loops return the payloads of each active template's occurrences in turn, or nothing without a cycle or templates; with `AsWritten` the dates come from `getOccurrencesInRange` as written, with `Corrected` from the corrected cursor |
| Recurrence.DatePayloadsFacts | src/hooks/useRecurringTransactions.ts:90-105 | One payload per date, each built from its date |
| Recurrence.TemplatePayloadsFrom | src/hooks/useRecurringTransactions.ts:87-106 | For either cursor, every payload comes from an active template and one of its occurrences under that cursor |
| Recurrence.PlannedTransactionsShape | src/hooks/useRecurringTransactions.ts:81-104 | For either cursor: nothing without a cycle or templates; otherwise every payload is planned, non-positive, of the cycle, dated inside it, without import hash, and from an active template's occurrence |
| Recurrence.TemplatePayloadsCount | src/hooks/useRecurringTransactions.ts:87-106 | For either cursor, as many payloads as occurrences of the active templates |
| Recurrence.GenerationMissesEarlyDays | src/hooks/useRecurringTransactions.ts:80-109 | For one active monthly template due on days 1 to 14, as written generation creates nothing in the cycle; corrected it creates exactly the one payload on the due day |
| RecurringPage.NewPlanned | src/pages/RecurringTransactionsPage.tsx:146-151 | Keeps exactly the payloads whose date and template no planned, template-linked row carries |
| RecurringPage.NewPlannedAppend | src/pages/RecurringTransactionsPage.tsx:147-151 | The filter keeps the payloads' order |
| RecurringPage.RegenerationKeepsNothing | src/pages/RecurringTransactionsPage.tsx:146-156 | Once the kept payloads are stored, filtering the same payloads again keeps none |
| RecurringPage.AllBlockedKeepsNothing | src/pages/RecurringTransactionsPage.tsx:147-153 | When every payload already exists, nothing is kept |
| RecurringPage.PaidRowDoesNotBlock | src/pages/RecurringTransactionsPage.tsx:146 | A row marked paid never blocks a payload |
| RecurringPage.HandleGeneratePlanned | src/pages/RecurringTransactionsPage.tsx:135-166 | For either cursor: refused without a cycle; "all exist" exactly when every generated payload is blocked; otherwise creates exactly the unblocked payloads |
| RecurringPage.PlannedPayloadsLinked | src/hooks/useRecurringTransactions.ts:102-103 | For either cursor, generated payloads are planned and carry their template's id |
| RecurringPage.GenerateTwice | src/pages/RecurringTransactionsPage.tsx:143-158 | For either cursor, generating again after the created rows are stored reports that all exist |
| RecurringPage.DatePayloadsSum | src/hooks/useRecurringTransactions.ts:96 | One template's payloads spend its absolute amount once per date |
| RecurringPage.CycleTotalIsPayloadSpend | src/pages/RecurringTransactionsPage.tsx:180-190 | For either cursor, the per-cycle total is what the payloads generated under that cursor spend |
| RecurringPage.TotalRecurringMatchesGeneration | src/pages/RecurringTransactionsPage.tsx:180-190 | For either cursor: 0 without a cycle; otherwise the spend of the payloads generation builds under that cursor |
| RecurringPage.NonEmptyOrNull | src/pages/RecurringTransactionsPage.tsx:100 | `s || null`: none exactly for the empty string |
| RecurringPage.ValidateRecurringSave | src/pages/RecurringTransactionsPage.tsx:85-106 | Refused for a blank name, then for an empty or non-positive amount; the record has the trimmed name, the parsed amount, the weekday iff not monthly, the month day iff monthly, the category id or null when blank, the trimmed notes or null when blank |
| RecurringPage.OrdinalSuffixIsEnglish | src/pages/RecurringTransactionsPage.tsx:439-443 | The table lookup with JavaScript's `%` agrees with the English ordinal rule for every n ≥ 0 |
| RecurringPage.LastDigitOfRem | src/pages/RecurringTransactionsPage.tsx:441-442 | The last digit of n is that of n % 100 |
| RecurringPage.SuffixByRemIsEnglish | src/pages/RecurringTransactionsPage.tsx:442 | Below 100 the two lookups give the English suffix |
| RecurringPage.OrdinalSuffixOfDays | src/pages/RecurringTransactionsPage.tsx:439-443 | "st" for 1, 21, 31; "nd" for 2, 22; "rd" for 3, 23; "th" for every other day 0 to 31 |
| RecurringPage.FrequencyLabelShowsFrequency | src/pages/RecurringTransactionsPage.tsx:168-177 | Two templates with the same label have the same frequency |
| RecurringPage.FrequencyLabelNames | src/pages/RecurringTransactionsPage.tsx:168-177 | A weekly label is "Every" and the weekday; a fortnightly one "Every 2 weeks on" and the weekday; a monthly one "Monthly on the", the day and its suffix |
| TransactionsView.Search | src/pages/TransactionsPage.tsx:47-54 | An empty search keeps the list; otherwise exactly the matching rows |
| TransactionsView.MatchesSearchMeaning | src/pages/TransactionsPage.tsx:48-53 | A row matches iff the lower-cased query is a substring of its lower-cased description, merchant or category name |
| TransactionsView.EmptySearchMatchesAll | src/pages/TransactionsPage.tsx:47 | The empty query matches every row |
| TransactionsView.ApplyFilter | src/pages/TransactionsPage.tsx:57-63 | 'all' keeps the list; otherwise exactly the uncategorised, the planned, or the rows whose category has the kind |
| TransactionsView.RowCompareIsKeyOrder | src/pages/TransactionsPage.tsx:67-95 | The comparator is the order of a sort key, so the sort is well defined |
| TransactionsView.SortRows | src/pages/TransactionsPage.tsx:67 | A permutation of the rows, ordered by the comparator |
| TransactionsView.FilteredTransactions | src/pages/TransactionsPage.tsx:43-99 | A permutation of the searched and filtered rows, holding exactly the rows that match and pass, in comparator order |
| TransactionsView.SortOrderMeaning | src/pages/TransactionsPage.tsx:72-92 | 'upcoming' puts today onwards first and ascending, earlier days after and descending; 'newest'/'oldest' by date; 'amount-high'/'amount-low' by absolute amount |
| TransactionsView.DayBucketMembers | src/pages/TransactionsPage.tsx:105-111 | A date's group holds exactly the rows of that date |
| TransactionsView.DayBucketAppend | src/pages/TransactionsPage.tsx:105-111 | A group keeps the rows' order |
| TransactionsView.GroupsAfterBuckets | src/pages/TransactionsPage.tsx:103-111 | The dictionary has one key per date, holding that date's rows in order |
| TransactionsView.KeyOrderDistinct | src/pages/TransactionsPage.tsx:107-109 | Each date's key is created once |
| TransactionsView.GroupByDate | src/pages/TransactionsPage.tsx:103-111 | The `forEach` builds one group per date, of exactly that date's rows in order, with the key order listing each date once |
| TransactionsView.SortGroupDates | src/pages/TransactionsPage.tsx:115-132 | The group dates, distinct, in the group order |
| TransactionsView.Entries | src/pages/TransactionsPage.tsx:115 | One entry per key, holding that key's group |
| TransactionsView.GroupedTransactions | src/pages/TransactionsPage.tsx:102-133 | Each group is its date's rows in order; the dates are those of the rows, each once, in the order of the rows' date rule |
| TransactionsView.RowInOneGroup | src/pages/TransactionsPage.tsx:102-133 | Each row is in exactly the group of its own date |
| TransactionsView.PastDividerOnce | src/pages/TransactionsPage.tsx:295-300 | In 'upcoming' order the divider shows at most once, with only today-or-later groups before it, and shows whenever a group is dated before today |
| TransactionsView.FirstPast | src/pages/TransactionsPage.tsx:295-296 | The first group dated before today, with every earlier one today or later |
| TransactionsView.ToggleSelection | src/pages/TransactionsPage.tsx:135-143 | The copied set with the id deleted or added |
| TransactionsView.ToggledFlips | src/pages/TransactionsPage.tsx:137-141 | Toggling flips the one id and leaves every other id as it was |
| TransactionsView.ToggleTwice | src/pages/TransactionsPage.tsx:135-143 | Toggling the same id twice restores the selection |
| FinanceCalendar.TransactionsByDate | src/pages/FinanceCalendarPage.tsx:30-40 | One bucket per date, of exactly that date's rows in input order |
| FinanceCalendar.DailyTotals | src/pages/FinanceCalendarPage.tsx:43-49 | Each date's total is the sum of its bucket's amounts |
| FinanceCalendar.DailyTotalsAddUp | src/pages/FinanceCalendarPage.tsx:43-49 | The daily totals add up to the sum of all amounts |
| FinanceCalendar.SumDaysCons | src/pages/FinanceCalendarPage.tsx:43-49 | One more row adds its amount once, to the total of its own date |
| FinanceCalendar.EachDay | src/pages/FinanceCalendarPage.tsx:58 | Every day from start to end, in order |
| FinanceCalendar.EachDayMembers | src/pages/FinanceCalendarPage.tsx:58 | Each day of the interval once, and nothing else |
| FinanceCalendar.SameMonthIffBetween | src/pages/FinanceCalendarPage.tsx:53-54 | A day is in a month iff it lies between the month's start and end |
| FinanceCalendar.WholeWeeks | src/pages/FinanceCalendarPage.tsx:55-58 | Sunday to a later Saturday is whole weeks |
| FinanceCalendar.CalendarDaysFacts | src/pages/FinanceCalendarPage.tsx:52-59 | The grid is 4 to 6 whole weeks of consecutive days, Sunday to Saturday, holding every day of the month |
| FinanceCalendar.RangeTotalIsDaily | src/pages/FinanceCalendarPage.tsx:67-72 | A range total is the sum of the daily totals of its days |
| FinanceCalendar.WeeklyTotal | src/pages/FinanceCalendarPage.tsx:62-63 | 0 when no date is selected |
| FinanceCalendar.WeeklyTotalIsDaily | src/pages/FinanceCalendarPage.tsx:62-73 | The week total is the sum of the seven daily totals of the selected day's Sunday-to-Saturday week |
| FinanceCalendar.MonthlyTotalIsDaily | src/pages/FinanceCalendarPage.tsx:76-86 | The month total is the sum of the daily totals of exactly the month's days, first and last included |
| FinanceCalendar.SelectedIsBucket | src/pages/FinanceCalendarPage.tsx:88-89 | Empty with no selection; otherwise exactly the selected day's rows |
| FinanceCalendar.BackThenForward | src/pages/FinanceCalendarPage.tsx:101-111 | Back a month then forward one shows the same month; back goes to the previous month |
| QuickAdd.MatchInput | src/pages/QuickAddPage.tsx:41 | A match splits the text into a non-empty single-line prefix, white space and an amount |
| QuickAdd.MatchOfShape | src/pages/QuickAddPage.tsx:41-46 | A prefix, white space and an amount always match; the amount is exactly that amount and the trimmed merchant is the trimmed prefix |
| QuickAdd.SameAmount | src/pages/QuickAddPage.tsx:41 | Any two split points that match read the same amount |
| QuickAdd.SkipSpaces | src/pages/QuickAddPage.tsx:41 | The greedy `\s+` takes the whole white-space run |
| QuickAdd.MatchFrom | src/pages/QuickAddPage.tsx:41 | The lazy `(.+?)` takes the first split point whose rest matches |
| QuickAdd.TailFrom | src/pages/QuickAddPage.tsx:103 | The leftmost start of a trailing white space and amount |
| QuickAdd.OnInput | src/pages/QuickAddPage.tsx:40-52 | No match leaves the form alone; a match sets the amount and, when a rule matches the trimmed merchant, the suggestion |
| QuickAdd.Description | src/pages/QuickAddPage.tsx:103 | The stripped, trimmed text when that is not empty, else the whole input; never empty for a non-empty input |
| QuickAdd.DescriptionIsMerchant | src/pages/QuickAddPage.tsx:41-46 | After a match with a non-blank merchant, the description is that merchant |
| QuickAdd.ChosenCategoryId | src/pages/QuickAddPage.tsx:117 | The selected category's id, else the suggested one's, else none (an empty id counts as none) |
| QuickAdd.HandleSubmit | src/pages/QuickAddPage.tsx:88-124 | Refused without cycle or user, then for a NaN or non-positive amount, then for an empty input; else a manual, unplanned record of −amount with merchant = description |
| CsvImport.Split | src/pages/ImportPage.tsx:94 | At least one piece, none holding a separator |
| CsvImport.SplitAtFirst | src/pages/ImportPage.tsx:94 | The first piece runs to the first separator |
| CsvImport.IndexOf | src/pages/ImportPage.tsx:68-72 | The first position of the header, or -1 exactly when it is absent |
| CsvImport.ColumnsOf | src/pages/ImportPage.tsx:68-72 | The column positions, -1 for an unpicked optional column |
| CsvImport.Cell | src/pages/ImportPage.tsx:78-79 | A cell exists exactly inside the row |
| CsvImport.StripMoney | src/pages/ImportPage.tsx:83 | Exactly the characters other than '$' and ',' remain |
| CsvImport.CellMoney | src/pages/ImportPage.tsx:83-86 | The parsed number, or 0 for NaN |
| CsvImport.RowAmount | src/pages/ImportPage.tsx:81-88 | The amount column when found, else credit − debit with a missing column as 0; none where a found column is missing from the row |
| CsvImport.LayoutOf | src/pages/ImportPage.tsx:95-104 | Year first iff 4 characters; day first iff not and a number above 12 |
| CsvImport.DayFirstReordered | src/pages/ImportPage.tsx:98-100 | DD/MM/YYYY is handed over as YYYY-MM-DD |
| CsvImport.YearFirstKept | src/pages/ImportPage.tsx:95-97 | A 4-character first part is handed over unchanged |
| CsvImport.CellDay | src/pages/ImportPage.tsx:91-107 | A missing cell throws inside the try and gives now; otherwise `new Date` of the reordered text |
| CsvImport.FirstWord | src/pages/ImportPage.tsx:116 | A prefix of the description without a space |
| CsvImport.FirstWordOf | src/pages/ImportPage.tsx:116 | The merchant is the description up to its first space |
| CsvImport.RowOf | src/pages/ImportPage.tsx:110-118 | The row's fields, with the duplicate flag set iff its hash is stored |
| CsvImport.MapRowAsWritten | src/pages/ImportPage.tsx:77-119 | As written, a row throws iff a cell it reads is missing or its date is invalid |
| CsvImport.MapRow | src/pages/ImportPage.tsx:77-119 | Corrected: throws only for a missing cell; dropped iff the description is empty or the date invalid; otherwise the normalised row |
| CsvImport.CollectRows | src/pages/ImportPage.tsx:77-119 | Throws iff some row throws; otherwise every kept row, at most one per CSV row |
| CsvImport.CollectRowsOrigin | src/pages/ImportPage.tsx:77-119 | Every kept row comes from a CSV row |
| CsvImport.ExistingHashes | src/pages/ImportPage.tsx:75 | Exactly the non-empty stored import hashes |
| CsvImport.HandleMappingAsWritten | src/pages/ImportPage.tsx:62-66 | Refused unless date, description and amount or debit are picked |
| CsvImport.HandleMapping | src/pages/ImportPage.tsx:62-122 | Corrected: refused for an incomplete mapping; else every row mapped with the corrected `MapRow` against the stored hashes |
| CsvImport.AsWrittenInvalidDateThrows | src/pages/ImportPage.tsx:110-119 | As written, a row with an invalid date makes the whole mapping throw |
| CsvImport.InvalidDateDropped | src/pages/ImportPage.tsx:119 | Corrected, a row with an invalid date is dropped unless a cell is missing |
| CsvImport.RemapMarksDuplicates | src/pages/ImportPage.tsx:110-117 | Once a row's hash is stored, mapping it again gives the same row flagged as a duplicate |
| CsvImport.ToImport | src/pages/ImportPage.tsx:131 | Exactly the rows not flagged as duplicates |
| CsvImport.ImportRecord | src/pages/ImportPage.tsx:142-154 | A csv record of the cycle with no category, the row's fields, and the hash the check uses |
| CsvImport.ImportRecords | src/pages/ImportPage.tsx:141-156 | One record per row, in order |
| CsvImport.HandleImport | src/pages/ImportPage.tsx:125-166 | Refused without a cycle; nothing to import without new rows; else the records for the first `imported` rows, all accepted, with the next one refused when the loop stopped early |
| CsvImport.ImportedHashesCovered | src/pages/ImportPage.tsx:110-153 | After a complete import every new row's hash is in some created record |
| CsvImport.RemapAllDuplicates | src/pages/ImportPage.tsx:77-119 | Mapping the same rows against stored hashes that cover them flags every row |
| CsvImport.NothingLeftToImport | src/pages/ImportPage.tsx:131-135 | Rows all flagged leave nothing to import |
| CsvImport.ReimportFindsDuplicates | src/pages/ImportPage.tsx:75-153 | Importing the same file after a complete, stored import finds every row a duplicate and creates nothing |
| CategoryForm.ResetForm | src/components/finance/CategoryManager.tsx:42-47 | Empty name, type 'want', no icon, nothing edited |
| CategoryForm.OpenEdit | src/components/finance/CategoryManager.tsx:49-55 | The form filled from the category, a missing icon as "" |
| CategoryForm.IconOrNull | src/components/finance/CategoryManager.tsx:79 | `icon || null`: none exactly for "" |
| CategoryForm.HandleSave | src/components/finance/CategoryManager.tsx:57-94 | Refused for a blank name, then when another category has the trimmed name ignoring case; else an update or a create with the trimmed name, the icon or null, no parent and sort order = number of categories |
| CategoryForm.AfterSave | src/components/finance/CategoryManager.tsx:95-96 | Reset after a save that went through; unchanged otherwise |
| CategoryForm.NameTakenIgnoresCaseAndPadding | src/components/finance/CategoryManager.tsx:64-66 | Only the trimmed name without case matters to the duplicate check |
| CategoryForm.OwnNameAllowed | src/components/finance/CategoryManager.tsx:65 | While editing, keeping the name or changing only its case is allowed when no other category has it |
| CategoryForm.EditUnchangedRoundTrip | src/components/finance/CategoryManager.tsx:49-80 | Saving a just-loaded, unchanged category sends its own fields back |
| BudgetCard.View | src/components/finance/BudgetCard.tsx:12-46 | Over iff share > 100, near iff 80 < share ≤ 100, never both; bar min(share, 100); "left" iff variance ≥ 0, else the absolute amount "over"; red styling iff over |
| BudgetCard.MinReal | src/components/finance/BudgetCard.tsx:29 | `Math.min`: the smaller of the two |
| BudgetCard.ThresholdsInMoney | src/components/finance/BudgetCard.tsx:12-13 | For a positive budget: over iff spend > planned, near iff 80% of planned < spend ≤ planned |
| BudgetCard.UnbudgetedNeverOver | src/components/finance/BudgetCard.tsx:12-46 | Without a positive budget the card is never over or near, though its label says "over" once anything is spent |
| BudgetCard.SummaryRowsWellFormed | src/hooks/useFinance.ts:147-161 | Every budget summary row fits the card's assumptions |
| SwipeItem.MoveOffset | src/components/finance/SwipeableTransactionItem.tsx:40-45 | The offset stays in [−100, 0]: left follows the finger to −100, right closes an open row toward 0, right on a closed row changes nothing |
| SwipeItem.EndOffset | src/components/finance/SwipeableTransactionItem.tsx:48-54 | Fully open iff past −80, else closed |
| SwipeItem.EndOffsetSettles | src/components/finance/SwipeableTransactionItem.tsx:48-54 | Releasing a settled row leaves it where it is |
| SwipeItem.DragThenRelease | src/components/finance/SwipeableTransactionItem.tsx:35-54 | A drag released opens the row iff it went past the threshold |
| SwipeItem.SwipeableRow.constructor | src/components/finance/SwipeableTransactionItem.tsx:22-25 | A closed row, no touch in progress |
| SwipeItem.SwipeableRow.TouchStart | src/components/finance/SwipeableTransactionItem.tsx:30-33 | Records the start and clears the drag flag; offset unchanged |
| SwipeItem.SwipeableRow.TouchMove | src/components/finance/SwipeableTransactionItem.tsx:35-46 | Marks a drag past 10 pixels left; the offset follows MoveOffset and stays in range |
| SwipeItem.SwipeableRow.TouchEnd | src/components/finance/SwipeableTransactionItem.tsx:48-54 | Snaps open or closed |
| SwipeItem.SwipeableRow.Click | src/components/finance/SwipeableTransactionItem.tsx:63-69 | Opens the transaction iff not dragged and closed; always leaves the row closed |
| SwipeItem.SwipeableRow.Delete | src/components/finance/SwipeableTransactionItem.tsx:56-57 | Marks the row as deleting, nothing else |
| SwipeItem.SwipeThenTap | src/components/finance/SwipeableTransactionItem.tsx:30-69 | A swipe then a tap: open after release iff past 80 pixels, the tap fires iff the swipe was 10 pixels or less, and the row ends closed |
| Tasks.InitialTasks | src/hooks/useTasks.ts:6-37 | Four example tasks |
| Tasks.TaskList.constructor | src/hooks/useTasks.ts:40-43 | The stored list when there is one, else the examples |
| Tasks.NewTask | src/hooks/useTasks.ts:50-57 | Not done; starred iff asked |
| Tasks.TaskList.AddTask | src/hooks/useTasks.ts:49-59 | The new task first, the others unchanged after it |
| Tasks.ToggleCompleted | src/hooks/useTasks.ts:61-67 | Each task toggled by id, position for position |
| Tasks.ToggleCompletedFacts | src/hooks/useTasks.ts:61-67 | Flips `completed` on exactly the tasks with the id, changes nothing else; twice restores the list |
| Tasks.TaskList.ToggleTask | src/hooks/useTasks.ts:61-67 | The list becomes its toggled version |
| Tasks.ToggleStarred | src/hooks/useTasks.ts:69-75 | Each task starred by id, position for position |
| Tasks.ToggleStarredFacts | src/hooks/useTasks.ts:69-75 | Flips `starred` on exactly the tasks with the id, changes nothing else; twice restores the list |
| Tasks.TaskList.ToggleStar | src/hooks/useTasks.ts:69-75 | The list becomes its starred version |
| Tasks.Remove | src/hooks/useTasks.ts:77-79 | Exactly the tasks without the id remain |
| Tasks.RemoveFacts | src/hooks/useTasks.ts:77-79 | The rest keep their order; an unknown id changes nothing |
| Tasks.TaskList.DeleteTask | src/hooks/useTasks.ts:77-79 | The list loses the tasks with the id |
| Tasks.TaskList.CompletedCount | src/hooks/useTasks.ts:81 | At most the total |
| Tasks.TaskList.StarredCount | src/hooks/useTasks.ts:82 | At most the total |
| Tasks.CountsWithinTotal | src/hooks/useTasks.ts:81-92 | The done and starred-pending counts together are at most the total |
| Tasks.AddTaskCounts | src/hooks/useTasks.ts:49-59 | Adding a task leaves the done count and adds one to the starred count iff it is starred |
| TaskFilters.FilteredTasks | src/pages/TasksPage.tsx:29-40 | 'active', 'completed', 'starred' keep exactly those tasks; any other text keeps the list |
| TaskFilters.FilteredKeepsOrder | src/pages/TasksPage.tsx:29-40 | Every tab keeps the list's order |
| TaskFilters.ActiveAndDonePartition | src/pages/TasksPage.tsx:31-34 | The active and done tabs split the list |
| TaskFilters.GetParam | src/pages/TasksPage.tsx:23 | The value of the first entry with the name, or none exactly when no entry has it |
| TaskFilters.DeleteParam | src/pages/TasksPage.tsx:45 | Every entry with the name goes, the others stay |
| TaskFilters.SetParamGet | src/pages/TasksPage.tsx:47 | After `set` the name reads back the value; other names keep theirs |
| TaskFilters.DeleteParamGet | src/pages/TasksPage.tsx:45 | After `delete` the name has no value; other names keep theirs |
| TaskFilters.InitialFilter | src/pages/TasksPage.tsx:23 | A missing or empty parameter means "all" |
| TaskFilters.ReloadKeepsTab | src/pages/TasksPage.tsx:23-50 | Reloading with the parameters a choice left starts on the chosen tab; other parameters are kept |
| TaskFilters.TasksPage.constructor | src/pages/TasksPage.tsx:22-24 | The tab starts from the query string |
| TaskFilters.TasksPage.HandleFilterChange | src/pages/TasksPage.tsx:42-50 | Switches the tab; 'all' deletes the parameter, any other tab sets it |
| ProgressCard.Percentage | src/components/home/ProgressCard.tsx:11 | 0 for no tasks; otherwise within half a point of 100·completed/total |
| ProgressCard.PercentageBounds | src/components/home/ProgressCard.tsx:11 | Between 0 and 100; 100 when all are done, 0 when none are |
| ProgressCard.JsRound | src/components/home/ProgressCard.tsx:11 | `Math.round`: the integer within half of x, halves up |
| ProgressCard.Remaining | src/components/home/ProgressCard.tsx:12 | Remaining plus completed is the total |
| ProgressCard.CardOfTaskList | src/components/home/ProgressCard.tsx:11-12 | Fed the list's counts: a percentage in 0 to 100, and remaining = the tasks not done |
| TaskCalendar.FirstWeekday | src/pages/CalendarPage.tsx:25 | The weekday of the month's 1st, 0 to 6 |
| TaskCalendar.LastDate | src/pages/CalendarPage.tsx:26 | The month's length, 28 to 31 |
| TaskCalendar.DayOfShownMonth | src/pages/CalendarPage.tsx:80-84 | Day `day` counted from the shown month's 1st |
| TaskCalendar.MonthGridFacts | src/pages/CalendarPage.tsx:28-40 | firstDay + lastDate slots: the blanks first, day k at firstDay + k − 1 |
| TaskCalendar.FillGrid | src/pages/CalendarPage.tsx:28-40 | The two loops build the grid |
| TaskCalendar.DaysInMonth | src/pages/CalendarPage.tsx:22-41 | The grid of the shown month |
| TaskCalendar.GridColumnIsWeekday | src/pages/CalendarPage.tsx:22-41 | Every day sits in the column of its weekday |
| TaskCalendar.SameCellIsDate | src/pages/CalendarPage.tsx:55-70 | Day, month and year all match iff the cell is that date |
| TaskCalendar.DayClickSelects | src/pages/CalendarPage.tsx:64-84 | After a click only the clicked day shows as selected |
| TaskCalendar.PrevMonth | src/pages/CalendarPage.tsx:72-74 | The 1st of the month before |
| TaskCalendar.NextMonth | src/pages/CalendarPage.tsx:76-78 | The 1st of the month after |
| TaskCalendar.NextMonthInCivilTerms | src/pages/CalendarPage.tsx:76-78 | December rolls into January of the next year |
| TaskCalendar.PrevMonthInCivilTerms | src/pages/CalendarPage.tsx:72-74 | January rolls back into December of the year before |
| TaskCalendar.NavigationRoundTrip | src/pages/CalendarPage.tsx:72-78 | Back then forward, or forward then back, lands on the 1st of the shown month |
| Dates.DaysInMonth | src/pages/CalendarPage.tsx:26 | 28 to 31 days; 29 exactly for February of a leap year |
| Dates.ToCivil | src/hooks/useFinance.ts:29-30 | A valid calendar date naming the same day |
| Dates.ToCivilDayOf | src/hooks/useFinance.ts:29-30 | The calendar view of a valid date's day number is that date |
| Dates.SetDateIsMakeDay | src/hooks/useFinance.ts:20-25 | `setDate` is `new Date(year, month, d)` |
| Dates.OverflowingDay | src/hooks/useRecurringTransactions.ts:152 | A day past the month's end rolls into the next month |
| Dates.AddMonthsIsDateFns | src/hooks/useFinance.ts:21-24 | `addMonths` as date-fns defines it: the same day, clamped to the target month's length |
| Dates.AddMonthsCivil | src/hooks/useRecurringTransactions.ts:159 | Moves k months on, keeping the day or the month's last day |
| Dates.AddMonthsLater | src/hooks/useRecurringTransactions.ts:159 | A month on is later, so the loop moves forward |
| Dates.SetDay | src/hooks/useRecurringTransactions.ts:165 | The given weekday in the same Sunday-first week |
| Dates.StartOfWeek | src/pages/FinanceCalendarPage.tsx:55 | The Sunday on or before the day |
| Dates.EndOfWeek | src/pages/FinanceCalendarPage.tsx:56 | The Saturday on or after the day, six days after the week's start |
| Dates.StartOfMonth | src/pages/FinanceCalendarPage.tsx:53 | The 1st of the day's month |
| Dates.EndOfMonth | src/pages/FinanceCalendarPage.tsx:54 | The last day of the day's month |
| Text.Trim | src/pages/RecurringTransactionsPage.tsx:86 | A slice of the text with only white space cut off before and after it; no white space at either end; empty iff the text is all white space |
| Text.TrimTwice | src/pages/RecurringTransactionsPage.tsx:98 | Trimming once is enough |
| Text.TrimTrailingSpace | src/pages/QuickAddPage.tsx:46 | Trailing white space does not change the trimmed text |
| Text.ToLower | src/hooks/useFinance.ts:387 | Each character lower-cased in place |
| Text.Includes | src/hooks/useFinance.ts:387 | True iff the pattern occurs somewhere in the text |
| Text.JsRem | src/pages/RecurringTransactionsPage.tsx:441-442 | JavaScript's `%`: the remainder of the dividend's magnitude, with the dividend's sign |
| Lists.Filter | src/hooks/useTasks.ts:78 | Exactly the elements that pass |
| Lists.FilterAppend | src/hooks/useTasks.ts:78 | Filtering keeps the order |
| Lists.FilterPartition | src/pages/TasksPage.tsx:31-34 | A filter and its complement together hold every element as often as the list |
| Lists.SortByKey | src/pages/TransactionsPage.tsx:67 | A permutation of its input |
| Lists.SortByKeySorted | src/pages/TransactionsPage.tsx:67 | Ordered by the key |

## Left out

- The network: the Supabase queries and mutations, the react-query cache, the edge functions. Their results are the lists the model takes as inputs.
- The clock and time zones. "Today" in Sydney is a parameter. So is date-fns `differenceInDays(endDate, now)`, which depends on the time of day.
- The AI category suggestion of the quick-add page (lines 55-86 of `src/pages/QuickAddPage.tsx`), which calls a language model.
- The CSV line tokenizer, whose regular expression has lookahead and lazy quotes (lines 44-49 of `src/pages/ImportPage.tsx`).
- The JavaScript parsers: `parseFloat`, `parseInt`, `new Date(text)` and date-fns `format`. They are parameters bundled in `CsvImport.JsEnv`. Only the branch choice and the reordering of the date text are modelled.
- The page's `getOccurrencesInCycleRange` and `paydayDate`, which are not defined in the source. The per-cycle total counts the occurrences that generation produces under the same monthly cursor. There is no payday exclusion.
- Floating point. Money is integer cents and shares are exact reals, so there is no rounding in sums or in `remainingToSpend / daysRemaining`.
- `toFixed` and the other number and date formatting used only for display.
- `toISOString` in the tasks calendar's `tasksForSelectedDate` and `hasTasksOnDay`, which depends on the time zone. Local storage and the JSON of the task list are not modelled either; the loaded list is a parameter.
- `setTimeout`: the delayed `onDelete` of a swiped row. Its effect is outside the row's state.
- `Date.now()` ids and creation times, which are parameters.
- SwipeItem.SwipeableRow.TouchMove: each event sees the latest offset. React's handler reads the offset of its render, which can be stale if two moves arrive before a re-render.
- Lists.SortByKey: a stable insertion sort stands for `Array.prototype.sort`. Stability is not proved, and `localeCompare` on `yyyy-MM-dd` text is taken as the order of the days.
- CsvImport.ImportRecord: `is_planned` and the template link are left to the database defaults, taken as not planned and none.
- Text.ToLower: lower-cases the ASCII letters only, not the rest of Unicode.
- Toasts, navigation, `console.log` and all rendering.

## Findings

| source | as written | input that shows it | evidently intended | confidence | as-written member | corrected member |
|---|---|---|---|---|---|---|
| src/hooks/useRecurringTransactions.ts:147-159 | The monthly cursor starts at the range start and steps a month at a time while it is not past the range end. In a 15th-to-14th cycle it only visits the start month, so a day of month from 1 to 14 is never produced. | A monthly template on day 1 in the cycle 2024-03-15 to 2024-04-14: no occurrence, though 2024-04-01 is in the cycle | Once per cycle, on that day of the month inside the cycle | not executed | Recurrence.AsWrittenMissesFirstOfApril | Recurrence.CorrectedOncePerCycle |
| src/pages/ImportPage.tsx:110-119 | `format(parsedDate, ...)` runs on an invalid date outside the `try`, which throws. So the `filter`'s date test never drops a row, and one bad date aborts the whole mapping. | A CSV row whose date cell `new Date` cannot parse, such as "31/31/2024" | The row with the invalid date is dropped and the others are kept | not executed | CsvImport.AsWrittenInvalidDateThrows | CsvImport.InvalidDateDropped |
