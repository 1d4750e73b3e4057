# Club-finance reporting engine

A Dafny model of the reporting core of ProFootball-Manager, a club-management web
application. Each report is an HTTP route handler. Once its list fetches have
returned, the handler is a pure fold, filter and sort over sequences of players,
payments, expenses and match days. This project models those computations:

- **Annual dues report** (`AnnualReport`): one row per player, with expected
  amount, carryover from the previous year (from 2026 on), amount paid, balance,
  a three-way status and the last payment date. Rows are sorted by balance,
  most owed first. A summary block follows the rows.
- **Pitch dues report** (`PitchReport`): one row per (player, month). The months
  are either the single month requested or every month from July 2025 through
  the current one. Each row carries a carryover accumulated since the fiscal
  start, counted in 30.44-day months, a clamped balance and a two-way status.
- **Daily summary** (`DailyReport`, `Categories`): the payments and expenses of
  one date, with totals, net, distinct paying players, per-type buckets,
  per-category expense totals, and both lists sorted by creation time and then
  amount.
- **Match-day report** (`MatchDayReport`): single mode (one match day by id,
  404 if absent) and list mode (every match day in a date range). Expenses join
  by match-day id; matchday payments join by date equality. Expenses are merged
  by category, and there is one breakdown line per payment.
- **Upcoming/overdue classifier** (`UpcomingPayments`): the fiscal year of
  "now", the annual exemption, the missed-month classification, and the sort
  and truncate to a limit.
- **Payment-type summary** (`PaymentSummary`): a one-pass partition of all
  payments by type.
- **Small helpers**:
  - the SQL `INSERT … VALUES (…)` splitter and literal classifier of the import
    script (`SqlImport`);
  - the required-field validator (`Validation`);
  - player creation defaults and the player/user search predicates (`Players`,
    `Users`);
  - the one-match-day-per-date creation rule and the match-day listing
    (`MatchDays`).

The shared vocabulary:

- `Records`: players, payments, expenses and match days, and the ledger filters
  and totals.
- `Calendar`: Gregorian dates as day numbers, month keys, and the 30.44-day
  month count.
- `Text`: trim, ASCII lower-casing, `parseInt`, digit strings and `padStart`.
- `Seqs`: filter, sum, stable sort, slices and concatenation.
- `Common`: `Option`, `Result` and the HTTP failures.

Representation choices:

- Amounts are integers in the smallest currency unit.
- Dates are valid Gregorian dates, ordered by their day number.
- "Now" is an explicit parameter: an `Instant` is a date plus milliseconds into
  the day.
- Database queries are modelled by their results: whole-table snapshots that
  the model filters itself.

## Model

| member | source | states |
|---|---|---|
| AnnualReport.Carryover | app/api/reports/annual/route.ts:77-83 | Never negative. Zero for years before 2026. From 2026 on, the expected annual due (`annual`, or 150000 when it is 0) less the player's payments dated in the previous year, floored at 0. |
| AnnualReport.Classify | app/api/reports/annual/route.ts:94-102 | Complete iff paid ≥ due; Partial iff 0 < paid < due; Unpaid iff paid ≤ 0 and paid < due. |
| AnnualReport.RowFor | app/api/reports/annual/route.ts:62-116 | Identity fields are copied. Expected amount = `annual` or 150000; carryover as in Carryover; amount paid and payment count are over the player's payments in the year. totalDue = expected + carryover; balance = totalDue − paid, unclamped. Complete iff balance ≤ 0; Partial iff balance > 0 and something was paid. lastPaymentDate is null iff there are no payments; otherwise it is the date of one of the year's payments and no payment of the year is later. |
| AnnualReport.Rows | app/api/reports/annual/route.ts:58-60 | One row per player, in player order, each the player's RowFor. |
| AnnualReport.StatusCountsPartition | app/api/reports/annual/route.ts:130-132 | The Complete, Partial and Unpaid counts add up to the number of rows. |
| AnnualReport.Summarize | app/api/reports/annual/route.ts:122-133 | totalExpected, totalPaid, totalBalance and totalCarryover are the sums of totalDue, amountPaid, balance and carryover over the rows. Each status count is the number of rows with that status. totalPlayers is the row count, and the three counts add up to it. |
| AnnualReport.SummaryIgnoresOrder | app/api/reports/annual/route.ts:119-133 | Any permutation of the rows has the same summary, so sorting by balance does not change it. |
| AnnualReport.TotalsPerPlayer | app/api/reports/annual/route.ts:126-127 | The report's totalPaid is the sum over players of what each paid in the year. totalExpected is the sum over players of expected amount plus carryover. |
| AnnualReport.SummaryTotals | app/api/reports/annual/route.ts:126-129 | Over consistent rows, totalBalance = totalExpected − totalPaid, and totalCarryover is 0 before 2026. |
| AnnualReport.ReportYear | app/api/reports/annual/route.ts:27 | A missing or empty `year` parameter gives the clock's year; any other is read by `parseInt`. |
| AnnualReport.ReportYearReads | app/api/reports/annual/route.ts:27 | A year written out as text is read back as that year, and "abc" is NaN. |
| AnnualReport.AnnualReport | app/api/reports/annual/route.ts:58-140 | The data is a permutation of the per-player rows, one per player, sorted by balance non-increasing. totalRecords = totalPlayers = number of players. The summary is that of the per-player rows. totalBalance = totalExpected − totalPaid. |
| AnnualReport.ReportTiesInPlayerOrder | app/api/reports/annual/route.ts:120 | The sort is stable: for every balance, the report's rows with that balance are in player order. |
| Calendar.DayNumberOrder | app/api/reports/pitch/route.ts:92-95 | Comparing dates by day number is chronological (year, month, day) order, and equal day numbers mean equal dates. |
| Calendar.WithinMonth | app/api/reports/pitch/route.ts:87-95 | A date lies between the first and last day of a month iff that is its month. |
| Calendar.MonthsSinceAverageMonths | app/api/reports/pitch/route.ts:112 | `Math.floor(elapsed / (30.44 * 24 * 60 * 60 * 1000))` with the divisor as the double 2 630 016 000 + 2⁻²¹ ms. A positive span counts the whole 30.44-day months it strictly exceeds; a span that is not positive is floored. This holds up to 2²¹ months. |
| Calendar.ExactMonthsCountOneLess | app/api/statistics/upcoming-payments/route.ts:85 | A span of exactly k 30.44-day months counts k − 1, because the double divisor is slightly above 30.44 days. |
| Calendar.MonthsSinceWholeDays | app/api/reports/pitch/route.ts:112 | Between two midnights `days` apart, the count is ⌊25·days / 761⌋, and one less when 25·days is a positive multiple of 761 (a day count that is a multiple of 761). |
| PitchReport.Window | app/api/reports/pitch/route.ts:87-88 | `new Date(y, m − 1, 1)`: a year from 0 to 99 is read as 1900 + y, then the month with index y·12 + m − 1 is taken. Month 13 rolls into the next January and month 0 into the December before. A valid key with a year outside 0–99 is its own window. |
| PitchReport.MonthRollsOver | app/api/reports/pitch/route.ts:87-96 | A key with month 13 reads the next January's payments; a key with month 0 reads the previous December's. |
| PitchReport.TwoDigitYears | app/api/reports/pitch/route.ts:87-96 | A key whose year is from 0 to 99 reads the payments of that month of 1900 + year. |
| PitchReport.TwoDigitYearExample | app/api/reports/pitch/route.ts:87-96 | `year=50&month=3` counts a payment dated 1950-03-10. |
| PitchReport.FormatMonthKey | app/api/reports/pitch/route.ts:73 | The key text is the year's digits, a dash at that position, and at least two more characters. |
| PitchReport.ParseFormatMonthKey | app/api/reports/pitch/route.ts:83-85 | Splitting a formatted key at its dash and parsing both halves gives back the year and month. |
| PitchReport.MonthKeyShape | app/api/reports/pitch/route.ts:73 | For four-digit years the key is `YYYY-MM`: seven characters, digits on both sides of the dash at index 4. |
| PitchReport.EnumerateMonths | app/api/reports/pitch/route.ts:67-75 | The nested loop yields exactly the consecutive months from July 2025 through the current month. Every key is a valid month of 2025 or later; the first is July 2025 and the last is today's month; no gaps or duplicates. |
| PitchReport.AppendYear | app/api/reports/pitch/route.ts:70-74 | One pass of the outer loop appends year y's months: from July in 2025 or January otherwise, through December or the current month. |
| PitchReport.MonthsThroughShape | app/api/reports/pitch/route.ts:67-75 | The month list from July 2025 is valid, starts in July 2025, ends with today's month and runs consecutively. |
| PitchReport.PaymentsInMonthMeaning | app/api/reports/pitch/route.ts:89-96 | A payment is in the month's window iff it is in the ledger, is the player's, and falls in the calendar month the key lands in. |
| PitchReport.FiscalStart | app/api/reports/pitch/route.ts:102 | July 1 of year − 1 for years from 2026, and July 1, 2025 before. |
| PitchReport.Carryover | app/api/reports/pitch/route.ts:98-116 | Never negative. Zero unless month > 7 or year > 2025. Otherwise max(0, months since fiscal start × pitch − the player's payments from the fiscal start up to the month's first day). The month count uses the double divisor (Calendar.MonthsSinceAverageMonths). |
| PitchReport.RowFor | app/api/reports/pitch/route.ts:89-142 | Identity fields are copied; the key text is the formatted key; expectedAmount = pitch. Paid and count are over the month's payments. totalAmount = pitch + carryover. balance = max(0, totalAmount − paid), so it is 0 iff paid ≥ totalAmount. Complete iff paid ≥ totalAmount. lastPaymentDate is null iff there are no payments; otherwise it is one of the month's payment dates and none is later. |
| PitchReport.Rows | app/api/reports/pitch/route.ts:81-82 | There are |players| × |months| rows. |
| PitchReport.RowAt | app/api/reports/pitch/route.ts:81-82 | The row of player i and month j sits at position i·|months| + j: players outer, months inner. |
| PitchReport.RowOrigin | app/api/reports/pitch/route.ts:81-82 | Every row is the row of some player and some month. |
| PitchReport.StatusCountsPartition | app/api/reports/pitch/route.ts:155-156 | The complete and incomplete counts add up to the number of rows. |
| PitchReport.Summarize | app/api/reports/pitch/route.ts:146-157 | totalExpected, totalPaid, totalBalance and totalCarryover are the sums of totalAmount, amountPaid, balance and carryoverAmount. The counts are the rows with each status and add up to the rows. totalPlayers is the number of distinct player ids. month is None, which stands for the text 'all'. |
| PitchReport.PitchReport | app/api/reports/pitch/route.ts:60-163 | The data are the (player, month) rows over the requested months and the pitch payments. totalRecords = |players| × |months|. The summary is that of the data, and its two counts add up to totalRecords. |
| PitchReport.TotalsPerPlayer | app/api/reports/pitch/route.ts:152-154 | The report's totalPaid and totalCarryover are sums over players of month-by-month sums of what each paid and was charged as carryover. |
| PitchReport.TotalBalanceBound | app/api/reports/pitch/route.ts:121-153 | Because each balance is clamped, the total balance is ≥ total expected − total paid and ≥ 0. Total carryover is ≥ 0. |
| PitchReport.TotalPlayersCount | app/api/reports/pitch/route.ts:150 | With at least one month, the distinct player ids of the rows are exactly the players' ids; with no months there are none. |
| PitchReport.FirstMonthNoCarryover | app/api/reports/pitch/route.ts:99-100 | July 2025 carries nothing over. |
| PitchReport.CarryoverWithoutPayments | app/api/reports/pitch/route.ts:105-115 | With no payments, the carryover is months since fiscal start × pitch. |
| PitchReport.RowWithoutPayments | app/api/reports/pitch/route.ts:118-122 | With nothing paid and something due, the balance is the whole total (pitch plus carryover) and the month is Incomplete. |
| PitchReport.OctoberExample | app/api/reports/pitch/route.ts:102-122 | Pitch 5000, no payments, key 2025-10: carryover 15000, total and balance 20000, Incomplete, key text "2025-10". |
| PitchReport.July2026Span | app/api/reports/pitch/route.ts:102-112 | July 2026 is measured from July 2025: 11 months, so with no payments the carryover is 11 × pitch. |
| PitchReport.ExactMonthSpan | app/api/reports/pitch/route.ts:102-112 | Key 2026-20 (August 2027) is 761 days, exactly 25 months of 30.44 days, after July 2025, and counts 24 months. |
| PitchReport.ExactSpan | app/api/reports/pitch/route.ts:112 | A month whose first day is exactly n 30.44-day months after its fiscal start counts n − 1 months. |
| PitchReport.SpanOfDays | app/api/reports/pitch/route.ts:112 | A month whose first day is `days` days after its fiscal start counts n months when 761·n < 25·days ≤ 761·(n + 1). |
| DailyReport.GroupByType | app/api/reports/daily/route.ts:86-98 | Each of the four buckets counts and sums exactly the payments of its type. |
| DailyReport.BucketCountsBound | app/api/reports/daily/route.ts:93-98 | The bucket counts add up to the payments of a known type, so at most the payment count, with equality when every type is known. |
| DailyReport.BucketAmountsTotal | app/api/reports/daily/route.ts:93-98 | The bucket amounts add up to the total less the payments of unknown type. |
| DailyReport.PlayerIdsBound | app/api/reports/daily/route.ts:83 | There are no more distinct paying players than payments, and at least one when there is a payment. |
| DailyReport.DailyReport | app/api/reports/daily/route.ts:33-138 | A missing date gives the 400 error, and only then. Otherwise, over the payments and expenses of the date: both lists are permutations sorted by (createdAt, amount) descending. The totals and counts are those of the day; net = payments − expenses; uniquePlayers is the number of distinct ids and at most the payment count. The buckets are GroupByType and the categories GroupByCategory. |
| DailyReport.SortKeepsTotals | app/api/reports/daily/route.ts:112-127 | Sorting keeps the totals of both lists. |
| DailyReport.CategoryTotalsMatch | app/api/reports/daily/route.ts:100-108 | The per-category entries have distinct categories; their counts add up to expensesCount and their amounts to totalExpenses. |
| Categories.GroupByCategory | app/api/reports/daily/route.ts:101-108 | The entries have distinct categories, exactly the categories of the expenses. |
| Categories.GroupEntries | app/api/reports/daily/route.ts:102-107 | Each entry's count and amount are the number and total of that category's expenses. |
| Categories.GroupOrder | app/api/reports/match-day/route.ts:88-96 | The entries appear in the order their categories first occur. |
| Categories.GroupCountsSum | app/api/reports/daily/route.ts:106 | The counts add up to the number of expenses. |
| Categories.GroupAmountsSum | app/api/reports/daily/route.ts:107 | The amounts add up to the total spent. |
| Categories.MergeExample | app/api/reports/daily/route.ts:101-108 | Referee 5000 and Referee 3000 give the single entry Referee, count 2, amount 8000. |
| MatchDayReport.PaymentsOn | app/api/reports/match-day/route.ts:172-177 | The joined payments are exactly the ledger's matchday payments dated on the match date, in ledger order. |
| MatchDayReport.NullIfEmpty | app/api/reports/match-day/route.ts:106-107 | `x \|\| null`: null iff absent or empty, otherwise unchanged. |
| MatchDayReport.ExpenseBreakdown | app/api/reports/match-day/route.ts:88-96 | Distinct categories, exactly those of the expenses, in first-occurrence order; each amount is its category's total; the amounts add up to the total spent. |
| MatchDayReport.PaymentBreakdown | app/api/reports/match-day/route.ts:98-101 | One line per payment, same order, carrying its player name and amount. |
| MatchDayReport.PaymentBreakdownSum | app/api/reports/match-day/route.ts:192-195 | The payment lines add up to the payments' total. |
| MatchDayReport.MergeExample | app/api/reports/match-day/route.ts:182-190 | Referee 5000 and Referee 3000 on one match day give one entry of 8000. |
| MatchDayReport.Figures | app/api/reports/match-day/route.ts:179-208 | The match-day fields are copied, with opponent and venue nulled when empty. totalExpenses is over the expenses with that match-day id; totalPayments is over the matchday payments on the match date; net = payments − expenses. The breakdowns are ExpenseBreakdown and PaymentBreakdown of those lists, and they add up to the totals. |
| MatchDayReport.SingleReport | app/api/reports/match-day/route.ts:37-118 | 404 "Match day not found" iff not exactly one match day has the id. Otherwise the report of that match day, with the expenses and payments it joined, and its figures are those of that match day over all expenses and payments. |
| MatchDayReport.WithUniqueId | app/api/reports/match-day/route.ts:39-43 | With unique ids, looking a match day's id up finds exactly that match day. |
| MatchDayReport.Selected | app/api/reports/match-day/route.ts:127-132 | An order-preserving subsequence holding exactly the match days on or after the start and on or before the end, where given. |
| MatchDayReport.ListRows | app/api/reports/match-day/route.ts:171-209 | One row per selected match day, in order, each its Figures. |
| MatchDayReport.MatchDayReport | app/api/reports/match-day/route.ts:37-214 | With no or an empty id: the listing, whose data is one row per match day in range, in input order, and totalRecords is the row count. With an id: success iff exactly one match day carries it, giving its single report; otherwise 404. |
| MatchDayReport.ListReport | app/api/reports/match-day/route.ts:121-214 | The listing has one row per match day in the range, in input order. The rows are exactly the figures of those match days, and totalRecords is their number. |
| MatchDayReport.SingleAgreesWithList | app/api/reports/match-day/route.ts:85-116 | With unique ids, single mode for a match day reports the same figures as list mode computes for it. |
| MatchDayReport.UnknownIdNotFound | app/api/reports/match-day/route.ts:45-47 | An id no match day carries is answered with 404 "Match day not found". |
| MatchDays.Create | app/api/match-days/route.ts:13-41 | A refusal happens iff date or type is missing or the date is taken. A refusal is a 400 with the matching message and leaves the store unchanged. On success the match day is appended with the fresh id, the given date and type, and opponent and venue nulled when empty. |
| MatchDays.CreateKeepsOnePerDate | app/api/match-days/route.ts:20-41 | Every create, accepted or refused, keeps at most one match day per date. |
| MatchDays.CreateKeepsIdsUnique | app/api/match-days/route.ts:32-41 | With a fresh id, ids stay unique. |
| MatchDays.SecondCreateRefused | app/api/match-days/route.ts:20-30 | After a create succeeds for a date, a second complete request for that date is refused as a duplicate. |
| MatchDays.JoinedPaymentsDisjoint | app/api/match-days/route.ts:20-30 | Under one match day per date, no payment is joined to two different match days. |
| MatchDays.ListMatchDays | app/api/match-days/route.ts:73-93 | The listing is a permutation of the stored match days. |
| MatchDays.ListingHoldsStore | app/api/match-days/route.ts:73-93 | A match day is listed iff it is stored. |
| MatchDays.ListingNewestFirst | app/api/match-days/route.ts:76 | No listed match day is dated before one listed after it. |
| UpcomingPayments.FiscalYearStart | app/api/statistics/upcoming-payments/route.ts:78-84 | July 1 of the current year from July on, and of the year before otherwise. |
| UpcomingPayments.FiscalYearContainsNow | app/api/statistics/upcoming-payments/route.ts:78-85 | Now lies between the fiscal start and the next July 1, and the whole 30.44-day months since the start are between 0 and 12. |
| UpcomingPayments.ByDateDesc | app/api/statistics/upcoming-payments/route.ts:41 | A permutation of the ledger, newest date first. |
| UpcomingPayments.LastPaymentOf | app/api/statistics/upcoming-payments/route.ts:74-75 | Null iff the player has no payments, otherwise the head of the player's payments in ledger order. |
| UpcomingPayments.LastPaymentIsLatest | app/api/statistics/upcoming-payments/route.ts:41-75 | Over the date-ordered ledger, the last payment is null iff the player never paid. Otherwise it is one of the player's payments and none of theirs is later. |
| UpcomingPayments.Assess | app/api/statistics/upcoming-payments/route.ts:87-148 | No entry iff the player has an annual payment since the fiscal start or missed ≤ 0 (missed = months since start + 1 − monthly payments since start). An entry has isDue, expectedAmount = monthly, type "monthly", no next due date, and the last payment. missed = 1 gives due soon with 0 days; missed > 1 gives overdue with 30 × missed days. |
| UpcomingPayments.ExactMonthDueSoon | app/api/statistics/upcoming-payments/route.ts:84-148 | At 2025-07-31 10:33:36, exactly one 30.44-day month after July 1, 2025, the month count is 0: a player with no payments is due soon with 0 days, not overdue. |
| UpcomingPayments.CollectMeaning | app/api/statistics/upcoming-payments/route.ts:73-149 | An entry is collected iff it is the assessment of one of the players. |
| UpcomingPayments.Upcoming | app/api/statistics/upcoming-payments/route.ts:151-154 | Sorted by daysOverdue non-increasing. The length is min(limit, flagged) for a non-negative limit and max(0, flagged + limit) for a negative one. The entries are a sub-multiset of the flagged entries, and every flagged entry left out has no more days overdue than any listed one. |
| UpcomingPayments.UpcomingEntries | app/api/statistics/upcoming-payments/route.ts:104-125 | Every listed entry is the assessment of a player: due, owing the monthly amount, type "monthly", not exempt, and at least one month behind. |
| UpcomingPayments.LimitDefaults | app/api/statistics/upcoming-payments/route.ts:36 | A missing or empty limit is 10; a non-number behaves as 0; "0x10" reads as 16. |
| PaymentSummary.Summarize | app/api/statistics/payment-summary/route.ts:22-49 | total_payments is the payment count and total_amount the sum of all amounts. Each per-type total is the sum of that type's payments. The four add up to the total less the unknown-type payments: at most the total for non-negative amounts, equal when every type is known. |
| Records.LatestDate | app/api/reports/annual/route.ts:88-92 | The head date after sorting newest first: null iff empty, otherwise a date of one of the payments, and no payment is later. |
| Records.ReadType | app/api/statistics/payment-summary/route.ts:35-48 | A stored `payment_type` is one of the four known types iff it is "annual", "monthly", "pitch" or "matchday". Otherwise it is Unknown with that name. The type's name is the stored text, and Unknown never carries a known name. |
| Records.TypePartition | app/api/statistics/payment-summary/route.ts:31-48 | The total is the four per-type totals plus the unknown-type total: each payment counts once. |
| Records.TypePartitionCount | app/api/reports/daily/route.ts:93-98 | The payment count is the four per-type counts plus the unknown-type count. |
| SqlImport.ParseValue | scripts/import-from-sql.ts:75-93 | On the trimmed text: null iff "NULL"; a Bool iff "true" or "false", true iff "true". A text quoted at both ends is its inside with doubled quotes collapsed. An unquoted decimal `-?\d+(\.\d+)?` is a number. Any other text is returned as itself: the empty text stays empty and `'abc` keeps its quote. A lone `'` counts as quoted at both ends and yields the empty text. |
| SqlImport.CollapseEscape | scripts/import-from-sql.ts:84 | Collapsing `''` to `'` undoes doubling every quote. |
| SqlImport.ParseQuotedLiteral | scripts/import-from-sql.ts:83-85 | A quoted literal with doubled quotes is read back as the text it quotes. |
| SqlImport.MatchAt | scripts/import-from-sql.ts:37 | A match at a position has a word table name, a capture on one line, and the statement `INSERT INTO public.<table> VALUES (<capture>);` there. |
| SqlImport.MatchAtComplete | scripts/import-from-sql.ts:37 | Any statement occurring at a position is matched there with its table name and a capture at least as long (greedy `.*`). |
| SqlImport.FindInsert | scripts/import-from-sql.ts:37 | No match iff none at any position from the start; otherwise the leftmost match: no match starts before it. |
| SqlImport.LeftmostStep | scripts/import-from-sql.ts:37 | With no match at a position, the leftmost match from the next position is the leftmost from this one. |
| SqlImport.ParseInsertStatement | scripts/import-from-sql.ts:36-73 | As written: null unless a statement matches. Otherwise the values of the leftmost match's capture, split with the quote-dropping loop. |
| SqlImport.ParseInsertStatementIntended | scripts/import-from-sql.ts:36-73 | The corrected splitter, which keeps each literal's quotes. It yields null exactly when the as-written function does, and otherwise splits the leftmost match's capture. |
| SqlImport.NoStatementNoValues | scripts/import-from-sql.ts:37-38 | A line yields null iff no `INSERT INTO public.<word> VALUES (…);` occurs in it. |
| SqlImport.StatementRoundTrip | scripts/import-from-sql.ts:46-72 | Writing well-formed literals into a statement and parsing the line with the corrected splitter gives their values back. |
| SqlImport.TrailingCommaIgnored | scripts/import-from-sql.ts:68-70 | A trailing comma leaves a blank last piece, which yields no value. |
| SqlImport.ScanComma | scripts/import-from-sql.ts:54-61 | Outside quotes at depth 0, a comma ends the current piece. |
| SqlImport.ScanPlain | scripts/import-from-sql.ts:65 | Characters that neither toggle quotes, change depth nor split are copied into the current piece. |
| SqlImport.DroppedQuotesEscaped | scripts/import-from-sql.ts:49-52 | As written, every quote left in a piece is one escaped by a backslash. |
| SqlImport.DroppedPieceUnquoted | scripts/import-from-sql.ts:49-52 | As written, no trimmed piece starts with a quote, so parseValue's quote branch never fires. |
| SqlImport.DroppedQuotesPlain | scripts/import-from-sql.ts:49-51 | As written, `'t'` for a plain text t is scanned exactly as t. |
| SqlImport.AsWrittenIgnoresQuotes | scripts/import-from-sql.ts:49-51 | As written, two quoted plain texts are parsed as if written bare. |
| SqlImport.AsWrittenQuotedTexts | scripts/import-from-sql.ts:49-51 | As written, `('NULL','0712')` imports null and the number 0712. |
| SqlImport.KeptQuotes | scripts/import-from-sql.ts:83-85 | The corrected splitter reads two quoted texts as those texts. |
| SqlImport.QuotedTextsKept | scripts/import-from-sql.ts:83-85 | The corrected splitter imports `('NULL','0712')` as the texts "NULL" and "0712". |
| SqlImport.DecimalPiece | scripts/import-from-sql.ts:88-90 | A bare run of digits is a number, leading zeros included. |
| Validation.ValidateRequired | lib/base-route-handler.ts:212-219 | Null iff every listed field is present. Otherwise the message "<field> is required" for the first missing field in list order. |
| Validation.PresentMeaning | lib/base-route-handler.ts:214 | A value counts as present iff it is not undefined, null, the empty string or NaN, so 0 and false are present. |
| Validation.ValidateConcat | lib/base-route-handler.ts:213-217 | Checking a + b is checking a first and only then b. |
| Validation.ValidateOnlyListed | lib/base-route-handler.ts:213-216 | Only the listed fields decide the outcome. |
| Validation.FalsyButPresent | lib/base-route-handler.ts:214 | 0, false and a non-empty string pass. The empty string and an absent key fail with "<field> is required". |
| Players.ZeroAsNull | app/api/players/route.ts:28 | `matchDay \|\| null`: null iff absent or 0, otherwise unchanged. |
| Players.CreatePlayer | app/api/players/route.ts:13-29 | 400 "Name and phone are required" iff name or phone is missing or empty. Otherwise both are kept and the match-day due is nulled when 0. The annual, monthly and pitch dues are the given ones, or 150000, 10000 and 5000 when not given. |
| Players.DefaultDues | app/api/players/route.ts:14 | Omitted dues become annual 150000, monthly 10000, pitch 5000. |
| Players.GivenDuesKept | app/api/players/route.ts:14 | Given dues are stored as given, zero included. |
| Players.ZeroAnnualBilledDefault | app/api/players/route.ts:14 | An annual due of 0 is stored as 0, and the annual report then bills the default 150000. |
| Players.SearchPlayers | app/api/players/route.ts:94-100 | The result is an order-preserving subsequence of the fetched players. |
| Players.NoSearchUnchanged | app/api/players/route.ts:94 | Without a search term the list is unchanged. |
| Players.SearchMeaning | app/api/players/route.ts:94-99 | A player is listed iff fetched and its lower-cased name contains the lower-cased query or its phone contains the raw query. |
| Players.NameHitFound | app/api/players/route.ts:95-97 | A player whose name contains the query as typed is always listed. |
| Users.SearchUsers | app/api/users/route.ts:41-47 | The result is an order-preserving subsequence of the fetched users. |
| Users.NoSearchUnchanged | app/api/users/route.ts:41 | With no or an empty search term the list is unchanged. |
| Users.SearchMeaning | app/api/users/route.ts:42-46 | A user is listed iff fetched and the lower-cased name or email contains the lower-cased query. |
| Users.CaseInsensitive | app/api/users/route.ts:42-45 | Queries with equal lower-casings list the same users in the same order. |
| Users.UpperAndLowerQuery | app/api/users/route.ts:42-45 | "ABC" and "abc" select the same users. |
| Text.Trim | scripts/import-from-sql.ts:76 | The trim is an infix with only white space around it, neither starting nor ending with white space. |
| Text.TrimIdempotent | scripts/import-from-sql.ts:59 | Trimming twice is trimming once, so parseValue's re-trim changes nothing. |
| Text.ParseInt | app/api/statistics/upcoming-payments/route.ts:36 | NaN iff, after the white space and one sign, no digit of the base follows. The base is 16 after `0x`/`0X` and 10 otherwise. |
| Text.ReadSigned | app/api/statistics/upcoming-payments/route.ts:36 | After the white space: a value only for non-empty text, and NaN iff the digits after one optional sign read as nothing. |
| Text.ParseIntDecimal | app/api/statistics/upcoming-payments/route.ts:36 | Text with one optional sign, then a maximal run of decimal digits (a lone 0 not followed by `x`), reads as that run's value, negated after `-`. |
| Text.ParseIntHexDigits | app/api/statistics/upcoming-payments/route.ts:36 | Text with one optional sign, then `0x`/`0X` and a maximal run of hex digits, reads as that run's base-16 value, negated after `-`. |
| Text.ParseIntSkipsSpace | app/api/statistics/upcoming-payments/route.ts:36 | Leading white space does not change the value read. |
| Text.IntToString | app/api/reports/annual/route.ts:27 | `toString` of an integer: decimal digits, after a minus sign when negative. |
| Text.ParseIntIntToString | app/api/reports/annual/route.ts:27 | `parseInt` reads back any integer's `toString`, negative ones included. |
| Text.ParseIntToString | app/api/reports/pitch/route.ts:84-85 | `parseInt` of a number's decimal text, followed by anything but a digit or an `x` after a lone 0, is that number. |
| Text.ParseIntHex | app/api/statistics/upcoming-payments/route.ts:36 | "0x10" reads as 16 and "-0X1f" as −31. |
| Text.PadStart2 | app/api/reports/pitch/route.ts:73 | `padStart(2, '0')`: the text is kept as the suffix, preceded by zeros up to length 2. |
| Text.ParseNatToString | app/api/reports/pitch/route.ts:84-85 | Parsing a number's decimal text gives the number. |
| Seqs.SortDescStable | app/api/reports/annual/route.ts:120 | `Array.prototype.sort` is stable: after the sort, the elements with any one key are in their input order. |
| Seqs.InsertKeepsOrder | app/api/reports/annual/route.ts:120 | Inserting into a sorted list puts the new element before every element with its key, and keeps their order. |
| Seqs.FilterConcat | app/api/reports/annual/route.ts:120 | Filtering a concatenation is concatenating the filtered parts. |
| Text.LowerIdempotent | app/api/users/route.ts:42-45 | Lower-casing twice is lower-casing once. |
| Text.ContainsLower | app/api/players/route.ts:95-97 | Containment survives lower-casing both sides. |

## Left out

- Amounts are integers in the smallest currency unit. `parseFloat`, IEEE arithmetic, NaN amounts and `parseFloat(…) || 0` in the payment summary are not modelled. Neither are the `|| 150000` and `|| 0` fallbacks for a NaN due.
- Dates are valid calendar dates compared by day number. Handlers parse "YYYY-MM-DD" in UTC and compare against local-time month bounds (`new Date(y, m, 1)`, `23:59:59` month ends, `toISOString().split('T')[0]` in the match-day join). Time zones and daylight saving are not modelled. A date parameter that is not a valid date is not modelled either.
- The current time is a parameter (`today`, `now`); no clock is read.
- Database queries and their options are not modelled; each query is represented by the whole table it reads:
  - The filters `.eq`, `.gte` and `.lte` become filters in the model.
  - `.range(skip, skip + limit - 1)` pagination in the players, users and match-days listings is not modelled; the input is the fetched page.
  - `.order` clauses are modelled as a stable sort (match-day listing, upcoming ledger), or the input is taken in the order returned (match-day list mode, pitch ledger).
  - The database's tie order among equal dates is not modelled.
- The 401 (no authenticated user) and 500 (database error or thrown exception) responses are not modelled. Neither are authentication, tokens, logging, JSON parsing of request bodies, the `Promise.all` fetch concurrency, or the import script's file and database I/O.
- MatchDays.Create: the duplicate-date check and the insert are two separate database calls, so two concurrent requests for the same date can both find it free. The model treats each create as atomic. The database-generated id is a parameter, and `created_at` is not modelled.
- DailyReport.DailyReport: `expensesByCategory` is a plain JavaScript object in the source, modelled as a list of distinct categories in first-occurrence order (Categories.GroupByCategory). The object's quirks are not modelled:
  - A category named like an inherited member (`constructor`, `toString`, `__proto__`) finds that member, so it is never initialised and its expenses are miscounted. The model's count and amount sums hold for every input only because those names are treated as ordinary categories.
  - Integer-like category keys ("2024") are serialised first, in ascending numeric order, not in first-occurrence order.
- Categories.GroupByCategory: the first-occurrence order it guarantees holds for the match-day `expenseBreakdown` array but not for the daily `expensesByCategory` object keys (see the line above).
- Players.SearchPlayers: `Text.Lower` folds only the ASCII letters A–Z. JavaScript's `toLowerCase` folds every Unicode letter, so "éric" finds "ÉRIC" in the source but not in the model.
- Users.SearchUsers: the same ASCII-only lower-casing as for players.
- PitchReport.PitchReport: the month parameter is taken as an already parsed integer and requires month ≥ 0 and year ≥ 0. Left out:
  - `parseInt` of a non-numeric month or year (NaN rows);
  - negative months or years, whose key text `split('-')` cuts at the minus sign.

  Month numbers past 12, month 0 and years from 0 to 99 are modelled (PitchReport.Window). They land where `new Date(y, m − 1, 1)` puts them: years 0 to 99 are years of the 1900s, and months roll over.
- PitchReport.FormatMonthKey: it states the position of the dash, not the full text. MonthKeyShape gives the `YYYY-MM` layout for four-digit years, and ParseFormatMonthKey the round trip.
- UpcomingPayments.Upcoming: it states the top-k property and the length, not that the result is exactly the prefix of one particular stable sort. Entries tied on daysOverdue may come in either order in the source.
- Calendar.MonthsSinceAverageMonths: the month count divides by the exact value of the double divisor, but the rounding of the quotient to a double is not modelled. That rounding changes the count only past 2²¹ months (about 174 000 years), which is where the lemma stops. PitchReport.Carryover and UpcomingPayments.Assess use this count.
- UpcomingPayments.FiscalYearStart: the clock's year is used as it is. `new Date(fiscalYear, 6, 1)` would read a fiscal year from 0 to 99 as 1900 + year, and a clock in the present never gives one.
- Records.ReadType: a payment's type is any PaymentType. The canonical form, in which Unknown never carries a known name, is what ReadType returns; the reports' lemmas hold for either form.
- AnnualReport.AnnualReport: the year is an integer. A NaN year from `parseInt` of text without digits (AnnualReport.ReportYear gives None) is not carried into the report. In the source such a report matches no payment, has no carryover, marks every player Unpaid, and reports the year as null.
- Text.ParseInt: only base 10 and the `0x`/`0X` base-16 prefix are modelled. `parseInt`'s radix argument is never used by the handlers.
- SqlImport.ParseValue: a number keeps its decimal text instead of the IEEE value `parseFloat` gives, so "0712" is the number text "0712" and not 712.
- SqlImport: only `parseInsertStatement` and `parseValue` are modelled. The table-by-table import (player id mapping, batch inserts) is not.

## Findings

| source | as written | input that shows it | evidently intended | confidence | as-written member | corrected member |
|---|---|---|---|---|---|---|
| scripts/import-from-sql.ts:48-51 | An unescaped quote toggles `inQuote` and is skipped with `continue`, so it is never copied into the value. parseValue's quote-stripping branch (line 83) can therefore never fire. | `INSERT INTO public.players VALUES ('NULL','0712');` imports null and the number 0712 instead of two texts. `'O''Brien'` imports as `OBrien`. | Quoted literals keep their quotes until parseValue, which strips them and collapses `''`, so they import as text. | not executed | SqlImport.AsWrittenQuotedTexts (with SqlImport.AsWrittenIgnoresQuotes and SqlImport.ParseInsertStatement) | SqlImport.QuotedTextsKept (with SqlImport.StatementRoundTrip and SqlImport.ParseInsertStatementIntended) |
