# Kakeibo budgeting app — a Dafny model

Kakeibo is a React budgeting app. Users enter an income, which the app turns into monthly and yearly gross, tax, net,
savings and spendable figures. They record one-time and recurring expenses in six categories. Savings are held in one
unallocated pool, and the user moves money between the pool and named savings goals. Several screens show the same
expense lists in different ways:

- totals for the year and the month;
- a history grouped by month;
- a breakdown by category with percentages;
- a ring and two donut charts;
- a calendar of day events.

This project models the app's logic on values:

- the application state and its reducer (`KakeiboContext`);
- the savings ledger behind the savings-goals screen (`SavingsGoals`, with the `Ledger` class, whose handlers update
  the pool and the goals in place);
- income derivation (`Income`, `WelcomeFlow`, with the setup wizard as the `Wizard` class);
- input validation (`Validation`) and the database-error mapping (`ErrorHandling`);
- the aggregations of every screen (`ExpenseTab`, `Expenses`, `RemainingIncomeTracker`, `Overview`, `ExpenseRing`,
  `SegmentedDonutChart`, `ExpenseCalendar`, `Calendar`, `DonutChart`).

Shared modules hold what the components borrow from JavaScript and date-fns:

- `Common`: values, and division that may not be finite;
- `Folds`: `reduce` sums, `filter`, grouping accumulators and per-key totals;
- `Text`: decimal strings, `padStart`, the default `sort()`, `reverse()`, date keys and lower-casing;
- `Dates`: month lengths, weekdays, `eachDayOfInterval` and the month grid.

Modelling choices:

- Money is `real`.
- Dates are `(year, month, day)` triples with the month 1..12.
- "Today" is a parameter.
- Generated ids are a `freshId` parameter.
- A JavaScript division that may divide by zero yields a `Quotient`, which is `Finite(v)` or `NotFinite`.

Every file is verified together with `dafny verify`.

## Model

| member | source | states |
|---|---|---|
| KakeiboContext.Reduce | src/context/KakeiboContext.js:21-121 | definition; its properties are in `InitialStateShape`, one lemma per action (`SetActiveSectionFrame` to `UnhandledIsIdentity`) and `SavingsTotalStaysNonNegative` |
| KakeiboContext.NewExpense | src/context/KakeiboContext.js:30-33 | definition; its properties are in `AddExpensePrepends` and `AddRecurringExpensePrepends` (the payload's id, when present, overrides the generated one) |
| KakeiboContext.NewGoal | src/context/KakeiboContext.js:86-90 | definition; its properties are in `AddSavingsGoalAppends` |
| KakeiboContext.SetCurrentAmount | src/context/KakeiboContext.js:101-103 | same length; every goal with the id gets the new amount, every other goal is unchanged |
| KakeiboContext.RemoveGoals | src/context/KakeiboContext.js:114 | the filtered list is never longer than the input |
| KakeiboContext.InitialStateShape | src/context/KakeiboContext.js:3-19 | the initial state has section "overview", no expenses or goals, savings total 0 and the default USD monthly income |
| KakeiboContext.SetActiveSectionFrame | src/context/KakeiboContext.js:23-27 | SET_ACTIVE_SECTION sets the section and changes nothing else |
| KakeiboContext.AddExpensePrepends | src/context/KakeiboContext.js:29-40 | ADD_EXPENSE adds exactly one expense at the front and keeps the old ones behind it in order; the id is the payload's if it has one, else the fresh id; nothing else changes |
| KakeiboContext.AddRecurringExpensePrepends | src/context/KakeiboContext.js:42-56 | ADD_RECURRING_EXPENSE does the same on the recurring list only; the one-time list is untouched |
| KakeiboContext.SetIncomeReplaces | src/context/KakeiboContext.js:58-62 | SET_INCOME replaces the income wholesale and changes nothing else |
| KakeiboContext.AdjustSavingsResult | src/context/KakeiboContext.js:64-82 | "add" adds and any other direction subtracts; a negative result returns the whole state unchanged, otherwise only the total changes |
| KakeiboContext.SavingsTotalStaysNonNegative | src/context/KakeiboContext.js:64-82 | no action makes a non-negative savings total negative |
| KakeiboContext.AddSavingsGoalAppends | src/context/KakeiboContext.js:85-96 | ADD_SAVINGS_GOAL appends one goal at the end; its amount is the payload's, or 0 when the payload has none |
| KakeiboContext.UpdateSavingsGoalChangesOnlyMatching | src/context/KakeiboContext.js:98-109 | UPDATE_SAVINGS_GOAL keeps the length, order, ids and names; it changes the amount of exactly the matching goals and nothing else |
| KakeiboContext.RemoveGoalsMembers | src/context/KakeiboContext.js:114 | a goal survives the filter iff it was in the list and its id differs |
| KakeiboContext.RemoveGoalsAppend | src/context/KakeiboContext.js:114 | filtering a concatenation filters each part, so survivors keep their order |
| KakeiboContext.RemoveGoalsAbsent | src/context/KakeiboContext.js:114 | removing an id no goal has changes nothing |
| KakeiboContext.DeleteSavingsGoalRemovesExactly | src/context/KakeiboContext.js:111-115 | DELETE_SAVINGS_GOAL removes exactly the goals with that id; savings and every other field are unchanged; deleting twice equals deleting once |
| KakeiboContext.UnhandledIsIdentity | src/context/KakeiboContext.js:118-119 | any other action type returns the state unchanged |
| SavingsGoals.MissingAmountCountsZero | src/components/SavingsGoals.js:29-30 | a goal without an allocated amount adds nothing to the allocated sum |
| SavingsGoals.AllocatedSumAppend | src/components/SavingsGoals.js:29-30 | the allocated sum of a concatenation is the sum of the parts |
| SavingsGoals.AllocatedSumNonNegative | src/components/SavingsGoals.js:29-30 | non-negative allocations have a non-negative sum |
| SavingsGoals.FindIndex | src/components/SavingsGoals.js:115 | the index found holds the id and no earlier goal has it; no index means no goal has it |
| SavingsGoals.FindGoal | src/components/SavingsGoals.js:115 | `find` returns the first goal with the id, exactly when one exists |
| SavingsGoals.UniqueAt | src/components/SavingsGoals.js:115 | with distinct ids, goal k is the only goal carrying its id |
| SavingsGoals.SetCurrentAmountSum | src/components/SavingsGoals.js:127-128 | setting the amount of the one goal with an id changes the allocated sum by the new amount less the old |
| SavingsGoals.SetCurrentAmountAbsent | src/context/KakeiboContext.js:101-103 | setting an amount for an id no goal has changes nothing |
| SavingsGoals.RemoveGoalsSum | src/components/SavingsGoals.js:209 | removing the one goal with an id takes out exactly its amount |
| SavingsGoals.DistinctSnoc | src/components/SavingsGoals.js:88 | appending a goal with a new id keeps ids distinct |
| SavingsGoals.RemoveGoalsDistinct | src/components/SavingsGoals.js:209 | filtering keeps ids distinct |
| SavingsGoals.SetCurrentAmountDistinct | src/components/SavingsGoals.js:128 | updating amounts keeps every id in place, so ids stay distinct |
| SavingsGoals.SetCurrentAmountNonNegative | src/components/SavingsGoals.js:128 | setting a non-negative amount keeps every allocation non-negative |
| SavingsGoals.RemovedAmount | src/components/SavingsGoals.js:200-209 | with distinct ids the filter takes out the found goal's amount, or nothing when the goal is missing |
| SavingsGoals.RemoveFacts | src/components/SavingsGoals.js:200-209 | with distinct ids, deleting keeps ids distinct, takes out exactly the found goal's amount (nothing when missing), and keeps allocations non-negative |
| SavingsGoals.RemoveGoalsNonNegative | src/components/SavingsGoals.js:209 | filtering keeps every allocation non-negative |
| SavingsGoals.Total | src/components/SavingsGoals.js:28-32 | definition; its properties are in `MoveKeepsTotal`, `AllocateConserves`, `ReturnConserves` and `DeleteGoalResult` |
| SavingsGoals.AddMonthlySavingsStep | src/components/SavingsGoals.js:47-61 | definition; its properties are in `AddMonthlySavingsResult` |
| SavingsGoals.AddGoalStep | src/components/SavingsGoals.js:72-88 | definition; its properties are in `AddGoalResult` |
| SavingsGoals.AllocateStep | src/components/SavingsGoals.js:102-128 | definition; its properties are in `AllocateRejects`, `AllocateMoves`, `AllocateConserves` and `AllocateWholePool` |
| SavingsGoals.ReturnStep | src/components/SavingsGoals.js:139-160 | definition; its properties are in `ReturnRejects`, `ReturnMoves` and `ReturnConserves` |
| SavingsGoals.AdjustPoolStep | src/components/SavingsGoals.js:171-190 | definition; its properties are in `AdjustPoolResult` |
| SavingsGoals.DeleteGoalStep | src/components/SavingsGoals.js:200-209 | definition; its properties are in `DeleteGoalResult` |
| SavingsGoals.AddMonthlySavingsResult | src/components/SavingsGoals.js:47-61 | refused iff the monthly target is 0 or absent, and then nothing changes; otherwise only the pool grows, by the target |
| SavingsGoals.AddGoalResult | src/components/SavingsGoals.js:72-88 | refused iff the name or target text is empty; otherwise one goal is appended with the fresh id and amount 0; total savings unchanged; a fresh id keeps ids distinct |
| SavingsGoals.AllocateRejects | src/components/SavingsGoals.js:102-119 | guards in order (amount ≤ 0, amount > pool, unknown goal); accepted iff all three pass; a refusal changes nothing |
| SavingsGoals.AllocateMoves | src/components/SavingsGoals.js:121-128 | on success the pool loses the amount and the goal with that id gains it; every other goal is untouched |
| SavingsGoals.AllocateConserves | src/components/SavingsGoals.js:102-134 | allocation keeps ids distinct and pool + Σ allocations equal, and keeps everything non-negative |
| SavingsGoals.AllocateWholePool | src/components/SavingsGoals.js:110 | allocating exactly the pool is accepted and leaves the pool at 0 |
| SavingsGoals.ReturnRejects | src/components/SavingsGoals.js:139-151 | refused for amount ≤ 0, then for amount above the goal's allocation; accepted otherwise; a refusal changes nothing |
| SavingsGoals.ReturnMoves | src/components/SavingsGoals.js:153-160 | on success the goal loses the amount and the pool gains it; every other goal is untouched |
| SavingsGoals.ReturnConserves | src/components/SavingsGoals.js:139-168 | returning keeps ids distinct and the total savings, and keeps everything non-negative |
| SavingsGoals.MoveConserves | src/components/SavingsGoals.js:28-32 | a move that takes from one side what it gives the other keeps ids distinct and the total; it keeps funds non-negative when neither side goes below 0 |
| SavingsGoals.MoveKeepsTotal | src/components/SavingsGoals.js:28-32 | the total after such a move equals the total before |
| SavingsGoals.AdjustPoolResult | src/components/SavingsGoals.js:171-190 | refuses amount ≤ 0; "add" adds; any other action withdraws and is refused above the pool; goals never change; the pool never becomes negative |
| SavingsGoals.DeleteGoalResult | src/components/SavingsGoals.js:200-209 | exactly the goals with that id are removed and their positive amount goes back to the pool; ids stay distinct; with non-negative funds the total is unchanged |
| SavingsGoals.Ledger.constructor | src/components/SavingsGoals.js:28 | the pool is `savingsPool || 0` and the goals are the store's |
| SavingsGoals.Ledger.AddMonthlySavings | src/components/SavingsGoals.js:47-61 | the new state and outcome are those of `AddMonthlySavingsStep` |
| SavingsGoals.Ledger.AddGoal | src/components/SavingsGoals.js:72-88 | the new state and outcome are those of `AddGoalStep`; total savings kept; ids stay distinct |
| SavingsGoals.Ledger.AllocateToGoal | src/components/SavingsGoals.js:102-128 | the new state and outcome are those of `AllocateStep`; total savings kept; ids stay distinct |
| SavingsGoals.Ledger.ReturnToPool | src/components/SavingsGoals.js:139-160 | the new state and outcome are those of `ReturnStep`; total savings kept; ids stay distinct |
| SavingsGoals.Ledger.AdjustPool | src/components/SavingsGoals.js:171-190 | the new state and outcome are those of `AdjustPoolStep`; the pool never becomes negative |
| SavingsGoals.Ledger.DeleteGoal | src/components/SavingsGoals.js:200-209 | the new state is that of `DeleteGoalStep`; total kept for non-negative funds |
| Income.Share | src/components/Income.js:58-63 | definition; its properties are in `FiguresInTermsOfRates`, `ShareScales` and `ShareBounds` |
| Income.Derive | src/components/Income.js:54-65 | in each period, tax + savings + spendable add back up to the gross |
| Income.GrossByType | src/components/Income.js:54-57 | monthly: gross is the amount, yearly gross 12× it; yearly: monthly gross is a twelfth, yearly gross the amount; other types use the amount for both |
| Income.FiguresInTermsOfRates | src/components/Income.js:58-65 | tax = gross·rate/100, net = gross − tax, savings = net·pct/100, spendable = net − savings, in both periods |
| Income.ShareScales | src/components/Income.js:58-63 | the share of twelve times a figure is twelve times its share |
| Income.YearlyIsTwelveMonthly | src/components/Income.js:54-65 | for a monthly or yearly income, every yearly figure is 12× the monthly one |
| Income.YearlyMatchesMonthly | src/components/Income.js:54-57 | 12·A entered as yearly gives exactly the figures of A entered as monthly |
| Income.ShareBounds | src/components/Income.js:58-63 | a share at a rate in 0..100 of a non-negative figure lies between 0 and the figure |
| Income.FiguresBounded | src/components/Income.js:54-65 | with amount ≥ 0 and rates in 0..100: 0 ≤ spendable ≤ net ≤ gross, and tax and savings are non-negative |
| Income.Left | src/components/Income.js:24-30 | `field − spent \|\| 0`: 0 when the field is absent, otherwise the remainder plus the spending is the field |
| Income.RemainingAfterRecurring | src/components/Income.js:16-30 | definition; its properties are in `RemainingFigures` and `NoIncomeLeavesNothing` |
| Income.NoIncomeLeavesNothing | src/components/Income.js:24-30 | without income every remaining figure is 0 |
| Income.RemainingFigures | src/components/Income.js:16-30 | remaining = net or spendable − recurring total monthly, − 12× it yearly; yearly figures 12× monthly ones give yearly remainders 12× monthly ones |
| WelcomeFlow.DeriveFromYearly | src/components/WelcomeFlow.js:59-78 | the stored rates are the percentages divided by 100 (fractions); the amount is the yearly income, with the given currency; the income type is 'salary', neither "monthly" nor "yearly" |
| WelcomeFlow.StoredTypeReadsAsOther | src/components/WelcomeFlow.js:74-75 | read back through the income screen's derivation, the stored amount and 'salary' type give the yearly amount as both grosses, so for a nonzero income the monthly gross disagrees with the wizard's own |
| WelcomeFlow.SetupFigures | src/components/WelcomeFlow.js:59-71 | each yearly figure, gross included, is 12× its monthly one; net = gross − tax; spendable = net − savings |
| WelcomeFlow.AgreesWithIncomeScreen | src/components/WelcomeFlow.js:57-89 | the wizard's figures equal the income screen's for the same amount entered as yearly |
| WelcomeFlow.NextEnabled | src/components/WelcomeFlow.js:243 | definition; its properties are in `InitialAnswersEnableOnlyCurrency` |
| WelcomeFlow.InitialAnswersEnableOnlyCurrency | src/components/WelcomeFlow.js:243 | on the initial answers Next is enabled iff the step is 0, since only the currency is filled |
| WelcomeFlow.Walk | src/components/WelcomeFlow.js:41-55 | definition; its properties are in `WalkStaysInRange`, `BackUndoesNext` and `ThreeNextsReachLast` |
| WelcomeFlow.WalkStaysInRange | src/components/WelcomeFlow.js:41-55 | any sequence of Next and Back presses keeps the step in 0..3 |
| WelcomeFlow.BackUndoesNext | src/components/WelcomeFlow.js:41-55 | Back undoes a Next taken below step 3; Next undoes a Back taken above 0 |
| WelcomeFlow.ThreeNextsReachLast | src/components/WelcomeFlow.js:41-48 | three Nexts from step 0 reach the last question |
| WelcomeFlow.Wizard.constructor | src/components/WelcomeFlow.js:32-33 | starts at step 0 with direction 0 |
| WelcomeFlow.Wizard.Next | src/components/WelcomeFlow.js:41-48 | below step 3, moves forward with direction 1; at step 3, submits and stays |
| WelcomeFlow.Wizard.Back | src/components/WelcomeFlow.js:50-55 | above step 0, moves back with direction −1; at 0, nothing changes |
| Validation.Parse | src/utils/validation.js:4-20 | definition; its properties are in `BadAmountIff` and `PercentRange` (`parseFloat`, with NaN as no value) |
| Validation.BadAmount | src/utils/validation.js:4-6 | definition; its properties are in `BadAmountIff` |
| Validation.BadPercent | src/utils/validation.js:12-20 | definition; its properties are in `PercentRange` |
| Validation.BadAmountIff | src/utils/validation.js:4-6 | the amount is rejected iff it is missing, not a number, or ≤ 0 |
| Validation.PercentRange | src/utils/validation.js:12-20 | a rate is accepted iff it is a number in 0..100, both bounds included |
| Validation.ValidateIncome | src/utils/validation.js:1-26 | each error key is present iff its check fails, with its message; no other key; valid iff no error iff all four checks pass |
| Validation.EmptyMapHasNoKeys | src/utils/validation.js:22-25 | an error map is empty iff it has no key |
| Validation.ValidateExpense | src/utils/validation.js:28-52 | amount, category and date errors iff their checks fail; a missing date gives "Date is required" and an unparseable one "Invalid date format"; valid iff no error |
| ErrorHandling.NewKakeiboError | src/utils/errorHandling.js:1-8 | the name is "KakeiboError"; message and code are kept; details default to the empty object |
| ErrorHandling.HandleDatabaseError | src/utils/errorHandling.js:10-18 | the thrown error is a KakeiboError that keeps the original error as its details |
| ErrorHandling.CodeMapping | src/utils/errorHandling.js:11-17 | 23505 ↔ DUPLICATE_ENTRY, 23503 ↔ FOREIGN_KEY_ERROR, every other code or none ↔ DATABASE_ERROR, each with its message |
| ErrorHandling.DependsOnlyOnCode | src/utils/errorHandling.js:10-18 | apart from the details, the thrown error depends only on the code |
| ExpenseTab.OneTimeThisYear | src/components/ExpenseTab.js:19-24 | definition; its properties are in `OneTimeExactly` and `OneTimeIgnores` |
| ExpenseTab.SumTwelve | src/components/ExpenseTab.js:26-27 | definition; its properties are in `SumTwelveIsTwelveSums` |
| ExpenseTab.Summary | src/components/ExpenseTab.js:14-32 | definition; its properties are in `SummaryFacts`, `SummaryTotals` and `SummaryProgress` |
| ExpenseTab.SumTwelveIsTwelveSums | src/components/ExpenseTab.js:26-27 | projecting each recurring amount over twelve months is 12× their sum |
| ExpenseTab.SummaryFacts | src/components/ExpenseTab.js:19-32 | one-time = Σ this year's one-time expenses; recurring = 12 × Σ; remaining + total = yearly spendable; progress finite iff spendable ≠ 0, then total·100/spendable |
| ExpenseTab.SummaryTotals | src/components/ExpenseTab.js:19-31 | the totals half of `SummaryFacts` |
| ExpenseTab.SummaryProgress | src/components/ExpenseTab.js:32 | the progress half of `SummaryFacts` |
| ExpenseTab.FiguresProgress | src/components/ExpenseTab.js:32 | the percentage is finite iff the spendable income is not 0 |
| ExpenseTab.OneTimeExactly | src/components/ExpenseTab.js:19-23 | an expense counts iff it is in the list, has a calendar date in this year and is not recurring (an invalid date's year is NaN) |
| ExpenseTab.OneTimeIgnores | src/components/ExpenseTab.js:19-24 | a recurring expense, one from another year or one with an invalid date leaves the one-time total unchanged |
| ExpenseTab.MonthKeyOf | src/components/ExpenseTab.js:36-37 | definition (an invalid date gives "NaN-NaN"); its properties are in `InvalidKeyAboveMonths`, `Text.MonthKeyOrder` and `NewestFirst` |
| ExpenseTab.InvalidKeyAboveMonths | src/components/ExpenseTab.js:36-46 | "NaN-NaN" differs from every month key and is above it in code-unit order, so the descending history shows invalid dates first |
| ExpenseTab.DescendingDistinct | src/components/ExpenseTab.js:46 | a strictly descending list repeats nothing |
| ExpenseTab.SortedKeys | src/components/ExpenseTab.js:46 | `sort().reverse()` on distinct keys keeps exactly those keys, now strictly descending |
| ExpenseTab.BucketTotalsAddUp | src/components/ExpenseTab.js:182-185 | when distinct keys cover every expense, the bucket totals add up to the total |
| ExpenseTab.GroupByMonth | src/components/ExpenseTab.js:35-46 | each expense lands in exactly the bucket of its month, in input order; months = the distinct keys, strictly descending; month totals add up to the whole |
| ExpenseTab.ExpenseHistory | src/components/ExpenseTab.js:35-46 | groups one-time then recurring expenses; a month's bucket is its one-time expenses followed by its recurring ones; month totals add up to both sums |
| ExpenseTab.NewestFirst | src/components/ExpenseTab.js:37-46 | for four-digit years, an earlier key in the descending list is a later month |
| Expenses.ExpenseHistory | src/components/Expenses.js:38-49 | groups `state.expenses` only, each in the bucket of its month; months strictly descending; month totals add up to the total |
| Expenses.CategoryColor | src/components/Expenses.js:69-81 | the colour of the lower-cased category, or grey when it is not in the table |
| Expenses.ColorIgnoresCase | src/components/Expenses.js:80 | categories that lower-case alike get the same colour |
| Expenses.UnknownCategoryIsGrey | src/components/Expenses.js:80 | a category outside the table is 'text-gray-400' |
| Expenses.CapitalisedCategoryFound | src/components/Expenses.js:72 | "Groceries" finds the green entry |
| RemainingIncomeTracker.MonthlyRemainingAsWritten | src/components/RemainingIncomeTracker.js:28 | the as-written division is finite iff the month index is below 11 |
| RemainingIncomeTracker.DecemberMonthlyRemainingNotFinite | src/components/RemainingIncomeTracker.js:28 | in December the as-written division is not finite |
| RemainingIncomeTracker.MonthlyRemaining | src/components/RemainingIncomeTracker.js:28 | the remainder spread over the months left including the current one; December keeps the whole remainder |
| RemainingIncomeTracker.Verdict | src/components/RemainingIncomeTracker.js:86-88 | over budget iff the projection exceeds spendable; the reported difference is non-negative and closes the gap |
| RemainingIncomeTracker.MonthlyAverage | src/components/RemainingIncomeTracker.js:25-26 | the average times the months elapsed, the current one included, is the one-time total |
| RemainingIncomeTracker.Averaging | src/components/RemainingIncomeTracker.js:26-27 | averaging over n months and projecting over 12 gives 12× the total, per n |
| RemainingIncomeTracker.Projected | src/components/RemainingIncomeTracker.js:27 | the projection times the months elapsed is 12× the spending; January gives 12×; December gives the spending itself |
| RemainingIncomeTracker.Track | src/components/RemainingIncomeTracker.js:9-28 | definition; its properties are in `TrackTotals`, `AgreesWithExpenseTab`, `TrackIgnores` and `TrackMonthlyRemaining`; it shows the corrected monthly remainder (see Left out) |
| RemainingIncomeTracker.TrackTotals | src/components/RemainingIncomeTracker.js:9-22 | counts this year's one-time expenses only; remaining + spent = spendable; progress finite iff spendable ≠ 0; over budget iff projection > spendable |
| RemainingIncomeTracker.AgreesWithExpenseTab | src/components/RemainingIncomeTracker.js:13-18 | the one-time spending equals the expense tab's |
| RemainingIncomeTracker.TrackIgnores | src/components/RemainingIncomeTracker.js:13-18 | a recurring expense, one from another year or one with an invalid date moves no figure |
| RemainingIncomeTracker.TrackMonthlyRemaining | src/components/RemainingIncomeTracker.js:21-28 | the tracker's monthly remainder is the corrected `MonthlyRemaining` of its remainder, in every month |
| RemainingIncomeTracker.SpreadOverMonthsLeft | src/components/RemainingIncomeTracker.js:28 | the corrected figure times the months left, the current one included, is the remainder; the as-written figure is finite iff the month is before December, and then times one month fewer it is the remainder |
| RemainingIncomeTracker.ProgressColor | src/components/RemainingIncomeTracker.js:62 | definition; its properties are in `ProgressColorRule` |
| RemainingIncomeTracker.ProgressColorRule | src/components/RemainingIncomeTracker.js:62 | for positive spendable, the bar is red iff more than three quarters is spent |
| Overview.Percentage | src/components/Overview.js:77 | for a positive total, the percentage times the total is 100× the amount; otherwise it is 0 |
| Overview.UnknownCategoryFallback | src/components/Overview.js:75-81 | a category outside the table is labelled by its key and drawn grey (#cccccc/#999999) |
| Overview.Describe | src/components/Overview.js:73-82 | definition; its properties are in `DecorateDescribes`, `UnknownCategoryFallback` and `Percentage` |
| Overview.Decorate | src/components/Overview.js:73-82 | one entry per category total, keeping its category and amount |
| Overview.DecorateDescribes | src/components/Overview.js:73-82 | each entry is its category's description |
| Overview.DecorateKeepsAmounts | src/components/Overview.js:73-76 | the breakdown's amounts add up to the totals' sum |
| Overview.PercentagesScale | src/components/Overview.js:77 | for a positive total, Σ percentages × total = 100 × Σ amounts |
| Overview.PercentagesAddUp | src/components/Overview.js:77 | when the entries add up to a positive total, the percentages add up to 100 |
| Overview.BreakdownEntries | src/components/Overview.js:68-82 | one entry per distinct category, in first-appearance order, each holding that category's sum |
| Overview.BreakdownOrder | src/components/Overview.js:68 | the breakdown follows the key order of the accumulator |
| Overview.EveryCategoryListed | src/components/Overview.js:69-72 | every expense's category is among the distinct categories |
| Overview.CategoriesCovered | src/components/Overview.js:68-73 | entries named after keys covering every category contain every category |
| Overview.BreakdownCovers | src/components/Overview.js:68-82 | every expense's category has an entry |
| Overview.BreakdownWitnessed | src/components/Overview.js:68-82 | every entry is the category of some expense |
| Overview.CategoriesWitnessed | src/components/Overview.js:68-73 | entries named after witnessed keys are witnessed |
| Overview.SpendingOverview | src/components/Overview.js:63-82 | the total is both lists' sum; remaining = monthly spendable − total; categories distinct, covering, witnessed; amounts add to the total; percentages to 100 if total > 0, else 0 |
| Overview.ShownIffAnyExpense | src/components/Overview.js:148 | with positive amounts, the breakdown shows iff there is any expense |
| ExpenseRing.GradientOf | src/components/ExpenseRing.js:53-56 | definition; its properties are in `LowerCasedKeysMiss` and `LookupIsCaseSensitive` |
| ExpenseRing.LookupIsCaseSensitive | src/components/ExpenseRing.js:53-56 | "housing" gets the grey gradient, "Housing" the blue one |
| ExpenseRing.LowerCasedKeysMiss | src/components/ExpenseRing.js:53-56 | every key of the table is capitalised, so the lower-cased spelling of any key falls back to the grey gradient |
| ExpenseRing.DegreesShare | src/components/ExpenseRing.js:45-46 | an arc's degrees are to the available degrees as its amount is to the total |
| ExpenseRing.SegmentAt | src/components/ExpenseRing.js:43-60 | definition; its properties are in `DegreesShare`, `SegmentsContiguous` and `LastSegmentEnds` |
| ExpenseRing.SweptSnoc | src/components/ExpenseRing.js:49 | the running start advances by one arc's degrees |
| ExpenseRing.SweptScale | src/components/ExpenseRing.js:45-46 | Σ degrees × total = Σ amounts × available degrees |
| ExpenseRing.SegmentsContiguous | src/components/ExpenseRing.js:43-49 | arc k+1 starts exactly 10 degrees after arc k ends: ordered, no overlap |
| ExpenseRing.Ring | src/components/ExpenseRing.js:35-60 | definition; its properties are in `SegmentsOf`, `RingFills` and `LastSegmentEnds` |
| ExpenseRing.LayOut | src/components/ExpenseRing.js:43-60 | the loop that advances `startAngle` yields arc k = start Σ(previous degrees) + 10k, extent amount/total × available |
| ExpenseRing.SegmentsOf | src/components/ExpenseRing.js:27-62 | total = Σ amounts; no arcs iff total is 0; otherwise one arc per distinct category over 360 − 10 × count degrees |
| ExpenseRing.CalculateSegments | src/components/ExpenseRing.js:25-62 | the same over expenses followed by recurring expenses; total is the sum of both |
| ExpenseRing.RingFills | src/components/ExpenseRing.js:35-46 | a nonzero total has at least one arc, and the arcs exactly fill the available degrees |
| ExpenseRing.RingFilled | src/components/ExpenseRing.js:45-46 | totals adding up to the total make the arcs fill the available degrees |
| ExpenseRing.NonZeroTotalHasCategory | src/components/ExpenseRing.js:30-38 | a nonzero total implies at least one category |
| ExpenseRing.LastSegmentEnds | src/components/ExpenseRing.js:40-49 | when the arcs fill the available degrees, the last ends at 350, leaving the final gap |
| SegmentedDonutChart.CurrentMonthExpenses | src/components/SegmentedDonutChart.js:11-15 | definition; its properties are in `InCurrentMonthIsRange` and `CurrentMonthExactly` |
| SegmentedDonutChart.InCurrentMonthIsRange | src/components/SegmentedDonutChart.js:11-15 | the filter is the start-of-month ≤ date ≤ end-of-month test |
| SegmentedDonutChart.CurrentMonthExactly | src/components/SegmentedDonutChart.js:11-15 | an expense counts iff it is in `state.expenses` and dated in today's month |
| SegmentedDonutChart.ByCategory | src/components/SegmentedDonutChart.js:23-28 | exactly the six keys, in order, each with its expenses' sum |
| SegmentedDonutChart.UnusedCategoryZero | src/components/SegmentedDonutChart.js:24-26 | a category nobody spent on totals 0 |
| SegmentedDonutChart.CategoryKeysDistinct | src/constants/categories.js:1-26 | the six keys are distinct |
| SegmentedDonutChart.CategoriesPartition | src/components/SegmentedDonutChart.js:18-28 | category totals + unknown-category expenses = the month's total |
| SegmentedDonutChart.KnownCategoriesAddUp | src/components/SegmentedDonutChart.js:18-28 | with only known categories the category totals equal the total |
| SegmentedDonutChart.CategoriesWithinTotal | src/components/SegmentedDonutChart.js:18-28 | with non-negative amounts, Σ category totals ≤ total |
| SegmentedDonutChart.AddsUpOnlyIfKnown | src/components/SegmentedDonutChart.js:18-28 | with positive amounts, equality holds only when every category is known |
| SegmentedDonutChart.Percentage | src/components/SegmentedDonutChart.js:40 | for a nonzero total, share × total = amount; a zero total gives 0 |
| SegmentedDonutChart.PercentageAdds | src/components/SegmentedDonutChart.js:40 | the share of a sum is the sum of the shares |
| SegmentedDonutChart.StartStep | src/components/SegmentedDonutChart.js:41-67 | the next start is the previous start advanced by the full share of the turn, because the gap added back cancels the gap subtracted |
| SegmentedDonutChart.ArcAt | src/components/SegmentedDonutChart.js:38-69 | definition; its properties are in `StartStep`, `ArcsContiguous`, `LastArcEnds`, `LargeArcRule` and `EmptyCategoryArc` |
| SegmentedDonutChart.LayOut | src/components/SegmentedDonutChart.js:38-69 | the loop yields arc k = start 2π × Σ previous shares, angle 2π × share − 0.02 |
| SegmentedDonutChart.Chart | src/components/SegmentedDonutChart.js:11-69 | total, six category totals and one arc per category for today's month |
| SegmentedDonutChart.ArcsContiguous | src/components/SegmentedDonutChart.js:67 | each arc is followed, after exactly the 0.02 gap, by the next |
| SegmentedDonutChart.LastArcEnds | src/components/SegmentedDonutChart.js:41-67 | when the category totals add up to the total, the last arc ends at 2π − 0.02 |
| SegmentedDonutChart.LargeArcRule | src/components/SegmentedDonutChart.js:49 | the flag is set iff the angle exceeds π |
| SegmentedDonutChart.EmptyCategoryArc | src/components/SegmentedDonutChart.js:41 | a category with nothing spent still gets an arc, of angle −0.02, without the flag |
| ExpenseCalendar.AllExpenses | src/components/ExpenseCalendar.js:24-27 | the combined list is the one-time expenses followed by the recurring ones |
| ExpenseCalendar.ExpensesByDate | src/components/ExpenseCalendar.js:37-44 | no map iff some expense's date is not a calendar date (`format` throws); otherwise each expense is in the list of its day key, in input order, a key has a list iff some expense falls on it, and lists are never empty |
| ExpenseCalendar.HasExpenses | src/components/ExpenseCalendar.js:103 | definition; its properties are in `HasExpensesIff` |
| ExpenseCalendar.HasExpensesIff | src/components/ExpenseCalendar.js:103 | a grid day is marked iff some expense is dated on it, for key-sized dates |
| ExpenseCalendar.MonthlyTotal | src/components/ExpenseCalendar.js:46-56 | definition; its properties are in `MonthlyTotalSplits` and `MonthlyTotalSnoc` |
| ExpenseCalendar.MonthlyTotalSplits | src/components/ExpenseCalendar.js:46-56 | the combined total is the one-time plus the recurring monthly total, each recurring expense counted once |
| ExpenseCalendar.MonthlyTotalSnoc | src/components/ExpenseCalendar.js:48-55 | one more expense adds its amount iff it is in the displayed month |
| ExpenseCalendar.CalendarDays | src/components/ExpenseCalendar.js:30-34 | definition; its properties are in `CalendarDaysShape` |
| ExpenseCalendar.CalendarDaysShape | src/components/ExpenseCalendar.js:30-34 | the grid runs Sunday of the 1st's week through Saturday of the last day's week, day by day, 4–6 whole weeks, containing each day of the month |
| ExpenseCalendar.IsCurrentMonth | src/components/ExpenseCalendar.js:105 | definition; its properties are in `CurrentMonthOnGrid` |
| ExpenseCalendar.CurrentMonthOnGrid | src/components/ExpenseCalendar.js:105 | on the grid, comparing month numbers alone marks exactly the days of the displayed month |
| Calendar.ExpenseEventOf | src/components/Calendar.js:39-45 | an expense event keeps the amount and category; the colour lookup needs a known category |
| Calendar.GoalEventOf | src/components/Calendar.js:53-59 | a goal event carries the target and current amounts |
| Calendar.DayExpenses | src/components/Calendar.js:36-38 | definition; its properties are in `DayExpensesExactly` |
| Calendar.DayExpensesExactly | src/components/Calendar.js:36-38 | an expense is listed for a day iff it is in `state.expenses` and dated that day |
| Calendar.ExpenseEvents | src/components/Calendar.js:36-47 | definition; its properties are in `ExpenseEventsOfDay` and `EventCount` |
| Calendar.GoalEvents | src/components/Calendar.js:50-61 | definition; its properties are in `GoalEventsOfDay` and `EventCount` |
| Calendar.DueGoals | src/components/Calendar.js:50-52 | definition; its properties are in `DueGoalsExactly` |
| Calendar.GetEventsForDay | src/components/Calendar.js:32-64 | the two loops give the day's expense events in order, then its goal events in order |
| Calendar.ExpenseEventsOfDay | src/components/Calendar.js:36-47 | one expense event per expense of the day, in order |
| Calendar.GoalEventsOfDay | src/components/Calendar.js:50-61 | one goal event per goal due that day, in order |
| Calendar.DueGoalsExactly | src/components/Calendar.js:50-52 | a goal is due iff it is in the list with that deadline |
| Calendar.EventCount | src/components/Calendar.js:32-64 | the event count is the expenses of the day plus the goals due |
| Calendar.DayTotal | src/components/Calendar.js:252-255 | definition; its properties are in `NoExpensesIff` and `DayTotalPositive` |
| Calendar.NoExpensesIff | src/components/Calendar.js:238-244 | "No expenses for this date" shows iff no expense is on that day, and the day total is then 0 |
| Calendar.DayTotalPositive | src/components/Calendar.js:252-255 | with positive amounts the day total is positive iff some expense is on that day |
| Calendar.DaysInMonthView | src/components/Calendar.js:26-30 | definition; its properties are in `GridWeeks` and `GridMonthDays` |
| Calendar.GridWeeks | src/components/Calendar.js:26-30 | the grid starts on Sunday and ends on Saturday in whole weeks; day i is weekday i mod 7 |
| Calendar.GridMonthDays | src/components/Calendar.js:26-30 | the month's days occupy positions Lead up to Lead + length, in order |
| DonutChart.Total | src/components/DonutChart.js:4 | definition; its properties are in `TotalSnoc` and `PrefixWithinTotal` |
| DonutChart.TotalSnoc | src/components/DonutChart.js:12 | the running total after k+1 items adds item k |
| DonutChart.Angle | src/components/DonutChart.js:10-11 | angle × total = value × 360 |
| DonutChart.AngleAdds | src/components/DonutChart.js:10-11 | the angle of a sum is the sum of the angles |
| DonutChart.AngleMonotone | src/components/DonutChart.js:10-11 | for a positive total, a larger value has a larger angle |
| DonutChart.SliceAt | src/components/DonutChart.js:9-14 | definition; its properties are in `Slices`, `SlicesContiguous`, `SlicesFillCircle`, `SliceSpan`, `LargeArcRule` and `SlicesForward` |
| DonutChart.Slices | src/components/DonutChart.js:4-14 | the loop over `cumulativeValue` yields slice k from 360·(Σ before k)/total to 360·(Σ through k)/total |
| DonutChart.SlicesContiguous | src/components/DonutChart.js:10-12 | each slice ends where the next starts |
| DonutChart.SlicesFillCircle | src/components/DonutChart.js:10-11 | the first slice starts at 0 and the last ends at 360 |
| DonutChart.SliceSpan | src/components/DonutChart.js:10-11 | a slice spans its item's share of 360 |
| DonutChart.LargeArcRule | src/components/DonutChart.js:14 | for a positive total, the flag is set iff the item is more than half the total |
| DonutChart.PrefixWithinTotal | src/components/DonutChart.js:12 | with non-negative values the running totals stay within 0..total |
| DonutChart.SlicesForward | src/components/DonutChart.js:10-11 | with non-negative values every slice lies in 0..360 and never runs backwards |
| Folds.Sum | src/components/Overview.js:65 | definition; its properties are in `SumAppend`, `SumNonNegative` and `SumPositive` |
| Folds.SumAppend | src/components/Overview.js:65 | the sum of a concatenation is the sum of the parts |
| Folds.SumNonNegative | src/components/SegmentedDonutChart.js:18-20 | non-negative amounts have a non-negative sum |
| Folds.SumPositive | src/components/Calendar.js:252-255 | a sum of positive amounts is non-negative, and positive for a non-empty list |
| Folds.Bucket | src/components/ExpenseTab.js:38-41 | a bucket never holds more than its input |
| Folds.BucketSound | src/components/ExpenseTab.js:38-41 | a bucket holds only input expenses with its key |
| Folds.BucketComplete | src/components/ExpenseTab.js:38-41 | every input expense with the key is in the bucket |
| Folds.BucketAppend | src/components/ExpenseTab.js:35 | bucketing distributes over concatenation, so input order is kept |
| Folds.BucketSnoc | src/components/ExpenseTab.js:41 | one more expense extends exactly its own bucket |
| Folds.BucketEmptyWhenAbsent | src/components/ExpenseTab.js:46 | a key not among the accumulator's keys has an empty bucket |
| Folds.DistinctKeys | src/components/ExpenseTab.js:46 | the key list of the accumulator never has more keys than there are expenses |
| Folds.DistinctKeysFacts | src/components/ExpenseTab.js:46 | the keys are pairwise distinct; each expense's key is listed; each key is some expense's |
| Folds.OutsideExactly | src/components/SegmentedDonutChart.js:23-28 | the expenses outside the key list are exactly those with an unlisted key |
| Folds.OutsideEmpty | src/components/ExpenseTab.js:182-185 | when every key is listed nothing is outside |
| Folds.SplitOutside | src/components/SegmentedDonutChart.js:23-28 | listing one more key moves exactly its bucket |
| Folds.SumKeysPartition | src/components/ExpenseTab.js:182-185 | bucket sums of distinct keys + the sum outside = the total |
| Folds.OutsideEmptyList | src/components/SegmentedDonutChart.js:23-28 | with no key listed every expense is outside |
| Folds.SumOverDistinctKeys | src/components/ExpenseTab.js:182-185 | the bucket sums over all distinct keys add up to the total |
| Folds.GroupBy | src/components/ExpenseTab.js:35-43 | the push-into-lists loop: keys in first-appearance order, each list the bucket of its key |
| Folds.Totals | src/components/Overview.js:68-72 | one entry per listed key, holding its bucket sum |
| Folds.SumEntriesSnoc | src/components/Overview.js:73 | the entry sum through k+1 adds entry k |
| Folds.SumEntriesOfTotals | src/components/Overview.js:68-72 | the entries add up to the bucket sums of their keys |
| Folds.TotalsKeys | src/components/Overview.js:68-72 | one entry per distinct key; each expense's key has one; each entry's key is some expense's |
| Folds.TotalsAddUp | src/components/Overview.js:68-72 | the per-key entries add up to the total |
| Folds.DistinctKeysSnoc | src/components/Overview.js:70 | one more expense adds its key at the end iff the key is new |
| Folds.SumsStep | src/components/Overview.js:70 | one accumulator step keeps each key's sum equal to its bucket's |
| Folds.AccumulateBy | src/components/Overview.js:69-72 | the `acc[k] = (acc[k] \|\| 0) + amount` loop: each key's sum is its bucket's sum |
| Folds.TotalsBy | src/components/ExpenseRing.js:35-44 | `Object.entries` of that accumulator equals the per-key totals |
| Text.DigitChar | src/components/ExpenseTab.js:37 | a digit below 10 is written as a character from "0" to "9" |
| Text.DigitValue | src/components/ExpenseTab.js:37 | a digit character's value is below 10 |
| Text.DigitRoundTrip | src/components/ExpenseTab.js:37 | reading back a digit's character gives the digit |
| Text.Pow10 | src/components/ExpenseTab.js:37 | the power is positive |
| Text.DecimalString | src/components/ExpenseTab.js:37 | `String(n)` is a non-empty string of decimal digits |
| Text.NumDigits | src/components/ExpenseTab.js:37 | a number has at least one digit |
| Text.Repeat | src/components/ExpenseTab.js:37 | `k` copies of `c` |
| Text.PadStart | src/components/ExpenseTab.js:37 | `padStart` keeps the text at the end, fills the front with the pad character, and is max(length, width) long |
| Text.Fixed | src/components/ExpenseTab.js:37 | exactly `w` digits |
| Text.FixedValue | src/components/ExpenseTab.js:37 | a fixed-width rendering of n < 10^w reads back as n |
| Text.FixedLeadingZero | src/components/ExpenseTab.js:37 | one more digit of width adds a leading zero |
| Text.PadFixed | src/components/ExpenseTab.js:37 | zero-padding a fixed-width rendering gives the wider rendering |
| Text.RepeatSnoc | src/components/ExpenseTab.js:37 | one more repetition adds one character at the end |
| Text.Pow10Monotone | src/components/ExpenseTab.js:37 | a larger exponent gives a larger power |
| Text.DecimalIsFixed | src/components/ExpenseTab.js:37 | `String(n)` is n in its own number of digits |
| Text.NumDigitsLower | src/components/ExpenseTab.js:37 | n ≥ 10^k has more than k digits |
| Text.PaddedDecimal | src/components/ExpenseTab.js:37 | `String(n).padStart(w, '0')` is the fixed-width rendering when n < 10^w |
| Text.NumDigitsUpper | src/components/ExpenseTab.js:37 | n < 10^w has at most w digits |
| Text.LexIrreflexive | src/components/ExpenseTab.js:46 | no string sorts below itself |
| Text.LexTransitive | src/components/ExpenseTab.js:46 | the string order is transitive |
| Text.LexTotal | src/components/ExpenseTab.js:46 | of two different strings one sorts below the other |
| Text.LexAppend | src/components/ExpenseTab.js:37-46 | equal-length prefixes are compared first |
| Text.PlaceOrder | src/components/ExpenseTab.js:37-46 | numbers extended by one digit compare by prefix first |
| Text.LexSingle | src/components/ExpenseTab.js:46 | one-character strings compare as their characters |
| Text.DigitsValueSnoc | src/components/ExpenseTab.js:37 | one more digit multiplies by ten and adds it |
| Text.DigitsOrder | src/components/ExpenseTab.js:37-46 | on equal-length digit strings, string order is numeric order |
| Text.InsertAscending | src/components/ExpenseTab.js:46 | one insertion adds exactly that element to the multiset |
| Text.SortAscending | src/components/ExpenseTab.js:46 | `sort()` keeps the same multiset of elements |
| Text.Reverse | src/components/ExpenseTab.js:46 | `reverse()` keeps the length and mirrors the positions |
| Text.InsertAscendingSorted | src/components/ExpenseTab.js:46 | inserting a new string keeps a list strictly ascending and adds exactly that string |
| Text.SortAscendingSorted | src/components/ExpenseTab.js:46 | sorting distinct keys gives a strictly ascending list |
| Text.ReverseAscending | src/components/ExpenseTab.js:46 | reversing strictly ascending gives strictly descending |
| Text.SortDescendingCorrect | src/components/ExpenseTab.js:46 | on distinct keys, `sort().reverse()` is a permutation, strictly descending |
| Text.ReverseMultiset | src/components/ExpenseTab.js:46 | reversing keeps the multiset |
| Text.MonthKey | src/components/ExpenseTab.js:37 | definition; its properties are in `MonthKeyFixed` and `MonthKeyOrder` |
| Text.DayKey | src/components/ExpenseCalendar.js:39 | definition; its properties are in `DayKeyFixed` and `DayKeyInjective` |
| Text.LongDecimalPadded | src/components/ExpenseTab.js:37 | a four-digit year is already its own four-wide rendering |
| Text.MonthKeyFixed | src/components/ExpenseTab.js:37 | for four-digit years the month key is the fixed-width rendering |
| Text.MonthKeyOrder | src/components/ExpenseTab.js:37-46 | for four-digit years, month keys compare chronologically, and equal keys mean the same month |
| Text.FixedOrder | src/components/ExpenseTab.js:37-46 | fixed-width renderings compare as their numbers |
| Text.KeyPairOrder | src/components/ExpenseTab.js:37-46 | "y-m" keys with equal field widths compare year first, then month |
| Text.DayKeyFixed | src/components/ExpenseCalendar.js:39 | for years up to 9999 the day key is the fixed-width rendering |
| Text.FixedInjective | src/components/ExpenseCalendar.js:39 | fixed-width renderings are equal only for equal numbers |
| Text.SplitDayKey | src/components/ExpenseCalendar.js:39 | a fixed-width `y-m-d` key splits back into its fields |
| Text.DayKeyInjective | src/components/ExpenseCalendar.js:39-42 | two dates share a day key iff they are the same date |
| Text.ToLower | src/components/Expenses.js:80 | lower-casing keeps the length and lower-cases each character in place |
| Text.ToLowerIdempotent | src/components/Expenses.js:80 | lower-casing twice equals lower-casing once |
| Common.YearlySpendable | src/components/ExpenseTab.js:14 | definition; its properties are in `ExpenseTab.SummaryFacts` and `RemainingIncomeTracker.TrackTotals` |
| Common.MonthlySavings | src/components/SavingsGoals.js:35 | definition; its properties are in `SavingsGoals.AddMonthlySavingsResult` |
| Common.Divide | src/components/RemainingIncomeTracker.js:28 | `a / b` is finite iff b ≠ 0, and then the quotient times b is a |
| Common.PercentOf | src/components/ExpenseTab.js:32 | `(part / whole) * 100` is finite iff whole ≠ 0, and then times whole it is 100 × part |
| Dates.DaysInMonth | src/components/Calendar.js:26-30 | month lengths are 28..31 |
| Dates.MonthStartFormula | src/components/Calendar.js:26-30 | the month-by-month start count equals the closed form |
| Dates.DayNumberFormula | src/components/Calendar.js:26-30 | the day number is the days of earlier years and months plus the day |
| Dates.Weekday | src/components/Calendar.js:27-28 | the weekday is in 0..6 |
| Dates.NextDay | src/components/Calendar.js:29 | the next day is a valid date |
| Dates.NextDayNumber | src/components/Calendar.js:29 | the next day's number is one more |
| Dates.Advance | src/components/Calendar.js:29 | advancing gives a valid date |
| Dates.AdvanceNumber | src/components/Calendar.js:29 | advancing k days adds k to the day number |
| Dates.AdvanceWithinMonth | src/components/Calendar.js:29 | within a month, advancing moves only the day |
| Dates.AdvanceAdd | src/components/Calendar.js:29 | advancing a+b days is advancing a, then b |
| Dates.PrevMonth | src/components/Calendar.js:27 | the month before, where `startOfWeek` of the 1st reaches back: a valid month exactly one step earlier in the count year × 12 + month |
| Dates.NextMonth | src/components/Calendar.js:28 | the month after, where `endOfWeek` of the last day reaches forward: a valid month exactly one step later |
| Dates.NextAfterPrev | src/components/Calendar.js:27 | the month after the month before is the month itself |
| Dates.PrevAfterNext | src/components/Calendar.js:28 | the month before the month after is the month itself |
| Dates.AddOneMonth | src/components/ExpenseCalendar.js:62-64 | `addMonths(d, 1)`: a valid date in the next month, on the same day or, when that month is shorter, on its last day |
| Dates.SubOneMonth | src/components/ExpenseCalendar.js:58-60 | `subMonths(d, 1)`: a valid date in the previous month, on the same day or, when that month is shorter, on its last day |
| Dates.NavigationRoundTrip | src/components/Calendar.js:67-74 | next then previous, or previous then next, returns to the displayed month; the day never grows and comes back whenever it is the 28th or earlier |
| Dates.StartOfWeek | src/components/Calendar.js:27 | `startOfWeek` of a date is a valid date |
| Dates.EndOfWeek | src/components/Calendar.js:28 | `endOfWeek` of a date is a valid date |
| Dates.EachDay | src/components/Calendar.js:29 | every day `eachDayOfInterval` lists is a valid date |
| Dates.Days | src/components/Calendar.js:29 | `count` valid days |
| Dates.DaysIndex | src/components/Calendar.js:29 | day i of the run is the start advanced by i |
| Dates.FirstOfMonth | src/components/Calendar.js:27 | `startOfMonth` is a valid date (day 1) |
| Dates.LastOfMonth | src/components/Calendar.js:28 | `endOfMonth` is a valid date (the last day) |
| Dates.Lead | src/components/Calendar.js:27 | the days shown before the 1st number fewer than 7 |
| Dates.GridFirstDay | src/components/Calendar.js:27 | the grid's first day is valid |
| Dates.GridLastDay | src/components/Calendar.js:28 | the grid's last day is valid |
| Dates.MonthGrid | src/components/Calendar.js:26-30 | the grid has `GridSize` valid days |
| Dates.AdvanceToNextMonth | src/components/Calendar.js:29 | advancing past the end of a month reaches the 1st of the next |
| Dates.GridStart | src/components/Calendar.js:27 | the grid's first day lies Lead days before the 1st |
| Dates.GridEnd | src/components/Calendar.js:28 | the grid's last day is the Saturday on or after the month's last day |
| Dates.MonthGridIsInterval | src/components/Calendar.js:26-30 | the grid is `eachDayOfInterval` from `startOfWeek(startOfMonth)` to `endOfWeek(endOfMonth)` |
| Dates.GridEndsOnLastDay | src/components/Calendar.js:28-29 | the last grid day is `endOfWeek(endOfMonth)` |
| Dates.GridIndex | src/components/Calendar.js:29 | grid day i is the first day advanced by i |
| Dates.ModSeven | src/components/Calendar.js:27 | reducing a summand mod 7 first keeps the sum mod 7 |
| Dates.SundayStart | src/components/Calendar.js:27 | stepping back to the previous Sunday lands on weekday 0 |
| Dates.WholeWeeks | src/components/Calendar.js:26-30 | the day count rounds to 4–6 whole weeks |
| Dates.LastOfWholeWeeks | src/components/Calendar.js:28 | the last of whole weeks is a Saturday |
| Dates.LastWeekday | src/components/Calendar.js:28 | the last day's weekday follows from the 1st's |
| Dates.GridStartsSunday | src/components/Calendar.js:27 | the grid starts on a Sunday |
| Dates.SundayBefore | src/components/Calendar.js:27 | the day Weekday(f) days before f is a Sunday |
| Dates.WeekdayAfterSunday | src/components/Calendar.js:29 | i days after a Sunday is weekday i mod 7 |
| Dates.WeekShift | src/components/Calendar.js:29 | i days after weekday 0 is weekday i mod 7, on day numbers |
| Dates.MonthGridWeeks | src/components/Calendar.js:26-30 | whole Sunday-first weeks, 4–6 of them; day i is weekday i mod 7 |
| Dates.MonthGridCovers | src/components/Calendar.js:26-30 | every day of the month appears in order after Lead days |
| Dates.AdvanceIntoMonth | src/components/Calendar.js:29 | advancing from Lead days before the 1st gives the matching day |
| Dates.GridInside | src/components/Calendar.js:26-30 | grid day i between the padding days is day i − Lead + 1 |
| Dates.GridFirstDayBefore | src/components/Calendar.js:27 | when the 1st is not Sunday the grid starts in the previous month |
| Dates.GridBefore | src/components/Calendar.js:27 | leading grid days lie in another month |
| Dates.AfterMonth | src/components/Calendar.js:28 | up to a week after the last day lies in the next month |
| Dates.GridAfter | src/components/Calendar.js:28 | trailing grid days lie in another month |
| Dates.GridInMonth | src/components/ExpenseCalendar.js:105 | on the grid, month-number equality and year-and-month equality agree, and pick out the month's days |
| Dates.DaysBeforeYearMonotone | src/components/SegmentedDonutChart.js:13-14 | later years start after earlier years end |
| Dates.DayNumberInYear | src/components/SegmentedDonutChart.js:13-14 | a date's day number lies within its year |
| Dates.InMonthRange | src/components/SegmentedDonutChart.js:13-14 | a date is between the month's first and last day iff it has that year and month |
| Dates.DaysBeforeMonthMonotone | src/components/SegmentedDonutChart.js:13-14 | later months start after earlier months end |
| Dates.DaysBeforeMonthStep | src/components/Calendar.js:29 | the next month starts after this one |
| Dates.DaysBeforeMonthLast | src/components/Calendar.js:29 | December ends the year |

## Left out

- Persistence, network and the store's async operations: `saveIncome`, `saveExpense`, `updateSavingsPool`, `updateSavingsGoal`, `deleteSavingsGoal`, `saveSavingsGoal`, `loadUserData`.
  - The provider in src/context/KakeiboContext.js exposes only `state` and `dispatch`, so the bodies of these operations are not part of this model.
  - The ledger gives them their evident effect: pool := x; `map` of the amount; `filter` of the goal; append with a fresh id.
- The two awaited writes of each savings handler, and their possible interleaving: each handler is one atomic step. The order of the field writes follows the source.
- `alert` and `window.confirm` prompts (a refusal is an `Outcome`), `console` logging, and the `try`/`catch` around failed writes.
- `parseFloat`/`Number` coercion, NaN and `toFixed` rounding: amounts are exact reals and all figures are unrounded.
  - In the validators a field is a `Field` value, and its parse result is given.
  - The validators' absent category is the empty string.
- `Intl.NumberFormat`, `toLocaleString` and `toLocaleDateString` formatting.
- `Math.cos`/`Math.sin`, π and the SVG path strings of the charts: only angles and degrees are modelled. π is a parameter.
- The ring's `segmentLength`/`startOffset` (degrees × circumference / 360) are left out; its arcs are in degrees.
- `Math.random` ids: they are the `freshId` parameter. `AddGoal` requires the store's id to be new.
- `new Date(...)`, date-fns parsing and time zones:
  - dates are triples and "today" is a parameter;
  - a calendar grid needs year ≥ 1 and a valid displayed date;
  - `Dates.StartOfWeek` needs a date at least a week after 0000-01-01.
- React state, hover and selection state, animations and JSX rendering. That includes the edit and delete handlers of the expense tab, which only prompt and call the store.
- ExpenseTab's own `getCategoryColor` table (src/components/ExpenseTab.js:67-77) is rendering only. Only the expense screen's lookup is modelled.
- `Object.keys` key order is modelled as first-appearance order. JavaScript orders integer-like keys first, and category and date keys never are integer-like.
- The category tables disagree on their keys. The modelled tables keep each source table's own keys: `EXPENSE_CATEGORIES` and the ring use "Housing", the overview uses "housing".
- The setup wizard fails when its module loads. src/components/WelcomeFlow.js:22-27 builds `backgrounds` from `EXPENSE_CATEGORIES.wants.startColor`, `.leisure`, `.subscriptions` and `["daily needs"]`. src/constants/categories.js:1-26 has none of these keys, and its entries hold only `label` and `color`, so reading `.startColor` throws a TypeError before any handler can run. `WelcomeFlow` models the handlers as if those rendering constants had loaded; the background gradients are not modelled.
- The income screen's form defaults (`|| 20` for the rates, src/components/Income.js:8-14) are exactly what `Form` receives, so they are not modelled separately.
- `ReturnStep` requires that the goal exists. The source reads `goal.current_amount` without a check, which throws for an unknown id, and the button is only rendered for an existing goal.
- `Calendar.ExpenseEventOf` requires a known category. The source's `EXPENSE_CATEGORIES[expense.category].color` throws otherwise.
- `DonutChart.Slices` requires a nonzero total. The source divides by it, and the angles would be NaN or infinite.
- The savings-goals screen reads `state.savingsPool`, `goal.current_amount` and `goal.target_amount`, while the reducer writes `currentAmount`. One `Goal` field stands for both spellings.
- The goal progress bar `(current_amount || 0) / (target_amount || 1) * 100` is rendering, and is not modelled.
- `Calendar.GetEventsForDay`: `state.savingsGoals?.` on a missing list is modelled as an empty sequence; the model's state always holds a list.
- `SegmentedDonutChart.EmptyCategoryArc` states rather than corrects the source: an empty category still gets an arc of angle −0.02.
- `Income.Derive`: figures of an income type other than "monthly" and "yearly" follow the source's two conditionals (the amount for both periods); no twelve-fold relation is claimed for them.
- `RemainingIncomeTracker.MonthlyRemaining` is the corrected division, see Findings. The as-written one is `MonthlyRemainingAsWritten`.
- `RemainingIncomeTracker.Track` shows the corrected figure in all twelve months: remaining / (12 − month index), where the source shows remaining / (11 − month index), for example remaining / 11 rather than remaining / 12 in January. `TrackMonthlyRemaining` and `SpreadOverMonthsLeft` state how the two figures relate.
- `Text.ToLower` lower-cases ASCII letters only. JavaScript's `toLowerCase` follows Unicode and can change the length (U+0130 becomes two code points). The expense screen's colour table has only ASCII lower-case keys, so the lookup result is the same either way.
- `Text.DayKey` writes year 0 as "0000". The date-fns `yyyy` token prints the year of the era, so the source writes year 0 (1 BC) as "0001", the same key as year 1. `Text.DayKeyInjective` therefore holds for the source only from year 1 on.
- The wizard stores its rates as fractions (percent / 100) and its income type as 'salary', while the income screen stores percents and reads only "monthly" and "yearly". Both are modelled as written (`Setup.incomeType`, `StoredTypeReadsAsOther`); how the store reconciles them is not part of this model.
- Expense dates are triples, and a triple that is not a calendar date (month 13, 30 February) stands for an unparseable date string, whose `Date` is invalid. The model treats it like the source treats an invalid `Date`: it is in no year or month, its month key is "NaN-NaN", and the calendar's `format` throws, so `ExpenseCalendar.ExpensesByDate` gives no map. JavaScript engines that roll an out-of-range day over into the next month are not modelled.

## Findings

| source | as written | input that shows it | evidently intended | confidence | as-written member | corrected member |
|---|---|---|---|---|---|---|
| src/components/RemainingIncomeTracker.js:28 | `monthlyRemaining = remainingSpendable / (12 - (currentMonth + 1))` counts only the months after the current one | any date in December (`getMonth()` = 11): the divisor is 0, so the figure is Infinity or NaN | spread the remainder over the months left including the current one, `12 - currentMonth`, so December shows the whole remainder | medium, not executed | RemainingIncomeTracker.MonthlyRemainingAsWritten, RemainingIncomeTracker.DecemberMonthlyRemainingNotFinite | RemainingIncomeTracker.MonthlyRemaining |
