# Personal-finance dashboard: the computing core

This project models the parts of the finance dashboard that compute
something. It covers five areas:

- **Group expense splitting** (`src/data/groupsData.ts`): the balance table
  and the debt settlement `calculateDebts`, `getUserBalance`,
  `getTotalGroupExpenses` and `getMemberById`.
- **Budget colouring** (`src/data/budgetData.ts`): the spent percentage and
  the status colour.
- **Spending breakdown** (`src/data/mockData.ts`): the per-category totals
  behind the spending chart.
- **The expenses page** (`src/pages/Expenses.tsx`): the filter, search and
  sort pipeline, the total of the shown list, and the reset of the filter bar.
- **Groups** (`src/components/groups/CreateGroupDialog.tsx`,
  `src/pages/Groups.tsx`):
  - the create-group dialog, as a class holding its form state;
  - the groups page, as a class holding the group list;
  - the group search.

## Modules

| Module | What it holds |
|---|---|
| `Wrappers` | `Option` |
| `Numbers` | `Math.round` and cent rounding |
| `Seqs` | `Array.prototype.filter` and a stable sort, with their properties |
| `Text` | trim, lower-casing, `includes`, the text before a character, decimal rendering |
| `GroupsData` | groups, members and expenses; the balance table as a specification plus the loops that fill it; `getUserBalance` |
| `Settlement` | the debtor/creditor partition and the two-pointer sweep of `calculateDebts` |
| `BudgetData`, `MockData`, `ExpensesPage` | the budget, chart and expense-list code |
| `CreateGroupDialog`, `GroupsPage` | the dialog and the page |

## Modelling conventions

- **Money.** Money is `real`: arithmetic is exact.
- **Rounding.** `Math.round(x)` is `RoundHalfUp`, the greatest integer not
  above `x + 0.5`. `Math.round(x * 100) / 100` is `RoundCents`.
- **Dates.** Expense dates are day numbers, ordered the way the ISO date
  strings are.
- **Loops in the source.**
  - The `forEach` loops and the sweep of `calculateDebts` become methods with
    loops: `GroupsData.InitBalances`, `GroupsData.AccumulateExpenses`,
    `GroupsData.DebitEach` and `Settlement.Settle`.
  - The `reduce` of `getCategoryData` becomes `MockData.CategoryTotals`.
  - Each of these methods is proved against a recursive specification
    function.
- **React state.**
  - The state of the create-group dialog is a class (`CreateGroupDialog.Dialog`).
  - The filter bar's state is a class (`ExpensesPage.FilterState`).
  - The groups page's list is a class (`GroupsPage.Page`).
  - Each state setter is a field assignment.
- **Clocks and mock data are parameters.**
  - `Date.now()` and the current date are parameters of
    `GroupsPage.NewGroup`. The clock is read once for the group id and once
    per new member, as the source does.
  - The expense list that `getCategoryData` and `filteredExpenses` read from
    the mock data module is also a parameter.

## Behaviour of the settlement worth knowing

- **Residual balances.** The sweep stops as soon as either list runs out,
  so it can leave a creditor owed more than a cent.
  `Settlement.ResidualAboveTolerance` gives balances that sum to zero and
  still leave a creditor owed 0.011 who receives nothing.
- **Empty split lists.** For an expense whose split list is empty, the share
  (`amount / 0`) is `Infinity`, or `NaN` when the amount is 0. The inner loop
  never runs, so that share is never applied. The payer is credited with the
  amount, nobody is debited, and the balances no longer sum to 0. The model
  requires non-empty split lists (`WellFormed`).
- **Ids that are not members.** Only a payer or split entry that is not a
  member leads to `NaN`: its balance starts undefined, and adding or
  subtracting a number gives `NaN`. The model requires every such id to be a
  member.

`getUserBalance` and the balance table of `calculateDebts` disagree when a
split list names a member twice:

- `calculateDebts` debits that member twice;
- `getUserBalance` tests `includes` and debits them once.

`GroupsData.DuplicateSplitEntryDiffers` exhibits the difference.
`GroupsData.UserBalanceMatchesTable` proves the two agree whenever no split
list repeats the user.

## Model

| member | source | states |
|---|---|---|
| GroupsData.MemberById | src/data/groupsData.ts:130-132 | no member is found exactly when no member carries the id; a found member carries the id, is in the list and no earlier member carries the id |
| GroupsData.Total | src/data/groupsData.ts:134-136 | `getTotalGroupExpenses`: the expense amounts added in list order, starting from 0 |
| GroupsData.TotalBounds | src/data/groupsData.ts:134-136 | with non-negative amounts the total is non-negative and at least every single amount |
| GroupsData.Keys | src/data/groupsData.ts:83-85 | the balance table's keys are the member ids, each once |
| GroupsData.InitBalances | src/data/groupsData.ts:80-85 | the loop over the members yields the distinct ids and a table with every member at 0 |
| GroupsData.AccumulateExpenses | src/data/groupsData.ts:88-98 | the loop over the expenses yields the table obtained by applying each expense in turn |
| GroupsData.DebitEach | src/data/groupsData.ts:95-97 | the loop over a split list debits every entry of the split list by the share |
| GroupsData.DebitAt | src/data/groupsData.ts:95-97 | after the debits, a member's balance has dropped by the share times the number of times the split list names them |
| GroupsData.ApplyExpenseAt | src/data/groupsData.ts:89-97 | one expense changes a member's balance by the amount if they paid, minus one share per mention in the split list |
| GroupsData.BalanceIsNet | src/data/groupsData.ts:80-98 | each member's final balance is the sum, over the expenses, of what they paid minus their shares |
| GroupsData.UninvolvedMemberIsZero | src/data/groupsData.ts:80-98 | a member who neither paid nor shared any expense ends at 0 |
| GroupsData.ApplyExpenseSum | src/data/groupsData.ts:89-97 | one expense leaves the sum of all balances unchanged, because the credit equals the shares debited |
| GroupsData.BalancesSumToZero | src/data/groupsData.ts:80-98 | the balances of a well-formed group add up to exactly 0 |
| GroupsData.UserBalance | src/data/groupsData.ts:138-154 | `getUserBalance` returns the user's net (credits as payer, one share per expense whose split list includes them), rounded to the nearest cent and within half a cent of it |
| GroupsData.UserBalanceMatchesTable | src/data/groupsData.ts:138-154 | when no split list names the user twice, the unrounded `getUserBalance` equals the user's entry in the balance table of `calculateDebts` |
| GroupsData.DuplicateSplitEntryDiffers | src/data/groupsData.ts:95-96 | a split list naming a member twice debits them twice in the balance table but once in `getUserBalance` |
| Settlement.Entries | src/data/groupsData.ts:102-103 | `Object.entries` gives one entry per key, in key order, each carrying that key's id and balance |
| Settlement.TransferAmount | src/data/groupsData.ts:110 | the amount moved zeroes the debtor or the creditor; between a non-positive debtor and a non-negative creditor it is non-negative and keeps both signs |
| Settlement.PartitionSpec | src/data/groupsData.ts:102-103 | debtors are exactly the entries below -0.01, ascending; creditors exactly those above 0.01, descending; each list is a permutation of the filtered entries |
| Settlement.Sweep | src/data/groupsData.ts:105-125 | the sweep: while both lists have a current entry, move the smaller of what the debtor owes and the creditor is owed, record it rounded to cents when over a cent, and pass each entry left within a cent of zero |
| Settlement.Settle | src/data/groupsData.ts:105-125 | the two-pointer loop returns exactly the debts of the sweep specification |
| Settlement.CalculateDebts | src/data/groupsData.ts:79-128 | `calculateDebts` returns the sweep of the partitioned balance table |
| Settlement.Debts | src/data/groupsData.ts:79-128 | what `calculateDebts` returns: the sweep over the debtors (below -0.01, ascending) and creditors (above 0.01, descending) of the group's balance table |
| Settlement.SweepParties | src/data/groupsData.ts:112-118 | every recorded debt runs from a debtor to a creditor of the lists and is a whole number of cents, at least one cent |
| Settlement.SweepCount | src/data/groupsData.ts:105-125 | the sweep records nothing when a list is empty, otherwise at most one debt fewer than debtors and creditors together |
| Settlement.SweepStepKeepsSigns | src/data/groupsData.ts:107-124 | with negative debtors and positive creditors a step moves a positive amount, keeps the signs and passes at least one entry |
| Settlement.DebtsParties | src/data/groupsData.ts:79-128 | every suggested debt runs from a member owing more than a cent to a different member owed more than a cent, in whole cents of at least one cent |
| Settlement.DebtsCount | src/data/groupsData.ts:79-128 | fewer debts than the group has distinct members, none without both a debtor and a creditor |
| Settlement.NoExpensesNoDebts | src/data/groupsData.ts:79-128 | a group without expenses is well formed and owes nothing |
| Settlement.EvenSplitExample | src/data/groupsData.ts:105-125 | balances B -40, C -40, A +80 settle as B pays A 40, then C pays A 40 |
| Settlement.ResidualAboveTolerance | src/data/groupsData.ts:106 | the sweep can stop with a creditor still owed more than the tolerance |
| Settlement.FinalDebtors | src/data/groupsData.ts:105-125 | where the sweep stops, the debtors it passed sit within a cent of zero, those after the one it stopped at are untouched, and every debtor keeps its id; the one it stopped at may have been partly paid |
| Settlement.FinalCreditors | src/data/groupsData.ts:105-125 | where the sweep stops, the creditors it passed sit within a cent of zero, those after the one it stopped at are untouched, and every creditor keeps its id; the one it stopped at may have been partly paid |
| Settlement.FinalStateStops | src/data/groupsData.ts:105-106 | the sweep stops only when it has passed every debtor or every creditor |
| Settlement.FinalStateBounds | src/data/groupsData.ts:110-121 | for non-positive debtors and non-negative creditors, no debtor pays more than it owes and no creditor receives more than it is owed; each stays on its side of zero |
| Settlement.SweepConservation | src/data/groupsData.ts:110-121 | what the debtors pay in total equals what the creditors receive, and the recorded debts add up to that total within one cent per entry |
| BudgetData.SpentPercentage | src/data/budgetData.ts:46-49 | 0 for a zero allocation, otherwise the integer within half a unit of spent / allocated * 100 |
| BudgetData.SpentPercentageEndpoints | src/data/budgetData.ts:46-49 | spending nothing is 0 per cent and spending the allocation is 100 per cent |
| BudgetData.SpentPercentageMonotone | src/data/budgetData.ts:46-49 | for a positive allocation, spending more never gives a lower percentage |
| BudgetData.SpentPercentageNonNegative | src/data/budgetData.ts:46-49 | non-negative spending of a positive allocation gives a non-negative percentage |
| BudgetData.StatusColor | src/data/budgetData.ts:51-55 | destructive exactly at 100 or more, amber exactly from 80 below 100, primary exactly below 80 |
| BudgetData.OverBudgetBand | src/data/budgetData.ts:46-55 | for a positive allocation, spending it in full shows the destructive colour |
| MockData.CategoriesDistinct | src/data/mockData.ts:17-26 | the category table's ids are pairwise distinct |
| MockData.Totals | src/data/mockData.ts:63-66 | the accumulator the `reduce` builds: one key per category some expense is filed under, holding the sum of that category's amounts |
| MockData.TotalsSnoc | src/data/mockData.ts:63-66 | one more expense adds its amount to its category's total, starting that total at 0 when new |
| MockData.CategoryTotals | src/data/mockData.ts:63-66 | the accumulating loop yields, per category that occurs, the sum of its amounts |
| MockData.GetCategoryData | src/data/mockData.ts:62-76 | the chart rows are the funded categories of the table, each with its total |
| MockData.Rows | src/data/mockData.ts:68-75 | one chart row per table category whose total is present and non-zero, in table order, with the category's name, colour and icon and that total |
| MockData.CategoryRowsSpec | src/data/mockData.ts:68-75 | a table category gets a row exactly when its expenses add up to a non-zero amount; rows keep table order and carry that sum with the category's name, colour and icon; no more rows than categories |
| MockData.CategoryRowsDistinct | src/data/mockData.ts:68-69 | a table without repeats gives at most one row per category |
| MockData.UnknownCategoryIgnored | src/data/mockData.ts:63-69 | an expense whose category is not in the table changes no row |
| ExpensesPage.FilteredExpenses | src/pages/Expenses.tsx:18-63 | the staged search, category and date filters and the sort equal one filter by `Visible` followed by a stable sort on the chosen key |
| ExpensesPage.SearchStage | src/pages/Expenses.tsx:22-29 | the search stage keeps exactly the expenses whose description or notes contain the lower-cased query |
| ExpensesPage.CategoryStage | src/pages/Expenses.tsx:32-34 | the category stage keeps exactly the expenses of the chosen category, unless it is "all" |
| ExpensesPage.DateStage | src/pages/Expenses.tsx:37-44 | the date stage keeps the expenses from `from` to `to` (or to `from` alone), both ends inclusive, when a start is set |
| ExpensesPage.FilteredExpensesContents | src/pages/Expenses.tsx:18-63 | an expense is shown exactly when it is in the source and passes every active filter; each shown expense appears exactly as often as in the source |
| ExpensesPage.FilteredExpensesOrder | src/pages/Expenses.tsx:47-60 | each of the four sort keys orders the list as named; any other key leaves the filtered order unchanged |
| ExpensesPage.Total | src/pages/Expenses.tsx:65 | `totalAmount`: the amounts of the shown expenses added in order, starting from 0 |
| ExpensesPage.TotalAppend | src/pages/Expenses.tsx:65 | the total of two lists joined is the sum of their totals |
| ExpensesPage.TotalPermutation | src/pages/Expenses.tsx:65 | lists with the same elements have the same total |
| ExpensesPage.TotalAmountIgnoresSort | src/pages/Expenses.tsx:47-65 | the total under the list does not depend on the sort |
| ExpensesPage.FilterState.constructor | src/pages/Expenses.tsx:12-15 | the filters start with an empty search, category "all", "date-desc" and no date range |
| ExpensesPage.FilterState.ClearFilters | src/pages/Expenses.tsx:67-72 | clearing puts every filter back to its starting value, so no filter is active |
| ExpensesPage.DefaultFiltersShowEverything | src/pages/Expenses.tsx:12-15 | with the starting filters every expense is shown, newest first |
| CreateGroupDialog.Normalize | src/components/groups/CreateGroupDialog.tsx:31 | the normalised address is lower case, has no white space at either end and is no longer than the input |
| CreateGroupDialog.NormalizeContent | src/components/groups/CreateGroupDialog.tsx:31 | the normalised address is the lower-cased slice left after cutting the white space at both ends: only white space lies before and after that slice, and it neither starts nor ends with white space |
| CreateGroupDialog.NormalizeIdempotent | src/components/groups/CreateGroupDialog.tsx:31 | normalising twice is normalising once |
| CreateGroupDialog.EmailShape | src/components/groups/CreateGroupDialog.tsx:34 | the regex's shape: one '@' that is not first, a later '.' with at least one plain character on each side, every other character neither white space nor '@' |
| CreateGroupDialog.EmailShapeFacts | src/components/groups/CreateGroupDialog.tsx:34 | an accepted address has at least five characters, no white space, and exactly one '@', at neither end |
| CreateGroupDialog.EmailShapeAccepts | src/components/groups/CreateGroupDialog.tsx:34 | the pattern accepts `a@b.c` and `a@.c.d` |
| CreateGroupDialog.EmailShapeRejects | src/components/groups/CreateGroupDialog.tsx:34 | the pattern refuses `a@b`, `a@b@c.d` and `a@b.` |
| CreateGroupDialog.AdmissibleIsNormal | src/components/groups/CreateGroupDialog.tsx:31-39 | a listed address normalises to itself, so typing it again is reported as already added |
| CreateGroupDialog.Without | src/components/groups/CreateGroupDialog.tsx:49 | the removed address is gone; every other address is kept or absent as before |
| CreateGroupDialog.WithoutAbsent | src/components/groups/CreateGroupDialog.tsx:49 | removing an unlisted address changes nothing |
| CreateGroupDialog.WithoutAt | src/components/groups/CreateGroupDialog.tsx:49 | in a list without repeats, removing the entry at k leaves the others in order |
| CreateGroupDialog.WithoutNoDuplicates | src/components/groups/CreateGroupDialog.tsx:49 | removal keeps the list free of repeats |
| CreateGroupDialog.Dialog.constructor | src/components/groups/CreateGroupDialog.tsx:24-28 | the dialog starts closed with every field empty |
| CreateGroupDialog.Dialog.AddMember | src/components/groups/CreateGroupDialog.tsx:30-46 | blank, badly shaped and already listed addresses change nothing, each with its own outcome; otherwise the normalised address is appended and the input cleared; the list stays free of repeats and holds only well-shaped lower-case addresses |
| CreateGroupDialog.Dialog.RemoveMember | src/components/groups/CreateGroupDialog.tsx:48-50 | the list becomes the old list without the address; the rest of the form is untouched |
| CreateGroupDialog.Dialog.Submit | src/components/groups/CreateGroupDialog.tsx:52-66 | a blank trimmed name changes nothing and submits nothing; otherwise the trimmed name, the trimmed description and the list are submitted, those fields are cleared and the dialog closes, keeping the half-typed address |
| GroupsPage.FilteredGroups | src/pages/Groups.tsx:15-18 | `filteredGroups`: the groups, in order, whose lower-cased name or description contains the lower-cased query |
| GroupsPage.FilteredGroupsSpec | src/pages/Groups.tsx:15-18 | a group is shown exactly when its lower-cased name or description contains the lower-cased query; no group appears more often than in the list |
| GroupsPage.EmptyQueryShowsAll | src/pages/Groups.tsx:15-18 | an empty query shows every group in order |
| GroupsPage.QueryCaseIgnored | src/pages/Groups.tsx:15-18 | the query's case does not matter |
| GroupsPage.FilteredGroupsCons | src/pages/Groups.tsx:15-18 | a group put in front is shown in front exactly when it matches; the rest is filtered as before |
| GroupsPage.NewMemberIdsDistinct | src/pages/Groups.tsx:27-31 | new members at different positions get different ids, whatever the clock readings |
| GroupsPage.NewGroup | src/pages/Groups.tsx:21-34 | the `newGroup` literal: id `group-` and the clock reading, the given name and description, the signed-in user followed by one new member per address, no expenses, and today's date |
| GroupsPage.NewGroupMembers | src/pages/Groups.tsx:21-35 | the new group has the given name, description and date; the signed-in user comes first, then one member per address in order, named by the text before the '@' |
| GroupsPage.NewGroupIdsDistinct | src/pages/Groups.tsx:25-32 | the member ids of a new group are pairwise distinct |
| GroupsPage.NewGroupNoDebts | src/pages/Groups.tsx:33 | a new group has no expenses, is well formed and suggests no debts |
| GroupsPage.Page.constructor | src/pages/Groups.tsx:11-13 | the page starts with the given groups and an empty search |
| GroupsPage.Page.CreateGroup | src/pages/Groups.tsx:20-37 | the new group goes in front of the unchanged old list; the search is untouched; the shown list gains the new group on top exactly when it matches the search |
| Numbers.RoundHalfUp | src/data/budgetData.ts:48 | `Math.round` gives the integer within half a unit, ties upwards |
| Numbers.RoundCents | src/data/groupsData.ts:116 | rounding to cents stays within half a cent and yields a whole number of cents |
| Numbers.RoundCentsAboveCent | src/data/groupsData.ts:112-116 | an amount above one cent rounds to at least one cent |
| Seqs.SortBy | src/pages/Expenses.tsx:47-60 | the stable sort returns a sorted permutation of its input |
| Seqs.SortByConstantKey | src/pages/Expenses.tsx:57-58 | a comparator that always answers 0 leaves the list as it is |
| Seqs.SortByStable | src/pages/Expenses.tsx:47-60 | for every key value, the elements carrying that key appear in the sorted list in the same order as in the input |

## Left out

- Floating point: amounts are exact reals, so IEEE-754 rounding in the balance sums is not modelled. Neither is the accumulation error that the one-cent tolerance of `calculateDebts` exists to absorb.
- Settlement.Debts: requires every split list to be non-empty and every payer and split entry to be a member. For an empty split list the code credits the payer and debits nobody, so the balances stop summing to 0. An id that is not a member gets the balance `NaN` (undefined plus a number). Neither path is modelled.
- Object key order: `Object.entries` is modelled as the members' insertion order. JavaScript lists integer-like keys first; member ids are never integer-like.
- Text: white space, lower-casing and `\s` cover ASCII only. Unicode white space and case mapping are not modelled.
- Dates: dates are day numbers. Time zones and the `Date` parsing of ISO strings are not modelled.
- `Date.now()` and `new Date()` are parameters of `GroupsPage.NewGroup`, not a clock.
- Side effects: toasts, the `onCreateGroup` callback and React re-rendering are left out. `Dialog.Submit` returns the submission instead of calling the callback.
- Sorting: `Array.prototype.sort` sorts in place. The model sorts a copy, as `filteredExpenses` already sorts a copy (`[...mockExpenses]`). It also assumes a consistent comparator; every comparator in the source is one.
- Unmodelled parts of the source:
  - the optional `avatar` field of members;
  - currency formatting;
  - the rendering of every component;
  - the AI insight panels and timers;
  - the `selectedGroup` state of the groups page.
  
  These compute nothing the model's properties depend on.
- The mock data lists (`mockExpenses`, `mockGroups`, `mockMembers` other than the signed-in user) are not copied. The functions that read them take the list as a parameter.
- `hasActiveFilters` of the filter bar is modelled as `ExpensesPage.FilterState.HasActiveFilters`, which has no row of its own. `ClearFilters` states that it becomes false.
