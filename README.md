# Subscription reseller admin — a Dafny model

This project models the decision logic of the administrator side of a
subscription-reselling web application:

- the **submission table** of the admin dashboard: optimistic status
  updates with commit or rollback, single and bulk delete, row selection,
  search and filters, newest-first order, pagination, status counts, the
  expiry column, the Renew button and the renewal progress bar;
- the **expired-accounts screen**: the expired and expiring-soon counters
  and tabs, the status badge, the 30-day progress bar, the All tab and the
  renewal dialog;
- the **bookkeeping page**: the amount input pattern, transaction
  validation, adding and deleting transactions, income and expense totals,
  net profit and partner share, per-day sums of a month and the expense
  breakdown by category;
- the **customer import endpoint**: authorisation, required fields, the
  shared end date computed by month arithmetic, and the per-row import loop
  with its counts;
- the **approved-customer CSV export**: the header and one comma-joined row
  per customer;
- the **sidebar menu**: which item is highlighted for a path, which items
  are shown, and where disabled items link.

Time is an integer number of milliseconds and the current instant is a
parameter. Every backend call (update, delete, renew, fetch, create,
add-submission, current-user lookup, CSV parsing) is an outcome supplied as
a parameter. Money is a whole number of cents, which is exact because the
amount field accepts at most two decimals. The `'unlimited'` end date is a
value of its own (`Unlimited`). The source parses it into an invalid date:
every comparison on that date is false and every day count is NaN. In the
dashboard's expiry column this reaches `format`, which throws while
rendering (see Findings), and the renewal progress is NaN. The
expired-accounts screen tests for the string first and shows "Unlimited".

Files:

- `common.dfy`: `Common.Option`, for the fields that may be absent.
- `text.dfy`: `Text` (case folding, `includes`, `trim`, `join`/`split`,
  decimal digits).
- `calendar.dfy`: civil dates, `setMonth` arithmetic, day numbers since the
  epoch, `yyyy-MM-dd` with the era year.
- `submission.dfy`: the submission record, whole-day differences, the
  renewal-months input and clamping.
- `dashboard_client.dfy`, `expired_accounts.dfy`, `financial.dfy`,
  `import_customers.dfy`, `dashboard_header.dfy`, `sidebar_nav.dfy`: one
  module per source file.

The components that keep state are classes whose methods are the event
handlers: `DashboardClient.Dashboard`, `DashboardClient.RenewalButton`,
`ExpiredAccounts.ExpiredAccountsView` and `Financial.FinancialPage`.
Derived values (the filtered list, the pages, the statistics, the rows)
are functions.

## Model

| member | source | states |
|---|---|---|
| DashboardClient.FindById | src/components/admin/dashboard-client.tsx:143-147 | `find` gives a submission exactly when some entry has the id, and what it gives is the first such entry: no earlier entry has the id |
| DashboardClient.ReplaceById | src/components/admin/dashboard-client.tsx:160 | the commit and rollback map keeps the length, brings in no entry other than the replacement, and puts the replacement in whenever some entry has the id; CommitReplacesEntry and RollbackRestoresSnapshot give it its meaning (also lines 113, 169, 178) |
| DashboardClient.MarkStatus | src/components/admin/dashboard-client.tsx:149-151 | the optimistic map keeps the length and every entry's id in place; OptimisticStepFrame pins the rest |
| DashboardClient.OptimisticStepFrame | src/components/admin/dashboard-client.tsx:149-151 | the optimistic map keeps length and order, leaves entries with other ids unchanged, and changes only `status` and `updatedAt` of matching entries |
| DashboardClient.CommitReplacesEntry | src/components/admin/dashboard-client.tsx:156-161 | when the server returns a record, every entry with the id becomes exactly that record and every other entry is the original |
| DashboardClient.RollbackRestoresSnapshot | src/components/admin/dashboard-client.tsx:167-168 | when ids are unique, rolling back after the optimistic step gives back exactly the list as it was before the update |
| DashboardClient.RollbackWithDuplicateIds | src/components/admin/dashboard-client.tsx:143-168 | with two entries sharing an id, rollback writes the first entry over both, so the prior list is not restored |
| DashboardClient.Dashboard.HandleStatusUpdate | src/components/admin/dashboard-client.tsx:141-187 | an unknown id changes nothing and calls nothing; otherwise the list becomes the optimistic list with the server record committed, or the snapshot entry restored on null or a throw |
| DashboardClient.Dashboard.ApplyProfileNameFormState | src/components/admin/dashboard-client.tsx:104-120 | a message without errors and with a submission replaces the entries with that id; any other state leaves the list alone |
| DashboardClient.Dashboard.ReceiveSubmissions | src/components/admin/dashboard-client.tsx:100-102 | new server props replace the working list |
| DashboardClient.RemoveId | src/components/admin/dashboard-client.tsx:215 | the filter keeps every entry whose id differs, as many times as it occurred, and drops every entry with the id |
| DashboardClient.RemoveAbsentId | src/components/admin/dashboard-client.tsx:215 | removing an id that no entry has leaves the list unchanged |
| DashboardClient.StorageIdDeleteRemovesNothing | src/components/admin/dashboard-client.tsx:199-215 | when the delete target takes its id from `_id` and no entry has that `id`, a successful delete removes nothing from the table |
| DashboardClient.Dashboard.HandleDeleteClick | src/components/admin/dashboard-client.tsx:195-202 | the delete target is the email, the profile name and the `_id` when present, else the `id` |
| DashboardClient.Dashboard.HandleDeleteConfirm | src/components/admin/dashboard-client.tsx:204-236 | with no target nothing is called; a `true` reply removes exactly the target id; `false` or a throw keeps the list; the target is cleared either way |
| DashboardClient.RemoveIds | src/components/admin/dashboard-client.tsx:305 | the bulk filter keeps exactly the entries whose id is not selected, with their multiplicity |
| DashboardClient.Dashboard.HandleBulkDelete | src/components/admin/dashboard-client.tsx:299-321 | the ids are attempted in order; without a throw all are attempted, the selected ids are removed and the selection cleared, whatever each reply said; a throw stops at that id and changes neither list nor selection |
| DashboardClient.Without | src/components/admin/dashboard-client.tsx:287 | `filter(x => x !== id)` keeps every other id and no copy of `id`, and keeps a duplicate-free selection duplicate-free |
| DashboardClient.ToggleFlipsMembership | src/components/admin/dashboard-client.tsx:286-288 | a toggle flips the membership of that id only and never creates a duplicate |
| DashboardClient.Toggled | src/components/admin/dashboard-client.tsx:286-288 | toggling brings in no id other than the toggled one and grows the selection by at most one; ToggleFlipsMembership and ToggleTwice give the flip |
| DashboardClient.ToggleTwice | src/components/admin/dashboard-client.tsx:286-288 | toggling twice restores membership, and restores the exact list when the id was absent |
| DashboardClient.WithoutAbsent | src/components/admin/dashboard-client.tsx:287 | filtering out an absent id changes nothing |
| DashboardClient.WithoutAppended | src/components/admin/dashboard-client.tsx:287 | filtering out an id just appended gives the same result as filtering it from the list before the append |
| DashboardClient.Dashboard.ToggleSelect | src/components/admin/dashboard-client.tsx:286-288 | the selection becomes the toggled selection |
| DashboardClient.IdsOf | src/components/admin/dashboard-client.tsx:290 | `map(sub => sub.id)` has one id per entry, the k-th id being the k-th entry's |
| DashboardClient.Dashboard.SelectAll | src/components/admin/dashboard-client.tsx:289-295 | the selection becomes exactly the ids of the filtered list, and the header box is checked exactly when that list is non-empty |
| DashboardClient.Dashboard.DeselectAll | src/components/admin/dashboard-client.tsx:292-294 | the selection becomes empty |
| DashboardClient.SelectAllChecksHeader | src/components/admin/dashboard-client.tsx:289-296 | after select-all, `allSelected` holds exactly when the filtered list is non-empty, and `someSelected` is false |
| DashboardClient.AllSelectedIsLengthOnly | src/components/admin/dashboard-client.tsx:295 | `allSelected` compares lengths only: a selection of an id that is not shown can still check the header box |
| DashboardClient.SearchMatches | src/components/admin/dashboard-client.tsx:244-246 | the empty search term matches every submission |
| DashboardClient.MatchesFilters | src/components/admin/dashboard-client.tsx:244-249 | an entry kept by the filters matches the search, and the empty search with both filters on 'all' keeps every entry; KeepMatching and NoFilterListsEverything lift this to the list |
| DashboardClient.KeepMatching | src/components/admin/dashboard-client.tsx:243-250 | the filter keeps exactly the entries matching search, status and reseller, each as often as it occurs |
| DashboardClient.InsertByDate | src/components/admin/dashboard-client.tsx:250 | inserting into a newest-first list keeps it newest-first and adds exactly that entry |
| DashboardClient.SortNewestFirst | src/components/admin/dashboard-client.tsx:250 | the sort yields a permutation of its input ordered by `requestDate`, descending |
| DashboardClient.FilteredSubmissions | src/components/admin/dashboard-client.tsx:242-251 | the filtered list is newest-first, a sub-multiset of the submissions, holds every matching entry as often as the list does, and an entry is in it exactly when it is in the list and matches |
| DashboardClient.NoFilterListsEverything | src/components/admin/dashboard-client.tsx:242-251 | with an empty search and both filters on 'all', every submission is listed |
| DashboardClient.PageItems | src/components/admin/dashboard-client.tsx:255-257 | a page has at most `itemsPerPage` entries |
| DashboardClient.JsSlice | src/components/admin/dashboard-client.tsx:257 | `slice` never lengthens and only takes elements of the list; for 0 <= start <= end <= length it is the contiguous run from start to end, and it is empty when end <= start |
| DashboardClient.PageInRange | src/components/admin/dashboard-client.tsx:254-257 | for a page between 1 and `totalPages`, the slice is the contiguous run that starts at `(page-1)*itemsPerPage` |
| DashboardClient.PagesCoverList | src/components/admin/dashboard-client.tsx:254-257 | pages 1 to `totalPages`, read in turn, concatenate to the whole filtered list |
| DashboardClient.PagesPrefix | src/components/admin/dashboard-client.tsx:254-257 | the first k pages concatenate to the first `k*itemsPerPage` entries |
| DashboardClient.PageZeroIsEmpty | src/components/admin/dashboard-client.tsx:255-257 | page 0 slices from a negative start to 0 and shows nothing |
| DashboardClient.Dashboard.HandlePageChange | src/components/admin/dashboard-client.tsx:259-261 | the current page becomes the page asked for |
| DashboardClient.Dashboard.HandlePageInput | src/components/admin/dashboard-client.tsx:661-666 | a typed page is taken exactly when it parses to a number between 1 and `totalPages`; anything else keeps the page |
| DashboardClient.Dashboard.HandleItemsPerPageChange | src/components/admin/dashboard-client.tsx:263-266 | choosing a page size from 10, 20, 50 or 100 sets it, resets to page 1, and the page shown is then the first slice of that size (also lines 624-627) |
| DashboardClient.Dashboard.SetSearchTerm | src/components/admin/dashboard-client.tsx:242-251 | the search term becomes the typed text |
| DashboardClient.Dashboard.SetFilters | src/components/admin/dashboard-client.tsx:242-251 | the status and reseller filters become the chosen values |
| DashboardClient.Dashboard.constructor | src/components/admin/dashboard-client.tsx:71-96 | the initial state: the given list, empty search, both filters 'all', page 1 of 10, nothing selected, no delete target |
| DashboardClient.CountStatus | src/components/admin/dashboard-client.tsx:271-273 | a status count is at most the number of submissions |
| DashboardClient.StatusCountsPartition | src/components/admin/dashboard-client.tsx:270-273 | the Successful, Pending and Canceled counts add up to the total |
| DashboardClient.StatsOf | src/components/admin/dashboard-client.tsx:269-283 | the total is the list length; the successful, pending and canceled counts are the number of entries with that status and add up to the total; the success rate is 100 × successful / total, 0 for an empty list, so it lies in [0,100] |
| DashboardClient.RatioPercent | src/components/admin/dashboard-client.tsx:274 | a part of a non-zero whole, as a percentage, is exactly 100 × part / whole, lies in [0,100] and is 100 for the whole |
| Submissions.WholeDays | src/components/admin/dashboard-client.tsx:818 | `differenceInDays` truncates toward zero: the whole days lie between 0 and the difference, less than a day from it |
| Submissions.DifferenceInDays | src/components/admin/dashboard-client.tsx:818 | the whole days between two instants: non-negative with at most a day's remainder when the later instant is later, non-positive with the remainder on the other side otherwise (also lines 912, 1018-1019) |
| Submissions.WholeDaysMonotone | src/components/admin/dashboard-client.tsx:818 | a larger difference never gives fewer whole days (also lines 1018-1019) |
| Submissions.DifferenceInDaysNegativeIff | src/components/admin/dashboard-client.tsx:822 | the whole-day difference is negative exactly when the end lies a full day or more in the past (also lines 912) |
| Submissions.DifferenceInDaysAtMostIff | src/components/admin/dashboard-client.tsx:836 | the whole-day difference is at most k exactly when less than k+1 full days remain |
| DashboardClient.ExpiryDisplay | src/components/admin/dashboard-client.tsx:813-869 | N/A exactly when the end date is absent or the status is not Successful; with an instant, Expired (with that end date) exactly when it passed a full day or more ago, expiring soon exactly when it lies less than a day past and less than 8 days ahead, showing `differenceInDays` (0 to 7), the hours as JavaScript's `%` of whole hours by 24 and the end date, and Active otherwise with more than 7 days and the end date; for 'unlimited' the render throws |
| DashboardClient.UnlimitedEndThrows | src/components/admin/dashboard-client.tsx:816-865 | a Successful submission ending 'unlimited' makes the expiry cell throw as written |
| DashboardClient.IntendedExpiryDisplay | src/components/admin/dashboard-client.tsx:813-869 | the corrected cell shows Unlimited exactly for a Successful 'unlimited' end, and otherwise what the cell shows as written, which then never throws |
| DashboardClient.ExpiringSoonSplitsHours | src/components/admin/dashboard-client.tsx:818-845 | when 0 to 8 days remain, the shown days and hours (0 to 23) add up to the whole hours left |
| DashboardClient.JustExpiredShowsExpiringSoon | src/components/admin/dashboard-client.tsx:818-836 | an end less than a day past still shows "0 days" expiring soon, with zero or negative hours |
| DashboardClient.RenewButtonMatchesExpired | src/components/admin/dashboard-client.tsx:910-914 | for a Successful submission the Renew button appears exactly when the expiry column says Expired, both as written and in the corrected cell (also lines 822) |
| DashboardClient.ShowsRenewButton | src/components/admin/dashboard-client.tsx:912 | the Renew button shows exactly for a dated end a full day or more before now (also lines 910-914) |
| DashboardClient.RenewButtonIgnoresStatus | src/components/admin/dashboard-client.tsx:910-914 | a Canceled submission a day past its end shows the Renew button while its expiry column says N/A (also lines 814) |
| DashboardClient.RenewalButton.constructor | src/components/admin/dashboard-client.tsx:871-875 | the button starts with its dialog closed and one month |
| DashboardClient.RenewalButton.OpenDialog | src/components/admin/dashboard-client.tsx:921 | the Renew button opens the dialog |
| DashboardClient.RenewalButton.SetMonthsInput | src/components/admin/dashboard-client.tsx:956 | the months input takes the parsed number, or 1 when it parses to 0 or NaN |
| Submissions.RenewalMonthsFromInput | src/components/admin/dashboard-client.tsx:956 | `parseInt(v) \|\| 1` is never 0, keeps any non-zero number, and is 1 for 0 or NaN |
| DashboardClient.RenewalButton.HandleRenew | src/components/admin/dashboard-client.tsx:877-908 | without an end date nothing is called; otherwise one `updateSubmissionStatus(id, 'Successful', months)` call with the submission's id and the months entered; a returned record closes the dialog and resets the months to 1; null or a throw leaves both |
| Submissions.ClampPercent | src/components/admin/dashboard-client.tsx:1020 | `min(100, max(0, x))` lies in [0,100], is `x` inside the range, 0 below and 100 above |
| Submissions.ClampPercentMonotone | src/components/admin/dashboard-client.tsx:1020 | clamping keeps order |
| DashboardClient.RenewalProgress | src/components/admin/dashboard-client.tsx:1009-1020 | N/A unless Successful with an end date; a percentage lies in [0,100]; NaN exactly for 'unlimited' or a zero-day window at zero elapsed days |
| DashboardClient.RenewalProgressMonotone | src/components/admin/dashboard-client.tsx:1018-1020 | with a window of at least a day, progress never decreases as time passes |
| DashboardClient.RenewalProgressFullAtEnd | src/components/admin/dashboard-client.tsx:1018-1020 | with a window of at least a day, progress is 100 from the end date on |
| DashboardClient.ZeroLengthWindow | src/components/admin/dashboard-client.tsx:1018-1020 | when end and request date lie less than a day apart (zero whole days), the progress is 100 once a full day has elapsed since the request, 0 a full day before it, and NaN (0/0) in between |
| DashboardClient.ShownPercent | src/components/admin/dashboard-client.tsx:1036 | `toFixed(0)` of a value in [0,100] is the whole number nearest to it, halves rounding up |
| DashboardClient.ProgressColorOf | src/components/admin/dashboard-client.tsx:1022-1026 | red only for a value of at least 90, yellow only for 75 up to 90, and green exactly for NaN or less than 75; ColorUsesUnroundedValue sets it against the shown label |
| DashboardClient.ColorUsesUnroundedValue | src/components/admin/dashboard-client.tsx:1022-1036 | for every value in [0,100], the label shows at least 90% while the bar is not red exactly for values in [89.5, 90), and shows 75% to 89% while the bar is not yellow exactly for [74.5, 75); a red bar always shows at least 90% and a yellow one 75% to 90% |
| ExpiredAccounts.DaysLeft | src/components/admin/expired-accounts.tsx:47 | fractional days left are negative, zero, at most 7 or at least 30 exactly when the millisecond difference is (also lines 110, 206) |
| ExpiredAccounts.BucketsDisjoint | src/components/admin/expired-accounts.tsx:43-48 | no account is both expired and expiring soon |
| ExpiredAccounts.CountsAsExpired | src/components/admin/expired-accounts.tsx:43 | an account counts as expired exactly when it has a dated end whose days-left value is negative (also lines 112) |
| ExpiredAccounts.CountsAsExpiringSoon | src/components/admin/expired-accounts.tsx:44-49 | an account counts as expiring soon exactly when its dated end is after now and at most seven days of milliseconds away |
| ExpiredAccounts.ExpiredOf | src/components/admin/expired-accounts.tsx:43 | the Expired filter keeps exactly the accounts whose end instant is before now (also lines 281) |
| ExpiredAccounts.ExpiringSoonOf | src/components/admin/expired-accounts.tsx:44-49 | the Expiring Soon filter keeps exactly the accounts with 0 < days left <= 7 (also lines 325-330) |
| ExpiredAccounts.CountersBounded | src/components/admin/expired-accounts.tsx:42-51 | the two counters add up to at most the number of accounts |
| ExpiredAccounts.ExpiredTabGrowsOverTime | src/components/admin/expired-accounts.tsx:43 | at a later instant the Expired tab never has fewer rows |
| ExpiredAccounts.NoDateInNoBucket | src/components/admin/expired-accounts.tsx:43-49 | an absent or 'unlimited' end date is in neither counter nor either tab |
| ExpiredAccounts.StatusBadge | src/components/admin/expired-accounts.tsx:106-134 | no badge without an end date; Expired exactly before now; Expiring Soon exactly from now to 7 days ahead; Active beyond that and for 'unlimited' |
| ExpiredAccounts.BadgeAgreesWithBuckets | src/components/admin/expired-accounts.tsx:43-48 | the Expired badge matches the expired counter, and the Expiring Soon badge matches its counter except at the end instant itself (also lines 106-134) |
| ExpiredAccounts.EndInstantIsUncounted | src/components/admin/expired-accounts.tsx:43-48 | an account ending exactly now is in neither counter, yet its badge says Expiring Soon (also lines 120) |
| ExpiredAccounts.RemainingProgress | src/components/admin/expired-accounts.tsx:207 | the bar lies in [0,100], is 0 once the end has passed and 100 with 30 or more days left (also lines 334) |
| ExpiredAccounts.RemainingProgressMonotone | src/components/admin/expired-accounts.tsx:207 | a later end never gives a shorter bar (also lines 334) |
| ExpiredAccounts.RowFor | src/components/admin/expired-accounts.tsx:204-262 | an All-tab row is for that account with its status badge; its end and progress cells say 'Unlimited' exactly for 'unlimited'; for a dated end they show that date and a bar of the remaining 30-day progress in [0,100] tinted like the row; the row is red exactly when counted expired and yellow exactly when counted expiring soon |
| ExpiredAccounts.TintFor | src/components/admin/expired-accounts.tsx:213-214 | a row is tinted red exactly when counted expired and yellow exactly when counted expiring soon (also lines 240-241) |
| ExpiredAccounts.WithEndDate | src/components/admin/expired-accounts.tsx:202-203 | the accounts kept for the All tab all have an end date and are no more than the list |
| ExpiredAccounts.WithEndDateCounts | src/components/admin/expired-accounts.tsx:202-203 | an account is kept as often as it occurs when it has an end date, and never otherwise |
| ExpiredAccounts.WithEndDateConcat | src/components/admin/expired-accounts.tsx:202-203 | skipping accounts keeps the order of the rest |
| ExpiredAccounts.AllTabRows | src/components/admin/expired-accounts.tsx:202-203 | the All tab has, in list order, exactly one row per account with an end date, namely that account's row, and none for the others |
| ExpiredAccounts.DialogEndFor | src/components/admin/expired-accounts.tsx:380-399 | the dialog details are hidden without a selected account with an end date, say 'Unlimited' exactly for 'unlimited', and for a dated end say "Expired on" that end date |
| ExpiredAccounts.ExpiredAccountsView.constructor | src/components/admin/expired-accounts.tsx:28-34 | the screen starts empty, with zero counters, nothing selected, the dialog closed and one month |
| ExpiredAccounts.ExpiredAccountsView.FetchExpiredAccounts | src/components/admin/expired-accounts.tsx:37-62 | a fetched list replaces the accounts and both counters are recounted at that instant, so each tab has as many rows as its counter; a failed fetch changes nothing |
| ExpiredAccounts.ExpiredAccountsView.SelectForRenewal | src/components/admin/expired-accounts.tsx:250-253 | Renew selects the account and opens the dialog |
| ExpiredAccounts.ExpiredAccountsView.CancelDialog | src/components/admin/expired-accounts.tsx:437 | Cancel closes the dialog |
| ExpiredAccounts.ExpiredAccountsView.SetMonthsInput | src/components/admin/expired-accounts.tsx:410 | the months input falls back to 1 when it parses to 0 or NaN |
| ExpiredAccounts.ExpiredAccountsView.HandleRenew | src/components/admin/expired-accounts.tsx:71-104 | without a selected account with an end date nothing is called; otherwise one `updateSubmissionStatus(id, 'Successful', months)` call with the selected id and the months entered; a returned record refetches, closes the dialog, clears the selection and resets the months to 1; null or a throw changes nothing |
| Financial.LeadingDigits | src/app/admin/financial/page.tsx:444 | the scan stops at the first non-digit |
| Financial.AmountPatternMatchesRegex | src/app/admin/financial/page.tsx:444 | the scanner accepts exactly the strings matching `^\d*\.?\d{0,2}$` |
| Financial.PatternGivesRegex | src/app/admin/financial/page.tsx:444 | every string the scanner accepts matches the regular expression |
| Financial.RegexGivesPattern | src/app/admin/financial/page.tsx:444 | every match of the regular expression is accepted by the scanner |
| Financial.EmptyAmountMatches | src/app/admin/financial/page.tsx:444 | the empty field is accepted |
| Financial.AcceptedAmountShape | src/app/admin/financial/page.tsx:444 | an accepted amount has one dot at most and at most two digits after it |
| Financial.ParseAmountCents | src/app/admin/financial/page.tsx:138 | `parseFloat` of an accepted amount is NaN exactly for "" and "." |
| Financial.FractionCents | src/app/admin/financial/page.tsx:138 | up to two decimals are fewer than 100 cents |
| Financial.FormatCentsRoundTrip | src/app/admin/financial/page.tsx:138 | every cent amount written with two decimals is accepted by the field and parses back to that amount (also lines 444) |
| Financial.ErrorsFor | src/app/admin/financial/page.tsx:134-164 | the amount has no error exactly when it parses to (0, 1e9]; the method error is set exactly for an empty method; the description has no error exactly when it is not blank and at most 500 characters long; the reference error is set exactly above 100 characters |
| Financial.NoErrorsIff | src/app/admin/financial/page.tsx:134-164 | validation records no error exactly when the amount is in (0, 1e9], a method is chosen, the trimmed description is non-empty and at most 500 characters long untrimmed, and the reference is at most 100 characters |
| Text.TrimEmptyIffBlank | src/app/admin/financial/page.tsx:151-178 | `trim()` is empty exactly when the text is all whitespace |
| Text.TrimShape | src/app/admin/financial/page.tsx:174-178 | `trim()` never lengthens a string and leaves no whitespace at either end |
| Financial.FinancialPage.ValidateTransaction | src/app/admin/financial/page.tsx:134-164 | the errors become those of the form, and the result is true exactly for an acceptable form |
| Financial.TransactionFrom | src/app/admin/financial/page.tsx:169-180 | the new record carries the given id, is completed, keeps type, date, category and payment method, has the parsed amount, which lies in (0, 1e9], the trimmed non-empty description, and each of reference and notes trimmed, or absent exactly when blank |
| Financial.FinancialPage.HandleAddTransaction | src/app/admin/financial/page.tsx:166-208 | a valid form whose create succeeds is appended at the end and resets the form; an invalid form or a failed create leaves the list and form as they were |
| Financial.FinancialPage.Edit | src/app/admin/financial/page.tsx:442-446 | each input sets its own field only; the amount changes only to text the pattern accepts, so the field always holds such text (also lines 461, 473, 501, 518, 532, 546, 557) |
| Financial.FinancialPage.constructor | src/app/admin/financial/page.tsx:92-101 | the page starts with no transactions, the default form, no errors and no delete pending |
| Financial.FinancialPage.LoadTransactions | src/app/admin/financial/page.tsx:120-132 | a loaded list replaces the transactions; a failed load keeps them |
| Financial.SumOfType | src/app/admin/financial/page.tsx:210-216 | a total is 0 when no transaction has the type, and never negative when no amount is; SumOfTypeAppend, SumOfTypePermutation and IncomeExpensePartition give the rest |
| Financial.SumOfTypeAppend | src/app/admin/financial/page.tsx:210-217 | a total over two lists is the sum of their totals |
| Financial.IncomeExpensePartition | src/app/admin/financial/page.tsx:210-218 | income plus expenses is the sum of all amounts |
| Financial.PartnerProfitsOf | src/app/admin/financial/page.tsx:273-291 | net profit is income minus expenses, the partner share is exactly half of it, and income plus expenses are the two per-type totals |
| Financial.NetProfitIsSignedSum | src/app/admin/financial/page.tsx:273-291 | the net profit is the sum of the amounts with income counted positive and expenses negative, and twice the partner share is that sum |
| Financial.SumOfTypePermutation | src/app/admin/financial/page.tsx:210-216 | a total of one type depends only on which transactions are summed, not on their order |
| Financial.NetProfitAfterAppend | src/app/admin/financial/page.tsx:184-218 | appending a transaction moves the net profit by its amount, up for income and down for an expense |
| Financial.WithKeyInSplit | src/app/admin/financial/page.tsx:226 | adding an unlisted key adds exactly the transactions carrying that key (also lines 297) |
| Financial.WithKeyInCounts | src/app/admin/financial/page.tsx:226 | the key filter keeps a transaction as often as it occurs when its key is listed, and never otherwise (also lines 297) |
| Financial.SumPerKeyDistinct | src/app/admin/financial/page.tsx:225-238 | over distinct keys, the per-key sums add up to the sum over all listed keys (also lines 296-303) |
| Financial.WithKeyInNone | src/app/admin/financial/page.tsx:226 | no keys select nothing (also lines 297) |
| Financial.WithKeyInBounded | src/app/admin/financial/page.tsx:295-298 | with non-negative amounts a keyed sum is at most the total of that type, and equal when every such transaction has a listed key |
| Calendar.DaysInMonth | src/app/admin/financial/page.tsx:221-223 | a month has 28 to 31 days, 29 exactly for February of a leap year |
| Financial.MonthDates | src/app/admin/financial/page.tsx:221-223 | one date string per day of the selected month |
| Financial.MonthDatesDistinct | src/app/admin/financial/page.tsx:223-226 | the days of a month print as distinct strings |
| Calendar.FormatDayInjective | src/app/admin/financial/page.tsx:226 | two days of the same month print differently |
| Financial.DailyData | src/app/admin/financial/page.tsx:225-238 | one row per day of the month, in order, each labelled with its date |
| Financial.DailyRowIsDaySum | src/app/admin/financial/page.tsx:225-236 | the row of day d is labelled with that date and holds the income and expense totals of exactly the transactions dated that day, counted with their multiplicity |
| Financial.DailyDataAddsUpToMonth | src/app/admin/financial/page.tsx:221-238 | the daily rows add up to the income and expense of the transactions dated in that month, each counted once |
| Financial.ExpenseBreakdown | src/app/admin/financial/page.tsx:294-304 | one row per category, in the fixed category order (also lines 61-67) |
| Financial.BreakdownRowIsCategorySum | src/app/admin/financial/page.tsx:295-298 | row i holds the expense total of exactly the transactions of the i-th category, counted with their multiplicity |
| Financial.BreakdownWithinTotal | src/app/admin/financial/page.tsx:294-304 | with non-negative amounts the category totals add up to at most the total expenses, and exactly to them when every expense has a listed category (also lines 214-216) |
| Financial.RemoveTransaction | src/app/admin/financial/page.tsx:255 | delete keeps every transaction with another id, as often as it occurred, and removes every one with the id |
| Financial.RemoveTransactionSum | src/app/admin/financial/page.tsx:255 | a delete lowers each total by exactly the amounts of the removed transactions (also lines 210-217) |
| Financial.FinancialPage.HandleDeleteTransaction | src/app/admin/financial/page.tsx:252-270 | a successful delete removes exactly that id; a failure keeps the list; the dialog closes and the pending id clears either way |
| Financial.FinancialPage.RequestDelete | src/app/admin/financial/page.tsx:755-756 | the trash button records the id and opens the dialog |
| Financial.FinancialPage.ConfirmDelete | src/app/admin/financial/page.tsx:784 | confirming deletes the pending id when there is a non-empty one, and does nothing otherwise |
| Calendar.AddMonths | src/app/api/admin/import-customers/route.ts:40-42 | `setMonth(getMonth()+n)` moves the month index by n with the year carried, and a day past the month's end rolls into the next month |
| Calendar.AddMonthsKeepsEarlyDay | src/app/api/admin/import-customers/route.ts:42 | a day up to the 28th is kept and the month index moves by exactly n |
| Calendar.AddZeroMonths | src/app/api/admin/import-customers/route.ts:42 | advancing by zero months gives the same date |
| Calendar.DateFromMonthIndex | src/app/api/admin/import-customers/route.ts:42 | a valid date is determined by its month index and day |
| Calendar.EpochIsDayZero | src/app/api/admin/import-customers/route.ts:42 | the day number of 1970-01-01 is 0 |
| Calendar.NextDayIsOneLater | src/app/api/admin/import-customers/route.ts:42 | the day after a valid date has the next day number, so day numbers count the Gregorian calendar without gaps or repeats |
| Calendar.MarchYearStep | src/app/api/admin/import-customers/route.ts:42 | a year counted from 1 March is 366 days long exactly when the following February has 29 days |
| ImportCustomers.EndInstant | src/app/api/admin/import-customers/route.ts:40-42 | an invalid start gives an invalid end; a valid start gives a valid end exactly when the start's date advanced by `AddMonths`, at the start's time of day, lies within ±8.64e15 ms of the epoch, and that end is then this date and time |
| ImportCustomers.YearFromNewYear | src/app/api/admin/import-customers/route.ts:40-42 | twelve months from 2024-01-01 is 2025-01-01 at the same time of day |
| ImportCustomers.FarEndIsInvalid | src/app/api/admin/import-customers/route.ts:40-42 | four million months from 2024-01-01 is past the last representable instant and gives an invalid end date |
| ImportCustomers.CountSubmitting | src/app/api/admin/import-customers/route.ts:44-63 | at most one `addSubmission` call per record |
| ImportCustomers.EmailsToSubmit | src/app/api/admin/import-customers/route.ts:44-63 | one non-empty email per submitting record |
| ImportCustomers.CountImported | src/app/api/admin/import-customers/route.ts:63-66 | the records imported are at most those submitted |
| ImportCustomers.CountNull | src/app/api/admin/import-customers/route.ts:63-66 | the records whose call resolved to null are at most those submitted |
| ImportCustomers.Step | src/app/api/admin/import-customers/route.ts:44-70 | one record extends the calls and the errors by at most one each, keeping what was there; an import needs a call and adds no error, and a record without a call adds exactly one error |
| ImportCustomers.Run | src/app/api/admin/import-customers/route.ts:44-70 | the k-th `addSubmission` call is for the k-th record with an email (none when the end date is invalid), with status Successful, both dates the start text, the shared end date, the plan, the duration, the user's id and the name or else the email as reseller; imports are the records whose call returned a record, and imports, errors and null results add up to the records |
| ImportCustomers.InvalidStartFailsEveryRow | src/app/api/admin/import-customers/route.ts:40-68 | with an invalid end date nothing is submitted and every record is an error |
| ImportCustomers.FarEndFailsEveryRow | src/app/api/admin/import-customers/route.ts:40-68 | with a start of 2024-01-01 and a duration of four million months, `toISOString` fails for every record: nothing is submitted, nothing imported, and every record is an error |
| ImportCustomers.MissingEmailSkipsRow | src/app/api/admin/import-customers/route.ts:46-49 | a record without an email adds one error and no call, and leaves the imports as they were |
| ImportCustomers.AllSucceed | src/app/api/admin/import-customers/route.ts:44-70 | when every record has an email and every call returns a record, all are imported and there is no error |
| ImportCustomers.ImportRows | src/app/api/admin/import-customers/route.ts:36-70 | the loop's counts, errors and calls are those of `Run` over all the records |
| ImportCustomers.Post | src/app/api/admin/import-customers/route.ts:7-87 | 500 when the user lookup, form read or CSV parse throws; 401 for no user or a non-admin, before the form is read; 400 for a missing file, plan or start date or a duration parsing to 0 or NaN; otherwise the counts of `Run`, with `errors` omitted exactly when there are none |
| DashboardHeader.HeaderLineIsJoinedHeaders | src/components/admin/dashboard-header.tsx:20-22 | the first line is the five headers joined by commas |
| DashboardHeader.RowFields | src/components/admin/dashboard-header.tsx:23-29 | a row has five fields in the order email, name, plan, start date, end date; the name field is the name, and empty exactly when the name is missing or empty; the dates are printed as `yyyy-MM-dd` |
| DashboardHeader.RowLines | src/components/admin/dashboard-header.tsx:23-29 | one row line per customer, in input order |
| DashboardHeader.CsvContent | src/components/admin/dashboard-header.tsx:20-30 | the text exists exactly when every start and end date is a valid date, whatever its year |
| Calendar.EraYear | src/components/admin/dashboard-header.tsx:27-28 | `yyyy` prints a positive year as itself and any year as at least 1 |
| Calendar.EraYearsPrintAlike | src/components/admin/dashboard-header.tsx:27-28 | a year y of 1 or more and the year 1 − y print the same, so year 0 prints as 0001 |
| DashboardHeader.PrintedDateHasNoSeparators | src/components/admin/dashboard-header.tsx:27-28 | a `yyyy-MM-dd` date contains neither a comma nor a newline |
| DashboardHeader.RowSplitsIntoFields | src/components/admin/dashboard-header.tsx:23-29 | splitting a row on commas gives back its five fields in order when no field holds a comma |
| DashboardHeader.LinesAreHeaderThenRows | src/components/admin/dashboard-header.tsx:20-30 | splitting the text on newlines gives the header and then one line per customer in order, when no field holds a newline |
| DashboardHeader.LinesHaveNoNewline | src/components/admin/dashboard-header.tsx:20-30 | neither the header nor any row holds a newline when no field does |
| DashboardHeader.HeaderLineHasNoNewline | src/components/admin/dashboard-header.tsx:20-22 | the header line holds no newline |
| DashboardHeader.RowsHaveNoNewline | src/components/admin/dashboard-header.tsx:23-29 | no row line holds a newline when no field does |
| DashboardHeader.RowLineHasNoNewline | src/components/admin/dashboard-header.tsx:23-29 | one customer's row holds no newline when none of its fields does |
| Text.SplitJoin | src/components/admin/dashboard-header.tsx:29-30 | splitting a join on its separator gives back the parts when no part contains the separator |
| SidebarNav.IsActive | src/components/layout/sidebar-nav.tsx:36 | an item is active only on paths that start with its href; ExactPathIsActive, RootIsActiveOnlyOnRoot and OtherItemsMatchPrefixes give the exact set |
| SidebarNav.ExactPathIsActive | src/components/layout/sidebar-nav.tsx:36 | an item is active on its own path |
| SidebarNav.RootIsActiveOnlyOnRoot | src/components/layout/sidebar-nav.tsx:36 | the '/' item is active exactly on '/' |
| SidebarNav.OtherItemsMatchPrefixes | src/components/layout/sidebar-nav.tsx:36 | any other item is active exactly on the paths that start with its href |
| SidebarNav.PrefixIsNotSegmentAware | src/components/layout/sidebar-nav.tsx:36 | '/admin' is active on '/administrator' |
| SidebarNav.KeepKnownIcons | src/components/layout/sidebar-nav.tsx:28-34 | the shown items are exactly those whose icon exists |
| SidebarNav.KeepKnownIconsConcat | src/components/layout/sidebar-nav.tsx:28-34 | dropping items keeps the order of the rest |
| SidebarNav.LinkFor | src/components/layout/sidebar-nav.tsx:36-41 | a link goes to '#' exactly for a disabled item (or an item whose href is '#') and otherwise to the item's href; it keeps the title, label and disabled flag, and is highlighted exactly when the item is active |
| SidebarNav.RenderNav | src/components/layout/sidebar-nav.tsx:19-70 | nothing for a missing or empty list; otherwise one link per shown item, in order |
| SidebarNav.UnknownIconsGiveEmptyMenu | src/components/layout/sidebar-nav.tsx:22-34 | a non-empty list whose icons are all unknown still renders the menu, with no links |

## Findings

| source | as written | input that shows it | evidently intended | confidence | as-written member | corrected member |
|---|---|---|---|---|---|---|
| src/components/admin/dashboard-client.tsx:816-865 | the expiry cell parses 'unlimited' into an invalid date, both day tests fail, and the Active branch calls `format` on it, which throws | a Successful submission whose end date is 'unlimited' | an "Unlimited" cell, as the expired-accounts screen shows for the same value | medium, not executed | DashboardClient.UnlimitedEndThrows | DashboardClient.IntendedExpiryDisplay |

## Left out

- Rendering, toasts, loading and dialog-open flags other than those the
  handlers' contracts name, animations, router refresh, and the file
  download in the export button (`document`, `Blob`, the link click).
- Asynchronous interleaving: each handler is one atomic step with its
  backend outcomes given in advance. The 60-second polling of the expired
  accounts and double submissions are not modelled.
- Backend collaborators (`updateSubmission`, `updateSubmissionStatus`,
  `deleteUserAccount`, `getExpiringSubmissions`, `getTransactions`,
  `createTransaction`, `deleteTransaction`, `addSubmission`,
  `getCurrentUser`, `getApprovedCustomerEmails`, the CSV parser) are
  outcomes passed as parameters. The new end date a renewal computes lives
  inside `updateSubmissionStatus` and is not modelled, and neither is the
  dialogs' "new period" preview.
- `revalidatePath` after an import is a cache side effect and is left out.
- Date parsing and printing (`parseISO`, `new Date(string)`, `format`,
  `formatDate`, `toISOString`), time zones and daylight saving: an instant
  is an integer number of milliseconds, a parsed start date is a civil date
  with a time of day, and a stored date string is taken as already parsed.
- `minutesLeft` in the expiry column is computed but never shown, so it is
  left out.
- Floating-point arithmetic: amounts are whole cents and percentages exact
  reals. `toFixed` and `toLocaleString` formatting are left out.
- The payment-method distribution chart (page.tsx:240-249) divides by a
  total that can be zero and only feeds a chart, so it is left out.
- The transaction id built from the clock and a random string
  (page.tsx:170) is the `newId` parameter.
- Text.ToLower: folds only ASCII A–Z, not the full Unicode case mapping of
  `toLowerCase`; string lengths count characters, not UTF-16 code units.
- The `maxLength` and `min`/`max` attributes of the inputs are browser
  behaviour and are not modelled.
- DashboardClient.SortNewestFirst: proved sorted and a permutation of its
  input; that `Array.prototype.sort` is stable is not claimed.
- DashboardClient.Dashboard.ApplyProfileNameFormState: models only the
  state update of the profile-name effect; the server action that produces
  the form state is a parameter.
- ImportCustomers.Post: a throw while reading the form is modelled as
  `form == None`, and a throw while reading or parsing the file as
  `records == None`; both give the 500 response.
- SidebarNav.RenderNav: the icon lookup is a set of known icon names.
- Financial.ExpenseBreakdown: the `percentage` field (page.tsx:302) is not
  modelled. It is a floating-point share for display only, and is NaN or
  Infinity when the total expenses are 0.
- A stored end date other than 'unlimited' is taken as a valid instant;
  other unparsable strings are not modelled.
- DashboardClient.ShownPercent: models `toFixed(0)` only on [0,100], the
  range the clamp guarantees, and on exact reals rather than doubles.
- ImportCustomers.EndInstant: the time-value range is checked on the local
  date and time as if it were UTC; the local time-zone offset, which moves
  the edge of the range by some hours, is not modelled.
