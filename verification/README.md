# Warehouse rules of the WMS front end, in Dafny

The application is an Angular warehouse-management front end over a hosted
Postgres database. This project models the business rules underneath its
forms and lists as pure Dafny functions over immutable records:

- stock movements: the stock update an inward or outward transaction causes,
  the transaction summary, the paged transaction listing, and the outward
  form's stock check;
- stock statistics: the inventory statistics, the per-item stock badge and
  the dashboard figures;
- document numbers `IND-YYYY-NNN` and `GP-YYYY-NNNN`;
- the purchase-indent workflow: creation with line totals, the
  auto-approval decision of the form, listing with the staff-only scope,
  approve / reject / status update, and deletion;
- gate passes: creation and the verification decision at the gate;
- role visibility: the `appRoleBased` directive and the admin-only scope of
  the gate-pass list.

Database reads are function inputs (the table as a sequence, newest first
where the query orders by `created_at` descending). Database writes are
returned tables. Every call that can fail has a boolean parameter saying
whether it succeeded. The clock, the signed-in user and fresh row ids are
parameters too. Money is an integer in minor units.

Files follow the source: one module per core service or component
(`inout_service.dfy`, `indent_service.dfy`, `gatepass_verify.dfy`, ...).
There is one model module per entity file under `core/models`. Shared
helpers live in `Common` (options, filters, counts and sums), `Text`
(lower-casing, trimming, `includes`, `padStart`, decimal digits), `Time`,
`Paging` and `Numbering`.

## Model

| member | source | states |
|---|---|---|
| InoutService.NewQuantity | src/app/features/inwards-outwards/services/inout.service.ts:91-102 | The stock written back is never negative. Inward adds, outward subtracts and both clamp at 0. Adjustment and transfer write back the current stock, also clamped at 0. |
| InoutService.OutwardClamp | src/app/features/inwards-outwards/services/inout.service.ts:98-102 | An outward removes exactly its quantity if and only if it does not exceed the stock. Otherwise it leaves 0. |
| InoutService.InwardThenOutward | src/app/features/inwards-outwards/services/inout.service.ts:96-99 | An inward followed by an outward of the same quantity restores the stock. |
| InoutService.NeutralTypesKeepStock | src/app/features/inwards-outwards/services/inout.service.ts:94-100 | Adjustments and transfers leave a non-negative stock unchanged. |
| InoutService.SyncInventoryStock | src/app/features/inwards-outwards/services/inout.service.ts:76-116 | No change when the item id is missing or empty, when the quantity is 0, when the lookup does not find exactly one row, or when the fetch or the update query fails. Otherwise the matching row gets the new stock. No other row and no other field changes. |
| InoutService.UniqueIdCount | src/app/features/inwards-outwards/services/inout.service.ts:83-87 | With unique ids, the single-row lookup by an existing id succeeds and returns that row. |
| InoutService.SyncTotalQuantity | src/app/features/inwards-outwards/services/inout.service.ts:94-108 | A successful sync on a known item changes the total stock by the new level minus the old one. |
| InoutService.PeriodLabel | src/app/features/inwards-outwards/services/inout.service.ts:60 | The period is "All Time" exactly when a date bound is missing. Otherwise it starts with the from-date followed by " - " and the to-date. |
| InoutService.GetTransactionSummary | src/app/features/inwards-outwards/services/inout.service.ts:51-63 | Inward and outward totals sum the quantities of their rows. Adjustments and transfers are counted. |
| InoutService.SummaryAppend | src/app/features/inwards-outwards/services/inout.service.ts:55-59 | The summary is additive over batches of rows. |
| InoutService.SummaryNeutralRow | src/app/features/inwards-outwards/services/inout.service.ts:56-59 | An adjustment or transfer adds 1 to the counts and nothing to either quantity total. |
| InoutService.GetTransactionListPaged | src/app/features/inwards-outwards/services/inout.service.ts:119-161 | A failed query gives no rows and total 0. The total counts every matching row. A page has at most pageSize rows, all matching, and the rows are the consecutive matches starting at match pageIndex*pageSize. The page is full while matches remain, then holds the remainder, then nothing. |
| InoutService.ReadPagesAreFilter | src/app/features/inwards-outwards/services/inout.service.ts:148-151 | Reading pages 0..k-1 yields the first k*pageSize matching rows in order, none skipped and none repeated. |
| Paging.PageRange | src/app/features/inwards-outwards/services/inout.service.ts:151 | The inclusive range has exactly pageSize slots and starts at a non-negative row. |
| Paging.PagesContiguous | src/app/features/inwards-outwards/services/inout.service.ts:151 | Each page starts right after the previous one ends. |
| Paging.PagesDisjoint | src/app/features/inwards-outwards/services/inout.service.ts:151 | Distinct pages never overlap. |
| Paging.PagesTile | src/app/features/inwards-outwards/services/inout.service.ts:149-151 | The first k pages concatenate to the first k*pageSize rows. |
| InventoryService.GetInventoryStats | src/app/features/inventory/services/inventory.service.ts:112-122 | The total is the number of items. Low stock (0 < q <= min) and out of stock (q = 0) are disjoint, so together they are at most the total. Active plus inactive plus discontinued is the total. The value is the sum of quantity times price. |
| InventoryService.StatusPartition | src/app/features/inventory/services/inventory.service.ts:120-121 | Every item is counted under exactly one of the three statuses. |
| InventoryService.StatsAppend | src/app/features/inventory/services/inventory.service.ts:116-121 | Every counter and the value are additive over lists. |
| InventoryService.StatsValueNonNegative | src/app/features/inventory/services/inventory.service.ts:119 | Within the item form's bounds, the stock value is never negative. |
| InventoryList.GetStockStatus | src/app/features/inventory/components/inventory-list/inventory-list.component.ts:74-78 | Every item gets exactly one label. "Out of Stock" iff q = 0. "Low Stock" iff q != 0 and q <= min. "In Stock" otherwise. |
| InventoryList.GetStockStatusClass | src/app/features/inventory/components/inventory-list/inventory-list.component.ts:80-84 | The red, yellow and green classes go with the out-of-stock, low and in-stock labels respectively, in both directions. |
| InventoryList.StatusAgreesWithStats | src/app/features/inventory/components/inventory-list/inventory-list.component.ts:74-78 | For q >= 0, the "Low Stock" label holds iff the statistics count the item as low. "Out of Stock" agrees with the statistics for every q. |
| InventoryList.BadgeCountsMatchStats | src/app/features/inventory/components/inventory-list/inventory-list.component.ts:75-76 | Counting badges over a list with non-negative stock gives the statistics' low and out-of-stock counts. |
| Dashboard.AccumulateTotals | src/app/features/dashboard/components/dashboard/dashboard.component.ts:133-149 | The loop computes inward value, outward value and today's value, each a sum of quantity times price over its rows. Adjustments and transfers add to neither type total. |
| Dashboard.TotalsStep | src/app/features/dashboard/components/dashboard/dashboard.component.ts:139-149 | The totals over the rows plus one more row are the totals so far with that row's value added to its type's total and, when created today, to today's total. |
| Dashboard.RunningTotalsAreSums | src/app/features/dashboard/components/dashboard/dashboard.component.ts:133-149 | Adding the rows one at a time, as the loop does, gives the inward, outward and today's filtered sums. |
| Dashboard.LoadDashboardData | src/app/features/dashboard/components/dashboard/dashboard.component.ts:111-162 | totalItems is the item count. lowStockItems counts q <= min. The preview is the first min(5, low) of those items, in order. The pending counters are 0. totalValue equals the statistics' value. A successful read makes the inward, outward and today totals the sums over the 100 newest transactions. A failed read leaves them at 0. |
| Dashboard.LowStockIsLowPlusOut | src/app/features/dashboard/components/dashboard/dashboard.component.ts:128-129 | Within the form bounds, the dashboard's low-stock figure is the statistics' low plus out-of-stock. |
| Dashboard.LowStockPreview | src/app/features/dashboard/components/dashboard/dashboard.component.ts:128-130 | The preview holds min(5, low) items, and item i is the i-th item at or below its minimum, in list order. |
| Dashboard.RecentTransactions | src/app/features/dashboard/components/dashboard/dashboard.component.ts:115 | The unfiltered first page of 100 that the dashboard reads is the newest min(100, n) transactions of the table, and nothing when the query fails. |
| Dashboard.RecentTotals | src/app/features/dashboard/components/dashboard/dashboard.component.ts:115-153 | The inward, outward and today totals are the filtered sums over the newest min(100, n) transactions, and all 0 when the query fails. |
| Dashboard.OlderRowsIgnored | src/app/features/dashboard/components/dashboard/dashboard.component.ts:115 | Transactions past the newest 100 never change the dashboard totals. |
| Text.PadStart | src/app/features/purchase-indents/services/indent.service.ts:20 | The padded string ends with the input and is filled on the left. It is as long as the width or the input, whichever is longer, so it is never truncated. |
| Numbering.SerialDigits | src/app/features/purchase-indents/services/indent.service.ts:19-20 | The padded serial is all digits and reads back as the number. It is exactly `width` long iff the number is below 10^width, and it is never truncated. |
| Numbering.DocumentNumberRoundTrip | src/app/features/purchase-indents/services/indent.service.ts:21 | `PREFIX-YYYY-serial` parses back to the year and serial. |
| Numbering.DocumentNumberInjective | src/app/features/gate-pass/services/gatepass.service.ts:21 | Different year or serial gives different numbers. |
| IndentService.GenerateIndentNumberAsWritten | src/app/features/purchase-indents/services/indent.service.ts:12-22 | The number reads back as the year and one more than the indents created from 1 January 00:00 to 31 December 00:00. When the count fails, the serial is 1. |
| IndentService.GenerateIndentNumberCorrected | src/app/features/purchase-indents/services/indent.service.ts:12-22 | With the count corrected to the calendar year, the number reads back as the year and one more than the indents created that year. When the count fails, the serial is 1. |
| IndentService.WindowAsWrittenIsYearLessLastDay | src/app/features/purchase-indents/services/indent.service.ts:16-17 | A valid instant is in the query's window iff it is in the year and not on 31 December after midnight. |
| IndentService.AsWrittenAgreesOffLastDay | src/app/features/purchase-indents/services/indent.service.ts:14-21 | When no indent was created on 31 December of the year after midnight, the number as written equals the corrected one. |
| IndentService.IndentSerialWidthHolds | src/app/features/purchase-indents/services/indent.service.ts:20 | The serial has at least 3 digits, and exactly 3 while the number is at most 999. |
| IndentService.CountThisYearIsWindow | src/app/features/purchase-indents/services/indent.service.ts:17-18 | Counting by calendar year equals counting the half-open window from 1 January to the next 1 January. |
| IndentService.DecemberIndentRepeatsNumber | src/app/features/purchase-indents/services/indent.service.ts:14-21 | As written, an indent created on 31 December after midnight is not counted, so the next number repeats. |
| IndentService.NextNumberAdvances | src/app/features/purchase-indents/services/indent.service.ts:14-21 | With the corrected count, any new indent of the year changes the next number. |
| IndentService.LineTotal | src/app/features/purchase-indents/services/indent.service.ts:40 | A line total is absent iff the price is missing or 0. Otherwise it is quantity times price. |
| IndentService.TotalAmountIsPriceSum | src/app/features/purchase-indents/services/indent.service.ts:40-42 | total_amount equals the sum of quantity times price over all lines. Lines without a price lose nothing. |
| IndentService.CreateIndent | src/app/features/purchase-indents/services/indent.service.ts:25-65 | A failed insert changes nothing. Otherwise the new indent is appended, always pending with no approver, with the number from the count as written and the price sum. Title, department, priority, required date, notes and requester are copied from the request. Items are appended linked to the new id. A failed item insert reports failure but keeps the indent. |
| IndentService.CreateIgnoresRequestedApproval | src/app/features/purchase-indents/services/indent.service.ts:44-54 | The requested status, approver, approval time and assignee have no effect on what is stored. |
| IndentService.CreatePreservesNoOrphans | src/app/features/purchase-indents/services/indent.service.ts:56-62 | Creation never leaves an item pointing at a missing indent. |
| IndentService.ListRange | src/app/features/purchase-indents/services/indent.service.ts:68-69 | The list range is page (page - 1) of pageSize rows. |
| IndentService.DefaultRange | src/app/features/purchase-indents/services/indent.service.ts:67-69 | With the default query the range is rows 0..19. |
| IndentService.ListIndents | src/app/features/purchase-indents/services/indent.service.ts:67-90 | A failed query is an error. Otherwise every row matches the search, status and priority, and the total counts all matches. For staff with a user id, every row was requested by that user. The rows are the consecutive matching indents starting at match from, and the page holds min(pageSize, matches - from) rows, or none past the end. |
| IndentService.PageFiltersNothing | src/app/features/purchase-indents/services/indent.service.ts:67-85 | The page number changes which rows are read, never which indents match. |
| IndentService.ListPagesAreFilter | src/app/features/purchase-indents/services/indent.service.ts:67-74 | Reading pages 1..k yields the first k*pageSize matching indents in order, none skipped and none repeated. |
| IndentService.NonStaffUnfiltered | src/app/features/purchase-indents/services/indent.service.ts:83-85 | Unless the role is staff with a user id, the user id has no effect on the list. |
| IndentService.AllFiltersNothing | src/app/features/purchase-indents/services/indent.service.ts:79-80 | Status or priority 'all' lists the same as no status or priority. |
| IndentService.Approve | src/app/features/purchase-indents/services/indent.service.ts:101-109 | Sets approved, the approver and the time, and clears the rejection reason. Nothing else changes. |
| IndentService.Reject | src/app/features/purchase-indents/services/indent.service.ts:111-119 | Sets rejected and the reason, and clears the approver and time. Nothing else changes. |
| IndentService.LastDecisionWins | src/app/features/purchase-indents/services/indent.service.ts:101-119 | Approve after reject is a plain approve and vice versa. Each is idempotent. |
| IndentService.DecisionsIgnorePriorStatus | src/app/features/purchase-indents/services/indent.service.ts:101-119 | The prior status has no effect on approve or reject. |
| IndentService.UpdateIndentStatus | src/app/features/purchase-indents/services/indent.service.ts:149-168 | Sets the status and updated_at. 'approved' sets the time and, when given, the approver. 'rejected' stores the reason, or null when it is empty. Every other field is kept. |
| IndentService.UpdateKeepsStaleFields | src/app/features/purchase-indents/services/indent.service.ts:155-159 | Unlike approve and reject, the status update leaves an old rejection reason on approval and an old approver on rejection. |
| IndentService.UpdateIgnoresPriorStatus | src/app/features/purchase-indents/services/indent.service.ts:149-164 | The prior status has no effect on the update. |
| IndentService.UpdateWhereId | src/app/features/purchase-indents/services/indent.service.ts:161-166 | The update touches exactly the rows with the id. A failed update is an error. |
| IndentService.DeleteIndent | src/app/features/purchase-indents/services/indent.service.ts:170-186 | Items go first. A failed item delete changes nothing. A failed indent delete leaves the indent without its items. On success, neither the indent nor any of its items remain. |
| IndentService.DeletePreservesNoOrphans | src/app/features/purchase-indents/services/indent.service.ts:170-183 | Deletion never leaves an item pointing at a missing indent, even when it fails half way. |
| IndentCreate.NewItemRow | src/app/features/purchase-indents/components/indent-create/indent-create.component.ts:88-97 | A new row has quantity 1, unit 'pcs' and no price. |
| IndentCreate.InitialFormState | src/app/features/purchase-indents/components/indent-create/indent-create.component.ts:56-69 | A fresh form is not submittable. Its default row is valid once named, and a quantity of 0 is invalid. |
| IndentCreate.AutoApproval | src/app/features/purchase-indents/components/indent-create/indent-create.component.ts:115-124 | Approved iff the user is an admin or manager, with that user as approver and the current time. Anyone else, or nobody, gives pending with no approver. |
| IndentCreate.BuildRequest | src/app/features/purchase-indents/components/indent-create/indent-create.component.ts:127-139 | The priority is lower-cased. An empty title or notes becomes null. Department, required date, requester and assignee are copied. The approval decision is passed on. There is one line per row, with no inventory link and the row's name, description, quantity (0 when empty), unit and price. |
| IndentCreate.Submit | src/app/features/purchase-indents/components/indent-create/indent-create.component.ts:104-141 | Nothing is sent iff the form is invalid or has no rows. Otherwise the built request goes to createIndent. |
| IndentCreate.ApprovalNotStored | src/app/features/purchase-indents/components/indent-create/indent-create.component.ts:120-141 | An admin's or manager's indent is sent as approved but stored as pending with no approver. |
| IndentCreate.SubmitterDoesNotMatter | src/app/features/purchase-indents/components/indent-create/indent-create.component.ts:115-141 | Who submits has no effect on what is stored. |
| IndentCreate.StoredTotalFromRows | src/app/features/purchase-indents/components/indent-create/indent-create.component.ts:138-141 | The stored total is the sum of quantity times price over the form rows. |
| IndentList.ApproveRequest | src/app/features/purchase-indents/components/indent-list/indent-list.component.ts:82-90 | With a selection, it sends 'approved' with the current user as approver and no reason. |
| IndentList.RejectRequest | src/app/features/purchase-indents/components/indent-list/indent-list.component.ts:100-108 | Nothing is sent iff there is no selection or the reason is blank. Otherwise it sends 'rejected' with the reason. |
| IndentList.CompleteRequest | src/app/features/purchase-indents/components/indent-list/indent-list.component.ts:119-122 | It sends 'completed' with no reason and no approver. |
| IndentList.Send | src/app/features/purchase-indents/components/indent-list/indent-list.component.ts:82-130 | Without a selection or request nothing changes. Otherwise the status update is applied to the selected indent's row. |
| IndentList.RejectFromList | src/app/features/purchase-indents/components/indent-list/indent-list.component.ts:100-108 | A blank reason sends nothing. A non-blank reason is stored as given, untrimmed. |
| IndentList.RequestsIgnoreStatus | src/app/features/purchase-indents/components/indent-list/indent-list.component.ts:82-130 | The selected indent's status has no effect on any request. |
| IndentList.ApproveSignedOut | src/app/features/purchase-indents/components/indent-list/indent-list.component.ts:85-90 | An approval with no signed-in user leaves the old approver in place. |
| IndentList.GetTotalEstimated | src/app/features/purchase-indents/components/indent-list/indent-list.component.ts:145-154 | 0 without an item list. Otherwise the sum of quantity times price, with a missing price as 0. |
| IndentList.EstimateMatchesStoredTotal | src/app/features/purchase-indents/components/indent-list/indent-list.component.ts:149-153 | On the items created with an indent, the estimate equals the stored total_amount. |
| GatepassService.GeneratePassNumber | src/app/features/gate-pass/services/gatepass.service.ts:13-22 | The number reads back as the year and the count of all passes plus 1. |
| GatepassService.PassSerialShape | src/app/features/gate-pass/services/gatepass.service.ts:20-21 | The serial exceeds the existing count. It has exactly 4 digits iff it is at most 9999. |
| GatepassService.PassNumbersDistinct | src/app/features/gate-pass/services/gatepass.service.ts:20-21 | Different counts give different numbers within a year. |
| GatepassService.NumberingCarriesOver | src/app/features/gate-pass/services/gatepass.service.ts:13-37 | Of two passes created one after the other, in the same year or not, the second gets serial n+2 over the n earlier passes, and the two numbers differ. |
| GatepassService.CreateGatePass | src/app/features/gate-pass/services/gatepass.service.ts:25-66 | Any failure returns null. The pass is stored as pending under the generated number, with the caller's other fields. Items are inserted only when there are some, each a copy of the caller's item linked to the new id, with returned quantity defaulting to 0. A pass inserted before a failed item insert stays. |
| GatepassService.CreateIgnoresCallerStatus | src/app/features/gate-pass/services/gatepass.service.ts:32-37 | The caller's status and pass number have no effect. |
| GatepassService.LinkKeepsItem | src/app/features/gate-pass/services/gatepass.service.ts:48-52 | Linking changes only the pass id and the returned quantity, which defaults to 0. |
| GatepassVerify.Decide | src/app/features/gate-pass/components/gatepass-verify/gatepass-verify.component.ts:44-63 | Verified iff approved and valid_from <= now <= valid_to. Expired iff approved and now > valid_to. Not approved iff pending, whatever the dates. Invalid iff rejected, completed, or approved before valid_from and not past valid_to. |
| GatepassVerify.ShowInvalid | src/app/features/gate-pass/components/gatepass-verify/gatepass-verify.component.ts:66-70 | No result, the given message, red. |
| GatepassVerify.Clear | src/app/features/gate-pass/components/gatepass-verify/gatepass-verify.component.ts:72-76 | Empties code, result and message, and keeps the colour. |
| GatepassVerify.Verify | src/app/features/gate-pass/components/gatepass-verify/gatepass-verify.component.ts:32-64 | A blank code changes nothing. An unknown number shows the invalid-number message. Otherwise the verdict's message is shown, and a result appears iff the pass is verified, in green. |
| GatepassVerify.VerifyIdempotent | src/app/features/gate-pass/components/gatepass-verify/gatepass-verify.component.ts:32-64 | Verifying again at the same instant changes nothing. |
| GatepassVerify.VerifyUsesTrimmedCode | src/app/features/gate-pass/components/gatepass-verify/gatepass-verify.component.ts:33-36 | Codes that trim alike verify alike. |
| GatepassVerify.JanuaryScenario | src/app/features/gate-pass/components/gatepass-verify/gatepass-verify.component.ts:48-62 | A pass valid through January is verified on the 15th, expired on 1 February, invalid on 31 December, and not approved when pending. |
| GatepassList.RoleOrViewer | src/app/features/gate-pass/components/gatepass-list/gatepass-list.component.ts:34 | The current role is the user's role name, or 'viewer' when nobody is signed in. |
| GatepassList.ListQuery | src/app/features/gate-pass/components/gatepass-list/gatepass-list.component.ts:32-41 | All passes iff the user is an admin. Otherwise the passes of the user's id, or of '' when signed out. |
| GatepassList.OnlyAdminSeesAll | src/app/features/gate-pass/components/gatepass-list/gatepass-list.component.ts:69-80 | Managers, staff, viewers and signed-out users are scoped to their own id. |
| GatepassList.ReloadAfter | src/app/features/gate-pass/components/gatepass-list/gatepass-list.component.ts:54-66 | The list reloads iff the service reports success. |
| GatepassList.GetStatusColor | src/app/features/gate-pass/components/gatepass-list/gatepass-list.component.ts:43-52 | Green iff 'approved', red iff 'rejected', yellow for anything else. |
| GatepassList.StatusColors | src/app/features/gate-pass/components/gatepass-list/gatepass-list.component.ts:43-52 | On stored statuses, pending and completed are yellow. |
| RoleBased.CurrentRole | src/app/shared/directives/role-based.directive.ts:22-23 | There is a role iff a user is signed in, and it is that user's role name. |
| RoleBased.UpdateView | src/app/shared/directives/role-based.directive.ts:35-44 | At most one view exists. It exists iff the role is non-empty and equals some allowed role, ignoring case. |
| RoleBased.SetAllowedRoles | src/app/shared/directives/role-based.directive.ts:29-33 | New roles are stored. The content is shown, once, iff a user is signed in and their role matches an allowed role, ignoring case. |
| RoleBased.OnUserChange | src/app/shared/directives/role-based.directive.ts:21-25 | On a user change, the view is shown iff that user's role is allowed. |
| RoleBased.HiddenCases | src/app/shared/directives/role-based.directive.ts:38 | A null or empty role is hidden, and an empty list hides everything. |
| RoleBased.UpdateViewIdempotent | src/app/shared/directives/role-based.directive.ts:36-40 | Re-evaluating never duplicates the view. |
| RoleBased.CaseInsensitive | src/app/shared/directives/role-based.directive.ts:38 | Roles differing only in case are treated alike, and lower-casing the list changes nothing. |
| RoleBased.UserSeesOwnRole | src/app/shared/directives/role-based.directive.ts:38 | A user sees content listed for their role however it is capitalised. |
| StockEntry.Record | src/app/features/inwards-outwards/components/outwards-list/outwards-list.component.ts:104-109 | A failed insert changes nothing. Otherwise the transaction is appended and then synced, and a failed sync moves no stock. |
| StockEntry.SyncFailureKeepsStock | src/app/features/inwards-outwards/services/inout.service.ts:89-116 | When the sync's fetch or update fails, the transaction is still recorded but no stock moves. |
| StockEntry.EntryTotal | src/app/features/inwards-outwards/components/outwards-list/outwards-list.component.ts:85 | Quantity times price, with either missing giving 0. |
| StockEntry.MatchingItems | src/app/features/inwards-outwards/components/inwards-list/inwards-list.component.ts:114-119 | Exactly the items whose name contains the input, ignoring case. |
| StockEntry.MatchingItemsOrder | src/app/features/inwards-outwards/components/outwards-list/outwards-list.component.ts:112-117 | The suggestions keep the loaded order, and an empty input suggests every item. |
| StockEntry.MatchingItemsNarrow | src/app/features/inwards-outwards/components/outwards-list/outwards-list.component.ts:112-117 | Typing more, so that the new input contains the old one ignoring case, never adds suggestions. |
| OutwardsList.SaveOutwardEntry | src/app/features/inwards-outwards/components/outwards-list/outwards-list.component.ts:72-110 | An invalid form or an excess quantity records nothing. Otherwise the outward transaction is sent and, if the insert succeeds, recorded and synced; a failed sync leaves the stock. |
| OutwardsList.OutwardTransaction | src/app/features/inwards-outwards/components/outwards-list/outwards-list.component.ts:85-102 | Type outward and reference manual, from 'Main Warehouse' to ''. The total is quantity times price. The creator is the user id or ''. The number is 'OUT-' followed by digits. |
| OutwardsList.OutwardNumberRoundTrip | src/app/features/inwards-outwards/components/outwards-list/outwards-list.component.ts:88 | The number's digits read back as the clock reading. |
| OutwardsList.UnknownItemSkipsCheck | src/app/features/inwards-outwards/components/outwards-list/outwards-list.component.ts:79-80 | An item missing from the loaded list skips the stock check. |
| OutwardsList.AcceptedOutwardNeverClamps | src/app/features/inwards-outwards/components/outwards-list/outwards-list.component.ts:79-83 | Checked against the current stock, an excess is refused iff the quantity exceeds the stock. When the insert and the sync succeed, an accepted outward lowers the item and the total stock by exactly its quantity. |
| OutwardsList.StaleListClamps | src/app/features/inwards-outwards/components/outwards-list/outwards-list.component.ts:79-83 | Without the check, 5 out of 3 leaves 0. |
| InwardsList.InwardTransaction | src/app/features/inwards-outwards/components/inwards-list/inwards-list.component.ts:87-104 | Type inward and reference manual, from null to 'Main Warehouse'. An empty item id or user id becomes null. The total is quantity times price. |
| InwardsList.SaveInwardEntry | src/app/features/inwards-outwards/components/inwards-list/inwards-list.component.ts:80-112 | An invalid form records nothing. Otherwise the inward transaction is sent and, if the insert succeeds, recorded and synced; a failed sync leaves the stock. |
| InwardsList.NoItemNoStockChange | src/app/features/inwards-outwards/components/inwards-list/inwards-list.component.ts:92 | An entry without an item moves no stock. |
| InwardsList.InwardAddsStock | src/app/features/inwards-outwards/components/inwards-list/inwards-list.component.ts:106-110 | When the insert and the sync succeed, an entry on a known item adds exactly its quantity to the item and to the total stock, and appends one transaction. |
| InwardsList.ToggleItemMode | src/app/features/inwards-outwards/components/inwards-list/inwards-list.component.ts:63-66 | Flips the new-item switch and clears the item. |
| InwardsList.ToggleTwice | src/app/features/inwards-outwards/components/inwards-list/inwards-list.component.ts:63-66 | Toggling twice restores the switch but not the selection. After a toggle, an entry moves no stock. |
| InOutTransactions.BuildFilter | src/app/features/inwards-outwards/components/in-out-transactions/in-out-transactions.component.ts:64-66 | The type is filtered iff it is not 'all'. The date is filtered iff one is set. There is never a search term. |
| InOutTransactions.NoFilterMatchesAll | src/app/features/inwards-outwards/components/in-out-transactions/in-out-transactions.component.ts:64-66 | With no type and no date, every transaction matches. |
| InOutTransactions.MergeRow | src/app/features/inwards-outwards/components/in-out-transactions/in-out-transactions.component.ts:74-86 | The price is the transaction's, else the item's, else 0. The value is quantity times that price. The serial is pageIndex*pageSize+i+1. An unmatched item shows a dash and no unit. |
| InoutService.FindItem | src/app/features/inwards-outwards/components/in-out-transactions/in-out-transactions.component.ts:75 | An item is found iff an id is given and some item carries it. The item found is the first item with that id: no earlier item carries it. The outwards form's lookup is the same search. |
| InOutTransactions.MergedValueAgreement | src/app/features/inwards-outwards/components/in-out-transactions/in-out-transactions.component.ts:76-77 | A stored price alone decides the value. With no stored price and no matching item, the value is 0. |
| InOutTransactions.SerialIsPosition | src/app/features/inwards-outwards/components/in-out-transactions/in-out-transactions.component.ts:80 | For any page the paged listing can return, where row i is matching row pageIndex*pageSize+i, every merged row's serial is the 1-based position of its transaction in the whole filtered listing. |
| InOutTransactions.SearchRows | src/app/features/inwards-outwards/components/in-out-transactions/in-out-transactions.component.ts:89-98 | A blank term keeps every row. Otherwise the result is exactly the rows whose item, party, invoice or notes contain the term, ignoring case. |
| InOutTransactions.SearchKeepsOrder | src/app/features/inwards-outwards/components/in-out-transactions/in-out-transactions.component.ts:91-97 | The search result is a subsequence of the page. |
| InOutTransactions.SearchIsNotTrimmed | src/app/features/inwards-outwards/components/in-out-transactions/in-out-transactions.component.ts:89-90 | The term is searched for untrimmed. |
| InOutTransactions.LoadTransactionsAsWritten | src/app/features/inwards-outwards/components/in-out-transactions/in-out-transactions.component.ts:57-103 | A page event sets the page. The rows are the searched merge of the loaded page. The total is the number of rows shown, so it never exceeds a page. |
| InOutTransactions.LoadTransactions | src/app/features/inwards-outwards/components/in-out-transactions/in-out-transactions.component.ts:57-103 | The same rows, with the service total as the label's total when no search is active. |
| InOutTransactions.ApplyFilter | src/app/features/inwards-outwards/components/in-out-transactions/in-out-transactions.component.ts:106-109 | Returns to page 0 and reloads as written: the searched merge of the first filtered page, with the row count as total. The filters are kept. |
| InOutTransactions.ClearFilters | src/app/features/inwards-outwards/components/in-out-transactions/in-out-transactions.component.ts:111-116 | Empties the search, sets the type to all and clears the date, on page 0. |
| InOutTransactions.ClearFiltersShowsNewest | src/app/features/inwards-outwards/components/in-out-transactions/in-out-transactions.component.ts:111-116 | After clearing, the newest transactions are shown numbered from 1, and the label's total is the number of rows shown, min(pageSize, table size), not the table size. |
| InOutTransactions.DisplayRangeOf | src/app/features/inwards-outwards/components/in-out-transactions/in-out-transactions.component.ts:118-123 | Nothing to show iff the total is 0. Otherwise the start is pageIndex*pageSize+1 and the end is the smaller of the page end and the total. |
| InOutTransactions.RenderEmptyIff | src/app/features/inwards-outwards/components/in-out-transactions/in-out-transactions.component.ts:119-122 | The text is '0 of 0' exactly when there is nothing to show. |
| InOutTransactions.CorrectedRangeCountsRows | src/app/features/inwards-outwards/components/in-out-transactions/in-out-transactions.component.ts:118-123 | With the service total and no search, the label covers exactly the rows shown, out of every matching transaction. |
| InOutTransactions.TotalIsPageSizeAsWritten | src/app/features/inwards-outwards/components/in-out-transactions/in-out-transactions.component.ts:101 | As written, 25 transactions on pages of 10 are labelled '1 - 10 of 10'. Corrected, they are labelled '1 - 10 of 25'. |

## Left out

- Database, authentication and notification plumbing. Reads are inputs, writes are returned tables and every failure is a boolean parameter. Toasts, console output, loading flags and router navigation are not modelled.
- Concurrency. The count-then-insert numbering and the read-then-write stock update are modelled one call at a time, with the count and the current stock as inputs.
- Stock column name. The stock update reads and writes a `qty` column (inout.service.ts:85, 107), while the item model calls it `quantity`. The model treats both as the one stock field of `InventoryItem`.
- Numbers. JavaScript numbers, `Number(x) || 0` coercion and floating-point prices are modelled as integers in minor units, with "absent" read as 0. The dashboard's coercion of non-numeric item fields (dashboard.component.ts:118-122) therefore has nothing left to do.
- Dates. `Date`, ISO strings, time zones and `getFullYear` are not modelled. The current year, today's UTC date and the current instant are parameters. A `DateTime` is a UTC date plus milliseconds since its midnight, and the date-only filter uses the `T23:59:59` bound as written, so the last second of the day is excluded. `Date.now()` in transaction numbers is a separate natural-number parameter.
- Search. PostgREST `ilike` search is modelled as case-insensitive substring search on ASCII letters. `%` and `_` typed into the search are not treated as wildcards.
- Case folding. `Text.Lower` folds ASCII letters only, and every `toLowerCase` in the model goes through it. JavaScript's `toLowerCase` folds every letter, so the following do not match non-ASCII names case-insensitively:
- StockEntry.MatchingItems: an item named "Ölfilter" is not suggested for the input "öl" (inwards-list.component.ts:115-117, outwards-list.component.ts:113-115).
- InOutTransactions.SearchRows: a row whose item, party, invoice or notes differ from the term only in the case of a non-ASCII letter is dropped (in-out-transactions.component.ts:90-96).
- RoleBased.UpdateView: a role matches an allowed role only up to ASCII case (role-based.directive.ts:38). The application's roles are ASCII words, so this changes nothing for them.
- Range errors. PostgREST answers a range that starts past the last row with an error. The model returns an empty page instead, and the two list operations differ from the source there:
- InoutService.GetTransactionListPaged: on such a page the source catches the error (inout.service.ts:155-159) and returns no rows with total 0. The model returns no rows with the full match count.
- IndentService.ListIndents: on such a page the source rethrows the error (indent.service.ts:87). The model returns `Success` with no rows and the full match count.
- Transaction list source. `getTransactionList` is left out: its date filter runs in the database. The summary therefore takes the rows it returned, and that method already turns failures into an empty list. The summary's own `'Error'` branch is not modelled.
- Bodies not in the source shown. `findByPassNumber` is a lookup parameter of the verifier. `getAllGatePasses` and `getGatePassesByUser` are the query the gate-pass list issues. The bodies of `updateStatus` and `deleteGatePass` are not part of this model.
- Other UI parts. The dialogs, `selectItem`/`onItemChange` form patching, the `getFormattedDate` helpers, `clearFilters` of the inventory list and the repair/other flags of items and transactions are not modelled.
- InoutService.GetTransactionSummary: the summary's `period` string is stated for the dates the caller passes, not checked against the rows.
- Gate-pass dates. The typed gate-pass model has no `valid_from`/`valid_to`; the gate check reads them from the untyped row. The model assumes both are present. A missing `valid_to` gives an invalid date in the source, which answers "Invalid or Expired" even for an approved pass, and that case is not modelled.
- RoleBased.UpdateView: the number of embedded views stands in for the view container, which is not otherwise modelled.

## Findings

| source | as written | input that shows it | evidently intended | confidence | as-written member | corrected member |
|---|---|---|---|---|---|---|
| src/app/features/purchase-indents/services/indent.service.ts:14-18 | The yearly count ends at `new Date(year, 11, 31)`, which is 31 December 00:00. | With `k` indents counted in year Y, an indent created on 31 December at 10:00 is not counted, so the next indent gets `IND-Y-(k+1)` again. | Count every indent created in year Y, so each new indent advances the number. | not executed | IndentService.DecemberIndentRepeatsNumber | IndentService.NextNumberAdvances |
| src/app/features/inwards-outwards/components/in-out-transactions/in-out-transactions.component.ts:101 | `totalLength` is set to the number of rows on the loaded page, and the service's `total` is discarded. | With 25 transactions and pages of 10, the label reads `1 - 10 of 10` and counts no further rows. | Use the service's total of matching transactions: `1 - 10 of 25`. | not executed | InOutTransactions.TotalIsPageSizeAsWritten | InOutTransactions.CorrectedRangeCountsRows |

Both defects stay in the operations that reach them. `IndentService.CreateIndent` numbers indents with `GenerateIndentNumberAsWritten`. `GenerateIndentNumberCorrected` is the fixed count, and `AsWrittenAgreesOffLastDay` says when the two agree. `InOutTransactions.ApplyFilter` and `ClearFilters` reload through `LoadTransactionsAsWritten`, and `LoadTransactions` is the fixed loader.
