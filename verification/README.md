# Verification of the travel-expense settlement system

The system turns the documents of a business trip into a settled claim and takes it through approval.
This project models it in Dafny and proves what holds for every input and over every run. Money is
integer paise, dates are day numbers (calendar dates where the calendar matters).

Two halves meet at submission:

- **Settlement.** Bills are reconciled and their tax shared out (`Bills`, `Tax`), repeated receipts
  collapsed (`Dedup`), lines drafted and judged by the policy rules with a running meal total per day
  (`Policy`, `Engine`), then summed (`Summary`), written to the settlement form (`Workbook`) and routed
  (`Routing`). `Pipeline` joins these into one draft; `Lifecycle` says when it may be submitted.
- **Approval.** `Claims` gives what submitting and deciding do to a claim, `Approvals` the rows that
  requests update in place, `Rounds` what one approval round keeps and how far it can go, `Protocol`
  whole runs of requests by anybody in any order, `Freezing` what a submission fixes for good and who
  can verify it, and `Scenarios` small concrete runs.

`Amounts` (reading printed amounts) and `PaymentRun` (the payment calendar) stand beside them.
`Domain`, `Evidence`, `Text`, `Sums`, `Sorting` and `Rounding` are shared vocabulary.

Code that updates things step by step is imperative here too: the tax residue, the dictionary pass of
the duplicate finder, the evaluator with its mutable context, the worksheet, the reporting-line walk,
the pipeline's parallel lists, and the claim and step rows. Each such method is proved equal to a
specification function, and the properties are lemmas about those functions. A run folds requests over
the specification functions, with one claim, one claimant and arbitrary other users. Each request is
one atomic step, as its transaction is; a refused request leaves the claim as it was. What a branch or a
helper decides is stated in the fields of its inputs, not by its own name.

## What the proofs found

Each of these is a lemma below, with the exact condition or a concrete input.

- A submission always puts a claim at *pending approval*, and the transition table has no way from
  there to *verified*. So a round is completed by its approvals exactly when at least two people are
  asked and Finance is last (and, past the first step, only last). The claim of somebody who reports to
  nobody is never verified (`Rounds.CompletableExactly`, `Freezing.UnmanagedClaimIsNeverVerified`; a run
  that shows it: `Scenarios.LoneFinanceApprovalIsRefused`).
- Finance verification goes to the lowest Finance code in the whole directory, which can be the
  claimant's (`Routing.ChainNamesTheClaimantExactly`, `Protocol.ClaimantDecidesOnlyFinance`), so a claim can be
  verified by its own claimant (`Scenarios.OwnClaimIsVerified`).
- The form's company total leaves out company-paid lines that were rejected or withdrawn, which the
  summary's memo counts (`Workbook.CompanyRowAgreesExactly`,
  `Pipeline.WithdrawnCompanyLineContradictsTheForm`).
- A rejected claim stays in the pending queue of whoever was next, who can do nothing with it
  (`Rounds.RejectedClaimStaysOnADesk`, `Rounds.SettledClaimsRefuse`,
  `Scenarios.RejectedClaimIsStillQueued`).
- A document that needs input does not block submission, although comments say it does
  (`Pipeline.UnreadDocumentDoesNotBlock`).
- The pipeline gives the rules no attendees, so an entertainment line blocks submission until it is
  withdrawn (`Pipeline.SubmittableExactly`).
- Apportioned tax can be negative on the largest line (`Tax.AShareCanBeNegative`).
- Two equal amounts on one bill collapse into one (`Dedup.EqualAmountsOfOneBillMerge`).
- The shipped approval bands are whole rupees, so they leave gaps; withdrawing a line can move a net
  into one and the draft no longer builds (`Pipeline.WithdrawalRoutesExactly`,
  `Pipeline.WithdrawalCanLoseTheRoute`).
- The decision service, called with a decision that decides nothing, verifies a claim exactly when it is
  Finance's turn and nobody is left after, with that step still waiting. The request schema
  (`claims/schemas.py`, line 306) admits no such decision (`Rounds.PendingDecisionVerifiesExactly`,
  `Scenarios.EmptyDecisionVerifies`).

## Model

| member | source | states |
|---|---|---|
| Rounding.HalfUpIsNearest | backend/src/expense_api/policy/tax.py:38-42 | A half-up quotient is within half a unit of the exact one, for any sign of either operand. |
| Rounding.HalfUpTiesGoOut | backend/src/expense_api/policy/tax.py:38-42 | And of two equally near ones the farther from zero, which leaves one value. |
| Rounding.HalfEvenExceeds | backend/src/expense_api/policy/rules/lodging.py:45-49 | A half-even quotient exceeds a whole bound exactly when the exact one passes its midpoint, or meets it with the bound odd. |
| Rounding.HalfEvenIs | backend/src/expense_api/policy/rules/lodging.py:47 | Whatever whole number is nearest, and of two the even one, is the half-even quotient. |
| Tax.ApportionTax | backend/src/expense_api/policy/tax.py:21-50 | The loop over the lines and the residue added in place give the specified shares; lines with a zero subtotal fail, whatever the tax. |
| Tax.SharesSumToTax | backend/src/expense_api/policy/tax.py:24-26 | The shares add up to the stated tax exactly, whatever function rounds them. |
| Tax.SmallerSharesAreNearest | backend/src/expense_api/policy/tax.py:38-42 | Every line but the largest is within half a paisa of its exact share, and a tie goes away from zero. |
| Tax.LargestShareError | backend/src/expense_api/policy/tax.py:44-50 | The largest line is within half a paisa per other line of its exact share. |
| Tax.SmallerSharesKeepOrder | backend/src/expense_api/policy/tax.py:38-42 | Off the largest line shares keep the order of the charges when tax and subtotal have one sign, and reverse it when they have opposite signs. |
| Tax.SharesNonNegativeExactly | backend/src/expense_api/policy/tax.py:38-50 | For non-negative charges, no share is negative exactly when the other lines round to no more than the tax. |
| Tax.LargeEnoughLineKeepsSharesNonNegative | backend/src/expense_api/policy/tax.py:44-50 | No share is negative when the largest exact share is at least half a paisa per other line. |
| Tax.AShareCanBeNegative | backend/src/expense_api/policy/tax.py:38-50 | Four equal lines sharing two paise get -1, 1, 1 and 1. |
| Bills.BillIsConserved | backend/src/expense_api/claims/pipeline.py:235-258 | What an accepted bill's lines can claim equals its stated total exactly when the total equals the subtotal, or exceeds a subtotal that is not zero. |
| Bills.GuardAcceptsExactly | backend/src/expense_api/evidence/extractors/base.py:121-146 | A result is accepted exactly when there is no subtotal or what is summed, the components when given and else the lines, equals it; its items, totals and difference are fixed either way. |
| Bills.LinesCarryTheirOwnShares | backend/src/expense_api/claims/pipeline.py:246-258 | The charges are the items in order, each with the share of the tax that its own amount earns, and fail exactly when there is tax over lines that come to nothing. |
| Amounts.DamagedPrintReadsBack | backend/src/expense_api/evidence/amounts.py:71-109 | Any amount printed with two decimals, in any digit grouping and with any of its separators swapped, parses to itself. |
| Amounts.WholeRupeesReadBackExactly | backend/src/expense_api/evidence/amounts.py:84-100 | A grouped whole-rupee print parses to itself exactly when it has one group or its last group has more than two digits. |
| Amounts.OneDecimalReadsAsTenths | backend/src/expense_api/evidence/amounts.py:84-100 | One digit after the last separator is tenths of a rupee, in any grouping and with any separators swapped. |
| Amounts.TwelveFiftyReads | backend/src/expense_api/evidence/amounts.py:84-100 | Digits are read from the left: 12.50 and 12,50 are 1250 paise. |
| Amounts.MarksDecideTheSign | backend/src/expense_api/evidence/amounts.py:71-76 | Brackets and signs around a token change nothing but its sign: negative exactly with a minus in front or brackets on both sides. |
| Amounts.SignedPrintReadsBack | backend/src/expense_api/evidence/amounts.py:71-109 | So a damaged print among any brackets and signs reads as the amount or its negative. |
| Amounts.ReadsExactly | backend/src/expense_api/evidence/amounts.py:74-104 | Between its brackets and signs a token reads as an amount exactly when it starts with a digit and holds only digits and separators. |
| Amounts.MarksReadAsNothing | backend/src/expense_api/evidence/amounts.py:74-77 | Brackets and signs alone are no amount. |
| Amounts.PrintedAmountAtTheEndIsRead | backend/src/expense_api/evidence/amounts.py:28-53 | A line ending in such a print reads as that amount whatever stands before it. |
| Amounts.BareIntegersAreSkipped | backend/src/expense_api/evidence/amounts.py:56-68 | A bare integer at the end is read when it stands alone or has a currency marker, and is else passed over. |
| Amounts.UnreadableTokensAreSkipped | backend/src/expense_api/evidence/amounts.py:47-53 | A token that does not read as an amount is passed over. |
| Dedup.FindDuplicates | backend/src/expense_api/evidence/dedup.py:85-129 | The one-pass search returns the specified first occurrences, repeats and warnings. |
| Dedup.FirstOccurrences | backend/src/expense_api/evidence/dedup.py:96-129 | One pass with two dictionaries computes the first-occurrence specification, for any keys. |
| Dedup.KeptOrSuppressed | backend/src/expense_api/evidence/dedup.py:98-127 | Every index is kept or suppressed and never both: kept exactly when its key is new. |
| Dedup.SuppressedMatches | backend/src/expense_api/evidence/dedup.py:101-112 | Every suppressed item points at an earlier kept item with the same key. |
| Dedup.KeptIsStrictlyIncreasing | backend/src/expense_api/evidence/dedup.py:113-127 | Kept indices rise strictly and their keys are pairwise distinct. |
| Dedup.EveryKeyIsKept | backend/src/expense_api/evidence/dedup.py:85-129 | Each key that occurs has a kept index. |
| Dedup.WarningsAreNearMisses | backend/src/expense_api/evidence/dedup.py:113-125 | Each warning names an earlier kept item with the same near key and a different key. |
| Dedup.EveryNearMissIsWarnedAbout | backend/src/expense_api/evidence/dedup.py:113-125 | Each kept item with an earlier kept near match is warned about. |
| Dedup.WarningsNameTheFirst | backend/src/expense_api/evidence/dedup.py:113-126 | Of several earlier kept items with its near key, a warning names the first, at every prefix of the items. |
| Dedup.ListsRiseStrictly | backend/src/expense_api/evidence/dedup.py:98-127 | The suppressed and the warned indices each rise strictly, so nothing is named twice. |
| Dedup.GrossIsConserved | backend/src/expense_api/evidence/dedup.py:85-129 | Kept and suppressed amounts add up to what came in. |
| Dedup.SecondRunKeepsEverything | backend/src/expense_api/evidence/dedup.py:132-134 | A second run over what survived keeps all of it. |
| Dedup.FingerprintIsExact | backend/src/expense_api/evidence/dedup.py:55-73 | Two joined keys are equal exactly when normalised merchant, time, amount and normalised bill number all agree, a timestamped item going by its timestamp alone and any other by its date. |
| Dedup.NearKeyIsExact | backend/src/expense_api/evidence/dedup.py:76-82 | Two near keys are equal exactly when normalised merchant, day and amount agree, an item going by its date first and else by its timestamp's day. |
| Dedup.SuppressedIsTheSameTransaction | backend/src/expense_api/evidence/dedup.py:101-112 | Whatever is suppressed agrees with its original in all four fields. |
| Dedup.WarnedIsANearMiss | backend/src/expense_api/evidence/dedup.py:113-125 | Whatever is warned about agrees in merchant, day and amount and differs in time or bill number. |
| Dedup.RidesAtDifferentTimesAreKept | backend/src/expense_api/evidence/dedup.py:58-59 | Two rides alike but for their timestamps are both kept, the second with a warning. |
| Dedup.MerchantIgnoresMarks | backend/src/expense_api/evidence/dedup.py:49-52 | Characters other than letters and digits never tell two merchants apart. |
| Dedup.MerchantIgnoresCase | backend/src/expense_api/evidence/dedup.py:49-52 | Nor does case. |
| Dedup.PlainMerchantIsKept | backend/src/expense_api/evidence/dedup.py:49-52 | Lower-case letters and digits all count. |
| Dedup.BillNoIgnoresCaseAndPadding | backend/src/expense_api/evidence/dedup.py:71 | A bill number counts in full but for case and the white space around it. |
| Dedup.EqualAmountsOfOneBillMerge | backend/src/expense_api/evidence/extractors/rule_based.py:324-337 | Two equal amounts on one folio with different descriptions collapse into the first. |
| Policy.AllowedIsWhatRemains | backend/src/expense_api/policy/engine.py:93-104 | Allowed and disallowed add up to the claimable, and the allowed part is what the rules leave, never below zero. |
| Policy.UncutLineIsAllowed | backend/src/expense_api/policy/engine.py:93-104 | A line in no excluded category, under no nightly limit and no daily cap, is allowed gross and tax in full. |
| Policy.CaughtLineIsNotAllowed | backend/src/expense_api/policy/rules/non_reimbursable.py:20-52 | A line in an excluded category is allowed nothing, its tax share included. |
| Policy.IsCaughtExactly | backend/src/expense_api/policy/rules/non_reimbursable.py:31-37 | A line is in an excluded category exactly when its description has the category as whole words in any case. |
| Policy.WholeWordsOnly | backend/src/expense_api/policy/rules/non_reimbursable.py:35-37 | A category that begins and ends with a letter or digit catches only where no word character touches it. |
| Policy.StatusExactly | backend/src/expense_api/policy/engine.py:106-115 | A line that is not held is disallowed exactly when it is worth something and allowed nothing, and else allowed. |
| Policy.HeldExactly | backend/src/expense_api/policy/engine.py:106-109 | A line is held exactly for an entertainment without attendees, one above the threshold without prior approval, a meal above its threshold without a bill, or an employee-paid line without a proof. |
| Policy.HoldsNameTheirRules | backend/src/expense_api/policy/rules/entertainment.py:18-89 | A hold by a rule is among a line's decisions exactly when that rule's condition is met. |
| Policy.CutsNameTheirRules | backend/src/expense_api/policy/engine.py:93-104 | A cut by a rule of an amount is among a line's decisions exactly when that rule takes off that amount. |
| Policy.PassesNameTheirRules | backend/src/expense_api/policy/rules/conveyance.py:16-33 | A pass by a rule is recorded exactly when the rule considered the line and left it whole. |
| Policy.LodgingIsCutExactly | backend/src/expense_api/policy/rules/lodging.py:43-74 | For the nights stated, or one when none or zero are, a stay is cut exactly when its tariff passes the limit by more than half a paisa a night, or by exactly that with an odd limit. |
| Policy.LodgingExcessExactly | backend/src/expense_api/policy/rules/lodging.py:45-62 | What is taken off is the nightly tariff's excess over the limit times the nights, for the nightly tariff nearest to the exact one and of two the even one. |
| Policy.LodgingRoundingBound | backend/src/expense_api/policy/rules/lodging.py:43-74 | For those nights a stay within limit times nights is never cut, and a cut one is reimbursed within nights/2 paise of it. |
| Policy.CutStayKeepsItsTax | backend/src/expense_api/policy/rules/lodging.py:58-74 | A cut stay that no other rule touches is allowed what is left of its tariff plus its whole tax share, exactly when that is not negative. |
| Policy.CutStayLeavesSomething | backend/src/expense_api/policy/rules/lodging.py:58-74 | With a limit of at least a paisa and no negative tax share, what is left of a cut stay is not negative. |
| Policy.StayIsAllowed | backend/src/expense_api/policy/engine.py:93-104 | A stay in no excluded category is allowed tariff and tax less what is taken off, never below zero. |
| Policy.CappedMealFillsTheCap | backend/src/expense_api/policy/rules/meals.py:20-67 | A capped meal is allowed what fits under the day's cap, up to its worth. |
| Policy.MealIsAllowedTheRest | backend/src/expense_api/policy/rules/meals.py:20-67 | A dated meal is allowed what the day has left of the city's limit, up to its amount and never below zero. |
| Engine.EvaluateLines | backend/src/expense_api/policy/engine.py:45-90 | Judging lines oldest first with a mutable meal total yields, line for line, each day's lines judged in claim order, and leaves those totals behind. |
| Engine.JudgeLine | backend/src/expense_api/policy/engine.py:66-88 | A preset is honoured, any other line judged against its day's total, and only that day's total moves. |
| Engine.ProcessingOrder | backend/src/expense_api/policy/engine.py:58-59 | Every line is taken once, by date then position, undated lines with the latest date. |
| Summary.SettlementBalances | backend/src/expense_api/claims/summary.py:43-75 | Payable less recoverable is net less advance; neither is negative and one is zero. |
| Summary.EveryOutcomeBalances | backend/src/expense_api/policy/engine.py:126-180 | A line set aside carries no money; any other has allowed plus disallowed equal to its claimable. |
| Summary.AllowedAndDisallowedAddUp | backend/src/expense_api/claims/summary.py:43-66 | What counted lines claim is what is allowed plus what is disallowed. |
| Summary.NetIsWhatWasAllowed | backend/src/expense_api/claims/summary.py:45-66 | The net is the sum of all allowances less unsettled company-paid lines, so with those settled it is exactly that sum and not negative. |
| Summary.DayTotalClosedForm | backend/src/expense_api/policy/rules/meals.py:37-67 | A day's meal total is the smaller of the cap and what the day's meals are worth, after any number of lines. |
| Summary.AlreadyIsWhatMealsGot | backend/src/expense_api/policy/engine.py:80-88 | A day's running total before a line is the sum of what the day's earlier meals were allowed. |
| Summary.TotalAllowedClosedForm | backend/src/expense_api/policy/engine.py:58-90 | A claim's total allowance is its uncapped lines plus each capped day at its worth or the cap. |
| Summary.SummaryIgnoresOrder | backend/src/expense_api/policy/engine.py:48-54 | Any two orders of the same lines give the same summary. |
| Summary.DayTotalsIgnoreOrder | backend/src/expense_api/policy/engine.py:48-54 | Any two orders give each day the same meal total, never above the cap. |
| Summary.LineAmountsDependOnOrder | backend/src/expense_api/policy/engine.py:58-88 | Two meals in either order: the same lunch is allowed in full or cut. |
| Summary.WithdrawalNeverRaisesTheAllowed | backend/src/expense_api/policy/engine.py:58-90 | Withdrawing any lines never raises the total allowance, though it frees meal cap. |
| Summary.WithdrawalNeverRaisesTheNet | backend/src/expense_api/claims/summary.py:43-75 | Nor the net or the payable amount, nor does it lower the recoverable one. |
| Workbook.SplitBySection | backend/src/expense_api/export/xlsx.py:94-118 | Lines on the form are split by head in order, and refused exactly when a section overflows. |
| Workbook.Sheet.WriteLodging | backend/src/expense_api/export/xlsx.py:121-132 | The lodging rows are written one line a row, from the first row down. |
| Workbook.Sheet.WriteTransport | backend/src/expense_api/export/xlsx.py:135-145 | Likewise the transport rows. |
| Workbook.Sheet.WriteOther | backend/src/expense_api/export/xlsx.py:148-156 | Likewise the remaining heads. |
| Workbook.Sheet.Export | backend/src/expense_api/export/xlsx.py:56-91 | The exported cells are the three sections and the two totals cells; a form that overflows is left as it was. |
| Workbook.FormShowsEveryLine | backend/src/expense_api/export/xlsx.py:121-161 | On the exported form row 11, 19 or 33 plus `k` shows line `k` of its section in every column: dates, nights, route, head and description, the exact words for the payer, the amount and the proof. |
| Workbook.ExportWritesOnlyInputs | backend/tests/test_export_xlsx.py:73-79 | No cell but the input cells of the rows and the two totals changes, so every formula stays. |
| Workbook.SectionsPartitionTheForm | backend/src/expense_api/export/xlsx.py:94-110 | The three sections hold exactly the lines that are neither rejected nor withdrawn, each once. |
| Workbook.LineHasItsPlace | backend/src/expense_api/export/xlsx.py:94-110 | A line that is neither rejected nor withdrawn stands in the section of its head, after exactly the earlier lines of that section. |
| Workbook.FormSumsWhatItShows | backend/tests/test_export_xlsx.py:150-157 | SUMIF over the form, for either payer, adds up what that payer paid on every line the form shows. |
| Workbook.WorkbookAgreesWithSummary | backend/tests/test_export_xlsx.py:140-172 | With memo rows company-paid, the form's own formulas reach the summary's gross, net, payable and recoverable. |
| Workbook.FormExceedsSummaryByEmployeeMemo | backend/src/expense_api/export/xlsx.py:94-110 | In general the form exceeds the summary by the employee-paid memo rows. |
| Workbook.CompanyRowAgreesExactly | backend/src/expense_api/claims/summary.py:54-57 | The form's company SUMIF falls short of the company memo by the company-paid rejected and withdrawn lines, so the two agree exactly when those come to nothing. |
| Routing.Ancestors | backend/src/expense_api/approvals/routing.py:47-71 | The walk with its set of seen codes computes the specified line or error. |
| Routing.ReportingLineExactly | backend/src/expense_api/approvals/routing.py:47-71 | That line is exactly the people found by following manager codes from the claimant, nobody left out or repeated, up to the depth or to somebody who reports to nobody. |
| Routing.ReportingLineFailsExactly | backend/src/expense_api/approvals/routing.py:60-67 | It fails with an error exactly when such a line, shorter than the depth, ends at somebody whose manager is already in it or is not in the master, as the error says. |
| Routing.AncestorsFailExactly | backend/src/expense_api/approvals/routing.py:60-67 | It fails exactly when a repeated or missing code comes up within the depth before the line ends. |
| Routing.AncestorsAreOthers | backend/src/expense_api/approvals/routing.py:55-71 | Nobody in a reporting line is the claimant or occurs twice, and a short line has reached its end. |
| Routing.RolesForValue | backend/src/expense_api/approvals/routing.py:74-85 | Routing a value fails exactly when no band covers it. |
| Routing.FirstBandDecides | backend/src/expense_api/approvals/routing.py:78-83 | The roles are those of the first band that holds the value between its inclusive ends. |
| Routing.FindFirstFinance | backend/src/expense_api/approvals/routing.py:142-148 | The search returns the Finance person with the least code, if there is any. |
| Routing.FirstFinanceExactly | backend/src/expense_api/approvals/routing.py:142-148 | That person is exactly the one in Finance whose code no other Finance code precedes, character by character. |
| Routing.Require | backend/src/expense_api/approvals/routing.py:97-108 | International travel keeps the band's roles in front and adds each of reporting manager, head of department, head of division and MD that they lack, in that order; otherwise the band's roles stand. |
| Routing.ResolveChain | backend/src/expense_api/approvals/routing.py:88-139 | The appended steps are the specified chain, or the first error. |
| Routing.HolderIsNearest | backend/src/expense_api/approvals/routing.py:114 | A role's approver is the first in the line who holds it. |
| Routing.ChainIsWellFormed | backend/src/expense_api/approvals/routing.py:110-139 | Sequences count from one; a business step names the nearest ancestor with its role, or nobody when none has it, and never the claimant; Finance is last. |
| Routing.DistinctRolesHaveDistinctApprovers | backend/src/expense_api/approvals/routing.py:113-131 | Steps with different roles have different approvers. |
| Routing.FinanceIsTheClaimantExactly | backend/src/expense_api/approvals/routing.py:142-148 | The Finance person found is the claimant exactly when theirs is the least Finance code. |
| Routing.ChainNamesTheClaimantExactly | backend/src/expense_api/approvals/routing.py:110-139 | A resolved chain asks the claimant at some step exactly when it ends with Finance and theirs is the least Finance code. |
| Routing.RolesGrowWithValue | backend/src/expense_api/approvals/routing.py:74-85 | Under contiguous nested bands a larger value requires at least the same roles. |
| Routing.SmallerValueAsksNobodyNew | backend/src/expense_api/approvals/routing.py:74-139 | Then a smaller value still routes, through no more levels, asking nobody new. |
| Routing.ShippedMatrixGaps | backend/src/expense_api/policy/versions/ntx-hr-pol-11-rev4.yaml:27-39 | The shipped bands miss exactly the values strictly between one band's last rupee and the next one's first. |
| Routing.ShippedMatrixAsks | backend/src/expense_api/policy/versions/ntx-hr-pol-11-rev4.yaml:27-39 | The shipped bands ask the first one, two, three or four of the business levels, by value. |
| Lifecycle.CheckCanSubmit | backend/src/expense_api/claims/lifecycle.py:51-73 | The loops collect the specified blocking reasons, and submission is open exactly when there are none. |
| Lifecycle.ReasonsAreExactly | backend/src/expense_api/claims/lifecycle.py:59-71 | The reasons are exactly each held line's description with each rule that holds it, and the one that no reimbursable line is left. |
| Lifecycle.WhatMayPrecede | backend/src/expense_api/claims/lifecycle.py:23-38 | Each status can be reached from exactly these: verified only from pending finance, draft and rejected from either pending one. |
| Lifecycle.CanSubmitExactly | backend/src/expense_api/claims/lifecycle.py:51-73 | Evaluated lines may be submitted exactly when none is held and one was left to the rules. |
| PaymentRun.NextRunIsLeast | backend/src/expense_api/claims/lifecycle.py:86-101 | The run found is the least run date not before the input; it fails exactly when the month has no run day left and the next lacks the smallest. |
| PaymentRun.NextRunIsAClosure | backend/src/expense_api/claims/lifecycle.py:86-101 | When every month has the smallest run day, the function is total, monotone and idempotent. |
| PaymentRun.MonthsFollowOn | backend/src/expense_api/claims/lifecycle.py:98-101 | The first of the next month is the day after the month's last, leap years and year ends included. |
| PaymentRun.NotAfterExactly | backend/src/expense_api/claims/lifecycle.py:86-101 | The order of dates used is the order of their day numbers. |
| PaymentRun.MonthLengthsAre | backend/src/expense_api/claims/lifecycle.py:95 | The month lengths are the calendar's. |
| PaymentRun.WaitIsAtMostFifteenDays | backend/src/expense_api/claims/lifecycle.py:86-101 | With runs on the 10th and 25th nobody waits more than fifteen days. |
| Pipeline.CollectDocuments | backend/src/expense_api/claims/pipeline.py:106-171 | The parallel lists hold the specified lines, shares and proofs in order; unusable documents are only listed; an unapportionable bill fails the draft. |
| Pipeline.CollectedInOrder | backend/src/expense_api/claims/pipeline.py:117-170 | What earlier documents yield stands before what later ones yield, and nothing else is there. |
| Pipeline.DocumentYieldsItsItems | backend/src/expense_api/claims/pipeline.py:159-164 | A read or typed document yields a piece for each item, in order, with the document's proof and the item's own tax share. |
| Pipeline.OtherDocumentsYieldNothing | backend/src/expense_api/claims/pipeline.py:117-152 | A document set aside yields nothing, and one that could not be read only its name. |
| Pipeline.DraftLines | backend/src/expense_api/claims/pipeline.py:175-206 | The drafted lines and preset statuses are those of the kept items. |
| Pipeline.BuildClaim | backend/src/expense_api/claims/pipeline.py:81-232 | The pipeline computes the specified draft or its first error. |
| Pipeline.EachKeptPieceHasItsOutcome | backend/src/expense_api/claims/drafting.py:107-131 | Each kept piece becomes the line its item describes: withdrawn by description, else rejected as another person's whoever paid, else a memo when the company paid, each without money, else judged for the request's city class after its day's earlier meals. |
| Pipeline.DraftGrossIsWhatIsJudged | backend/src/expense_api/claims/summary.py:45-57 | A draft's gross sums exactly the kept pieces that are none of these three, and its memo those the company paid. |
| Pipeline.DraftMealsFillTheCap | backend/src/expense_api/policy/rules/meals.py:32-67 | On every day a draft's meals are allowed the smaller of what they are worth and the city class's daily limit. |
| Pipeline.CompanyPaidIsSetAside | backend/src/expense_api/claims/drafting.py:107-119 | Whatever is withdrawn, every company-paid line is set aside before the rules. |
| Pipeline.DraftNetIsWhatIsAllowed | backend/src/expense_api/claims/pipeline.py:208-216 | Every draft's net is the sum of its allowances, is not negative, and settles against the advances on one side. |
| Pipeline.EveryPaisaIsAccountedFor | backend/src/expense_api/claims/pipeline.py:161-213 | All that was collected is net, disallowed, set aside or a suppressed duplicate, and nothing else. |
| Pipeline.StatedTotalsAreAccountedFor | backend/src/expense_api/claims/pipeline.py:106-213 | What the accepted bills and typed documents state is, to the paisa, net plus disallowed plus set aside plus suppressed, when each bill's total can be reached from its lines. |
| Pipeline.ExportedDraftAgrees | backend/tests/test_export_xlsx.py:140-172 | For every draft that fits the form, its formulas reach the gross, net, payable and recoverable amounts, and the company memo exactly when the company-paid lines left off the form come to nothing. |
| Pipeline.WithdrawnCompanyLineContradictsTheForm | backend/src/expense_api/claims/summary.py:1-6 | A draft whose company-paid line is withdrawn states a memo of 100 paise while its form sums the company's rows to nothing. |
| Pipeline.WithdrawalIsMonotone | backend/src/expense_api/claims/pipeline.py:177-216 | A larger withdrawn set never raises net or payable; under contiguous nested bands it still routes, with no new level or approver. |
| Pipeline.WithdrawalRoutesExactly | backend/src/expense_api/claims/pipeline.py:208-216 | A draft that built still builds under any other withdrawal exactly when a band covers the net left; under the shipped bands it is lost exactly in their gaps. |
| Pipeline.WithdrawalCanLoseTheRoute | backend/src/expense_api/policy/versions/ntx-hr-pol-11-rev4.yaml:27-39 | A two-line claim under the shipped bands that a withdrawal keeps from routing. |
| Pipeline.UnreadDocumentDoesNotBlock | backend/src/expense_api/claims/pipeline.py:133-158 | An unreadable document anywhere among the others changes only the list of documents that need input. |
| Pipeline.SubmittableExactly | backend/src/expense_api/claims/pipeline.py:70-76 | A draft is submittable exactly when some line is left to the rules and each such line has a proof and is no entertainment. |
| Claims.LeastWaitingIsLeast | backend/src/expense_api/approvals/service.py:147-154 | The least waiting step above a floor, used for the next step too, is found when there is one. |
| Claims.CurrentStepExactly | backend/src/expense_api/approvals/service.py:61-74 | The current step is exactly the undecided, unsuperseded step of the round after the last return with the least sequence, or there is none. |
| Claims.RoutesAgreeWithService | backend/src/expense_api/approvals/router.py:124-143 | The step the routes and the queue take from the sorted round is the service's current step. |
| Claims.CurrentRoundSteps | backend/src/expense_api/claims/serialisers.py:120-134 | The round shown is exactly its live steps, sorted by sequence. |
| Claims.DecisionIsAcceptedExactly | backend/src/expense_api/approvals/router.py:106-176 | A verdict is accepted exactly when the current step's approver, not an employee, speaks for themselves at the current version, with remarks on a return, and the table allows the move. |
| Claims.DecisionIsRefusedExactly | backend/src/expense_api/approvals/router.py:109-176 | A verdict is refused for the first guard it fails, in the order of the route. |
| Claims.DecisionChangesExactly | backend/src/expense_api/approvals/service.py:101-119 | An accepted decision marks the current step, bumps the version, on a return opens the next round and supersedes the old one, and changes nothing else. |
| Claims.SubmissionIsAcceptedExactly | backend/src/expense_api/claims/materialise.py:60-96 | A submission is accepted exactly when it is the owner's, the claim is a draft, returned or not, and the draft builds and is complete; it then replaces lines and summary and appends the chain as the next round, field by field. |
| Claims.SubmissionIsRefusedExactly | backend/src/expense_api/claims/router.py:530-542 | And it is refused for the first guard it fails. |
| Approvals.SettlementClaim.constructor | backend/src/expense_api/db/models.py:420-464 | A new row is a draft at version one with no steps, lines or money. |
| Approvals.SettlementClaim.FindWaiting | backend/src/expense_api/approvals/service.py:61-74 | The search over the step rows finds the least waiting step above a floor. |
| Approvals.SettlementClaim.FindTarget | backend/src/expense_api/approvals/service.py:139-167 | The target status is the specified one. |
| Approvals.SettlementClaim.RecordDecision | backend/src/expense_api/approvals/service.py:77-136 | The rows become what the specification of a decision says, or stay as they were with its error. |
| Approvals.SettlementClaim.Submit | backend/src/expense_api/claims/materialise.py:60-115 | The rows become what the specification of a submission says, or stay as they were with its error. |
| Approvals.SettlementClaim.WriteChain | backend/src/expense_api/claims/materialise.py:188-230 | The chain is appended as new rows of the round, levels nobody fills already approved. |
| Approvals.DecideRoute | backend/src/expense_api/approvals/router.py:106-201 | The guarded route carries out exactly the specified verdict. |
| Approvals.SubmitRoute | backend/src/expense_api/claims/router.py:530-556 | The guarded route builds, freezes and routes exactly the specified draft. |
| Rounds.CompletableExactly | backend/src/expense_api/claims/lifecycle.py:23-38 | Every approval of a round is allowed exactly when two or more are asked, Finance last and, past the first, only last. |
| Rounds.OnlyTheLastIsRefused | backend/src/expense_api/claims/lifecycle.py:23-38 | When only the last person asked can be Finance, no approval but the last can be refused, and that one exactly when the round is not completable. |
| Rounds.CursorIsCurrent | backend/src/expense_api/approvals/service.py:61-74 | The step a claim waits on is the first unapproved filled step of its round. |
| Rounds.TargetIsNext | backend/src/expense_api/approvals/service.py:139-167 | Approving leads where the round's cursor says. |
| Rounds.SubmissionOpens | backend/src/expense_api/claims/materialise.py:86-96 | A submission opens a new round at its first filled step, asking the filled roles of its chain. |
| Rounds.DecisionKeepsConsistent | backend/src/expense_api/approvals/service.py:77-136 | Any accepted approval, rejection or return, by anyone, keeps rounds, supersession and status consistent. |
| Rounds.VerifiedMeansApproved | backend/src/expense_api/approvals/service.py:147-167 | A verified claim has its whole round approved, two or more asked, and a filled Finance step approved last. |
| Rounds.SettledClaimsRefuse | backend/src/expense_api/claims/lifecycle.py:35-37 | No decision moves a verified, a rejected or a draft claim. |
| Rounds.RejectedClaimStaysOnADesk | backend/src/expense_api/approvals/router.py:217-222 | A rejected claim is on somebody's pending queue exactly when the next filled step after the rejected one is addressed to them. |
| Rounds.ApprovalIsAcceptedExactly | backend/src/expense_api/approvals/service.py:97-116 | An approval is accepted exactly when somebody is left to ask and the table allows the next status; it then moves the cursor by one. |
| Rounds.VerdictIsAcceptedExactly | backend/src/expense_api/approvals/router.py:106-176 | The person next in a round may always reject, may return with words, and may approve exactly when it is Finance's turn if and only if nobody is left after them. |
| Rounds.QueueShowsTheNext | backend/src/expense_api/approvals/router.py:204-222 | While a round is open its claim is on the pending queue of the next person asked and of nobody else. |
| Rounds.QueueShowsNoDraft | backend/src/expense_api/approvals/router.py:217-222 | A draft is on nobody's pending queue. |
| Rounds.ApprovalLeavesOneFewer | backend/src/expense_api/approvals/service.py:101-116 | Each accepted approval leaves one person fewer to ask in the same round. |
| Rounds.ApprovingFollowsTheMachine | backend/src/expense_api/approvals/service.py:77-136 | `n` approvals in a row succeed exactly when the machine allows the first `n`, and land on its `n`-th point. |
| Rounds.ApprovalsVerifyExactly | backend/src/expense_api/claims/materialise.py:95 | From submission, `n` approvals verify exactly when the round is completable and `n` people are asked. |
| Rounds.LastApprovalIsRefused | backend/src/expense_api/claims/lifecycle.py:25-34 | When only the last person asked can be Finance and the round is not completable, all approve but the last, who is always refused. |
| Rounds.PendingDecisionVerifiesExactly | backend/src/expense_api/approvals/service.py:139-158 | A decision that decides nothing verifies a claim exactly when it is Finance's turn and nobody is left after, and leaves that step waiting. |
| Rounds.RoutedChainCompletesExactly | backend/src/expense_api/approvals/routing.py:110-139 | A chain of business levels and Finance completes exactly when one business level and Finance are filled. |
| Rounds.NobodyAboveNeverCompletes | backend/src/expense_api/approvals/routing.py:110-131 | Whoever reports to nobody gets no chain that completes. |
| Protocol.ReachableIsConsistent | backend/src/expense_api/approvals/service.py:77-136 | Every run leaves the claim between rounds or at a point its round's cursor can reach. |
| Protocol.RoundsHoldInEveryRun | backend/src/expense_api/db/models.py:521-558 | In every run round and sequence are unique, superseded means returned, drafts have no live step, and payment statuses are never reached. |
| Protocol.SameVersionSameClaim | backend/src/expense_api/db/models.py:434-437 | At any two moments of a run, the same version means the identical claim. |
| Protocol.DecisionActsOnWhatWasRead | backend/src/expense_api/approvals/service.py:89-95 | A decision accepted at any later moment acts on exactly the claim its approver read. |
| Protocol.OneDecisionPerVersion | backend/src/expense_api/approvals/service.py:1-11 | At most one decision per version is accepted in a run. |
| Protocol.SettledIsForever | backend/src/expense_api/claims/lifecycle.py:21-38 | Once verified or rejected, no continuation of the run changes the claim. |
| Protocol.HistoryIsAppendOnly | backend/src/expense_api/db/models.py:549-552 | Between any two moments steps are only added; who was asked and what was decided never changes. |
| Protocol.EveryDecisionWasTaken | backend/src/expense_api/approvals/router.py:109-143 | Every decided step addressed to somebody was decided by that person's accepted request while it was current. |
| Protocol.ClaimantIsAskedOnlyAsFinance | backend/src/expense_api/approvals/routing.py:113-131 | No business step of any round is ever addressed to the claimant. |
| Protocol.ClaimantDecidesOnlyFinance | backend/src/expense_api/approvals/router.py:133-143 | The claimant's own accepted decisions are all on Finance verification. |
| Freezing.ReachableHoldsItsSubmission | backend/src/expense_api/claims/materialise.py:86-96 | In every run lines and summary are those of the last accepted submission, the stored net resolves to its chain, and until it is returned its round is that chain. |
| Freezing.StoredMoneyAddsUp | backend/src/expense_api/claims/materialise.py:142-185 | In every run the stored net is the sum of the stored allowances, and payable and recoverable exclude each other. |
| Freezing.DraftExactlyWithoutSteps | backend/src/expense_api/claims/materialise.py:131-139 | A claim is in draft exactly when its round has no steps, but for a submission routed to no level at all. |
| Freezing.VerifiedRestsOnItsSubmission | backend/src/expense_api/approvals/service.py:147-167 | A verified claim rests on a completable chain of its last submission, each filled level approved by its person in the run. |
| Freezing.SubmissionVerifiesExactly | backend/src/expense_api/claims/materialise.py:206-230 | From any accepted submission, `n` approvals verify exactly when its chain completes with `n` filled levels. |
| Freezing.ApprovalsCanBeGiven | backend/src/expense_api/approvals/router.py:106-176 | From any point of a round, the people asked can give as many more approvals as the machine allows, one accepted request each, when each is in the employee table in a role that may decide. |
| Freezing.CompletableClaimCanBeVerified | backend/src/expense_api/approvals/service.py:147-167 | A completable round whose remaining people may all decide has a continuation of one request per person left that verifies it. |
| Freezing.VerifiableExactly | backend/src/expense_api/identity/deps.py:71-87 | Wherever its round stands, a claim can be verified by approval requests of the people in the employee table exactly when the round is completable and everybody still to be asked is there in a role that may decide. |
| Freezing.ReturnedClaimCanBeResubmitted | backend/src/expense_api/claims/materialise.py:78-96 | After any run that ends in an accepted return the owner's complete draft is accepted and opens the round after that return, with all earlier steps superseded. |
| Freezing.ReturnedClaimCanBeVerified | backend/src/expense_api/claims/materialise.py:13-15 | When the new chain completes and its people may decide, the resubmitted claim can then be verified. |
| Freezing.UnmanagedClaimIsNeverVerified | backend/src/expense_api/claims/lifecycle.py:23-34 | No run verifies the claim of somebody who reports to nobody. |
| Scenarios.LoneFinanceApprovalIsRefused | backend/src/expense_api/claims/materialise.py:95 | An accepted submission of somebody who reports to nobody, and the Finance approval refused for the move from pending approval to verified. |
| Scenarios.OwnClaimIsVerified | backend/src/expense_api/approvals/routing.py:133-148 | A run verified by the claimant's own accepted request, under a sound roster. |
| Scenarios.RejectedClaimIsStillQueued | backend/src/expense_api/approvals/router.py:217-222 | A rejected run whose claim is still in the pending queue of the next person, every verdict of whom is refused. |
| Scenarios.EmptyDecisionVerifies | backend/src/expense_api/approvals/service.py:139-158 | A run after which the service, given a decision that decides nothing, verifies the claim with its Finance step still waiting. |

## Left out

- Claims.DecisionIsAcceptedExactly: the HTTP codes are not modelled, only which refusal comes first.
- Freezing.ReachableHoldsItsSubmission: stored remarks, timestamps, reasons and the event log are left out, since no property depends on them.
- Workbook.Sheet.Export: the header cells, the section subtotals, the disallowed remark and the conversion of amounts to floating point are left out.
- Workbook.ExportWritesOnlyInputs: the header cells and the remark in I46, which the code also writes, are not among the cells modelled.
- Amounts.PrintedAmountAtTheEndIsRead: tokens are given; finding them in a text by pattern is left out.
- Dedup.FingerprintIsExact: lower-casing and stripping are ASCII only.
- PaymentRun.NextRunIsLeast: the end of the calendar in year 9999 is left out.
- The submitted claim's absent row is modelled as a fresh row: a draft at version one.
- Decimal's 28-digit context is left out: amounts are unbounded integers, with the rounding modes the code names.
- Reading mail, OCR, classification and the per-sender parsers: extracted items, with their head, payer and attribution, are arbitrary inputs.
- The history scope of the approval queue, notifications and mail.
- Typed corrections, withdrawal storage, coverage gaps, deadlines, the advance check and trip numbering: small updates that would add only easy members.
- The database, sessions, migrations, seeding and the web framework: each request is one atomic step.
- The whole frontend.
