# Dafny model of the fiscal and infrastructure kernels of a point-of-sale system

The repository is a multi-tenant point of sale: a backend that sells, invoices (Mexican CFDI 4.0) and
takes returns, a control plane, and a desktop application for the owner that updates itself. This
project models the parts whose correctness cannot be read off one function body, and proves what
holds of them over all inputs and all runs.

| file | what it models |
|---|---|
| `SqlRewriter.dfy`, `SqlRewriterProofs.dfy`, `SqlRewriterRestore.dfy`, `SqlRewriterMeaning.dfy`, `SqlRewriterServer.dfy`, `SqlRewriterTokens.dfy`, `SqlRewriterExamples.dfy`, `NamedParameters.dfy` | named SQL parameters to positional ones, in several hiding and restoring passes, against one scan and against what the server reads |
| `LikePattern.dfy` | escaping of search terms, against LIKE matching |
| `ConnectionPool.dfy` | double-checked pool creation and closing by any number of tasks |
| `CsvReport.dfy` | the CSV report and an RFC 4180 reader |
| `Cents.dfy`, `CfdiTotals.dfy`, `QuantityText.dfy`, `CreditNotes.dfy`, `TicketAudit.dfy` | cent arithmetic of invoices and credit notes, the tax-inclusive split, the printed quantity |
| `Returns.dfy` | returns: refund, stock, folios |
| `Calendar.dfy`, `GlobalInvoicing.dfy`, `InvoicingCalls.dfy` | invoicing periods over the Gregorian calendar, global invoicing of a period, and calls that interleave |
| `Versions.dfy`, `UpdateAgent.dfy`, `UpdateSafety.dfy`, `UpdateRaces.dfy`, `UpdateHonesty.dfy`, `UpdateProgress.dfy` | version order and the desktop update agent, interleaved at every `await` |
| `Migrations.dfy` | the startup schema runner under crashes and restarts |
| `Text.dfy` | `str.replace`, decimal printing, shared datatypes |

Code that changes state is a class whose methods are the pieces that run between two awaits (or a
whole call, where calls are serialised). Each method's `ensures` equates the new state with a step
function of the old one, and the theorems are about every sequence of those steps. Money is in whole
cents, quantities in millionths; integers are unbounded.

## What the proofs found

Several properties one would expect do not hold of the code as it stands. Each has the exact condition
under which it does hold, or the steps that break it, and a concrete instance:

- The SQL passes differ from a single scan on `SELECT '::STR1::', 'b'`: the first literal, its casts hidden,
  spells the second one's placeholder (`ConfusionHappens`; exactly when: `RewriteMeetsScan`). A query that
  already holds `$1` gets it read as the first parameter (`StrayHappens`; exactly when: `EvaluationAgrees`).
- A CSV row whose last field ends in a carriage return, and holds no comma, quote, line feed or tab, is written
  bare, and the reader takes that carriage return for part of the line break (`BareCRIsLost`; `RowReads`).
- `process_return` rounds half to even, the CFDI builder half up: on an amount ending half a cent above
  an even cent the refund is below the credit note (`HalfCentDisagrees`; `RefundEqualsCreditNote`).
- A credit note prints two decimals of the quantity but charges all six (`EighthIsCut`; `NoteQuantityExactly`).
- A negative discount changes Total but prints no Descuento (`NegativeDiscountBreaksTotal`; `Build`).
- The check of a return against the quantity sold ignores earlier returns and earlier items of the same
  call (`ReturnsExceedSale`; `StaysWithinExactly`, `ReturnsWithinExactly`), and its error reply keeps what was
  recorded before it (`RefusalKeepsARow`; `RecordsNothingExactly`).
- Folio numbers count rows dated by the database's clock, for a year the application's clock shows before it
  shows the year to print: around New Year folios repeat (`NewYearRepeatsFolio`, `MidnightRepeatsFolio`;
  `FoliosEqualExactly`).
- `get_pool` hands out a pool that `close_pool` is already closing (`CallerGetsAClosingPool`; `LockedPathIsClean`).
- Nothing holds a sale between its selection and its marking: overlapping calls invoice it twice
  (`OverlappingCallsInvoiceTwice`), and so does repeating a call whose document was issued but whose sales
  stayed unmarked (`RepeatAfterFailureInvoicesTwice`; exactly when: `EachSaleAtMostOnceExactly`).
- Invoicing by selection never looks at earlier documents (`SelectionInvoicesTwice`; `SelectionDoubleInvoices`),
  and a sale in a global document can still get its own (`OwnAfterGlobal`; `InvoicedOnceExactly`).
- The update agent accepts a second download while one runs, since a poll resets its status, and can
  then hold unlisted bytes as `staged`, in two ways (`TwoDownloadsStageWrongBytes`,
  `SecondBodyOverwritesStaged`; `SafetyIsLostExactly`, `SafeRunsExactly`). It offers the running version after
  a discard, and stages whatever version the manifest names by then (`DiscardOffersTheSameVersion`,
  `StaleManifestIsStaged`; `HonestyIsLostExactly`).
- A migration whose name sorts before an applied one leaves a database unlike a fresh one
  (`EarlierNameComesLate`; `FreshOrderExactly`).

## Model

| member | source | states |
|---|---|---|
| NamedParameters.NamedToPositional | backend/db/connection.py:70-115 | a call returns the rewritten text with one value for each parameter in order, or the first name the dictionary lacks |
| NamedParameters.NamedToPositionalControlPlane | control-plane/db/connection.py:48-72 | the control plane's copy, appending arguments one by one, gives the same answer |
| NamedParameters.CopiesAgree | control-plane/db/connection.py:48-72 | both copies of the function answer alike on every text and dictionary |
| NamedParameters.SaveLiterals | backend/db/connection.py:83-87 | replacing literals and appending them to a list gives the hidden text and the list of the pass's recursive definition |
| NamedParameters.NumberParameters | backend/db/connection.py:89-98 | the replacer over a growing parameter list numbers every name by its place in that list |
| NamedParameters.RestoreAll | backend/db/connection.py:100-105 | literals are put back in the order they were saved, then the casts |
| SqlRewriterRestore.RewriteMeetsScan | backend/db/connection.py:76-105 | for every NUL-free text the passes produce what one left-to-right scan produces exactly when no placeholder key is spelled between two places still hidden at its turn; the parameter order is the scan's always |
| SqlRewriterTokens.TokensAreUnique | backend/db/connection.py:76-98 | the scan's tokens are the only list that spells the query and obeys four rules: no colon before a colon or a word character stands alone, a name is a whole run of word characters, a literal holds quotes only in pairs and is as long as it can be, a lone quote has none behind it |
| SqlRewriterExamples.NameAfter | backend/db/connection.py:89-98 | a text without literals and casts that ends in a name gets `$1` for it, and the one parameter |
| SqlRewriterExamples.NameAtEnd | backend/db/connection.py:89-98 | `SELECT * FROM sales WHERE id = :sid` becomes `... id = $1` with the parameter sid |
| SqlRewriterProofs.HiddenStep | backend/db/connection.py:76-87 | hiding casts before literals hides the same literals as hiding on the original text would, at every position |
| SqlRewriterProofs.PassesReachItems | backend/db/connection.py:76-98 | after hiding and numbering, the text is the scan's output with every literal and cast still a placeholder |
| SqlRewriterRestore.RestoreStep | backend/db/connection.py:100-102 | putting literal i back changes only its own placeholder, unless its key is spelled by accident, and then the text is torn |
| SqlRewriterRestore.BrokenStays | backend/db/connection.py:100-105 | a torn text is repaired by no later replacement |
| SqlRewriterMeaning.NoKeyNoConfusion | backend/db/connection.py:76-105 | a text in which no digit follows `STR` is always rewritten as the single scan would |
| SqlRewriterExamples.ConfusionHappens | backend/db/connection.py:76-102 | on `SELECT '::STR1::', 'b'` the passes and the scan differ |
| SqlRewriterMeaning.OrderIsFirstUses | backend/db/connection.py:89-96 | the parameter list holds exactly the names used, once each, by first use |
| SqlRewriterServer.WrittenTextReads | backend/db/connection.py:91-98 | the scan's text, read by the server token by token (literals by their quotes, `$` and digits as a parameter), gives back the query's tokens with every name numbered exactly when the query holds no `$` followed by a digit outside literals |
| SqlRewriterServer.RewrittenTextReads | backend/db/connection.py:76-105 | the same for the text the passes produce, exactly when besides no placeholder is confused |
| SqlRewriterServer.NumbersResolve | backend/db/connection.py:91-108 | a number given to a name stays within the final arguments and finds the name's value, though the list grew after it was given |
| SqlRewriterServer.EvaluationAgrees | backend/db/connection.py:70-108 | for NUL-free texts, the rewritten text as the server reads it has every number in range and evaluates with the arguments to the named query with its dictionary, exactly when no placeholder is confused and the query holds no number of its own; the arguments follow first use |
| NamedParameters.AnswerEvaluates | backend/db/connection.py:70-115 | the same about what a successful call returns |
| SqlRewriterExamples.StrayHappens | backend/db/connection.py:91-98 | `SELECT $1, :a` is rewritten to a text that does not read as the query's tokens with its name numbered |
| LikePattern.ChainIsMap | backend/db/connection.py:220-226 | the three chained replaces equal escaping each character on its own |
| LikePattern.EscapedMatchMeansContains | backend/db/connection.py:220-226 | `%` + escaped term + `%` matches a text exactly when the text contains the term, under any case folding |
| LikePattern.UnescapedTermOvermatches | backend/db/connection.py:220-226 | without escaping, a term of one underscore is found where it does not occur |
| ConnectionPool.PoolModule.GetPool | backend/db/connection.py:43-47 | the check without the lock: return the current pool or queue for the lock |
| ConnectionPool.PoolModule.GetPoolLocked | backend/db/connection.py:48-50 | the second check with the lock held |
| ConnectionPool.PoolModule.PoolCreated | backend/db/connection.py:50-57 | the created pool becomes current and is returned, the lock is free |
| ConnectionPool.PoolModule.ClosePoolLocked | backend/db/connection.py:63-65 | closing starts only on a current pool |
| ConnectionPool.PoolModule.PoolClosed | backend/db/connection.py:65-66 | the pool is closed and no longer current |
| ConnectionPool.ReachableStatesAreGood | control-plane/db/connection.py:23-45 | in every reachable state whoever creates or closes holds the lock, and only the current pool may be open |
| ConnectionPool.AtMostOnePoolOpen | backend/db/connection.py:43-67 | in every reachable state at most one pool is open, and every pool ever created is current or closed |
| ConnectionPool.CreationMeetsNoOpenPool | backend/db/connection.py:48-50 | a pool is created only while none is open and nobody else is inside the lock |
| ConnectionPool.UsableIsLostExactly | backend/db/connection.py:60-67 | the current pool becomes unusable only through a closing that ends its connections and then fails |
| ConnectionPool.ReturnsCurrent | backend/db/connection.py:43-57 | the pool handed out is the current one at that moment |
| ConnectionPool.ReturnsExactly | backend/db/connection.py:43-57 | a pool is handed out exactly by a call that finds one, without or with the lock, or has made one |
| ConnectionPool.GetEndsExactly | backend/db/connection.py:48-57 | a waiting call ends exactly by receiving a pool, by a failed creation or by cancellation, and creates exactly when it finds none under the lock |
| ConnectionPool.CloseEndsExactly | backend/db/connection.py:60-67 | a closing call ends exactly at once without a pool, or when the closing is done or has failed; done, no pool is open or current |
| ConnectionPool.CallerGetsAClosingPool | backend/db/connection.py:46-47 | a caller that passes the first check during a closing holds a closed pool, without any failure |
| ConnectionPool.LockedPathIsClean | backend/db/connection.py:43-57 | a pool handed out is one being closed exactly when it comes from the check before the lock while a closing is under way |
| CsvReport.EscapeField | backend/modules/fiscal/cfdi_sync_service.py:168-180 | the step-by-step rewriting yields strip, guard, doubling and quoting in that order |
| CsvReport.WriteReport | backend/modules/fiscal/cfdi_sync_service.py:182-193 | the file is the header and then every row, its fields escaped and joined with commas |
| CsvReport.GuardIsUndone | backend/modules/fiscal/cfdi_sync_service.py:171-175 | dropping one leading tab from a cell gives the stripped field; no cell opens like a formula |
| CsvReport.StripExactly | backend/modules/fiscal/cfdi_sync_service.py:171-172 | stripping works character by character and takes exactly the codes 0-8, 11, 12 and 14-31 |
| CsvReport.GuardExactly | backend/modules/fiscal/cfdi_sync_service.py:173-175 | a cell gets the tab exactly when its field would open like a formula |
| CsvReport.QuoteExactly | backend/modules/fiscal/cfdi_sync_service.py:176-180 | a cell is quoted exactly when it holds a comma, a quote, a line feed or a tab, and is written as it stands otherwise |
| CsvReport.RowReads | backend/modules/fiscal/cfdi_sync_service.py:176-193 | a written row always reads as one record of as many fields, and with the same cells exactly when its last field does not end in a bare carriage return |
| CsvReport.ReportReadsBack | backend/modules/fiscal/cfdi_sync_service.py:182-193 | any number of rows always reads, and gives back every cell exactly when no row ends in a bare carriage return |
| CsvReport.FieldsComeBack | backend/modules/fiscal/cfdi_sync_service.py:168-193 | if no row ends in a bare carriage return, reading the rows and dropping guard tabs returns every field without its control characters |
| CsvReport.BareCRIsLost | backend/modules/fiscal/cfdi_sync_service.py:176-193 | the field "ok" and a carriage return reads back as "ok" |
| Cents.ModesDifferExactly | backend/modules/fiscal/returns_engine.py:145-147 | half up and half to even differ exactly on ties with an even (for negatives odd) floor |
| Cents.HalfUpIs | backend/modules/fiscal/cfdi_builder.py:200 | the rounding of the builder is to the nearest, ties away from zero |
| Cents.HalfEvenIs | backend/modules/fiscal/returns_engine.py:145-147 | the rounding without a mode is to the nearest, ties to the even neighbour |
| Cents.TaxNeverTies | backend/modules/fiscal/returns_engine.py:147 | 16% of whole cents never falls on half a cent, so both rounding modes give the same tax |
| Cents.TaxError | backend/modules/fiscal/cfdi_builder.py:334 | the rounded tax is within 0.48 cents of the exact 16% |
| Cents.NetNeverTies | backend/v15_math_audit.py:80 | dividing whole cents by 1.16 never falls on half a cent |
| CfdiTotals.BuildComprobante | backend/modules/fiscal/cfdi_builder.py:193-233 | SubTotal, recomputed tax and Total of an invoice, and when Descuento is printed |
| CfdiTotals.BuildConceptos | backend/modules/fiscal/cfdi_builder.py:259-321 | one concepto a line with its amounts, whose sums are the document's; or the first line with a quantity not above zero |
| CfdiTotals.BuildImpuestosConcepto | backend/modules/fiscal/cfdi_builder.py:330-342 | one line's base is within half a cent of quantity × price and its tax within 0.48 cents of 16% of that base |
| CfdiTotals.BuildImpuestos | backend/modules/fiscal/cfdi_builder.py:359-383 | the document's tax node is the sum of the lines', its total printed only when positive |
| CfdiTotals.Build | backend/modules/fiscal/cfdi_builder.py:141-213 | an emitted invoice has SubTotal and tax equal to the sums of its conceptos, and Total = SubTotal − Descuento + tax as printed exactly when the discount is not negative; otherwise a line with a quantity not above zero is refused |
| CfdiTotals.NegativeDiscountBreaksTotal | backend/modules/fiscal/cfdi_builder.py:213-233 | 100.00 with a discount of −5.00 prints Total 121.00 and no Descuento |
| CfdiTotals.BuildCreditNote | backend/modules/fiscal/cfdi_builder.py:500-606 | an emitted credit note is the document an invoice of the same lines without discount is, and agrees with itself |
| CfdiTotals.DocumentSaysTheSale | backend/modules/fiscal/cfdi_builder.py:193-233 | of invoice and credit note: SubTotal within half a cent a line of Σ quantity × price; each concepto with its own line's quantity and price, an Importe within half a cent of their product and its tax within 0.48 cents; document tax within 0.56 cents a line; TotalImpuestosTrasladados exactly when positive; Descuento exactly when positive |
| CfdiTotals.TaxDrift | backend/modules/fiscal/cfdi_builder.py:206-210 | for any number of lines the document tax is within 0.56 cents a line of 16% of Σ quantity × price |
| CfdiTotals.TaxDriftIsTight | backend/modules/fiscal/cfdi_builder.py:206-210 | documents of every length reach that bound |
| QuantityText.QuantityComesBack | backend/modules/fiscal/cfdi_builder.py:294-299 | the printed Cantidad reads back as every multiple of a millionth and shows two to six decimals |
| QuantityText.QuantityIsShort | backend/modules/fiscal/cfdi_builder.py:295-299 | the printed Cantidad has no leading zeros and no zero after two decimals |
| QuantityText.NoteQuantityExactly | backend/modules/fiscal/cfdi_builder.py:588 | the credit note's Cantidad reads back exactly for whole hundredths |
| QuantityText.EighthIsCut | backend/modules/fiscal/cfdi_builder.py:588 | 0.125 is printed exactly on the invoice and as 0.12 on its credit note |
| QuantityText.StripZeros | backend/modules/fiscal/cfdi_builder.py:295 | stripping trailing zeros leaves the significant decimals |
| CreditNotes.GenerateCreditNoteTotals | backend/modules/fiscal/cfdi_service.py:566-584 | stored subtotal, tax taken once and total, or the refusal of an empty list |
| CreditNotes.NetUndoesTax | backend/modules/fiscal/cfdi_service.py:575-579 | taking the tax out of a total that was built by adding it gives the amount back, for every amount |
| CreditNotes.SubtotalsAgree | backend/modules/fiscal/cfdi_service.py:569-580 | the stored subtotal is the printed one, whether items carry subtotals or totals with tax |
| CreditNotes.PreTaxDrift | backend/modules/fiscal/cfdi_service.py:569-580 | whatever the items, the stored subtotal is the subtotals there are plus the other totals over 1.16, to within half a cent for each of these |
| CreditNotes.StoredAgainstPrinted | backend/modules/fiscal/cfdi_service.py:569-584 | the stored tax is within 0.48·(n + 1) cents of the tax printed from the same n lines |
| CreditNotes.SingleItemAgrees | backend/modules/fiscal/cfdi_service.py:581-583 | with one line stored and printed tax are equal |
| CreditNotes.ThreeCentLines | backend/modules/fiscal/cfdi_builder.py:517-525 | lines of three cents print no tax at all, while the stored tax grows with their number |
| TicketAudit.TestMath | backend/v15_math_audit.py:72-90 | for any ticket, not only the script's fifty prices: subtotal plus residual tax is the gross total, and residual tax less line taxes is the sum of the drifts |
| TicketAudit.DriftRepeats | backend/v15_math_audit.py:80-81 | a line's drift depends only on its price modulo 29 cents |
| TicketAudit.DriftTable | backend/v15_math_audit.py:80-81 | exactly the residues 4, 11 (one cent up) and 18, 25 (one cent down) drift |
| TicketAudit.ResidualAgainstLines | backend/v15_math_audit.py:76-90 | for a ticket of any length the difference is counted by those residues and stays within a cent a line |
| TicketAudit.DriftBoundIsTight | backend/v15_math_audit.py:76-90 | tickets of every length reach either bound |
| Returns.ReturnsEngine.ProcessReturn | backend/modules/fiscal/returns_engine.py:88-224 | rows inserted, stock raised, refund and reply of a call; unknown products are skipped; an excess ends the call and keeps what came before |
| Returns.ReturnsEngine.GenerateReturnFolio | backend/modules/fiscal/returns_engine.py:226-238 | the folio prints one reading of the clock and counts the rows of another; if both show one year, its text is new to a table whose folio numbers are within their years' row counts |
| Returns.StockIsConserved | backend/modules/fiscal/returns_engine.py:179-184 | every product's stock grows by exactly what the inserted rows return |
| Returns.RowsWithinSold | backend/modules/fiscal/returns_engine.py:134-143 | every recorded row is of a sold product and at most the quantity sold |
| Returns.RowsAreRequests | backend/modules/fiscal/returns_engine.py:122-177 | one row for each accepted request, in order, with its quantity and the sold price of its product; its subtotal is quantity × price and its tax 16% of the subtotal, each rounded half to even |
| Returns.FirstExcessIsFirst | backend/modules/fiscal/returns_engine.py:137-143 | the product named in a refusal is that of the first excessive request |
| Returns.RefundIsOfTheSale | backend/modules/fiscal/returns_engine.py:145-211 | the reported refund is the sum over the accepted quantities at the sold prices |
| Returns.OneUnitRefund | backend/modules/fiscal/returns_engine.py:145-149 | one of two units sold at 100.00 refunds 116.00 |
| Returns.ReturnsExceedSale | backend/modules/fiscal/returns_engine.py:137-143 | one call can return the sold quantity n times over |
| Returns.StaysWithinExactly | backend/modules/fiscal/returns_engine.py:122-143 | a call leaves a product's returns within its sale exactly when what it asks before its first excessive request fits in what earlier rows left |
| Returns.ReturnsWithinExactly | backend/modules/fiscal/returns_engine.py:88-177 | after any calls, the rows of a sale return of a product exactly what the calls asked before their excesses, hence stay within a quantity exactly when that does |
| Returns.RecordsNothingExactly | backend/modules/fiscal/returns_engine.py:134-143 | a call records nothing exactly when no known product is requested before its first excess |
| Returns.RefusalKeepsARow | backend/modules/fiscal/returns_engine.py:137-143 | a refused call with one recorded row |
| Returns.LineDifference | backend/modules/fiscal/returns_engine.py:145-148 | one line's refund is never above the credit note's line and equal exactly off even half cents |
| Returns.RefundEqualsCreditNote | backend/modules/fiscal/returns_engine.py:145-149 | a refund equals the credit note's Total for the same lines exactly when no line is on an even half cent |
| Returns.ReportedRefundMeetsCreditNote | backend/modules/fiscal/returns_engine.py:145-211 | the refund a call reports against the credit note of the rows it recorded, in the same terms |
| Returns.RefundMeetsCreditNoteOfSale | backend/modules/fiscal/returns_engine.py:145-211 | the reported refund against the credit note of the accepted quantities at the sold prices: never above, equal exactly off even half cents |
| Returns.WholeQuantitiesAgree | backend/modules/fiscal/returns_engine.py:145-149 | whole quantities and whole-cent prices always agree with the credit note |
| Returns.HalfCentDisagrees | backend/modules/fiscal/returns_engine.py:146 | half a unit at one cent refunds nothing while the credit note is for a cent |
| Returns.FolioTextInjective | backend/modules/fiscal/returns_engine.py:238 | different year and number print differently, past five digits too |
| Returns.FolioLooks | backend/modules/fiscal/returns_engine.py:238 | a folio is DEV, the year and the number in five digits, or more when it needs them |
| Returns.BoundKeptExactly | backend/modules/fiscal/returns_engine.py:233-238 | recording rows keeps folio numbers within their year's row count exactly when the printed year ends with more rows than were counted; with one reading of the clock, exactly when the database shows the same year |
| Returns.TableIsBounded | backend/modules/fiscal/returns_engine.py:151-177 | if both readings of the application's clock and the database show the same year at every call, no folio number of a year exceeds that year's rows after any serialised calls |
| Returns.FoliosEqualExactly | backend/modules/fiscal/returns_engine.py:116-238 | two calls print the same folio exactly when they print one year and count equally many rows; if they count one year too, exactly when no call from the first up to the second recorded a row of it |
| Returns.OneReadingEqualExactly | backend/modules/fiscal/returns_engine.py:235-238 | if both calls print the year they count, exactly when that is one year and no call in between recorded a row of it |
| Returns.FoliosAreDistinct | backend/modules/fiscal/returns_engine.py:116-177 | of two calls that print the year they count, the later never gets the folio text of an earlier one that recorded rows dated in the year it printed |
| Returns.NewYearRepeatsFolio | backend/modules/fiscal/returns_engine.py:160-238 | with the application's year ahead of the database's, successive returns share a folio |
| Returns.MidnightRepeatsFolio | backend/modules/fiscal/returns_engine.py:235-238 | a call that counts the old year and prints the new one, and the first call of the new year, share a folio though each recorded a row of the year it printed |
| Calendar.MonthlyIsTheMonth | backend/modules/fiscal/global_invoicing.py:301-306 | a monthly period runs from the first to the last day, December and leap February included |
| Calendar.MonthsClosed | backend/modules/fiscal/global_invoicing.py:301-306 | the days before each month are those of the usual closed form |
| Calendar.DailyIsTheDay | backend/modules/fiscal/global_invoicing.py:296-297 | a daily period holds its own day and no other |
| Calendar.Anchors | backend/modules/fiscal/global_invoicing.py:299 | the model's 1 January 1970 is day 719163, a Thursday, and its 1 January 2024 a Monday |
| Calendar.WeeklyIsTheWeek | backend/modules/fiscal/global_invoicing.py:298-300 | a weekly period is the Monday on or before the date and the six days after |
| Calendar.PeriodFailsExactly | backend/modules/fiscal/global_invoicing.py:296-308 | a period fails only for an unknown type or a week past the last representable day |
| Calendar.PeriodsPartition | backend/modules/fiscal/global_invoicing.py:290-309 | a period holds its reference date, and a date is inside it exactly when it yields that same period |
| Calendar.PeriodsAreConsecutive | backend/modules/fiscal/global_invoicing.py:290-309 | the day after a period opens the next one |
| InvoicingCalls.GlobalInvoicingService.GenerateGlobalCfdi | backend/modules/fiscal/global_invoicing.py:90-105 | a period call up to stamping: the refusals that change nothing, or a call that has selected its sales |
| InvoicingCalls.GlobalInvoicingService.DocumentAnswered | backend/modules/fiscal/global_invoicing.py:105-107 | what stamping's answer leaves: no document, a stored one, or one whose row is missing |
| InvoicingCalls.GlobalInvoicingService.GenerateGlobalCfdiFromSelection | backend/modules/fiscal/global_invoicing.py:138-168 | a call by selection up to stamping, with its three refusals |
| InvoicingCalls.GlobalInvoicingService.MarkRows | backend/modules/fiscal/global_invoicing.py:111-128 | the loop moves every sale of series B to A and links each sale once |
| InvoicingCalls.GlobalInvoicingService.MarkSales | backend/modules/fiscal/global_invoicing.py:107-133 | the marking transaction ends its call and reports how many sales it had |
| InvoicingCalls.WholeCall | backend/modules/fiscal/global_invoicing.py:90-136 | the pieces of a call with nothing in between make up the effect of one whole call, for every outcome |
| GlobalInvoicing.IssueKeepsExactly | backend/modules/fiscal/global_invoicing.py:104-128 | a document over any set of sales keeps "no sale in two documents" exactly when none of them is in one already |
| GlobalInvoicing.IssueInvoicesOnceExactly | backend/modules/fiscal/global_invoicing.py:104-128 | a document over any set of sales keeps every sale in one CFDI, of its own or global, exactly when none of them has either |
| GlobalInvoicing.SelectionDoubleInvoices | backend/modules/fiscal/global_invoicing.py:145-168 | a selection double-invoices exactly when it names an uncancelled sale that is in a global CFDI or has one of its own |
| GlobalInvoicing.SelectionInvoicesTwice | backend/modules/fiscal/global_invoicing.py:149-168 | a sale with its own CFDI, selected by its number, is invoiced again |
| GlobalInvoicing.PendingIsUninvoiced | backend/modules/fiscal/global_invoicing.py:311-323 | no sale tied to a CFDI is selected by the pending query |
| GlobalInvoicing.BatchIsOfThePeriod | backend/modules/fiscal/global_invoicing.py:313-320 | a period call selects only uncancelled sales of series B in the period without a CFDI of their own, and all of them unless it reaches 10000 |
| GlobalInvoicing.MarkExactly | backend/modules/fiscal/global_invoicing.py:112-116 | marking moves the selected sales of series B to A and touches nothing else |
| GlobalInvoicing.LinkExactly | backend/modules/fiscal/global_invoicing.py:117-128 | linking adds a pair for each row, if the document has a number, and nothing else |
| GlobalInvoicing.ConsistencyIsLostExactly | backend/modules/fiscal/global_invoicing.py:104-133 | a period call with nothing in between loses consistency only by a document whose sales stay unmarked |
| InvoicingCalls.EachSaleAtMostOnce | backend/modules/fiscal/global_invoicing.py:90-136 | if calls are by period and come one after another, and every document's sales are marked before the next selection, no sale is in two global documents |
| InvoicingCalls.EachSaleAtMostOnceExactly | backend/modules/fiscal/global_invoicing.py:90-198 | in any interleaving of period calls, calls by selection, sales, cancellations and own invoices, no sale is in two global documents exactly when no call's document is over a sale that was in one when the call selected it or got into one between selection and document |
| InvoicingCalls.PendingIsOpenExactly | backend/modules/fiscal/global_invoicing.py:311-323 | a sale a period call selects has no CFDI of its own, and is in a document exactly when an earlier call issued it and none has marked the sale |
| InvoicingCalls.StaysInBExactly | backend/modules/fiscal/global_invoicing.py:112-116 | in any run a sale stays in series B exactly until it is marked or promoted by its own CFDI |
| InvoicingCalls.LinksExactly | backend/modules/fiscal/global_invoicing.py:117-128 | in any run a sale is linked to a document's row exactly when a call marked it for that document |
| InvoicingCalls.OneDocumentPerCall | backend/modules/fiscal/global_invoicing.py:105-128 | a call has at most one answer from stamping and one marking, in this order |
| InvoicingCalls.SerialExactly | backend/modules/fiscal/global_invoicing.py:90-198 | if no document comes between a call's selection and its own, only what was covered at the selection decides |
| InvoicingCalls.OverlappingCallsInvoiceTwice | backend/modules/fiscal/global_invoicing.py:97-128 | two calls of one period overlap, both issue and both mark, and the sale is in two documents |
| InvoicingCalls.InvoicedOnceExactly | backend/modules/fiscal/global_invoicing.py:90-198 | in any interleaving, no sale is in two documents, of its own or global, exactly when besides no document is over a sale that had its own CFDI at the selection or got it since, and no sale in a document gets its own |
| InvoicingCalls.OwnAfterGlobal | backend/modules/fiscal/global_invoicing.py:318 | a sale in a global document is given a CFDI of its own |
| GlobalInvoicing.DefaultCoversYesterday | backend/modules/fiscal/global_invoicing.py:94-96 | a call without a date is about the period of the day before, the same for every day of that period |
| GlobalInvoicing.PeriodOfCall | backend/modules/fiscal/global_invoicing.py:290-294 | a text that is no date stands for the present day; a date is in its call's period |
| GlobalInvoicing.RepeatAfterFailureInvoicesTwice | backend/modules/fiscal/global_invoicing.py:105-136 | repeating a call whose document was left unmarked invoices its sales twice |
| GlobalInvoicing.CallsDrain | backend/modules/fiscal/global_invoicing.py:311-323 | k successful calls of a period, with nothing in between, leave all but 10000·k of its pending sales |
| GlobalInvoicing.BatchesCoverWhatLeft | backend/modules/fiscal/global_invoicing.py:97-128 | a sale pending before is, after k calls, still pending or in one of their batches, never both |
| GlobalInvoicing.BatchesAreInTimeOrder | backend/modules/fiscal/global_invoicing.py:319 | no sale of a later call is older than one of an earlier call |
| GlobalInvoicing.DrainedPeriodReportsNone | backend/modules/fiscal/global_invoicing.py:98-102 | once drained, the next call reports that nothing is pending and changes nothing |
| Versions.IsVersionGreater | owner-app/electron/ownerAgent.ts:89-103 | the loop answers true exactly when the first differing number, padding with zeros, is larger |
| Versions.VersionReads | owner-app/electron/ownerAgent.ts:80-87 | a text of parts separated by `.`, `-` or `+`, in spaces and after a `v` or not, reads as the numbers its parts start with; parts without one are dropped |
| Versions.PrintedVersionReads | owner-app/electron/ownerAgent.ts:80-87 | any numbers, printed with any of the separators, read back |
| Versions.PrintedVersionsCompare | owner-app/electron/ownerAgent.ts:80-103 | printed versions compare as their numbers |
| Versions.TenIsAfterNine | owner-app/electron/ownerAgent.ts:80-103 | 1.10.0 is newer than 1.9.0 |
| Versions.NewerIsIrreflexive | owner-app/electron/ownerAgent.ts:89-103 | no version is newer than itself |
| Versions.NewerIsTransitive | owner-app/electron/ownerAgent.ts:89-103 | newer is transitive over versions of any length |
| Versions.Trichotomy | owner-app/electron/ownerAgent.ts:93-102 | two versions are incomparable exactly when they are equal up to zero padding |
| Versions.NewerRespectsPadding | owner-app/electron/ownerAgent.ts:97-98 | versions equal up to padding compare alike with every other, so the order is a strict weak one |
| Versions.UpgradesNeverReturn | owner-app/electron/ownerAgent.ts:209-215 | no sequence of upgrades comes back to a version or goes below an earlier one |
| UpdateAgent.OwnerUpdateAgent.CheckForUpdate | owner-app/electron/ownerAgent.ts:185-197 | a poll up to its request |
| UpdateAgent.OwnerUpdateAgent.CheckForUpdateAnswered | owner-app/electron/ownerAgent.ts:199-235 | what a poll's answer makes of the status |
| UpdateAgent.OwnerUpdateAgent.DownloadUpdate | owner-app/electron/ownerAgent.ts:238-253 | a download is accepted only while the status is `available` |
| UpdateAgent.OwnerUpdateAgent.DownloadManifestAnswered | owner-app/electron/ownerAgent.ts:253-269 | the manifest is re-read and its address checked before the body is requested |
| UpdateAgent.OwnerUpdateAgent.DownloadBytesAnswered | owner-app/electron/ownerAgent.ts:269-280 | the body is written before it is verified; without a checksum list it is removed |
| UpdateAgent.OwnerUpdateAgent.DownloadSumsAnswered | owner-app/electron/ownerAgent.ts:280-318 | only a body with the listed digest is staged |
| UpdateAgent.OwnerUpdateAgent.ApplyUpdate | owner-app/electron/ownerAgent.ts:320-345 | the installer starts only from `staged`, on the staged path |
| UpdateAgent.OwnerUpdateAgent.DiscardUpdate | owner-app/electron/ownerAgent.ts:347-362 | the staged file is dropped and the status set from the last version seen |
| UpdateProgress.InstallersExactly | owner-app/electron/ownerAgent.ts:320-345 | in every run the installers started are those of its applications of a staged update, in order, each on the path staged then and the bytes then in it |
| UpdateProgress.UpdateIsInstalled | owner-app/electron/ownerAgent.ts:185-457 | a poll, a download whose digest is listed and an application start one installer, on exactly the downloaded bytes |
| UpdateProgress.OffersExactly | owner-app/electron/ownerAgent.ts:209-225 | the status becomes `available` exactly through a poll that finds a newer version with something to download, or a discard after a version was seen |
| UpdateProgress.PollEndsExactly | owner-app/electron/ownerAgent.ts:200-233 | a poll ends in an error exactly without a manifest, idle exactly with one that offers no upgrade, and notes the version of any complete one |
| UpdateProgress.AcceptsExactly | owner-app/electron/ownerAgent.ts:238-250 | a download is taken up exactly when asked for while an update is on offer |
| UpdateProgress.ManifestGoesOnExactly | owner-app/electron/ownerAgent.ts:253-269 | a download asks for its body exactly when the manifest is complete, its address trusted and the directory there |
| UpdateProgress.BodyGoesOnExactly | owner-app/electron/ownerAgent.ts:269-280 | a body goes on to verification exactly when it was written and a trusted checksum list is named |
| UpdateProgress.StagesExactly | owner-app/electron/ownerAgent.ts:280-307 | an update is staged exactly when a download's body has the listed digest, and then it is that download's |
| UpdateProgress.RejectedIsRemoved | owner-app/electron/ownerAgent.ts:282-296 | a body that fails verification is reported and its file removed where removal works |
| UpdateProgress.DownloadsEndInTwoWays | owner-app/electron/ownerAgent.ts:252-315 | a download leaves flight staged or reported as failed |
| UpdateProgress.RefusalsOnlyReport | owner-app/electron/ownerAgent.ts:239-248 | a refused download or application changes the status only |
| UpdateProgress.FailedApplyExactly | owner-app/electron/ownerAgent.ts:326-345 | a failed application reports it and starts nothing; the update stays staged unless `spawn` itself threw |
| UpdateProgress.FailedWriteExactly | owner-app/electron/ownerAgent.ts:269-315 | a body that cannot be written leaves what the failed write left |
| UpdateProgress.DiscardDrops | owner-app/electron/ownerAgent.ts:347-362 | a discard forgets the staged path and removes that file only |
| UpdateSafety.SafetyIsLostExactly | owner-app/electron/ownerAgent.ts:185-362 | that `staged` means a verified file with bytes listed for it, and installers started on such bytes, is lost by exactly two steps: a body verified while its file holds unlisted bytes, and an accepted unlisted body written over the staged file |
| UpdateSafety.SafeRunsExactly | owner-app/electron/ownerAgent.ts:185-362 | a run is safe in every state exactly when none of its steps is one of these two |
| UpdateSafety.EveryStateIsSafe | owner-app/electron/ownerAgent.ts:185-362 | in every interleaving in which no two downloads in flight write one file, nor one the staged file, `staged` means a verified path whose file, if present, has a digest listed for that file, and installers were started only on such files |
| UpdateSafety.OneDownloadIsSafe | owner-app/electron/ownerAgent.ts:185-362 | the same in every interleaving with at most one download in flight |
| UpdateSafety.LaunchedFileStays | owner-app/electron/ownerAgent.ts:404-457 | until a body for it arrives, a file keeps its bytes or is gone, the one handed to the installer too |
| UpdateRaces.TwoDownloadsStageWrongBytes | owner-app/electron/ownerAgent.ts:209-270 | with two downloads of one file the agent stages bytes no list named for it |
| UpdateRaces.SecondBodyOverwritesStaged | owner-app/electron/ownerAgent.ts:269-306 | a second download's body is written over the staged file, which stays staged |
| UpdateHonesty.HonestyIsLostExactly | owner-app/electron/ownerAgent.ts:298-362 | `available` and `staged` name a newer version after every step but two: a discard after an up-to-date poll, and staging a version nobody compared again |
| UpdateHonesty.HonestRunsExactly | owner-app/electron/ownerAgent.ts:209-362 | a run only ever offers and stages upgrades exactly when none of its steps is one of those two |
| UpdateHonesty.DiscardOffersTheSameVersion | owner-app/electron/ownerAgent.ts:217-362 | an up-to-date agent offers its own version after a discard |
| UpdateHonesty.StaleManifestIsStaged | owner-app/electron/ownerAgent.ts:253-306 | offered 2.0.0, the agent downloads when the manifest has gone back and stages its own version |
| Migrations.ControlPlane.EnsureSchema | control-plane/main.py:68-101 | a startup cut after any number of database actions leaves the state of the stepwise definition |
| Migrations.BootKeepsFaithful | control-plane/main.py:68-101 | every startup, however cut, keeps recorded names and effects in step and each effect single |
| Migrations.CutLeaves | control-plane/main.py:68-101 | a first startup cut after any number of actions leaves the name table, the base schema and the first migrations, one for each further action |
| Migrations.RestartsAreFaithful | control-plane/main.py:88-101 | after any crashes and restarts, of any releases, each migration took effect at most once and exactly the recorded ones did |
| Migrations.BootExtendsPrefix | control-plane/main.py:88-101 | a startup extends an applied prefix of the sorted list, to all of it if it is not cut |
| Migrations.RestartsKeepPrefix | control-plane/main.py:88-101 | if new names sort after old ones, what took effect is always a prefix of the latest sorted list |
| Migrations.RestartsEqualOneRun | control-plane/main.py:68-101 | if new names sort after old ones, a last startup that is not cut leaves the database of one uninterrupted startup on an empty one |
| Migrations.ApplyAppendsMissing | control-plane/main.py:91-101 | a startup that is not cut appends exactly the missing files in sorted order |
| Migrations.FreshOrderExactly | control-plane/main.py:88-101 | without the assumption on names, a full startup ends like a fresh one exactly when the log was a prefix of the sorted list |
| Migrations.EarlierNameComesLate | control-plane/main.py:91-101 | a release that adds "a" to "b" applies them in the other order than a fresh database |

## Left out

- The coercion of date and datetime texts among the SQL arguments, which is library parsing; arguments are taken as they stand in the dictionary.
- SQL texts that contain NUL: the rewriter's equivalence is stated for NUL-free texts.
- The regular expression class `\w` is an arbitrary predicate that excludes NUL, colon, quote and dollar sign, and for what the server reads includes the decimal digits; the two expressions themselves are explicit scans with their backtracking.
- SqlRewriterServer.EvaluationAgrees: the server's reader knows quoted literals, `::` and `$` with digits; comments, dollar quotes, quoted identifiers, backslash escapes in literals and `$` inside identifiers are not modelled.
- The pool's queue order, fairness and liveness of the lock, and the connections inside a pool.
- The report's database query, header row contents and file handling; a field is the text `str` gives for it.
- Decimal contexts: sums and products are exact, as they are within the 28 digits of Python's default context. Prices, discounts and subtotals are whole cents; more decimals are not modelled.
- CfdiTotals.BuildConceptos: amounts and order of the elements only; catalogue keys, descriptions, the XML itself, emitter and receiver nodes and payment-method mapping are not modelled.
- CreditNotes.GenerateCreditNoteTotals: the look-up of the original invoice, folio reservation and stamping are not modelled.
- `_reserve_folio` of the CFDI service: one atomic UPDATE with no further logic.
- Returns.ReturnsEngine.ProcessReturn: a sale lists a product once; a sale with several rows of one product, the inventory movement rows and database failures in the middle of a call are not modelled. Folio uniqueness is not assumed of the table, as in backend/db/schema.sql.
- Returns.RefundEqualsCreditNote: for amounts that are not negative; the CFDI builder refuses quantities that are not positive.
- Calendar.CalculatePeriod: dates are values; parsing and printing of their texts, and printing of years below 1000, are not modelled.
- InvoicingCalls.GlobalInvoicingService.GenerateGlobalCfdi: the amounts and items of the document and the choice of issuer are not modelled; what stamping comes to is an input, and stamping and storing the document's row are one step. A sale's own CFDI is one fact, however many were issued.
- Migrations.RestartsAreFaithful: databases start empty; one that had tables before names were recorded, concurrent startups, and migration files that end their own transaction are not modelled.
- Numbers in versions are unbounded; above 2^53 the original compares rounded values, and a part so long that it overflows to Infinity (about 309 digits) is dropped.
- The network, the manifest's JSON, the parsing of SHA256SUMS and the trust of addresses are inputs of the update agent; SHA-256 is an arbitrary function. The AppImage script moves the file after the application exits; contents are recorded when it is started, and `LaunchedFileStays` says what can happen to them until then.
- Licences, RBAC, alarms, catalogues, tax-regime checks, payment complements and CRUD routes: single-branch facts or table data.
- Cryptography, HTTP, mail and messaging.
- The fiscal modules that split, move or conceal records, which are outside the purpose of this model.
