# EduGear: the rules that hold across its services

EduGear is a school back end: services over one PostgreSQL database, with a Redis permission cache
and an object store for files. This project models the parts of it where several functions, or
several concurrent transactions, have to agree, and proves what they agree on.

- **Money.** Recording, verifying and rejecting payments and assigning, discounting, waiving and
  cancelling invoices are small programs of statements interleaved at READ COMMITTED with row
  locks (`InvoiceProtocol`). Every reachable state keeps paid amounts, statuses and the ceiling
  right (`InvoiceInvariant`), receipts are consecutive (`ReceiptOrder`, `NumberSequence`) exactly
  as long as the prefix is not changed under a number that can still be committed or under a count
  that has been overtaken (`PrefixChange`, with `ScriptedRuns` for runs written out; a
  verification reads the receipts and the prefix at two moments), and the parent's statement, the
  debtor report and the outstanding total are the same money computed three ways
  (`StatementLedger`, `LedgerMeaning`, `LedgerBalance`, `DebtorReport`, `FinanceAgreement`).
  `AmountInWords` has an inverse.
- **Results.** Totals, averages, grades, places and missing scores (`Grading`, `Ranking`,
  `ComputeResults`, `ResultMeaning`, `ResultLaws`); the stored snapshot rebuilt in place
  (`ResultRows`, `SnapshotMeaning`); batches of scores (`ScoreEntries`); and the DRAFT, SUBMITTED,
  APPROVED, PUBLISHED machine, first one operation at a time (`SheetRules`), then as interleaved
  transactions shown to be serial (`SheetProtocol`). `Assessment` is the scheme and the scale
  under change.
- **Access.** Roles, memberships and what may be granted (`RoleSlugs`, `AccessRules`,
  `AccessMeaning`); the same requests reading first, counting proprietors next and writing last,
  with invitations outstanding (`AccessProtocol`, `ProprietorRace`); the permission cache in its
  two forms (`MembershipCache`); and the query rewriting that separates tenants (`TenantGuard`).
- **Students and files.** Seats, admission numbers and the import (`Enrolment`,
  `EnrolmentMeaning`, `StudentImport`, `ImportMeaning`); the seats again with unlocked reads,
  counts under the arms' locks and commits interleaved (`CapacityRace`); uploads, replacements and
  deletions interleaved with crashes (`FileStorage`, `FileReplacement`).

The services update tables step by step, so each of these parts also has a class whose methods
write the tables in place (`InvoiceStore`, `SheetStore`, `ResultRows.SnapshotStore`,
`AssessmentStore`, `AccessStore`, `MembershipStore`, `FileStore`, `EnrolmentStore`). A method for
one statement is proved equal to the step of its protocol, and the theorems are about runs of
those steps; methods for whole requests (verifying, rejecting and recording a payment,
discounting, waiving and cancelling a bill, assigning a fee, each request on a sheet, an upload, a
replacement, a deletion, an invalidation) put the statements together and state what the caller
gets. The rules that statements and theorems are written with are themselves pinned down: the
`*Meaning` modules and the lemmas named `...Exactly` say, of the tables alone, when each request
is allowed and what it leaves.

Money is whole kobo and marks are whole hundredths. Ids are natural numbers. `Sequences`, `Text`
and `Wrappers` hold sums, a stable sort, trimming and an option type.

What came out false as first put, and is proved with its exact condition:

- a discount given after payment makes the statement dip below zero
  (`FinanceAgreement.LateDiscountDips`): a bill's share of the balance never does exactly when no
  more was paid on it than is payable (`LedgerBalance.BillNeverDipsIff`), and the statement closes
  on the expected balance exactly when no live invoice is overpaid;
- a prefix change while a verification holds a number repeats a sequence
  (`PrefixChange.PrefixChangeRepeatsASequence`), and so does one between a verification's read of
  the receipts and its read of the prefix, when another receipt was issued since
  (`PrefixChange.OvertakenCountRepeatsASequence`); the change is harmless in every continuation
  exactly when no verification holds a number it can still commit and none stands on an overtaken
  count whose number is free under the new prefix (`PrefixChange.PrefixMayChangeIff`);
- amounts in words determine the amount exactly below 10^15 naira (`AmountInWords.WordsApartIff`);
- a generated admission number continues its year exactly when the prefix is empty or itself
  begins with the year (`Enrolment.NextNumberIsFreeIff`): the lookup is by `<year>/`, so with a
  prefix such as `SCH` the second generated number of a year repeats the first and is refused,
  although the comment beside the pattern says that the sequence continues across prefixes;
- invalidating a role or a user reads and deletes in two calls, and leaves nothing behind exactly
  when nothing unseen by the read was stored between them and is still live
  (`MembershipCache.DropClearsIff`, `MembershipCache.DropClearsOwnGapIff`);
- the two-pass rename trips the unique index exactly when a row's placeholder is a later row's
  name, or a row is renamed to a later row's placeholder (`Assessment.RenameAll`);
- evidence of a payment stays, whatever follows, exactly when no removal already decided comes to
  it (`FileStorage.EvidenceSurvivesIff`, `FileStorage.RemovalAlreadyDecidedWins`);
- two replacements of one link can each delete the other's file
  (`FileReplacement.ReplacementsDeleteEachOther`); a file that is not evidence stays, however the
  requests under way go on, exactly when none comes to it and none is yet to read it
  (`FileReplacement.KeptIff`);
- proprietors are counted without a lock: a school is left without one exactly by a write that
  takes a proprietor after other writes have taken, since its request last read, everybody else
  who was one then, with no newcomer left (`ProprietorRace.RecoverableThroughoutIff`), and any two
  of a suspension, a revocation and a change of role can do it (`ProprietorRace.TwoRemovalsRace`);
- a revoked member stays out exactly when no invitation is live and no request past its checks
  lets the member back: revoking does not consume invitations (`AccessProtocol.RevokedStaysOutIff`);
- an arm is overfilled exactly by a write before which more have arrived, since its request read
  the roll, than there were seats to spare (`CapacityRace.SeatedThroughoutIff`): a capacity checked
  without a lock (`CapacityRace.AdmissionBetweenCrowds`), or a move or a return to the roll that
  decided from a stale read which seat to ask for (`CapacityRace.MoveOvertakenCrowds`,
  `CapacityRace.ReturnOvertakenCrowds`);
- the tenant guard confines exactly the operations it lists (`TenantGuard.ConfinedIffListed`).

## Model

| member | source | states |
|---|---|---|
| FeeMath.OwingIffBalance | src/finance/fee-math.ts:24-64 | A status derived from the amounts is among the owing ones exactly when a positive balance remains |
| FeeMath.MoneyExactly | src/finance/fee-math.ts:24-64 | What is owed is the total less the discount and never below zero, what is still owed is that less what was paid; a closed status stays, and otherwise nothing owed or all of it paid is PAID, a part of it PARTIAL, none of it UNPAID |
| InvoiceInvariant.EveryRunKeepsTheMoneyRight | src/finance/payments.service.ts:59-230 | In every interleaving, with crashes and retries, each invoice's paid amount is the sum of its verified payments, its status is closed or the derived one, and verified plus pending money is at most the total |
| InvoiceInvariant.RecordingFitsPayable | src/finance/payments.service.ts:367-393 | At the moment a payment is committed, verified plus pending money, the new payment included, is at most what is payable after the discount |
| InvoiceInvariant.LocksExclude | src/database/row-lock.ts:29-46 | No two transactions are past the lock of one invoice at the same time in any run |
| InvoiceInvariant.NextKeeps | src/finance/student-fees.service.ts:284-297 | Every single event keeps the committed tables right and every transaction's reads under the lock current |
| InvoiceInvariant.CommitKeeps | src/finance/payments.service.ts:307-341 | Publishing a transaction's buffered rows leaves every invoice consistent with the payments then on file |
| InvoiceInvariant.SweepKeeps | src/finance/paystack/paystack.service.ts:321-352 | Deleting an abandoned pending payment without the invoice lock, at any moment, still keeps the money right |
| InvoiceInvariant.SweepFrees | src/finance/paystack/paystack.service.ts:321-352 | Sweeping takes a payment off its invoice's pending money exactly when it is still pending and nobody is writing it; every other payment and invoice is as it was |
| InvoiceInvariant.AssignedIsBilledOnce | src/finance/student-fees.service.ts:68-138 | Once a fee has been assigned, in any interleaving, each student asked for has exactly one bill for that structure, whoever else was billing at the time |
| InvoiceInvariant.BatchIsWholeOrNone | src/finance/student-fees.service.ts:104-138 | In any reachable state the batch either leaves every student asked for with one bill, each new bill being for a student asked for and not yet billed, or changes no table |
| InvoiceStore.SumPayments | src/finance/payments.service.ts:320-325 | The loop gives the sum of one invoice's verified amounts, the sum of its pending ones, and how many payments are either |
| InvoiceStore.FinanceStore.CountReceipts | src/finance/payments.service.ts:343-357 | The loop over the receipts carrying the year, whatever their prefix, gives one past the highest sequence on file |
| InvoiceStore.FinanceStore.RecalculateInvoice | src/finance/payments.service.ts:307-341 | Rebuilds the invoice row from all its verified payments, the buffered change included |
| InvoiceStore.FinanceStore.DiscountInvoice | src/finance/student-fees.service.ts:214-239 | Run by itself, an open invoice takes any discount up to its total, which replaces the former one, and its status follows the amounts; otherwise no row changes |
| InvoiceStore.FinanceStore.WaiveInvoice | src/finance/student-fees.service.ts:241-251 | Run by itself, an open invoice is waived with its amounts as they were; otherwise no row changes |
| InvoiceStore.FinanceStore.CancelInvoice | src/finance/student-fees.service.ts:253-278 | Run by itself, an invoice not yet cancelled is cancelled exactly when none of its payments is pending or verified; otherwise no row changes |
| InvoiceStore.FinanceStore.IssueInvoices | src/finance/student-fees.service.ts:104-138 | One new invoice per target in order, paid at once when it comes to nothing, or none when one is already billed |
| InvoiceStore.FinanceStore.AssignFee | src/finance/student-fees.service.ts:68-138 | Run by itself, every student asked for has a bill of the structure, each new one being for a student asked for who had none, for the structure's total, with nothing paid and paid status only when the total is nothing; other rows stay |
| InvoiceStore.FinanceStore.Commit | src/finance/payments.service.ts:134-163 | Publishes the buffered rows, releases the lock, and the invariant holds at once |
| InvoiceStore.FinanceStore.VerifyPayment | src/finance/payments.service.ts:121-187 | Run by itself, verifying succeeds exactly for a pending payment whose next number is free, always so in a four-digit year; the payment gets the year's highest sequence plus one and its invoice the sum of its verified payments, and a failure changes no row |
| InvoiceStore.FinanceStore.RejectPayment | src/finance/payments.service.ts:190-215 | Run by itself, rejecting succeeds exactly for a pending or verified payment, which keeps its receipt while its invoice gives the money back; otherwise no row changes |
| InvoiceStore.FinanceStore.RecordPayment | src/finance/payments.service.ts:59-118 | Run by itself, recording adds one pending payment exactly when the invoice is open and the amount fits beside what is verified and pending |
| NumberSequence.MatchDeterminesParse | src/finance/receipt-number.ts:7-7 | Whatever way the pattern matches a number, the scan from the end reads that same year and sequence |
| NumberSequence.ParseFindsMatch | src/finance/receipt-number.ts:7-7 | Whatever the scan reads is a match of the pattern |
| NumberSequence.ParseFormat | src/finance/receipt-number.ts:9-16 | A printed number reads back as its own year and sequence whatever the prefix |
| NumberSequence.FormatExactly | src/finance/receipt-number.ts:9-16 | A printed number is the prefix, the year and the sequence with slashes between, the sequence led by noughts up to the width and never cut |
| NumberSequence.OffPatternYear | src/finance/receipt-number.ts:7-16 | A number printed for a year that is not four digits is never read back |
| NumberSequence.NextSequence | src/finance/receipt-number.ts:18-31 | The next sequence is past every number of the year and exactly one past one of them, or one |
| NumberSequence.AllocationIsFresh | src/finance/receipt-number.ts:18-31 | The allocated number is none of those read, and adding it moves the year's highest up by exactly one |
| ReceiptOrder.ReceiptsAreConsecutive | src/finance/payments.service.ts:132-187 | The receipts of a year are 1, 2, ..., k in commit order in every interleaving with retries, crashes and rejections, the receipts and the prefix read at two moments, the prefix changing only while no verification holds a number it can still commit and none stands on an overtaken count whose number the new prefix leaves free |
| ReceiptOrder.ReceiptNeverMoves | src/finance/payments.service.ts:190-230 | Once issued, a receipt stays on its payment after any further events, the rejection of that payment included |
| ReceiptOrder.EveryRunKeepsReceipts | src/finance/payments.service.ts:132-187 | Counts read, numbers chosen and numbers buffered are next in line or already overtaken, receipts on file are exactly those issued, and pending payments carry none |
| ReceiptOrder.NextReceiptContinues | src/finance/payments.service.ts:343-357 | Reading whatever carries the year, under any prefix, the next sequence is the highest on file plus one |
| ReceiptOrder.ReceiptPrinted | src/finance/payments.service.ts:343-361 | A printed receipt is found again by the year search, reads back as its sequence, and counts in no other year |
| PrefixChange.PrefixChangeRepeatsASequence | src/finance/payments.service.ts:132-187 | From the empty school, event by event: a number held, the prefix changed, another receipt issued and the first committed give 2025 two receipts numbered one |
| PrefixChange.OvertakenCountRepeatsASequence | src/finance/payments.service.ts:343-361 | From the empty school, event by event: a verification counts, another issues the receipt, the prefix changes with no number held, and the first commits the same sequence under the new prefix |
| PrefixChange.PrefixMayChangeIff | src/finance/payments.service.ts:343-361 | In any reachable state, changing to another prefix leaves every four-digit year consecutive through every continuation exactly when no verification holds a number that it can still commit, and none that has counted and not yet read the prefix was overtaken at a number free under the new one |
| StatementLedger.BuildLedger | src/finance/statement-ledger.ts:55-155 | The pushed, sorted and running-totalled rows are the statement of the invoices and payments |
| StatementLedger.FindPostingDate | src/finance/statement-ledger.ts:144-155 | An invoice is posted when it was created or at its first verified payment, whichever is earlier |
| StatementLedger.RunBalance | src/finance/statement-ledger.ts:126-133 | Each entry carries the sum of debits less credits up to and including it |
| LedgerMeaning.EntriesExactly | src/finance/statement-ledger.ts:55-124 | A statement has exactly these entries: for each live bill its total charged when posted, its discount then if there is one, and what was still owed when it was waived; for each verified payment of a live bill its amount when paid |
| LedgerMeaning.InOrder | src/finance/statement-ledger.ts:47-53 | Entries go by date, and on one date charges come before discounts, those before payments, and those before waivers |
| LedgerBalance.StatementNeverDips | src/finance/statement-ledger.ts:48-53 | After every entry the running balance is non-negative when no live invoice is overpaid, because each charge comes before every credit against it |
| LedgerBalance.BillNeverDipsIff | src/finance/statement-ledger.ts:48-53 | What one live bill contributes to the running balance stays at or above zero at every cut of the statement exactly when no more was paid on it than is payable |
| LedgerBalance.StatementCloses | src/finance/statement-ledger.ts:55-168 | The closing balance is the expected one less the total overpaid on live invoices |
| LedgerBalance.StatementClosesAsExpectedIff | src/finance/statement-ledger.ts:158-168 | The statement closes on the expected balance exactly when no live invoice is overpaid |
| LedgerBalance.BillNeverNegative | src/finance/statement-ledger.ts:69-133 | At every prefix of a statement each single bill's entries net to at least zero when it is not overpaid |
| DebtorReport.GroupByStudent | src/finance/finance-reports.service.ts:174-217 | A row for exactly the students with a bill that has a balance: the sum of those balances, their number, the earliest of their due dates or none when none has one, and overdue exactly when one of them was due before today |
| DebtorReport.GroupingConserves | src/finance/finance-reports.service.ts:174-253 | The debts of the students add up to the outstanding total |
| FinanceAgreement.MoneyAgreesInEveryRun | src/finance/finance-documents.service.ts:126-147 | In every reachable state the statement's close, the expected balance, the outstanding total and the sum of the debtors' debts agree, the overpaid difference stated |
| FinanceAgreement.ExpectedIsOutstanding | src/finance/statement-ledger.ts:158-168 | The expected closing balance over all live bills is the outstanding total over the owing ones only |
| FinanceAgreement.StatementRowsWellKept | src/finance/finance-documents.service.ts:126-147 | What the finance tables hand the ledger in a reachable state is what the ledger's guarantees ask for |
| FinanceAgreement.LateDiscountDips | src/finance/student-fees.service.ts:214-239 | From the empty school, any bill paid in full and then discounted makes its statement close below zero by the whole discount |
| AmountInWords.IntegerToWords | src/finance/amount-in-words.ts:61-82 | The loop over groups of three digits prints the words of the number |
| AmountInWords.WordsBelowThousand | src/finance/amount-in-words.ts:46-59 | Below a hundred tens and units are hyphenated, and hundreds are followed by "and" exactly when there is more |
| AmountInWords.WordsByScale | src/finance/amount-in-words.ts:61-82 | The words of a number are those of its highest group and its scale, then those of the rest, led by "and" exactly when the rest is below a hundred |
| AmountInWords.AmountReads | src/finance/amount-in-words.ts:84-94 | The sentence begins with a capital and is otherwise the naira, then the kobo when there are any |
| AmountInWords.WordsReadBackIff | src/finance/amount-in-words.ts:46-82 | Reading the words back, ignoring `and`, gives the number exactly when it is below 10^15 |
| AmountInWords.FirstCollision | src/finance/amount-in-words.ts:61-82 | At 10^15 the words are those of one |
| AmountInWords.EveryLaterCollides | src/finance/amount-in-words.ts:61-82 | Every number from 10^15 on shares its words with another |
| AmountInWords.WordsApartIff | src/finance/amount-in-words.ts:46-82 | Words tell all numbers below a bound apart exactly when the bound is at most 10^15 |
| AmountInWords.AmountReadsBackIff | src/finance/amount-in-words.ts:84-94 | The sentence on a receipt reads back as its exact kobo amount exactly when the naira are below 10^15 |
| AmountInWords.WordsDetermineAmount | src/finance/amount-in-words.ts:84-94 | No two amounts in that range share their words |
| Grading.ValidateGradeBands | src/results/grading.ts:55-98 | No problem is reported exactly when labels are distinct and the bands partition the whole marks 0 to 100 |
| Grading.ChainIffPartition | src/results/grading.ts:71-98 | Sorted bands that start at 0, touch and end at 100 are exactly a partition of the whole marks |
| Grading.EveryTotalGraded | src/results/grading.ts:100-109 | On a valid scale every total from 0 to 100 has exactly one band and it is the one found |
| Grading.GradesClashExactly | src/results/grading.ts:58-66 | Two grades count as the same exactly when, without the space around them, they differ in case at most |
| Grading.GradeIgnoresOrder | src/results/grading.ts:100-109 | The grade does not depend on the order of the bands |
| Ranking.CompetitionRank | src/results/ranking.ts:11-33 | The walk over the sorted copy gives every item one more than the number of strictly greater values |
| Ranking.PlacesOrderLikeValues | src/results/ranking.ts:11-33 | Two places are equal exactly for equal values and better exactly for greater ones |
| ComputeResults.ComputeAll | src/results/compute-results.ts:110-236 | The maps and loops compute the outcome that `ResultMeaning.ComputeSays` reads field by field |
| ResultMeaning.ComputeSays | src/results/compute-results.ts:110-236 | Over the fields of the outcome and the raw rows: a line for every compulsory subject and every elective with a score, in order; its parts the last scores of its cells and its total their sum; the grade the first band that holds the whole marks; a student's total the sum of the lines and the average that over their number, rounded half up; places one more than the students strictly ahead; statistics those of a subject's lines, and missing what is blank on a line |
| ResultMeaning.RoundsHalfUp | src/results/compute-results.ts:177-182 | Rounding gives the nearest whole hundredth, a half going away from zero |
| ResultLaws.MissingExactly | src/results/compute-results.ts:129-171 | A component is listed missing for a student exactly when the subject is taken and that score is absent |
| ResultLaws.AverageBetween | src/results/compute-results.ts:203-228 | A subject's rounded average lies between its lowest and highest total |
| ResultLaws.StatsDefinedForTaken | src/results/compute-results.ts:203-228 | Every subject somebody takes has a statistics row, of its own totals |
| ResultLaws.PlacesCountStudents | src/results/compute-results.ts:196-211 | A student's positions, in class and in a subject, are one plus the number of students strictly better |
| ResultLaws.ResultsIgnoreOrder | src/results/compute-results.ts:110-236 | Permuting students, scores with distinct cells, or the bands of a valid scale changes no student's line, no subject's statistics, no score listed missing and not the number ranked |
| ResultRows.SubjectsDetermined | src/results/result-sheets.service.ts:450-477 | Two sets of subject rows that are both the snapshot of one input are the same rows |
| ResultRows.StatLookup | src/results/result-sheets.service.ts:450-455 | The statistics looked up for a subject row are always defined and are that subject's own |
| ResultRows.SnapshotStore.UpsertStudents | src/results/result-sheets.service.ts:423-448 | The upsert loop leaves exactly one row per rostered student, numbers replaced and comments kept |
| ResultRows.SnapshotStore.Recompute | src/results/result-sheets.service.ts:406-485 | Deleting, upserting and inserting in place leaves exactly the rows of the pure computation, with the comments of every student still on the roster |
| SnapshotMeaning.SnapshotSays | src/results/result-sheets.service.ts:406-485 | The stored rows are the computed lines, each figure of each once, with the class's highest, lowest and average of the subject and the comments there were |
| SnapshotMeaning.ReadsExactly | src/results/result-sheets.service.ts:487-539 | The scores a computation reads are those of the class's students in the subjects offered |
| SnapshotMeaning.CellsRead | src/results/result-sheets.service.ts:510-523 | Every cell of the class reads as it is stored |
| ScoreEntries.ValidateEntries | src/results/scores.service.ts:217-271 | Lists exactly the bad cells, and none exactly when every cell is in the class, in the scheme, in range and named once |
| ScoreEntries.AcceptedExactly | src/results/scores.service.ts:217-271 | A batch is accepted exactly when everybody is in the class, every component in the scheme, every score from nought to its maximum, and no cell named twice |
| ScoreEntries.BatchHolds | src/results/scores.service.ts:145-174 | A saved batch holds every cell it named, cleared ones included, and leaves every other cell as it was |
| ScoreEntries.SavedKeeps | src/results/scores.service.ts:145-174 | A valid batch keeps one row per cell and every score within its component's maximum |
| SheetRules.PerformKeepsSound | src/results/result-sheets.service.ts:91-209 | No operation breaks it: a sheet out of draft mirrors the scores, has students and lacks nothing |
| SheetRules.PerformFreezes | src/results/result-sheets.service.ts:572-600 | No single operation but a return changes a submitted sheet, except to advance it and write the comments still open |
| SheetRules.FrozenUntilReturned | src/results/result-sheets.service.ts:211-270 | Along any sequence without a return, a submitted sheet's scores, numbers and subject rows stay, the status only advances, and each kind of comment is fixed from its own status |
| SheetRules.CommentsSurvive | src/results/result-sheets.service.ts:402-448 | Along any sequence without a comment operation every comment is kept, whatever is recomputed, submitted or returned |
| SheetProtocol.EveryRunIsSerial | src/results/result-sheets.service.ts:572-600 | Every interleaving, with crashes, leaves what its committed operations leave one at a time, in commit order |
| SheetProtocol.EverySubmittedSheetMirrorsItsScores | src/results/result-sheets.service.ts:91-209 | In every interleaving a sheet that is not a draft holds exactly the rows of the computation on the committed scores, for at least one student, none lacking a score |
| SheetProtocol.FreshMeansCurrent | src/results/result-sheets.service.ts:643-647 | A computed sheet not flagged stale mirrors the committed scores |
| SheetProtocol.NothingMovesUntilReturned | src/results/result-sheets.service.ts:175-270 | Between any two moments of any interleaving with no return committed, nothing submitted moves |
| SheetProtocol.OnlyCommentsChangeComments | src/results/result-sheets.service.ts:402-448 | Between any two moments of any interleaving with no comment committed, every comment is kept |
| SheetStore.SheetTables.ReadInputs | src/results/result-sheets.service.ts:487-539 | Reads the scores of the roster in the subjects offered, and no other |
| SheetStore.SheetTables.RecomputeSheet | src/results/result-sheets.service.ts:97-135 | Recomputes in place, refuses without a scheme or scale, and refuses to submit an empty or incomplete class |
| SheetStore.SheetTables.WriteComment | src/results/result-sheets.service.ts:211-270 | Writes the fields given and no other, and refuses a student without a computed row |
| SheetStore.SheetTables.SaveCells | src/results/scores.service.ts:145-174 | Null clears a cell, any other score replaces it, entry by entry |
| SheetStore.SheetTables.Commit | src/results/scores.service.ts:141-184 | The saved cells and the sheet become visible together and the lock is given up |
| SheetStore.SheetTables.Operate | src/results/result-sheets.service.ts:572-600 | One request of any kind, run from its checks to its commit with nobody else holding the sheet, is the operation of the rules: the same refusals, and otherwise the same scores and sheet |
| SheetStore.SheetTables.SubmitSheet | src/results/result-sheets.service.ts:91-139 | Submitting succeeds exactly for a draft of a class with students, a scheme, a scale and no score missing; the sheet is then SUBMITTED, mirrors the scores and keeps its comments, and a refusal changes nothing |
| SheetStore.SheetTables.ApproveSheet | src/results/result-sheets.service.ts:141-149 | Succeeds exactly for a submitted sheet, which becomes APPROVED and is otherwise as it was |
| SheetStore.SheetTables.PublishSheet | src/results/result-sheets.service.ts:152-173 | Succeeds exactly for an approved sheet, which becomes PUBLISHED and is otherwise as it was |
| SheetStore.SheetTables.ReturnSheet | src/results/result-sheets.service.ts:180-209 | Succeeds exactly for a sheet that is not a draft, a published one included, which becomes DRAFT with the rows, comments and scores it had |
| SheetStore.SheetTables.CommentOn | src/results/result-sheets.service.ts:211-270 | Stores the comments given in that student's row and changes nothing else; refused without a row, the form teacher's once approved and the principal's once published |
| SheetStore.SheetTables.SaveScores | src/results/scores.service.ts:130-187 | Into a draft or a new sheet an accepted batch puts each score in its cell, leaves every other cell, and marks the sheet changed |
| SheetStore.SheetTables.ComputeSheet | src/results/result-sheets.service.ts:60-89 | A draft or a new sheet gets the rows of its scores and keeps its comments, given a scheme and a scale |
| Assessment.ValidateScheme | src/results/grading.ts:116-147 | No problem exactly when there are components, named apart, of whole marks, adding up to 100 |
| Assessment.NamesClashExactly | src/results/grading.ts:124-130 | Two component names count as the same exactly when, without the space around them, they differ in case at most |
| Assessment.RenamePass | src/results/assessment.service.ts:83-98 | One pass of updates keeps the unique index after every write exactly when no row's new name is one a later row still has |
| Assessment.RenameAll | src/results/assessment.service.ts:83-98 | Parking and renaming trips the unique index at no write exactly when no row's placeholder is a later row's name and no row is renamed to a later row's placeholder, and then leaves the names asked for |
| Assessment.EveryRunIsSound | src/results/assessment.service.ts:49-185 | Over any run the components are distinct and add up to 100, the scale is valid, and every stored score is within a current component |
| Assessment.SaveExactly | src/results/scores.service.ts:130-187 | Scores are saved against a scheme exactly when the batch is acceptable, cell by cell, and leave scheme and scale alone |
| Assessment.EveryResultIsGraded | src/results/compute-results.ts:136-171 | After any run every computed subject total is between 0 and 100 and, once a scale is set, has a grade |
| Assessment.DefaultSchemeIsValid | src/results/grading.ts:43-48 | The default components pass the validator |
| Assessment.WaecIsValid | src/results/grading.ts:18-40 | The WAEC scale passes the validator |
| AssessmentStore.AssessmentTables.SetScheme | src/results/assessment.service.ts:54-113 | The scheme gets the names and maxima asked for, with new components while nothing is scored and the same ones afterwards; refused exactly when it is not valid or, once there are scores, when a maximum or the number of components changes or a name trips the index |
| AssessmentStore.AssessmentTables.SetGrading | src/results/assessment.service.ts:136-156 | The scale becomes the one given exactly when that is valid |
| AssessmentStore.AssessmentTables.SetupDefaults | src/results/assessment.service.ts:158-185 | A missing scheme becomes the default one and a missing scale the WAEC one; what is there stays, and so do the scores |
| RoleSlugs.BaseIsASlug | src/tenants/roles.service.ts:352-359 | The base is one to forty capitals, digits and underscores and does not start with an underscore |
| RoleSlugs.BaseIsTheWords | src/tenants/roles.service.ts:352-359 | The base is the words of the name, its runs of capitals and digits, joined by single underscores and cut at forty, or ROLE for a name without any |
| RoleSlugs.UniqueSlug | src/tenants/roles.service.ts:352-372 | The loop ends, with the first candidate that is free, which is never a system slug |
| RoleSlugs.SlugExactly | src/tenants/roles.service.ts:360-371 | A role gets the base itself when nobody has it, the base marked as custom when it is a system slug, and otherwise the base with the least number from 2 up that nobody has |
| RoleSlugs.CandidateIsNotReserved | src/tenants/roles.service.ts:361-371 | No candidate, plain, CUSTOM or numbered, is a system slug |
| RoleSlugs.CandidatesDiffer | src/tenants/roles.service.ts:364-371 | No two candidates of one base are equal |
| RoleSlugs.TriesAreBounded | src/tenants/roles.service.ts:364-371 | No more candidates can be taken than there are slugs |
| AccessRules.NoPermissionAppears | src/tenants/roles.service.ts:34-40 | No run brings a permission into use that no membership of any status carried at the start, except portal access, which only the standard Parent role ever carries |
| AccessRules.AlwaysRecoverable | src/users/users.service.ts:420-442 | Every run keeps an active proprietor, leaves the proprietor role's permissions alone, and makes no second role with its slug |
| AccessRules.PerformKeepsSomeone | src/users/users.service.ts:316-397 | After every suspension, revocation, role change, move or invitation somebody is still an active proprietor |
| AccessProtocol.WrittenAtOnceIsTheRule | src/users/users.service.ts:316-397 | The checks of a request, split at its counts of proprietors, are those of the rule, and its statement written at once leaves what the rule leaves |
| AccessProtocol.InvitationExactly | src/users/users.service.ts:225-298 | An invitation retires the former ones of the membership and adds one; using one takes it away and makes the membership active |
| AccessProtocol.LapseExactly | src/users/users.service.ts:237-242 | An invitation whose time is up is gone, and nothing else changes |
| AccessProtocol.RevokedStaysOutIff | src/users/users.service.ts:255-303 | Through every interleaving that passes no check to invite or change the member, a revoked member stays revoked exactly when no invitation is live and no request past its checks has still to let the member back |
| ProprietorRace.SomebodyElseWasThere | src/users/users.service.ts:420-442 | Whatever write takes a proprietor away, somebody else was an active proprietor when its request last read |
| ProprietorRace.RecoverableThroughoutIff | src/users/users.service.ts:316-442 | With reads, counts and writes of suspensions, revocations, role changes, moves and invitations apart, a school has an active proprietor at every moment exactly when no write takes one after other writes have taken, since its last read, everybody else who was one then, with no newcomer left |
| ProprietorRace.ApartIsRecoverable | src/users/users.service.ts:316-442 | As long as no proprietor is taken between the last read and the write of a request that takes one, the school keeps a proprietor whatever else interleaves |
| ProprietorRace.TwoRemovalsRace | src/users/users.service.ts:420-433 | Any two of a suspension, a revocation and a role change, of the only two proprietors and each allowed by itself, leave none when both count before either writes |
| AccessStore.AccessTables.CountProprietors | src/users/users.service.ts:427-429 | Counts the active holders of the proprietor's slug |
| AccessStore.AccessTables.CreateRole | src/tenants/roles.service.ts:66-94 | The new role carries, of the keys listed or of the role copied, what the permission table has, under a slug no role had, and every other role stays; refused exactly when the role to copy is not there or something asked for is unknown, portal access, or not held by the caller |
| AccessMeaning.CopyIsWhole | src/tenants/roles.service.ts:67-73 | A copy of a role as the tables keep them has all of its permissions |
| AccessStore.AccessTables.SetPermissions | src/tenants/roles.service.ts:121-153 | Succeeds exactly for a role other than the proprietor's when everything asked for is the caller's to give; the role then has what was asked for and the table has, all other roles stay, and no permission comes into use that nobody had |
| AccessStore.AccessTables.Reassign | src/tenants/roles.service.ts:175-218 | Everybody in a role goes to another and nobody else moves, exactly when both are there and differ, the caller is not among them, the other is the caller's to give, and the first is not the proprietor's |
| AccessStore.AccessTables.MoveMembers | src/tenants/roles.service.ts:209-212 | Every member of the one role, and nobody else, is in the other |
| AccessStore.AccessTables.Update | src/users/users.service.ts:316-381 | The membership gets the role and status given and keeps what is not; nobody else's changes |
| AccessMeaning.UpdateExactly | src/users/users.service.ts:316-356 | A change is allowed exactly when a different role is there, is for somebody else and is the caller's to give, and neither it nor a suspension is of the only active proprietor |
| AccessStore.AccessTables.Revoke | src/users/users.service.ts:383-397 | Any membership but that of the only active proprietor becomes REVOKED, and nothing else changes |
| AccessMeaning.InviteExactly | src/users/users.service.ts:143-223 | An invitation to a role the caller may give makes a new INVITED membership for a user without one, or the same membership again for one who was invited or revoked; refused exactly when the role is not the caller's to give or the user is active or suspended |
| AccessMeaning.RemoveExactly | src/tenants/roles.service.ts:155-172 | A role of the school's own that nobody has is removed, and nothing else changes |
| AccessMeaning.StatusExactly | src/portal/portal-access.service.ts:187-213 | Accepting makes a membership active, and revoking a parent touches only a Parent membership, whose status alone changes |
| MembershipCache.FindableIff | src/auth/membership-cache.service.ts:58-88 | In any timed run with failures every live snapshot of a role or user is listed under it, by an index that expires no earlier, exactly when none stored in the gap of one of its invalidations has survived |
| MembershipCache.DropClearsIff | src/auth/membership-cache.service.ts:150-167 | After an invalidation has deleted, nothing it was meant to remove is live exactly when nothing stored between the read and the deletion of an invalidation of that role or user, and unseen by the read, has survived |
| MembershipCache.DropClearsOwnGapIff | src/auth/membership-cache.service.ts:150-167 | When the read could find every live snapshot, the deletion leaves none, and all that is live findable, exactly when nothing unseen by the read was stored between the two calls and is still live |
| MembershipCache.RedisReturnsNoMore | src/auth/membership-cache.service.ts:41-88 | Over any timed run in which no write is lost, what Redis returns the Map returns too, unless it was stored in the gap of an invalidation, and then the Map has nothing |
| MembershipCache.InvalidatedIsGone | src/auth/membership-cache.service.ts:90-123 | After an invalidation, and until an affected snapshot is set again, the Map returns none and Redis returns one exactly when it was stored in the gap of an invalidation of that role or user |
| MembershipCache.StaleForThirtySecondsAtMost | src/auth/membership-cache.service.ts:17-20 | However many calls fail, whatever Redis returns was stored less than thirty seconds before |
| MembershipCache.StoredInTheGapIsMissed | src/auth/membership-cache.service.ts:163-167 | A snapshot stored between the two calls is still returned by Redis, and not by the Map, after a second, undisturbed invalidation of its role |
| MembershipStore.LocalCache.Get | src/auth/membership-cache.service.ts:176-181 | Returns the snapshot while it is live and drops it once it is not, touching no other |
| MembershipStore.LocalCache.InvalidateMatching | src/auth/membership-cache.service.ts:155-161 | The scan deletes exactly the snapshots of the role or of the user |
| MembershipStore.RedisCache.Put | src/auth/membership-cache.service.ts:58-88 | For thirty seconds the snapshot is what its membership reads, both its indexes list it at least as long, and no other snapshot changes or leaves a list |
| MembershipStore.RedisCache.InvalidateIndexed | src/auth/membership-cache.service.ts:150-167 | With nothing between its two calls, whatever is live and listed under the role or user is gone, and nothing off its list is |
| TenantGuard.Handle | src/database/tenant-guard.extension.ts:103-183 | The handler's step-by-step rewriting is the guard that the next rows describe |
| TenantGuard.FilterIsKept | src/database/tenant-guard.extension.ts:55-66 | A filtered operation finds exactly the tenant's rows that satisfy the caller's own filter |
| TenantGuard.UniqueIsKept | src/database/tenant-guard.extension.ts:45-51 | A unique lookup finds exactly the tenant's rows that satisfy its where, the tenant only taking the place of another one it names |
| TenantGuard.RecordsAreKept | src/database/tenant-guard.extension.ts:87-101 | Created records are written as given with the tenant put in, and every other record as given |
| TenantGuard.RefusedExactly | src/database/tenant-guard.extension.ts:72-101 | A request is refused exactly without a tenant or when data it writes names another; system scope passes it unchanged |
| TenantGuard.ReadsExactly | src/database/tenant-guard.extension.ts:133-138 | Under a tenant a read answers exactly the tenant's rows that the caller's own filter asks for |
| TenantGuard.DeletesExactly | src/database/tenant-guard.extension.ts:55-66 | Under a tenant a deletion removes exactly the tenant's rows that the caller's own filter asks for |
| TenantGuard.ChangesExactly | src/database/tenant-guard.extension.ts:166-177 | Under a tenant a change of many rows changes exactly those rows, in exactly the columns given |
| TenantGuard.CreatesExactly | src/database/tenant-guard.extension.ts:140-147 | Under a tenant a record becomes a row of that tenant with the columns given, under an id nobody has |
| TenantGuard.GuardedFinds | src/database/tenant-guard.extension.ts:30-65 | What a guarded read or change matches depends on the tenant's rows only, in the table of the schools too |
| TenantGuard.OthersUntouched | src/database/tenant-guard.extension.ts:8-28 | Over any requests of the listed operations every other tenant's rows are as they were |
| TenantGuard.NoInterference | src/database/tenant-guard.extension.ts:8-28 | Two databases that agree on a tenant's rows keep agreeing on them and answer alike over any requests of the listed operations |
| TenantGuard.SchoolIdsAreFresh | src/database/tenant-models.ts:11-20 | In the table of the schools, scoped by its id, a guarded request can ask for no id but the tenant's own, so the other results need no free ids there |
| TenantGuard.ConfinedIffListed | src/database/tenant-guard.extension.ts:30-54 | An operation is confined on every table for every request exactly when the guard lists it |
| FileStorage.EveryRowHasItsBytes | src/files/files.service.ts:93-130 | At every step of every interleaving, crashes and failed calls included, each file row has its bytes |
| FileStorage.QuotaIsNeverOverrun | src/files/files.service.ts:99-107 | A school's stored total never exceeds the highest limit it has had |
| FileStorage.WithinTheLimit | src/files/files.service.ts:304-340 | While the limit is never lowered the stored total is within it |
| FileStorage.InsertKeeps | src/database/row-lock.ts:96-109 | Under the school's advisory lock no other upload is approved, so an insert makes none of them wrong |
| FileStorage.DiscardKeeps | src/files/files.service.ts:342-350 | Bytes are only deleted for an id that has no row and that no upload is waiting on |
| FileStorage.EvidenceSurvivesIff | src/files/files.service.ts:198-302 | The evidence of a payment survives every continuation, row and bytes, exactly when no process comes to it: wherever it stands on a list already read, a file before it is gone and the loop will stop there |
| FileStorage.RemovalAlreadyDecidedWins | src/files/files.service.ts:203-214 | A removal that read the file before it became evidence deletes it after |
| FileReplacement.KeptIff | src/files/files.service.ts:198-258 | While nothing new is asked, a file that is not evidence is kept, row and bytes, through every way the requests under way go on, exactly when none has it on a list it will come to and none is yet to read a list it is on |
| FileReplacement.ReplacementsDeleteEachOther | src/files/files.service.ts:216-241 | From the empty store, two replacements of one link that both look for what they displace after both have uploaded leave nothing linked |
| FileStore.FileTables.CheckQuota | src/files/files.service.ts:323-340 | Sums the committed rows under the lock and approves or undoes |
| FileStore.TotalIsTheSum | src/files/files.service.ts:323-340 | The bytes counted against a school are those of its files, each once |
| FileStore.FileTables.FindPrevious | src/files/files.service.ts:220-241 | Collects what the new file displaces, never itself |
| FileStore.FileTables.UploadFile | src/files/files.service.ts:70-130 | Whatever calls fail, a file within the quota is added with its bytes under an id never used, or no row is and the bytes are gone if they could be deleted |
| FileStore.FileTables.ReplaceFile | src/files/files.service.ts:216-241 | After a replacement the new file is the only one linked in its place, every other file is as it was, and displaced bytes are gone where the store deleted them; a refused one changes no row |
| FileStore.FileTables.RemoveFile | src/files/files.service.ts:203-214 | Run by itself, a file on record goes, row and bytes, exactly when it is no payment's evidence, and nothing else changes |
| FileStore.FileTables.ClearLinked | src/files/files.service.ts:244-255 | Run by itself, exactly the files linked in the place go, and their number is returned |
| Enrolment.EveryRunIsSeated | src/academics/class-arms.service.ts:142-173 | Over any run of admissions, moves, reactivations, promotions, capacity changes and imports no arm's active roll exceeds its capacity and no number is given twice |
| EnrolmentMeaning.AdmitExactly | src/students/students.service.ts:66-111 | An admission under the number supplied or generated is made exactly when nobody has the number and the arm named, if any, has a seat; one active student is added |
| EnrolmentMeaning.MoveExactly | src/students/students.service.ts:163-208 | A move writes the arm alone, and asks for a seat exactly in an arm other than the student's own |
| EnrolmentMeaning.StatusExactly | src/students/students.service.ts:210-239 | A change writes the status alone, is refused when there is none, and a return to ACTIVE asks for a seat in the arm pointed at |
| EnrolmentMeaning.PromoteExactly | src/students/students.service.ts:354-423 | Exactly the active students in the arm, or those named if all of them are, go to the other arm when it has seats for all, or leave the roll as GRADUATED |
| EnrolmentMeaning.ArmExactly | src/academics/class-arms.service.ts:88-140 | A capacity is set exactly at or above the roll, and an arm is removed exactly when nobody active is in it, whoever else points at it then pointing nowhere |
| EnrolmentMeaning.AdmitManyExactly | src/students/student-import.service.ts:867-902 | A file is admitted whole exactly when its numbers are apart and nobody's and every arm has seats for all of its rows |
| EnrolmentMeaning.GeneratedExactly | src/students/admission-number.ts:13-20 | A generated number is its year and the next sequence, four digits wide at least, led by the prefix if there is one |
| CapacityRace.AtOnceIsTheRule | src/students/students.service.ts:163-239 | Read, counted and written with nothing in between, every request is refused or does what the operation of the rules does |
| CapacityRace.SeatedThroughoutIff | src/academics/class-arms.service.ts:142-173 | With unlocked reads, counts under the arms' locks and commits apart, everybody is seated at every moment exactly when no write comes after more arrivals since the roll was read than were to spare: a capacity below them, an asked seat too many, or an unasked one in a full arm |
| CapacityRace.HeldGainsAreUnasked | src/academics/class-arms.service.ts:142-173 | Between a count under an arm's lock and the commit nobody joins that arm but on a seat nobody asked for |
| CapacityRace.UnaskedIsStale | src/students/students.service.ts:163-239 | Only a move or a return takes an unasked seat, one seat, and only for a student whose arm was written since the request looked |
| CapacityRace.UndisturbedIsSeated | src/academics/class-arms.service.ts:88-173 | When nobody takes an unasked seat and nobody arrives between a capacity change's look and its write, everybody is seated throughout |
| CapacityRace.MoveOvertakenCrowds | src/students/students.service.ts:163-208 | From any full arm, a move naming the arm its student is in, overtaken by a move out and an admission, leaves one too many with no capacity written |
| CapacityRace.ReturnOvertakenCrowds | src/students/students.service.ts:210-239 | A return to the roll, overtaken by a move to another arm whose last seat is then filled, asks for room in the arm it read and overfills the other |
| CapacityRace.AdmissionBetweenCrowds | src/academics/class-arms.service.ts:88-113 | In any arm with a seat free, an admission between the check and the write of a capacity at the roll leaves the arm over it |
| Enrolment.RollOfAdvanced | src/students/students.service.ts:399-414 | A promotion takes exactly the movers off one roll and puts them on the other |
| Enrolment.GeneratedIsFree | src/students/students.service.ts:452-506 | A number generated under an empty prefix, or one that begins with the year, is on no student |
| Enrolment.NextNumberIsFreeIff | src/students/students.service.ts:464-478 | After a generated admission the next generated number is free exactly when the first can be found again by its year |
| EnrolmentStore.EnrolmentTables.RoomFor | src/academics/class-arms.service.ts:142-173 | Counts the roll and compares it with the capacity, if there is one |
| EnrolmentStore.EnrolmentTables.Admit | src/students/students.service.ts:66-111 | Admits under a supplied or generated number that is free, if there is room |
| EnrolmentStore.EnrolmentTables.Move | src/students/students.service.ts:163-208 | Asks for room only for a move into another arm |
| EnrolmentStore.EnrolmentTables.ChangeStatus | src/students/students.service.ts:210-239 | Returning to the roll has to fit in the arm still pointed at |
| EnrolmentStore.EnrolmentTables.Promote | src/students/students.service.ts:354-423 | Moves or graduates exactly the active students named, all of whom must be in the arm |
| EnrolmentStore.EnrolmentTables.SetCapacity | src/academics/class-arms.service.ts:88-113 | A capacity is never set below the roll |
| StudentImport.ResolveGuardians | src/students/student-import.service.ts:664-811 | The loop gives each row the parent that the next row describes |
| StudentImport.RefExactly | src/students/student-import.service.ts:716-806 | A row's parent is one on file exactly when linking is allowed and that is who has the phone, or the email with nobody having the phone, and no other parent has the email; a row is refused exactly when two parents have them, when linking or creating is needed and not allowed, or when an earlier new parent of another phone has its email |
| StudentImport.CheckCapacity | src/students/student-import.service.ts:813-832 | An otherwise valid row is refused exactly when the roll and the earlier otherwise valid rows fill its arm |
| ImportMeaning.ValidExactly | src/students/student-import.service.ts:813-832 | A row is valid exactly when no check refused it, its parent can be had, and the active students of its arm with the earlier such rows leave a seat |
| ImportMeaning.WrittenExactly | src/students/student-import.service.ts:275-282 | An ATOMIC import writes every row or none, a PARTIAL one the valid rows, in file order |
| StudentImport.RecountPasses | src/students/student-import.service.ts:873-900 | The seats handed out in file order always pass the recount under the locks when the arms have not changed |
| StudentImport.PendingHolds | src/students/student-import.service.ts:669-811 | Every parent set aside for creation is filed under its own canonical phone, unmatched on file, with an email nobody else has |
| StudentImport.AllOrNone | src/students/student-import.service.ts:275-282 | An ATOMIC import writes every row in order, exactly when all are valid, or none |
| StudentImport.WritesTheValid | src/students/student-import.service.ts:275-282 | A PARTIAL import writes exactly the valid rows |
| StudentImport.AllocateNumbers | src/students/student-import.service.ts:1004-1041 | One read per year and a counter per year give each row its number |
| ImportMeaning.NumberedExactly | src/students/student-import.service.ts:1004-1041 | A row gets the number supplied, or one that reads as its year and as the next sequence past those on file and those generated for earlier rows |
| ImportMeaning.NextExactly | src/students/admission-number.ts:27-41 | The next sequence is one past the highest among the numbers that begin with the year, or one |
| StudentImport.GeneratedDiffer | src/students/student-import.service.ts:1005-1041 | No two rows are given the same generated number |
| StudentImport.GeneratedIsNew | src/students/student-import.service.ts:1004-1041 | No generated number is one of those read for its year |
| StudentImport.WriteRows | src/students/student-import.service.ts:867-1002 | The loops produce each row's number and arm, one created parent per key needed, and each row's link |
| ImportMeaning.LinkedExactly | src/students/student-import.service.ts:904-984 | A written row keeps its arm and is linked to its parent on file, to the one created for it, or to none when it has none |
| ImportMeaning.CreatedExactly | src/students/student-import.service.ts:769-806 | Each parent created is the one the first row to bring it gave |
| StudentImport.CreatedAreDistinct | src/students/student-import.service.ts:769-808 | No two created parents share a canonical phone or an email, and none has the phone of a parent found on file |
| StudentImport.CreatedAreLinked | src/students/student-import.service.ts:904-984 | Every created parent is linked to a student who was written |
| StudentImport.WrittenAreLinked | src/students/student-import.service.ts:904-984 | Every written student with a new parent is linked to the one with that parent's canonical phone |
| StudentImport.Execute | src/students/student-import.service.ts:258-339 | An import is one admission of the chosen rows together, and only a clash of numbers can still refuse it |

## Left out

- Finance runs are for one school; invoices carry no line items, due dates or notes except where the statement and the debtor report read them, and the items of a bill are only its total.
- The Paystack checkout and webhooks, except the unlocked deletion of an abandoned pending payment.
- Amounts are exact integers: conversion of JavaScript numbers to decimals and amounts past 2^53 are not modelled.
- Placeholder receipts of pending payments are taken to be unique and to hold no slash.
- The years in receipt and admission numbers are four digits where a theorem says so; other years print numbers the pattern never reads (`NumberSequence.OffPatternYear`).
- ReceiptOrder.ReceiptsAreConsecutive: the prefix changes only while no verification holds a number it can still commit and none stands on an overtaken count that the new prefix leaves free; without that it is false, as `PrefixChange` shows.
- InvoiceStore.FinanceStore.VerifyPayment: like the other whole requests of the stores it runs with nobody else inside a transaction; what interleaving changes is the subject of the protocols.
- SheetProtocol.EverySubmittedSheetMirrorsItsScores: the active roster, the subjects offered, the scheme and the scale are held fixed for the run; a change of any of them leaves a submitted snapshot as it was.
- SheetProtocol.FreshMeansCurrent: the stale flag is modelled as whether scores have changed since the computation, so two writes at one clock instant are not told apart.
- Only one class arm and one term: scores entered for a student from another arm's sheet are not modelled.
- AccessRules.NoPermissionAppears: operations run one at a time and the caller's permissions are read fresh, so the thirty seconds of a cached snapshot are not in it.
- AccessRules.AlwaysRecoverable: check and write are one step; `ProprietorRace` takes them apart.
- AccessProtocol.RevokedStaysOutIff: a request's reads before its counts are one step, and so are creating, changing and removing roles.
- Role and arm names and their uniqueness checks, and the upper-casing of a role's name beyond being given upper-cased.
- MembershipCache.RedisReturnsNoMore: needs every set and invalidation to reach Redis; what a lost one costs is bounded by `MembershipCache.StaleForThirtySecondsAtMost`. The Map's own invalidation, one synchronous scan, stands where Redis deletes.
- Whether a cache entry is alive at the very millisecond it expires, a full clear as several calls along a scan cursor (it is taken as one), and the JSON form of a snapshot.
- TenantGuard.NoInterference: outside the table of the schools, ids a request gives to rows are free of other tenants' rows, so that a unique-key clash cannot tell; nested writes, unique keys other than the id and raw SQL are not modelled.
- File type checks, names, checksums and download; a commit whose outcome is unknown to the caller.
- Enrolment.EveryRunIsSeated: operations run one at a time; `CapacityRace` takes reads, counts and commits apart.
- CapacityRace.SeatedThroughoutIff: a request's unlocked reads are one step, and so are a lock and the count under it; that a foreign key check of an unasked move also waits for the lock is not modelled, which only adds runs.
- Deleting a student who has no records, which frees a seat and a number.
- CSV parsing, row normalisation, field checks and duplicate warnings of the import: a row says only whether an earlier check refused it. Phone canonicalisation is any function; emails are compared as already lower-cased.
- Deleting an arm that has scores, sheets or attendance is refused for more reasons than the roll.
- Notifications, audit records, display labels, pagination and token issue: they do not feed back into the state.
- StudentImport.RefExactly: parents on file have their own canonical phone and email; where two share one, the last one listed is taken.
- Case folding is ASCII.
